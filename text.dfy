/**
 * The string primitives the console's TypeScript code relies on, written out
 * over `seq<char>`: ASCII case mapping, the JavaScript `trim` white-space set,
 * `indexOf`/`includes`/`startsWith`, `substring` with its clamping and swapping,
 * single-character `split` and `join`, and the decimal digit runs that the
 * WHERE-clause regular expressions capture.
 */
module Text {

  // ---------------------------------------------------------------------------
  // Characters

  /** The characters JavaScript's `trim` removes and its `\s` class matches. */
  predicate IsWhitespace(c: char) {
    || c == ' ' || c == '\t' || c == '\n' || c == '\r' || c == '\U{B}' || c == '\U{C}'
    || c == '\U{A0}' || c == '\U{1680}' || ('\U{2000}' <= c <= '\U{200A}')
    || c == '\U{2028}' || c == '\U{2029}' || c == '\U{202F}' || c == '\U{205F}'
    || c == '\U{3000}' || c == '\U{FEFF}'
  }

  predicate IsDigit(c: char) {
    '0' <= c <= '9'
  }

  function LowerChar(c: char): char {
    if 'A' <= c <= 'Z' then (c as int + 32) as char else c
  }

  function UpperChar(c: char): char {
    if 'a' <= c <= 'z' then (c as int - 32) as char else c
  }

  /** `toLowerCase`, restricted to the ASCII letters. */
  function ToLower(s: string): (r: string)
    ensures |r| == |s|
    ensures forall i :: 0 <= i < |s| ==> r[i] == LowerChar(s[i])
  {
    seq(|s|, i requires 0 <= i < |s| => LowerChar(s[i]))
  }

  /** `toUpperCase`, restricted to the ASCII letters. */
  function ToUpper(s: string): (r: string)
    ensures |r| == |s|
    ensures forall i :: 0 <= i < |s| ==> r[i] == UpperChar(s[i])
  {
    seq(|s|, i requires 0 <= i < |s| => UpperChar(s[i]))
  }

  /** A lower-cased string holds no upper-case letter. */
  lemma LowerHasNoUpper(s: string)
    ensures forall i :: 0 <= i < |s| ==> !('A' <= ToLower(s)[i] <= 'Z')
  {
    forall i | 0 <= i < |s| ensures !('A' <= ToLower(s)[i] <= 'Z') {
      var c := s[i];
      assert ToLower(s)[i] == LowerChar(c);
    }
  }

  /** Trimming a lower-cased string leaves it free of upper-case letters. */
  lemma TrimLowerHasNoUpper(s: string)
    ensures forall i :: 0 <= i < |Trim(ToLower(s))| ==> !('A' <= Trim(ToLower(s))[i] <= 'Z')
  {
    var lower := ToLower(s);
    LowerHasNoUpper(s);
    var t := Trim(lower);
    var a, b :| 0 <= a <= b <= |lower| && t == lower[a..b];
    forall i | 0 <= i < |t| ensures !('A' <= t[i] <= 'Z') {
      assert t[i] == lower[a + i];
    }
  }

  /** Lower-casing twice changes nothing more than lower-casing once. */
  lemma ToLowerIdempotent(s: string)
    ensures ToLower(ToLower(s)) == ToLower(s)
  {
  }

  /** Lower-casing works character by character, so it distributes over concatenation. */
  lemma ToLowerAppend(a: string, b: string)
    ensures ToLower(a + b) == ToLower(a) + ToLower(b)
  {
  }

  // ---------------------------------------------------------------------------
  // trim

  /** The index of the first character of `s` that is not white space (|s| if none). */
  function TrimStartIndex(s: string): (k: nat)
    ensures k <= |s|
    ensures forall i :: 0 <= i < k ==> IsWhitespace(s[i])
    ensures k < |s| ==> !IsWhitespace(s[k])
  {
    if s == [] || !IsWhitespace(s[0]) then 0 else 1 + TrimStartIndex(s[1..])
  }

  /** One past the index of the last character of `s` that is not white space (0 if none). */
  function TrimEndIndex(s: string): (k: nat)
    ensures k <= |s|
    ensures forall i :: k <= i < |s| ==> IsWhitespace(s[i])
    ensures 0 < k ==> !IsWhitespace(s[k - 1])
  {
    if s == [] || !IsWhitespace(s[|s| - 1]) then |s| else TrimEndIndex(s[..|s| - 1])
  }

  /** `trim`: the longest slice of `s` that neither starts nor ends with white space. */
  function Trim(s: string): (r: string)
    ensures exists a, b :: 0 <= a <= b <= |s| && r == s[a..b]
    ensures r != [] ==> !IsWhitespace(r[0]) && !IsWhitespace(r[|r| - 1])
    ensures r == [] <==> forall i :: 0 <= i < |s| ==> IsWhitespace(s[i])
  {
    var a := TrimStartIndex(s);
    var rest := s[a..];
    var b := TrimEndIndex(rest);
    assert rest[..b] == s[a..a + b];
    assert b == 0 ==> a == |s|;
    rest[..b]
  }

  /** Trimming a string that has no white space at either end leaves it as it is. */
  lemma {:induction false} TrimOfTrimmed(s: string)
    requires s == [] || (!IsWhitespace(s[0]) && !IsWhitespace(s[|s| - 1]))
    ensures Trim(s) == s
  {
    assert TrimStartIndex(s) == 0;
    assert s[0..] == s;
    assert TrimEndIndex(s) == |s|;
  }

  /** Trimming keeps exactly the slice between the leading and the trailing white space. */
  lemma TrimSlice(s: string, a: nat, b: nat)
    requires a < b <= |s|
    requires forall i :: 0 <= i < a ==> IsWhitespace(s[i])
    requires forall i :: b <= i < |s| ==> IsWhitespace(s[i])
    requires !IsWhitespace(s[a]) && !IsWhitespace(s[b - 1])
    ensures Trim(s) == s[a..b]
  {
    var k := TrimStartIndex(s);
    assert k == a;
    var rest := s[a..];
    var m := TrimEndIndex(rest);
    assert !IsWhitespace(rest[b - a - 1]);
    assert m == b - a;
    assert rest[..m] == s[a..b];
  }

  // ---------------------------------------------------------------------------
  // indexOf, includes, startsWith

  /** `p` occurs in `s` starting at index `i`. */
  predicate OccursAt(s: string, p: string, i: int) {
    0 <= i && i + |p| <= |s| && s[i..i + |p|] == p
  }

  /** `s.indexOf(p, from)` for `from <= |s|`. */
  function IndexOfFrom(s: string, p: string, from: nat): (r: int)
    ensures r == -1 || (from <= r && OccursAt(s, p, r))
    ensures r == -1 ==> forall j :: from <= j ==> !OccursAt(s, p, j)
    ensures r >= 0 ==> forall j :: from <= j < r ==> !OccursAt(s, p, j)
    decreases |s| - from
  {
    if from + |p| > |s| then -1
    else if s[from..from + |p|] == p then from
    else IndexOfFrom(s, p, from + 1)
  }

  /** `s.indexOf(p)`: the first index at which `p` occurs in `s`, or -1. */
  function IndexOf(s: string, p: string): (r: int)
    ensures r == -1 || OccursAt(s, p, r)
    ensures r == -1 <==> forall j :: !OccursAt(s, p, j)
    ensures forall j :: 0 <= j < r ==> !OccursAt(s, p, j)
  {
    IndexOfFrom(s, p, 0)
  }

  /** `s.includes(p)`. */
  predicate Contains(s: string, p: string) {
    IndexOf(s, p) >= 0
  }

  /** `includes` holds exactly when `p` occurs somewhere in `s`. */
  lemma ContainsIffOccurs(s: string, p: string)
    ensures Contains(s, p) <==> exists j :: OccursAt(s, p, j)
  {
  }

  /** Every string contains itself and every one of its slices. */
  lemma ContainsSlice(s: string, a: nat, b: nat)
    requires a <= b <= |s|
    ensures Contains(s, s[a..b])
  {
    assert OccursAt(s, s[a..b], a);
  }

  /** A string that contains a pattern also contains every slice of that pattern. */
  lemma {:induction false} ContainsTransitive(s: string, p: string, q: string)
    requires Contains(s, p) && Contains(p, q)
    ensures Contains(s, q)
  {
    var i := IndexOf(s, p);
    var j := IndexOf(p, q);
    assert s[i..i + |p|] == p && p[j..j + |q|] == q;
    SliceOfSlice(s, i, i + |p|, j, j + |q|);
    assert OccursAt(s, q, i + j);
  }

  lemma SliceOfSlice(s: string, a: nat, b: nat, c: nat, d: nat)
    requires a <= b <= |s| && c <= d <= b - a
    ensures s[a..b][c..d] == s[a + c..a + d]
  {
    assert forall k :: 0 <= k < d - c ==> s[a..b][c..d][k] == s[a + c + k];
  }

  /** A string lacking some character of `p` does not contain `p`. */
  lemma MissingCharNotContained(s: string, p: string, k: nat)
    requires k < |p| && Free(s, p[k])
    ensures !Contains(s, p)
  {
    forall i | 0 <= i && i + |p| <= |s|
      ensures !OccursAt(s, p, i)
    {
      assert s[i..i + |p|][k] == s[i + k] != p[k];
    }
  }

  /** A string does not contain a longer one. */
  lemma LongerNotContained(s: string, p: string)
    requires |s| < |p|
    ensures !Contains(s, p)
  {
    assert IndexOfFrom(s, p, 0) == -1;
  }

  /** A concatenation lacks `c` exactly when both parts do. */
  lemma FreeConcat(a: string, b: string, c: char)
    ensures Free(a + b, c) <==> Free(a, c) && Free(b, c)
  {
    if Free(a + b, c) {
      forall j | 0 <= j < |a| ensures a[j] != c {
        assert (a + b)[j] == a[j];
      }
      forall j | 0 <= j < |b| ensures b[j] != c {
        assert (a + b)[|a| + j] == b[j];
      }
    }
  }

  /**
   * `p` occurs at `n` and, up to where an earlier occurrence would have put
   * its `k`-th character, `s` lacks that character: `indexOf` finds `n`.
   */
  lemma FirstOccurrence(s: string, p: string, k: nat, n: nat)
    requires k < |p| && OccursAt(s, p, n) && Free(s[..n + k], p[k])
    ensures IndexOf(s, p) == n
  {
    forall j | 0 <= j < n ensures !OccursAt(s, p, j) {
      assert s[..n + k][j + k] == s[j + k];
      if j + |p| <= |s| {
        assert s[j..j + |p|][k] == s[j + k];
      }
    }
  }

  /** `s.startsWith(p)`. */
  predicate StartsWith(s: string, p: string) {
    |p| <= |s| && s[..|p|] == p
  }

  // ---------------------------------------------------------------------------
  // substring

  function Clamp(i: int, n: nat): (r: nat)
    ensures r <= n
  {
    if i < 0 then 0 else if i > n then n else i
  }

  /**
   * `s.substring(a, b)`: both ends are clamped to [0, |s|] and swapped when
   * the first exceeds the second.
   */
  function Substring(s: string, a: int, b: int): (r: string)
    ensures var lo, hi := Clamp(a, |s|), Clamp(b, |s|);
            r == if lo <= hi then s[lo..hi] else s[hi..lo]
  {
    var lo, hi := Clamp(a, |s|), Clamp(b, |s|);
    if lo <= hi then s[lo..hi] else s[hi..lo]
  }

  // ---------------------------------------------------------------------------
  // split and join on one separator character

  /** The first index of `c` in `s`, or -1. */
  function FindChar(s: string, c: char): (r: int)
    ensures -1 <= r < |s|
    ensures r >= 0 ==> s[r] == c
    ensures forall j :: 0 <= j < |s| && (r < 0 || j < r) ==> s[j] != c
  {
    if s == [] then -1
    else if s[0] == c then 0
    else var k := FindChar(s[1..], c); if k < 0 then -1 else k + 1
  }

  /** `s.split(sep)` for a one-character separator: never empty, "" gives [""]. */
  function Split(s: string, sep: char): (r: seq<string>)
    ensures |r| >= 1
    decreases |s|
  {
    var k := FindChar(s, sep);
    if k < 0 then [s] else [s[..k]] + Split(s[k + 1..], sep)
  }

  /** `parts.join(sep)`; the empty list joins to "". */
  function Join(parts: seq<string>, sep: char): string {
    if parts == [] then ""
    else if |parts| == 1 then parts[0]
    else parts[0] + [sep] + Join(parts[1..], sep)
  }

  /** Joining the pieces of a split gives back the original string. */
  lemma {:induction false} JoinSplit(s: string, sep: char)
    ensures Join(Split(s, sep), sep) == s
    decreases |s|
  {
    var k := FindChar(s, sep);
    if k >= 0 {
      var head, tail := s[..k], s[k + 1..];
      JoinSplit(tail, sep);
      JoinCons(head, Split(tail, sep), sep);
      SplitAround(s, k);
    }
  }

  /** A string is the part before index `k`, the character at `k`, and the part after it. */
  lemma SplitAround(s: string, k: nat)
    requires k < |s|
    ensures s == s[..k] + [s[k]] + s[k + 1..]
  {
  }

  /** Joining a piece in front of a non-empty list puts one separator between them. */
  lemma JoinCons(a: string, r: seq<string>, sep: char)
    requires |r| >= 1
    ensures Join([a] + r, sep) == a + [sep] + Join(r, sep)
  {
    assert ([a] + r)[1..] == r;
  }

  /** `c` does not occur in `s`. */
  predicate Free(s: string, c: char) {
    forall j :: 0 <= j < |s| ==> s[j] != c
  }

  /** The first separator of `p + [sep] + t` is the one after `p` when `p` is free of it. */
  lemma {:induction false} FindCharAfterFree(p: string, t: string, sep: char)
    requires Free(p, sep)
    ensures FindChar(p + [sep] + t, sep) == |p|
    decreases |p|
  {
    if p != [] {
      assert (p + [sep] + t)[1..] == p[1..] + [sep] + t;
      FindCharAfterFree(p[1..], t, sep);
    }
  }

  /** Splitting a join of pieces that do not contain the separator gives back the pieces. */
  lemma {:induction false} SplitJoin(parts: seq<string>, sep: char)
    requires |parts| >= 1
    requires forall i :: 0 <= i < |parts| ==> Free(parts[i], sep)
    ensures Split(Join(parts, sep), sep) == parts
    decreases |parts|
  {
    if |parts| == 1 {
      assert Free(parts[0], sep);
    } else {
      var p, t := parts[0], Join(parts[1..], sep);
      var s := p + [sep] + t;
      assert Join(parts, sep) == s;
      FindCharAfterFree(p, t, sep);
      assert s[..|p|] == p;
      assert s[|p| + 1..] == t;
      SplitJoin(parts[1..], sep);
      assert parts == [p] + parts[1..];
    }
  }

  /** A join of pieces free of `c`, with a separator other than `c`, is free of `c`. */
  lemma {:induction false} JoinFree(parts: seq<string>, sep: char, c: char)
    requires sep != c
    requires forall i :: 0 <= i < |parts| ==> Free(parts[i], c)
    ensures Free(Join(parts, sep), c)
    decreases |parts|
  {
    if |parts| > 1 {
      JoinFree(parts[1..], sep, c);
      var t := Join(parts[1..], sep);
      var s := parts[0] + [sep] + t;
      forall j | 0 <= j < |s| ensures s[j] != c {
        if j < |parts[0]| {
          assert s[j] == parts[0][j];
        } else if j > |parts[0]| {
          assert s[j] == t[j - |parts[0]| - 1];
        }
      }
    } else if |parts| == 1 {
      assert Free(parts[0], c);
    }
  }

  /** The number of occurrences of `c` in `s`. */
  function CountChar(s: string, c: char): nat {
    if s == [] then 0 else (if s[0] == c then 1 else 0) + CountChar(s[1..], c)
  }

  lemma {:induction false} CountCharAppend(a: string, b: string, c: char)
    ensures CountChar(a + b, c) == CountChar(a, c) + CountChar(b, c)
    decreases |a|
  {
    if a == [] {
      assert a + b == b;
    } else {
      assert (a + b)[1..] == a[1..] + b;
      CountCharAppend(a[1..], b, c);
    }
  }

  lemma {:induction false} CountCharAbsent(s: string, c: char)
    requires Free(s, c)
    ensures CountChar(s, c) == 0
    decreases |s|
  {
    if s != [] {
      CountCharAbsent(s[1..], c);
    }
  }

  /** A join of `n` pieces free of the separator holds exactly `n - 1` separators. */
  lemma {:induction false} JoinSeparatorCount(parts: seq<string>, sep: char)
    requires |parts| >= 1
    requires forall i :: 0 <= i < |parts| ==> Free(parts[i], sep)
    ensures CountChar(Join(parts, sep), sep) == |parts| - 1
    decreases |parts|
  {
    CountCharAbsent(parts[0], sep);
    if |parts| > 1 {
      JoinSeparatorCount(parts[1..], sep);
      CountCharAppend(parts[0] + [sep], Join(parts[1..], sep), sep);
      CountCharAppend(parts[0], [sep], sep);
      assert CountChar([sep], sep) == 1 by {
        assert [sep][1..] == [];
      }
    }
  }

  // ---------------------------------------------------------------------------
  // Truncation for display

  /** `q.length > max ? q.substring(0, max) + '...' : q`. */
  function Truncate(q: string, max: nat): (r: string)
    ensures |q| <= max ==> r == q
    ensures |q| > max ==> r == q[..max] + "..."
  {
    if |q| > max then q[..max] + "..." else q
  }

  /** Truncation bounds the length, keeps the head, and is idempotent. */
  lemma TruncateProperties(q: string, max: nat)
    ensures |Truncate(q, max)| <= max + 3
    ensures |q| <= max ==> |Truncate(q, max)| == |q|
    ensures var k := if |q| < max then |q| else max;
            Truncate(q, max)[..k] == q[..k]
    ensures Truncate(Truncate(q, max), max) == Truncate(q, max)
  {
    if |q| > max {
      var r := q[..max] + "...";
      assert r[..max] == q[..max];
    }
  }

  // ---------------------------------------------------------------------------
  // Decimal digit runs

  function DigitValue(c: char): nat
    requires IsDigit(c)
  {
    c as int - '0' as int
  }

  function DigitChar(d: nat): (c: char)
    requires d < 10
    ensures IsDigit(c) && DigitValue(c) == d
  {
    ('0' as int + d) as char
  }

  predicate AllDigits(s: string) {
    forall i :: 0 <= i < |s| ==> IsDigit(s[i])
  }

  /** The value of a run of decimal digits, as `parseInt` reads it (leading zeros allowed). */
  function NatOf(ds: string): nat
    requires AllDigits(ds)
  {
    if ds == [] then 0 else NatOf(ds[..|ds| - 1]) * 10 + DigitValue(ds[|ds| - 1])
  }

  /** The decimal numeral of `n`, without leading zeros. */
  function ShowNat(n: nat): (r: string)
    ensures |r| >= 1 && AllDigits(r)
  {
    if n < 10 then [DigitChar(n)] else ShowNat(n / 10) + [DigitChar(n % 10)]
  }

  /** Reading back the numeral of `n` gives `n`. */
  lemma {:induction false} NatOfShowNat(n: nat)
    ensures NatOf(ShowNat(n)) == n
  {
    if n >= 10 {
      var s := ShowNat(n);
      assert s[..|s| - 1] == ShowNat(n / 10);
      NatOfShowNat(n / 10);
    }
  }

  /** The first index at or after `i` that does not hold white space. */
  function SkipWhitespace(s: string, i: nat): (j: nat)
    requires i <= |s|
    ensures i <= j <= |s|
    ensures forall k :: i <= k < j ==> IsWhitespace(s[k])
    ensures j < |s| ==> !IsWhitespace(s[j])
    decreases |s| - i
  {
    if i < |s| && IsWhitespace(s[i]) then SkipWhitespace(s, i + 1) else i
  }

  /** The end of the run of digits that starts at `i`. */
  function DigitsEnd(s: string, i: nat): (j: nat)
    requires i <= |s|
    ensures i <= j <= |s|
    ensures AllDigits(s[i..j])
    ensures j < |s| ==> !IsDigit(s[j])
    decreases |s| - i
  {
    if i < |s| && IsDigit(s[i]) then DigitsEnd(s, i + 1) else i
  }

  /** The digit run starting at `i` ends at `e` when `s[i..e]` are digits and `s[e]` is not. */
  lemma {:induction false} DigitsEndAt(s: string, i: nat, e: nat)
    requires i <= e <= |s|
    requires forall k :: i <= k < e ==> IsDigit(s[k])
    requires e == |s| || !IsDigit(s[e])
    ensures DigitsEnd(s, i) == e
    decreases e - i
  {
    if i < e {
      DigitsEndAt(s, i + 1, e);
    }
  }
}
