/**
 * The confirmation gate shown before a create, delete or dump query runs. A
 * dump can only be confirmed by typing the exact phrase `CONFIRM DUMP`; the
 * other two kinds can always be confirmed.
 */
module ConfirmationDialog {
  /** The page's classification of a query; only the first three open the dialog. */
  datatype QueryType = Create | Delete | Dump | Normal

  /** The kinds of query the dialog is opened for. */
  type DialogType = t: QueryType | !t.Normal? witness Create

  const ConfirmDumpPhrase: string := "CONFIRM DUMP"

  /** The text a user must type: the phrase for a dump, nothing otherwise. */
  function RequiredText(t: DialogType): string {
    if t == Dump then ConfirmDumpPhrase else ""
  }

  /** Whether the action may go ahead with `typed` in the confirmation box. */
  predicate CanConfirm(t: DialogType, typed: string) {
    if t == Dump then typed == RequiredText(t) else true
  }

  /**
   * Create and delete are always confirmable; a dump exactly when the typed
   * text is the phrase, with no trimming and no case folding.
   */
  lemma ConfirmRule(t: DialogType, typed: string)
    ensures t != Dump ==> CanConfirm(t, typed)
    ensures t == Dump ==> (CanConfirm(t, typed) <==> typed == "CONFIRM DUMP")
    ensures !CanConfirm(Dump, "confirm dump") && !CanConfirm(Dump, "CONFIRM DUMP ") && !CanConfirm(Dump, "")
  {
    assert "confirm dump"[0] != "CONFIRM DUMP"[0];
  }

  /** Title, description, button colour and button label of the dialog. */
  datatype DialogContent = DialogContent(title: string, description: string, actionClass: string, actionText: string)

  function DialogContentOf(t: DialogType): DialogContent {
    match t
    case Create =>
      DialogContent("Confirm Create Operation",
                    "Are you sure you want to execute this CREATE query?",
                    "bg-blue-600 hover:bg-blue-700", "Create")
    case Delete =>
      DialogContent("Confirm Delete Operation",
                    "Are you sure you want to execute this DELETE query? "
                      + "This action cannot be undone and will permanently remove data.",
                    "bg-red-600 hover:bg-red-700", "Delete")
    case Dump =>
      DialogContent("Confirm Dump Operation",
                    DumpDescriptionHead + RequiredText(t) + "\" to confirm.",
                    "bg-orange-600 hover:bg-orange-700", "Dump")
  }

  const DumpDescriptionHead: string :=
    "Are you sure you want to execute this DUMP query? This will export database data. Type \""

  /** Each kind has its own action label, and the dump description quotes the phrase to type. */
  lemma DialogContentDistinct(s: DialogType, t: DialogType)
    ensures s != t ==> DialogContentOf(s).actionText != DialogContentOf(t).actionText
    ensures DialogContentOf(Dump).description[|DumpDescriptionHead|..|DumpDescriptionHead| + 12] == RequiredText(Dump)
  {
    var d := DialogContentOf(Dump).description;
    assert d == DumpDescriptionHead + ConfirmDumpPhrase + "\" to confirm.";
    assert d[|DumpDescriptionHead|..|DumpDescriptionHead| + 12]
        == (DumpDescriptionHead + ConfirmDumpPhrase)[|DumpDescriptionHead|..];
  }

  /** The action button is disabled exactly when confirming is not allowed. */
  predicate ActionDisabled(t: DialogType, typed: string) {
    !CanConfirm(t, typed)
  }

  /** What a button press asks of the page: run the query, and close the dialog. */
  datatype Outcome = Outcome(confirm: bool, close: bool)

  /** The dialog's own state: the text typed into the confirmation box. */
  class Dialog {
    var confirmationText: string

    constructor()
      ensures confirmationText == ""
    {
      confirmationText := "";
    }

    /** Typing into the confirmation box. */
    method SetConfirmationText(text: string)
      modifies this
      ensures confirmationText == text
    {
      confirmationText := text;
    }

    /**
     * The action button: when confirming is allowed it asks the page to run the
     * query once, clears the text and asks to close; otherwise nothing happens.
     */
    method HandleConfirm(t: DialogType) returns (outcome: Outcome)
      modifies this
      ensures outcome.confirm == CanConfirm(t, old(confirmationText))
      ensures outcome.close == outcome.confirm
      ensures confirmationText == if outcome.confirm then "" else old(confirmationText)
    {
      if CanConfirm(t, confirmationText) {
        outcome := Outcome(true, true);
        confirmationText := "";
      } else {
        outcome := Outcome(false, false);
      }
    }

    /** Cancel: clears the text and asks to close, without running anything. */
    method HandleCancel() returns (outcome: Outcome)
      modifies this
      ensures outcome == Outcome(false, true)
      ensures confirmationText == ""
    {
      confirmationText := "";
      outcome := Outcome(false, true);
    }
  }
}
