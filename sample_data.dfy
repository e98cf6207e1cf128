/**
 * The static catalog the console runs queries against: three named datasets,
 * each with its declared columns, eight rows and a few sample queries, and the
 * two lookups over it (`getDatasetByName`, `getAllDatasetNames`).
 */
module SampleData {
  import opened Values
  import Sequences

  datatype Dataset = Dataset(
    name: string,
    description: string,
    columns: seq<string>,
    data: seq<Row>,
    sampleQueries: seq<string>)

  /** An `employees` record; `ToRow` gives it as a row with exactly that dataset's columns. */
  datatype Employee = Employee(id: real, name: string, department: string, salary: real,
                               hireDate: string, email: string)
  {
    function ToRow(): (r: Row)
      ensures HasExactly(r, EmployeeColumns)
    {
      map["id" := VNum(id), "name" := VStr(name), "department" := VStr(department),
          "salary" := VNum(salary), "hire_date" := VStr(hireDate), "email" := VStr(email)]
    }
  }

  /** A `sales` record. */
  datatype Sale = Sale(transactionId: string, customerName: string, product: string, amount: real,
                       date: string, region: string)
  {
    function ToRow(): (r: Row)
      ensures HasExactly(r, SaleColumns)
    {
      map["transaction_id" := VStr(transactionId), "customer_name" := VStr(customerName),
          "product" := VStr(product), "amount" := VNum(amount), "date" := VStr(date),
          "region" := VStr(region)]
    }
  }

  /** A `products` record. */
  datatype Product = Product(productId: string, productName: string, category: string, price: real,
                             stockQuantity: real, supplier: string)
  {
    function ToRow(): (r: Row)
      ensures HasExactly(r, ProductColumns)
    {
      map["product_id" := VStr(productId), "product_name" := VStr(productName),
          "category" := VStr(category), "price" := VNum(price),
          "stock_quantity" := VNum(stockQuantity), "supplier" := VStr(supplier)]
    }
  }

  const EmployeeColumns: seq<string> := ["id", "name", "department", "salary", "hire_date", "email"]
  const SaleColumns: seq<string> :=
    ["transaction_id", "customer_name", "product", "amount", "date", "region"]
  const ProductColumns: seq<string> :=
    ["product_id", "product_name", "category", "price", "stock_quantity", "supplier"]

  const EmployeeRecords: seq<Employee> := [
    Employee(1.0, "John Doe", "Engineering", 95000.0, "2022-01-15", "john.doe@company.com"),
    Employee(2.0, "Jane Smith", "Marketing", 72000.0, "2021-08-20", "jane.smith@company.com"),
    Employee(3.0, "Mike Johnson", "Engineering", 88000.0, "2022-03-10", "mike.johnson@company.com"),
    Employee(4.0, "Sarah Wilson", "HR", 65000.0, "2021-11-05", "sarah.wilson@company.com"),
    Employee(5.0, "David Brown", "Engineering", 102000.0, "2020-06-18", "david.brown@company.com"),
    Employee(6.0, "Emily Davis", "Sales", 78000.0, "2022-02-28", "emily.davis@company.com"),
    Employee(7.0, "Chris Martinez", "Marketing", 69000.0, "2021-12-12", "chris.martinez@company.com"),
    Employee(8.0, "Lisa Anderson", "Engineering", 91000.0, "2022-04-07", "lisa.anderson@company.com")
  ]

  /** The rows of `employees`, in declaration order. */
  function EmployeeRows(): (rows: seq<Row>)
    ensures |rows| == |EmployeeRecords|
    ensures forall r :: r in rows ==> HasExactly(r, EmployeeColumns)
  {
    seq(|EmployeeRecords|, i requires 0 <= i < |EmployeeRecords| => EmployeeRecords[i].ToRow())
  }

  /** The second `employees` sample query, kept in short pieces so that proofs can index into it. */
  const TopEarnersQuery: string :=
    "SELECT name, salary " + "FROM employees " + "WHERE salary > 80000 " + "ORDER BY salary DESC"

  const Employees: Dataset := Dataset(
    "employees",
    "Employee management data",
    EmployeeColumns,
    EmployeeRows(),
    [
      "SELECT * FROM employees WHERE department = 'Engineering'",
      TopEarnersQuery,
      "SELECT department, AVG(salary) as avg_salary FROM employees GROUP BY department"
    ])

  const SaleRecords: seq<Sale> := [
    Sale("TXN001", "Alice Cooper", "Laptop", 1299.99, "2024-01-15", "North"),
    Sale("TXN002", "Bob Miller", "Mouse", 29.99, "2024-01-16", "South"),
    Sale("TXN003", "Carol Taylor", "Keyboard", 89.99, "2024-01-17", "East"),
    Sale("TXN004", "David Clark", "Monitor", 399.99, "2024-01-18", "West"),
    Sale("TXN005", "Eve White", "Laptop", 1599.99, "2024-01-19", "North"),
    Sale("TXN006", "Frank Green", "Tablet", 599.99, "2024-01-20", "South"),
    Sale("TXN007", "Grace Hall", "Phone", 899.99, "2024-01-21", "East"),
    Sale("TXN008", "Henry Lee", "Headphones", 199.99, "2024-01-22", "West")
  ]

  /** The rows of `sales`, in declaration order. */
  function SaleRows(): (rows: seq<Row>)
    ensures |rows| == |SaleRecords|
    ensures forall r :: r in rows ==> HasExactly(r, SaleColumns)
  {
    seq(|SaleRecords|, i requires 0 <= i < |SaleRecords| => SaleRecords[i].ToRow())
  }

  const Sales: Dataset := Dataset(
    "sales",
    "Sales transaction data",
    SaleColumns,
    SaleRows(),
    [
      "SELECT * FROM sales WHERE amount > 500 ORDER BY amount DESC",
      "SELECT region, SUM(amount) as total_sales FROM sales GROUP BY region",
      "SELECT product, COUNT(*) as sales_count FROM sales GROUP BY product ORDER BY sales_count DESC"
    ])

  const ProductRecords: seq<Product> := [
    Product("P001", "Gaming Laptop", "Electronics", 1599.99, 45.0, "TechCorp"),
    Product("P002", "Wireless Mouse", "Accessories", 49.99, 120.0, "AccessTech"),
    Product("P003", "4K Monitor", "Electronics", 599.99, 32.0, "DisplayPro"),
    Product("P004", "Mechanical Keyboard", "Accessories", 129.99, 78.0, "KeyMaster"),
    Product("P005", "Smartphone", "Electronics", 899.99, 67.0, "MobileTech"),
    Product("P006", "Tablet", "Electronics", 449.99, 23.0, "TabletCorp"),
    Product("P007", "Webcam", "Accessories", 89.99, 95.0, "CamTech"),
    Product("P008", "USB Cable", "Accessories", 19.99, 200.0, "CableCo")
  ]

  /** The rows of `products`, in declaration order. */
  function ProductRows(): (rows: seq<Row>)
    ensures |rows| == |ProductRecords|
    ensures forall r :: r in rows ==> HasExactly(r, ProductColumns)
  {
    seq(|ProductRecords|, i requires 0 <= i < |ProductRecords| => ProductRecords[i].ToRow())
  }

  const Products: Dataset := Dataset(
    "products",
    "Product inventory data",
    ProductColumns,
    ProductRows(),
    [
      "SELECT * FROM products WHERE stock_quantity < 50",
      "SELECT category, AVG(price) as avg_price FROM products GROUP BY category",
      "SELECT supplier, COUNT(*) as product_count FROM products GROUP BY supplier ORDER BY product_count DESC"
    ])

  /** The catalog, in declaration order; its first entry is the interpreter's fallback. */
  const Datasets: seq<Dataset> := [Employees, Sales, Products]

  // ---------------------------------------------------------------------------
  // Lookups

  /** `catalog.find(d => d.name === name)`: the first entry with exactly that name. */
  function FindByName(catalog: seq<Dataset>, name: string): (r: Option<Dataset>)
    ensures r.None? <==> forall i :: 0 <= i < |catalog| ==> catalog[i].name != name
    ensures r.Some? ==> exists i :: 0 <= i < |catalog| && catalog[i] == r.value
                                  && catalog[i].name == name
                                  && forall j :: 0 <= j < i ==> catalog[j].name != name
  {
    if catalog == [] then None
    else if catalog[0].name == name then Some(catalog[0])
    else
      var r := FindByName(catalog[1..], name);
      assert r.Some? ==> exists i :: 0 <= i < |catalog[1..]| && catalog[1..][i] == r.value
                                  && catalog[1..][i].name == name
                                  && forall j :: 0 <= j < i ==> catalog[1..][j].name != name;
      r
  }

  /** `getDatasetByName`. */
  function GetDatasetByName(name: string): Option<Dataset> {
    FindByName(Datasets, name)
  }

  /** `catalog.map(d => d.name)`. */
  function Names(catalog: seq<Dataset>): (r: seq<string>)
    ensures |r| == |catalog|
    ensures forall i :: 0 <= i < |catalog| ==> r[i] == catalog[i].name
  {
    seq(|catalog|, i requires 0 <= i < |catalog| => catalog[i].name)
  }

  /** `getAllDatasetNames`. */
  function GetAllDatasetNames(): seq<string> {
    Names(Datasets)
  }

  predicate DistinctNames(catalog: seq<Dataset>) {
    forall i, j :: 0 <= i < j < |catalog| ==> catalog[i].name != catalog[j].name
  }

  /** In a catalog with distinct names, looking up a listed name gives back its entry. */
  lemma {:induction false} FindListedName(catalog: seq<Dataset>, i: nat)
    requires DistinctNames(catalog)
    requires i < |catalog|
    ensures FindByName(catalog, Names(catalog)[i]) == Some(catalog[i])
  {
    var name := catalog[i].name;
    assert Names(catalog)[i] == name;
    if i > 0 {
      var tail := catalog[1..];
      assert catalog[0].name != name;
      assert DistinctNames(tail) by {
        forall a, b | 0 <= a < b < |tail| ensures tail[a].name != tail[b].name {
          assert tail[a] == catalog[a + 1] && tail[b] == catalog[b + 1];
        }
      }
      FindListedName(tail, i - 1);
      assert Names(tail)[i - 1] == name && tail[i - 1] == catalog[i];
    }
  }

  // ---------------------------------------------------------------------------
  // Facts about the bundled catalog

  /** The names are `employees`, `sales`, `products`, in that order, and pairwise distinct. */
  lemma CatalogNames()
    ensures GetAllDatasetNames() == ["employees", "sales", "products"]
    ensures DistinctNames(Datasets)
  {
  }

  /** `getDatasetByName(getAllDatasetNames()[i])` is the i-th dataset. */
  lemma LookupListedName(i: nat)
    requires i < |Datasets|
    ensures GetDatasetByName(GetAllDatasetNames()[i]) == Some(Datasets[i])
  {
    CatalogNames();
    FindListedName(Datasets, i);
  }

  /** Lookup is exact and case-sensitive: an upper-cased name finds nothing. */
  lemma LookupIsCaseSensitive()
    ensures GetDatasetByName("Employees") == None
    ensures GetDatasetByName("employees") == Some(Employees)
  {
  }

  /** Every row of every dataset has exactly the dataset's declared columns as keys. */
  lemma RowsHaveDeclaredColumns()
    ensures forall d, r :: d in Datasets && r in d.data ==> HasExactly(r, d.columns)
  {
  }

  /** The fallback dataset is `employees`: eight rows, four of them in Engineering. */
  lemma DefaultDataset()
    ensures Datasets[0].name == "employees" && |Datasets[0].data| == 8
    ensures |Sequences.Filter((r: Row) => StringOrEmpty(r, "department") == "Engineering", Datasets[0].data)| == 4
  {
    assert Datasets[0] == Employees;
    EngineeringEmployees();
  }

  /** Four of the `employees` rows hold "Engineering" under `department`: the first, third, fifth and last. */
  lemma EngineeringEmployees()
    ensures |Sequences.Filter((r: Row) => StringOrEmpty(r, "department") == "Engineering", EmployeeRows())| == 4
  {
    var e := EmployeeRecords;
    assert e[0].department == "Engineering" && e[1].department == "Marketing";
    assert e[2].department == "Engineering" && e[3].department == "HR";
    assert e[4].department == "Engineering" && e[5].department == "Sales";
    assert e[6].department == "Marketing" && e[7].department == "Engineering";
    EngineeringTests(e, EmployeeRows());
  }

  /** Rows built from eight records whose departments fall in and out of Engineering as the catalog's do. */
  lemma EngineeringTests(e: seq<Employee>, rows: seq<Row>)
    requires |e| == 8 && |rows| == 8
    requires forall i :: 0 <= i < 8 ==> rows[i] == e[i].ToRow()
    requires e[0].department == "Engineering" && e[1].department != "Engineering"
    requires e[2].department == "Engineering" && e[3].department != "Engineering"
    requires e[4].department == "Engineering" && e[5].department != "Engineering"
    requires e[6].department != "Engineering" && e[7].department == "Engineering"
    ensures |Sequences.Filter((r: Row) => StringOrEmpty(r, "department") == "Engineering", rows)| == 4
  {
    forall i | 0 <= i < 8 ensures StringOrEmpty(rows[i], "department") == e[i].department {
    }
    FilterOfEight((r: Row) => StringOrEmpty(r, "department") == "Engineering", rows);
  }

  /**
   * Filtering eight elements that pass or fail as the `employees` rows do under
   * both the salary test and the Engineering test: the first, third, fifth and last.
   */
  lemma FilterOfEight<T>(f: T -> bool, rows: seq<T>)
    requires |rows| == 8
    requires f(rows[0]) && !f(rows[1]) && f(rows[2]) && !f(rows[3])
    requires f(rows[4]) && !f(rows[5]) && !f(rows[6]) && f(rows[7])
    ensures Sequences.Filter(f, rows) == [rows[0], rows[2], rows[4], rows[7]]
  {
    var a, b := rows[..4], rows[4..];
    assert rows == a + b;
    Sequences.FilterAppend(f, a, b);
    assert a[0] == rows[0] && a[1] == rows[1] && a[2] == rows[2] && a[3] == rows[3];
    assert b[0] == rows[4] && b[1] == rows[5] && b[2] == rows[6] && b[3] == rows[7];
    FilterFirstAndThird(f, a);
    FilterFirstAndLast(f, b);
  }

  lemma FilterFirstAndThird<T>(f: T -> bool, s: seq<T>)
    requires |s| == 4 && f(s[0]) && !f(s[1]) && f(s[2]) && !f(s[3])
    ensures Sequences.Filter(f, s) == [s[0], s[2]]
  {
    Sequences.FilterPrefixStep(f, s, 0);
    Sequences.FilterPrefixStep(f, s, 1);
    Sequences.FilterPrefixStep(f, s, 2);
    Sequences.FilterPrefixStep(f, s, 3);
    assert s[..0] == [] && s[..4] == s;
  }

  lemma FilterFirstAndLast<T>(f: T -> bool, s: seq<T>)
    requires |s| == 4 && f(s[0]) && !f(s[1]) && !f(s[2]) && f(s[3])
    ensures Sequences.Filter(f, s) == [s[0], s[3]]
  {
    Sequences.FilterPrefixStep(f, s, 0);
    Sequences.FilterPrefixStep(f, s, 1);
    Sequences.FilterPrefixStep(f, s, 2);
    Sequences.FilterPrefixStep(f, s, 3);
    assert s[..0] == [] && s[..4] == s;
  }


  /** Every dataset offers at least one sample query (the page loads the first one). */
  lemma SampleQueriesPresent()
    ensures forall d :: d in Datasets ==> |d.sampleQueries| >= 1
  {
  }
}
