/** The SQL template generator: for each entity, from the names of its columns in row
    order, it writes a SELECT, an INSERT and an UPDATE statement with named parameters. */
module QueryGen {
  import opened Text
  import opened Dialect

  /** One item of the entity list, untrimmed, with the column names the metadata query
      returned for it, in row order. */
  datatype Table = Table(entity: string, columns: seq<string>)

  // ---------------------------------------------------------------------------
  // Dialect
  // ---------------------------------------------------------------------------

  const OracleColumns: string := "SELECT COLUMN_NAME FROM ALL_TAB_COLUMNS "
  const CatalogColumns: string := "SELECT COLUMN_NAME FROM INFORMATION_SCHEMA.COLUMNS "

  /** The column-name query prepared once for all entities: only Oracle's asks for the
      columns in their declared order; elsewhere the order is the database's. */
  function MetadataQuery(driver: string): (q: string)
    ensures driver == "godror" ==> EndsWith(q, OracleFilter)
    ensures driver == "postgres" ==> EndsWith(q, "WHERE TABLE_NAME=$1 AND TABLE_SCHEMA=$2")
    ensures driver != "godror" && driver != "postgres" ==>
      EndsWith(q, "WHERE TABLE_NAME=? AND TABLE_SCHEMA=?")
  {
    assert "godror"[0] != "postgres"[0];
    if driver == "godror" then
      EndsWithAppend(OracleColumns, OracleFilter);
      OracleColumns + OracleFilter
    else
      CatalogFilterCases(driver);
      EndsWithAppend(CatalogColumns, CatalogFilter(driver));
      CatalogColumns + CatalogFilter(driver)
  }

  // To show that a literal never contains "ORDER BY", it is enough to show that it never
  // contains one of that phrase's letters (NoOccMissing). 'Y' is the letter chosen, because
  // it occurs nowhere in the INFORMATION_SCHEMA query, whatever the driver.

  lemma CatalogColumnsNoY()
    ensures 'Y' !in CatalogColumns
  {
    assert CatalogColumns == "SELECT COLUMN_NAME FROM " + "INFORMATION_SCHEMA.COLUMNS ";
    assert 'Y' !in "SELECT COLUMN_NAME FROM ";
    assert 'Y' !in "INFORMATION_SCHEMA.COLUMNS ";
  }

  lemma CatalogFilterNoY(driver: string)
    ensures 'Y' !in CatalogFilter(driver)
  {
    var binds := Binds(driver);
    assert 'Y' !in binds.0 && 'Y' !in binds.1;
    assert 'Y' !in "WHERE TABLE_NAME=" && 'Y' !in " AND TABLE_SCHEMA=";
  }

  /** No letter Y occurs in the INFORMATION_SCHEMA query, so no ORDER BY does either. */
  lemma CatalogUnordered(driver: string)
    ensures NoOcc(CatalogColumns + CatalogFilter(driver), "ORDER BY")
  {
    CatalogColumnsNoY();
    CatalogFilterNoY(driver);
    NoOccMissing(CatalogColumns + CatalogFilter(driver), "ORDER BY", 'Y');
  }

  /** Only Oracle's query asks for the columns in a defined order. The proof goes through the
      absence of the letter Y (CatalogColumnsNoY, CatalogFilterNoY). */
  lemma OnlyOracleOrders(driver: string)
    ensures driver != "godror" ==> NoOcc(MetadataQuery(driver), "ORDER BY")
  {
    if driver != "godror" {
      CatalogUnordered(driver);
    }
  }

  // ---------------------------------------------------------------------------
  // The lists the row loop accumulates
  // ---------------------------------------------------------------------------

  /** Each item followed by a comma, as the row loop appends them. */
  function Terminated(xs: seq<string>): string {
    if xs == [] then "" else Terminated(xs[..|xs| - 1]) + xs[|xs| - 1] + ","
  }

  /** The named parameter of each column. */
  function Marks(cols: seq<string>): (r: seq<string>)
    ensures |r| == |cols|
    ensures forall i :: 0 <= i < |cols| ==> r[i] == ":" + cols[i]
  {
    if cols == [] then [] else Marks(cols[..|cols| - 1]) + [":" + cols[|cols| - 1]]
  }

  /** The assignment of each column from its parameter, named in lower case. */
  function Assignments(cols: seq<string>): (r: seq<string>)
    ensures |r| == |cols|
    ensures forall i :: 0 <= i < |cols| ==> r[i] == cols[i] + " = :" + ToLower(cols[i])
  {
    if cols == [] then [] else Assignments(cols[..|cols| - 1]) + [cols[|cols| - 1] + " = :" + ToLower(cols[|cols| - 1])]
  }

  lemma SelectStep(p: string, cols: seq<string>, j: int)
    requires 0 <= j < |cols|
    ensures p + Terminated(cols[..j]) + (cols[j] + ",") == p + Terminated(cols[..j + 1])
  {
    assert cols[..j + 1][..j] == cols[..j];
  }

  lemma MarksStep(cols: seq<string>, j: int)
    requires 0 <= j < |cols|
    ensures Terminated(Marks(cols[..j])) + (":" + cols[j] + ",") == Terminated(Marks(cols[..j + 1]))
  {
    var m := Marks(cols[..j + 1]);
    assert m[..j] == Marks(cols[..j]);
  }

  lemma AssignmentsStep(p: string, cols: seq<string>, j: int)
    requires 0 <= j < |cols|
    ensures p + Terminated(Assignments(cols[..j])) + (cols[j] + " = :" + ToLower(cols[j]) + ",") ==
      p + Terminated(Assignments(cols[..j + 1]))
  {
    var m := Assignments(cols[..j + 1]);
    assert m[..j] == Assignments(cols[..j]);
  }

  // ---------------------------------------------------------------------------
  // The triad of one entity, as the generator assembles it
  // ---------------------------------------------------------------------------

  function SelectLine(entity: string, cols: seq<string>): string {
    TrimRight(entity + ":SELECT " + Terminated(cols), ',') + " FROM " + entity + " WHERE 1=1\n"
  }

  /** The placeholder list: every parameter, comma-separated, trailing commas trimmed. */
  function Placeholders(cols: seq<string>): string {
    TrimRight(Terminated(Marks(cols)), ',')
  }

  function InsertLine(entity: string, cols: seq<string>): string {
    entity + ":INSERT INTO " + entity + "(" + Replace(Placeholders(cols), ":", "") +
    ") VALUES (" + ToLower(Placeholders(cols)) + ")\n"
  }

  function UpdateLine(entity: string, cols: seq<string>): string {
    TrimRight(entity + ":UPDATE " + entity + " SET " + Terminated(Assignments(cols)), ',') + " WHERE 1=1\n\n"
  }

  function Triad(entity: string, cols: seq<string>): string {
    SelectLine(entity, cols) + InsertLine(entity, cols) + UpdateLine(entity, cols)
  }

  /** The triad of one item of the entity list, under its trimmed name. */
  function EntityText(t: Table): string {
    Triad(TrimSpace(t.entity), t.columns)
  }

  /** The triads of all entities in order. */
  function Queries(ts: seq<Table>): string {
    if ts == [] then "" else Queries(ts[..|ts| - 1]) + EntityText(ts[|ts| - 1])
  }

  // ---------------------------------------------------------------------------
  // The generator
  // ---------------------------------------------------------------------------

  /** The triad of one entity, built by appending each column to the three lists. */
  method EntityQueries(entity: string, cols: seq<string>) returns (text: string)
    ensures text == Triad(entity, cols)
  {
    var querySelect := entity + ":SELECT ";
    var queryInsert := entity + ":INSERT INTO " + entity + "(";
    var queryInsert2 := "";
    var queryUpdate := entity + ":UPDATE " + entity + " SET ";
    for j := 0 to |cols|
      invariant querySelect == entity + ":SELECT " + Terminated(cols[..j])
      invariant queryInsert2 == Terminated(Marks(cols[..j]))
      invariant queryUpdate == entity + ":UPDATE " + entity + " SET " + Terminated(Assignments(cols[..j]))
    {
      var columnName := cols[j];
      SelectStep(entity + ":SELECT ", cols, j);
      MarksStep(cols, j);
      AssignmentsStep(entity + ":UPDATE " + entity + " SET ", cols, j);
      querySelect := querySelect + (columnName + ",");
      queryInsert2 := queryInsert2 + (":" + columnName + ",");
      queryUpdate := queryUpdate + (columnName + " = :" + ToLower(columnName) + ",");
    }
    assert cols[..|cols|] == cols;
    querySelect := TrimRight(querySelect, ',');
    queryInsert2 := TrimRight(queryInsert2, ',');
    queryInsert := queryInsert + Replace(queryInsert2, ":", "");
    queryUpdate := TrimRight(queryUpdate, ',');
    var selectLine := querySelect + " FROM " + entity + " WHERE 1=1\n";
    var insertLine := queryInsert + ") VALUES (" + ToLower(queryInsert2) + ")\n";
    var updateLine := queryUpdate + " WHERE 1=1\n\n";
    assert selectLine == SelectLine(entity, cols);
    assert insertLine == InsertLine(entity, cols);
    assert updateLine == UpdateLine(entity, cols);
    text := selectLine + insertLine + updateLine;
  }

  /** Builds the column-name query for the driver and the triads of all entities. */
  method MakeQueries(driver: string, tables: seq<Table>) returns (query: string, data: string)
    ensures query == MetadataQuery(driver)
    ensures data == Queries(tables)
  {
    query := MetadataQuery(driver);
    data := "";
    for i := 0 to |tables|
      invariant data == Queries(tables[..i])
    {
      var entity := TrimSpace(tables[i].entity);
      var triad := EntityQueries(entity, tables[i].columns);
      data := data + triad;
      assert tables[..i + 1][..i] == tables[..i] && tables[..i + 1][i] == tables[i];
    }
    assert tables[..|tables|] == tables;
  }

  // ---------------------------------------------------------------------------
  // The triad in direct form
  // ---------------------------------------------------------------------------

  /** The items joined by commas. */
  function Join(xs: seq<string>): string {
    if |xs| == 0 then "" else if |xs| == 1 then xs[0] else Join(xs[..|xs| - 1]) + "," + xs[|xs| - 1]
  }

  /** Every item in lower case. */
  function LowerAll(xs: seq<string>): (r: seq<string>)
    ensures |r| == |xs|
    ensures forall i :: 0 <= i < |xs| ==> r[i] == ToLower(xs[i])
  {
    if xs == [] then [] else LowerAll(xs[..|xs| - 1]) + [ToLower(xs[|xs| - 1])]
  }

  /** A column name as SQL identifiers are written: not empty, without `:` or `,`. */
  predicate PlainColumn(c: string) {
    c != [] && ':' !in c && ',' !in c
  }

  /** The triad as it is meant to read: the columns joined in row order in the SELECT and
      INSERT lists, their lower-case parameters in VALUES, and one assignment each in SET. */
  function DirectTriad(e: string, cols: seq<string>): string {
    (e + ":SELECT " + Join(cols) + " FROM " + e + " WHERE 1=1\n") +
    (e + ":INSERT INTO " + e + "(" + Join(cols) + ") VALUES (" + Join(Marks(LowerAll(cols))) + ")\n") +
    (e + ":UPDATE " + e + " SET " + Join(Assignments(cols)) + " WHERE 1=1\n\n")
  }

  /** The loop's list is the joined list with one comma more. */
  lemma {:induction false} TerminatedJoin(xs: seq<string>)
    requires xs != []
    ensures Terminated(xs) == Join(xs) + ","
    decreases |xs|
  {
    var n := |xs|;
    if n == 1 {
      assert xs[..0] == [];
    } else {
      TerminatedJoin(xs[..n - 1]);
      assert xs[..n - 1][..n - 2] == xs[..n - 2];
    }
  }

  lemma JoinLast(xs: seq<string>)
    requires xs != [] && xs[|xs| - 1] != []
    ensures Join(xs) != [] && Join(xs)[|Join(xs)| - 1] == xs[|xs| - 1][|xs[|xs| - 1]| - 1]
  {
  }

  /** Items without commas joined: one comma fewer than items, so a list of `n` names
      reads back as `n` names. */
  lemma {:induction false} JoinCommas(xs: seq<string>)
    requires xs != [] && forall x | x in xs :: ',' !in x
    ensures CountChar(Join(xs), ',') == |xs| - 1
    decreases |xs|
  {
    var n := |xs|;
    assert xs[n - 1] in xs;
    CountCharAbsent(xs[n - 1], ',');
    if n > 1 {
      assert forall x | x in xs[..n - 1] :: x in xs;
      JoinCommas(xs[..n - 1]);
      CountCharAppend(Join(xs[..n - 1]) + ",", xs[n - 1], ',');
      CountCharAppend(Join(xs[..n - 1]), ",", ',');
      assert [] + "," == ",";
    }
  }

  /** Trimming the loop's list, after a prefix that does not end in a comma, leaves the
      joined list when the last item ends in something other than a comma. */
  lemma TrimTerminated(p: string, xs: seq<string>)
    requires p == [] || p[|p| - 1] != ','
    requires xs == [] || (xs[|xs| - 1] != [] && xs[|xs| - 1][|xs[|xs| - 1]| - 1] != ',')
    ensures TrimRight(p + Terminated(xs), ',') == p + Join(xs)
  {
    if xs == [] {
      assert p + Terminated(xs) == p;
      TrimRightStops(p, ',');
    } else {
      TerminatedJoin(xs);
      JoinLast(xs);
      assert p + Terminated(xs) == (p + Join(xs)) + [','];
      TrimRightOne(p + Join(xs), ',');
    }
  }

  /** Deleting every `:` from the parameter list leaves the column list. */
  lemma {:induction false} ReplaceJoinMarks(cols: seq<string>)
    requires forall c | c in cols :: ':' !in c
    ensures Replace(Join(Marks(cols)), ":", "") == Join(cols)
    decreases |cols|
  {
    var n := |cols|;
    if n == 0 {
    } else {
      var c := cols[n - 1];
      NoOccMissing(c, ":", ':');
      ReplaceNoOcc(c, ":", "");
      ReplacePrefix(c, ":", "");
      assert Replace(":" + c, ":", "") == c;
      if n == 1 {
        assert Marks(cols) == [":" + c];
      } else {
        var m := Marks(cols);
        assert m[..n - 1] == Marks(cols[..n - 1]);
        ReplaceJoinMarks(cols[..n - 1]);
        var a := Join(Marks(cols[..n - 1]));
        assert Join(m) == a + "," + (":" + c);
        NoStraddleSingle(a + ",", ":" + c, ":");
        ReplaceAppend(a + ",", ":" + c, ":", "");
        NoStraddleSingle(a, ",", ":");
        ReplaceAppend(a, ",", ":", "");
        NoOccMissing(",", ":", ':');
        ReplaceNoOcc(",", ":", "");
      }
    }
  }

  /** Lower-casing the joined list lower-cases each item. */
  lemma {:induction false} ToLowerJoin(xs: seq<string>)
    ensures ToLower(Join(xs)) == Join(LowerAll(xs))
    decreases |xs|
  {
    var n := |xs|;
    if n == 1 {
      assert LowerAll(xs) == [ToLower(xs[0])];
    } else if n > 1 {
      var l := LowerAll(xs);
      assert l[..n - 1] == LowerAll(xs[..n - 1]);
      ToLowerJoin(xs[..n - 1]);
      ToLowerAppend(Join(xs[..n - 1]) + ",", xs[n - 1]);
      ToLowerAppend(Join(xs[..n - 1]), ",");
      assert ToLower(",") == ",";
    }
  }

  /** The lower-cased parameters are the parameters of the lower-cased names. */
  lemma LowerMarks(cols: seq<string>)
    ensures LowerAll(Marks(cols)) == Marks(LowerAll(cols))
  {
    var l, m := LowerAll(Marks(cols)), Marks(LowerAll(cols));
    forall i | 0 <= i < |cols| ensures l[i] == m[i] {
      assert l[i] == ToLower(":" + cols[i]);
      ToLowerAppend(":", cols[i]);
      assert ToLower(":") == ":";
      assert m[i] == ":" + ToLower(cols[i]);
    }
  }

  lemma SelectDirect(e: string, cols: seq<string>)
    requires forall c | c in cols :: PlainColumn(c)
    ensures SelectLine(e, cols) == e + ":SELECT " + Join(cols) + " FROM " + e + " WHERE 1=1\n"
  {
    var p := e + ":SELECT ";
    assert p[|p| - 1] == ' ';
    if cols != [] {
      assert PlainColumn(cols[|cols| - 1]);
    }
    TrimTerminated(p, cols);
  }

  lemma PlaceholdersDirect(cols: seq<string>)
    requires forall c | c in cols :: PlainColumn(c)
    ensures Placeholders(cols) == Join(Marks(cols))
  {
    var m := Marks(cols);
    if cols != [] {
      var c := cols[|cols| - 1];
      assert PlainColumn(c);
      assert m[|m| - 1] == ":" + c;
    }
    TrimTerminated([], m);
    assert [] + Terminated(m) == Terminated(m);
  }

  lemma InsertDirect(e: string, cols: seq<string>)
    requires forall c | c in cols :: PlainColumn(c)
    ensures InsertLine(e, cols) ==
      e + ":INSERT INTO " + e + "(" + Join(cols) + ") VALUES (" + Join(Marks(LowerAll(cols))) + ")\n"
  {
    PlaceholdersDirect(cols);
    ReplaceJoinMarks(cols);
    ToLowerJoin(Marks(cols));
    LowerMarks(cols);
  }

  lemma UpdateDirect(e: string, cols: seq<string>)
    requires forall c | c in cols :: PlainColumn(c)
    ensures UpdateLine(e, cols) == e + ":UPDATE " + e + " SET " + Join(Assignments(cols)) + " WHERE 1=1\n\n"
  {
    var p := e + ":UPDATE " + e + " SET ";
    assert p[|p| - 1] == ' ';
    var a := Assignments(cols);
    if cols != [] {
      var c := cols[|cols| - 1];
      assert PlainColumn(c);
      var l := ToLower(c);
      assert l[|l| - 1] == LowerChar(c[|c| - 1]) != ',';
      assert a[|a| - 1] == c + " = :" + l;
    }
    TrimTerminated(p, a);
  }

  /** On column names written as SQL identifiers, each entity's triad reads: the columns
      in row order after SELECT and INTO, their lower-case parameters after VALUES, and
      `c = :lower(c)` for each after SET, with no trailing comma anywhere. */
  lemma TriadDirect(e: string, cols: seq<string>)
    requires forall c | c in cols :: PlainColumn(c)
    ensures Triad(e, cols) == DirectTriad(e, cols)
  {
    SelectDirect(e, cols);
    InsertDirect(e, cols);
    UpdateDirect(e, cols);
  }

  /** An entity without columns (a table the query did not find) still gets its three
      statements, with empty lists. */
  lemma TriadNoColumns(e: string)
    ensures Triad(e, []) ==
      e + ":SELECT  FROM " + e + " WHERE 1=1\n" +
      e + ":INSERT INTO " + e + "() VALUES ()\n" +
      e + ":UPDATE " + e + " SET  WHERE 1=1\n\n"
  {
    TriadDirect(e, []);
    assert Join([]) == "" && Join(Marks(LowerAll([]))) == "" && Join(Assignments([])) == "";
    assert e + ":SELECT " + "" + " FROM " == e + ":SELECT  FROM ";
    assert e + ":INSERT INTO " + e + "(" + "" + ") VALUES (" + "" + ")\n" == e + ":INSERT INTO " + e + "() VALUES ()\n";
    assert e + ":UPDATE " + e + " SET " + "" + " WHERE 1=1\n\n" == e + ":UPDATE " + e + " SET  WHERE 1=1\n\n";
  }

  // ---------------------------------------------------------------------------
  // The whole text
  // ---------------------------------------------------------------------------

  /** The text of a list of entities is the texts of its parts, in order. */
  lemma {:induction false} QueriesAppend(a: seq<Table>, b: seq<Table>)
    ensures Queries(a + b) == Queries(a) + Queries(b)
    decreases |b|
  {
    if b == [] {
      assert a + b == a;
    } else {
      var n := |b|;
      var ab := a + b;
      assert ab[..|ab| - 1] == a + b[..n - 1] && ab[|ab| - 1] == b[n - 1];
      QueriesSnoc(ab);
      QueriesSnoc(b);
      QueriesAppend(a, b[..n - 1]);
      Assoc(Queries(a), Queries(b[..n - 1]), EntityText(b[n - 1]));
    }
  }

  lemma QueriesSnoc(ts: seq<Table>)
    requires ts != []
    ensures Queries(ts) == Queries(ts[..|ts| - 1]) + EntityText(ts[|ts| - 1])
  {
  }

  lemma {:induction false} TerminatedAbsent(xs: seq<string>, ch: char)
    requires ch != ',' && forall x | x in xs :: ch !in x
    ensures ch !in Terminated(xs)
    decreases |xs|
  {
    if xs != [] {
      assert forall x | x in xs[..|xs| - 1] :: x in xs;
      TerminatedAbsent(xs[..|xs| - 1], ch);
      assert xs[|xs| - 1] in xs;
    }
  }

  lemma TrimRightAbsent(s: string, c: char, ch: char)
    requires ch !in s
    ensures ch !in TrimRight(s, c)
  {
    var r := TrimRight(s, c);
    assert forall i | 0 <= i < |r| :: r[i] == s[i];
  }

  /** A statement, the INSERT line and the UPDATE line with its blank line end in one,
      one and two newlines. */
  lemma LineEnds(x: string)
    requires '\n' !in x
    ensures CountChar(x + " WHERE 1=1\n", '\n') == 1
    ensures CountChar(x + ")\n", '\n') == 1
    ensures CountChar(x + " WHERE 1=1\n\n", '\n') == 2
  {
    assert x + " WHERE 1=1\n" == (x + " WHERE 1=1") + "\n";
    OneLine(x + " WHERE 1=1");
    assert x + ")\n" == (x + ")") + "\n";
    OneLine(x + ")");
    assert x + " WHERE 1=1\n\n" == (x + " WHERE 1=1\n") + "\n";
    CountCharAppend(x + " WHERE 1=1\n", "\n", '\n');
    OneLine([]);
    assert [] + "\n" == "\n";
  }

  lemma SelectLineCount(e: string, cols: seq<string>)
    requires '\n' !in e && forall c | c in cols :: '\n' !in c
    ensures CountChar(SelectLine(e, cols), '\n') == 1
  {
    TerminatedAbsent(cols, '\n');
    var sel := e + ":SELECT " + Terminated(cols);
    TrimRightAbsent(sel, ',', '\n');
    LineEnds(TrimRight(sel, ',') + " FROM " + e);
  }

  lemma PlaceholdersAbsent(cols: seq<string>, ch: char)
    requires ch != ',' && ch != ':' && forall c | c in cols :: ch !in c
    ensures ch !in Placeholders(cols)
  {
    var m := Marks(cols);
    assert forall x | x in m :: ch !in x;
    TerminatedAbsent(m, ch);
    TrimRightAbsent(Terminated(m), ',', ch);
  }

  lemma InsertLineCount(e: string, cols: seq<string>)
    requires '\n' !in e && forall c | c in cols :: '\n' !in c
    ensures CountChar(InsertLine(e, cols), '\n') == 1
  {
    var p := Placeholders(cols);
    PlaceholdersAbsent(cols, '\n');
    ReplaceAbsent(p, ":", "", '\n');
    ToLowerAbsent(p, '\n');
    var x := e + ":INSERT INTO " + e + "(" + Replace(p, ":", "") + ") VALUES (" + ToLower(p);
    assert '\n' !in x;
    LineEnds(x);
  }

  lemma UpdateLineCount(e: string, cols: seq<string>)
    requires '\n' !in e && forall c | c in cols :: '\n' !in c
    ensures CountChar(UpdateLine(e, cols), '\n') == 2
  {
    var a := Assignments(cols);
    forall i | 0 <= i < |cols| ensures '\n' !in a[i] {
      ToLowerAbsent(cols[i], '\n');
    }
    TerminatedAbsent(a, '\n');
    var upd := e + ":UPDATE " + e + " SET " + Terminated(a);
    TrimRightAbsent(upd, ',', '\n');
    LineEnds(TrimRight(upd, ','));
  }

  /** With no newline in the names, each triad is exactly three lines and a blank one. */
  lemma TriadLines(e: string, cols: seq<string>)
    requires '\n' !in e && forall c | c in cols :: '\n' !in c
    ensures CountChar(Triad(e, cols), '\n') == 4
  {
    SelectLineCount(e, cols);
    InsertLineCount(e, cols);
    UpdateLineCount(e, cols);
    CountCharAppend(SelectLine(e, cols) + InsertLine(e, cols), UpdateLine(e, cols), '\n');
    CountCharAppend(SelectLine(e, cols), InsertLine(e, cols), '\n');
  }

  lemma EntityLines(t: Table)
    requires '\n' !in t.entity && forall c | c in t.columns :: '\n' !in c
    ensures CountChar(EntityText(t), '\n') == 4
  {
    var k := TrimSpaceInfix(t.entity);
    var e := TrimSpace(t.entity);
    assert forall i | 0 <= i < |e| :: e[i] == t.entity[k + i];
    TriadLines(e, t.columns);
  }

  /** With no newline in the names, the text has exactly four newlines per entity: one triad
      of three lines and a blank line each. */
  lemma {:induction false} QueriesLines(ts: seq<Table>)
    requires forall t | t in ts :: '\n' !in t.entity && forall c | c in t.columns :: '\n' !in c
    ensures CountChar(Queries(ts), '\n') == 4 * |ts|
    decreases |ts|
  {
    if ts != [] {
      var n := |ts|;
      var t := ts[n - 1];
      assert t in ts;
      assert forall u | u in ts[..n - 1] :: u in ts;
      QueriesLines(ts[..n - 1]);
      QueriesSnoc(ts);
      EntityLines(t);
      CountCharAppend(Queries(ts[..n - 1]), EntityText(t), '\n');
    }
  }
}
