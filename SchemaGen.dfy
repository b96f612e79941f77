/** The GraphQL schema generator: from the column metadata of each entity it builds one
    object type, the derived `In…`, `Filter…` and `FilterAll…` input types, the shared
    `Pagination` input, the `Query` and `Mutation` roots and, when needed, `scalar Time`. */
module SchemaGen {
  import opened Text
  import opened Dialect

  /** One row of the metadata query: column name, native type, scale text (empty when the
      catalog holds NULL) and the nullability flag, all as the driver returns them. */
  datatype Column = Column(name: string, dataType: string, scale: string, nullable: string)

  /** One item of the entity list, untrimmed, with the rows the metadata query returned for it. */
  datatype Table = Table(entity: string, rows: seq<Column>)

  /** The GraphQL scalar a column is declared with. */
  datatype Scalar = String | Time | Boolean | Float | Int {
    function Name(): (r: string)
      ensures 'p' !in r && ' ' !in r && '!' !in r && ':' !in r && '\n' !in r
    {
      match this
      case String => "String"
      case Time => "Time"
      case Boolean => "Boolean"
      case Float => "Float"
      case Int => "Int"
    }
  }

  // ---------------------------------------------------------------------------
  // Dialect
  // ---------------------------------------------------------------------------

  const OracleColumns: string := "SELECT COLUMN_NAME, DATA_TYPE, DATA_SCALE, NULLABLE FROM ALL_TAB_COLUMNS "
  const CatalogColumns: string := "SELECT COLUMN_NAME, DATA_TYPE, NUMERIC_SCALE, IS_NULLABLE FROM INFORMATION_SCHEMA.COLUMNS "

  /** The column-metadata query prepared once for all entities: Oracle's catalog with
      `:1`/`:2` binds in column order, otherwise INFORMATION_SCHEMA with `$1`/`$2` on
      Postgres and `?`/`?` elsewhere. */
  function MetadataQuery(driver: string): (q: string)
    ensures driver == "godror" ==> EndsWith(q, OracleFilter)
    ensures driver == "postgres" ==> EndsWith(q, "WHERE TABLE_NAME=$1 AND TABLE_SCHEMA=$2")
    ensures driver != "godror" && driver != "postgres" ==>
      EndsWith(q, "WHERE TABLE_NAME=? AND TABLE_SCHEMA=?")
  {
    assert "godror"[0] != "postgres"[0];
    if driver == "godror" then
      EndsWithAppend(OracleColumns, OracleFilter);
      OracleColumns + OracleFilter
    else
      CatalogFilterCases(driver);
      EndsWithAppend(CatalogColumns, CatalogFilter(driver));
      CatalogColumns + CatalogFilter(driver)
  }

  // ---------------------------------------------------------------------------
  // Type mapping
  // ---------------------------------------------------------------------------

  const StringTypes: seq<string> := ["VARCHAR", "VARCHAR2", "NVARCHAR", "NVARCHAR2", "CHAR", "TEXT"]

  predicate IsTimeType(up: string) {
    up == "DATE" || Contains(up, "TIMESTAMP") || up == "DATETIME"
  }

  /** The scalar for a native type name, compared upper-cased, and its scale text. */
  function MapType(dataType: string, scale: string): (t: Scalar)
  {
    var up := ToUpper(dataType);
    if up in StringTypes then String
    else if IsTimeType(up) then Time
    else if up == "BOOLEAN" then Boolean
    else if Atoi(scale) > 0 then Float
    else Int
  }

  function ColumnType(c: Column): Scalar {
    MapType(c.dataType, c.scale)
  }

  /** The nullability flags that mark a column as required; the comparison is exact. */
  predicate NotNull(nullable: string) {
    nullable == "N" || nullable == "NO"
  }

  /** The declared type of a field in an object or `In…` type. */
  function MarkedType(c: Column): (r: string)
    ensures '!' in r <==> NotNull(c.nullable)
    ensures NotNull(c.nullable) ==> r == ColumnType(c).Name() + "!"
    ensures !NotNull(c.nullable) ==> r == ColumnType(c).Name()
  {
    ColumnType(c).Name() + (if NotNull(c.nullable) then "!" else "")
  }

  /** The type name the generator gives an entity. */
  function EntityTitle(entity: string): string {
    Title(ToLower(TrimSpace(entity)))
  }

  function FieldName(c: Column): string {
    ToLower(c.name)
  }

  // ---------------------------------------------------------------------------
  // Declarations generated straight from the column model
  // ---------------------------------------------------------------------------

  /** How a family member writes a field's type: with the `!` marker, bare, or as a list. */
  datatype Style = Marked | Plain | Listed

  function StyledType(style: Style, c: Column): string {
    match style
    case Marked => MarkedType(c)
    case Plain => ColumnType(c).Name()
    case Listed => "[" + ColumnType(c).Name() + "]"
  }

  function FieldLine(style: Style, c: Column): string {
    "    " + FieldName(c) + ": " + StyledType(style, c) + "\n"
  }

  /** The field lines of one declaration, in row order. */
  function Lines(style: Style, rows: seq<Column>): string {
    if rows == [] then ""
    else Lines(style, rows[..|rows| - 1]) + FieldLine(style, rows[|rows| - 1])
  }

  function Block(keyword: string, style: Style, t: Table): string {
    keyword + EntityTitle(t.entity) + " {\n" + Lines(style, t.rows) + "}\n\n"
  }

  /** One declaration per entity, in entity order. */
  function Section(keyword: string, style: Style, ts: seq<Table>): string {
    if ts == [] then ""
    else Section(keyword, style, ts[..|ts| - 1]) + Block(keyword, style, ts[|ts| - 1])
  }

  function Objects(ts: seq<Table>): string { Section("type ", Marked, ts) }
  function Inputs(ts: seq<Table>): string { Section("input In", Marked, ts) }
  function Filters(ts: seq<Table>): string { Section("input Filter", Plain, ts) }
  function FilterAlls(ts: seq<Table>): string { Section("input FilterAll", Listed, ts) }

  // ---------------------------------------------------------------------------
  // The rewrite chain that derives the input families from the object types
  // ---------------------------------------------------------------------------

  function InputPass(objects: string): string {
    Replace(objects, "type ", "input In")
  }

  function FilterPass(inputs: string): string {
    Replace(Replace(inputs, "input In", "input Filter"), "!", "")
  }

  function FilterAllPass(filters: string): string {
    ListWrap(Replace(filters, "input Filter", "input FilterAll"))
  }

  /** The object types followed by the three derived families, as the rewrites produce them. */
  function Families(objects: string): string {
    var inputs := InputPass(objects);
    var filters := FilterPass(inputs);
    objects + inputs + filters + FilterAllPass(filters)
  }

  // ---------------------------------------------------------------------------
  // Root operations and assembly
  // ---------------------------------------------------------------------------

  const Pagination: string := "input Pagination {\n\tpageNumber: Int!\n\tpageSize: Int!\n}\n\n"

  function GetRowField(title: string): string {
    "    getRow" + title + "(filter: Filter" + title + "): " + title + "\n"
  }

  function GetRowsField(title: string): string {
    "    getRows" + title + "(filter: FilterAll" + title + ", pagination: Pagination): [" + title + "]\n"
  }

  function CreateField(title: string): string {
    "    create" + title + "(input: In" + title + "): " + title + "\n"
  }

  function UpdateField(title: string): string {
    "    update" + title + "(input: Filter" + title + ", filter: Filter" + title + "): " + title + "\n"
  }

  /** The two `Query` root fields of one entity. */
  function QueryFieldsOf(title: string): string {
    GetRowField(title) + GetRowsField(title)
  }

  /** The two `Mutation` root fields of one entity. */
  function MutationFieldsOf(title: string): string {
    CreateField(title) + UpdateField(title)
  }

  function QueryFields(ts: seq<Table>): string {
    if ts == [] then ""
    else QueryFields(ts[..|ts| - 1]) + QueryFieldsOf(EntityTitle(ts[|ts| - 1].entity))
  }

  function MutationFields(ts: seq<Table>): string {
    if ts == [] then ""
    else MutationFields(ts[..|ts| - 1]) + MutationFieldsOf(EntityTitle(ts[|ts| - 1].entity))
  }

  predicate AnyTime(rows: seq<Column>) {
    exists j | 0 <= j < |rows| :: ColumnType(rows[j]) == Time
  }

  predicate UsesTime(ts: seq<Table>) {
    exists i | 0 <= i < |ts| :: AnyTime(ts[i].rows)
  }

  lemma AnyTimeSnoc(rows: seq<Column>, j: nat)
    requires j < |rows|
    ensures AnyTime(rows[..j + 1]) == (AnyTime(rows[..j]) || ColumnType(rows[j]) == Time)
  {
    if AnyTime(rows[..j + 1]) && ColumnType(rows[j]) != Time {
      var k :| 0 <= k < j + 1 && ColumnType(rows[..j + 1][k]) == Time;
      assert rows[..j][k] == rows[k];
    }
    if AnyTime(rows[..j]) {
      var k :| 0 <= k < j && ColumnType(rows[..j][k]) == Time;
      assert rows[..j + 1][k] == rows[k];
    }
    if ColumnType(rows[j]) == Time {
      assert rows[..j + 1][j] == rows[j];
    }
  }

  lemma UsesTimeSnoc(ts: seq<Table>, i: nat)
    requires i < |ts|
    ensures UsesTime(ts[..i + 1]) == (UsesTime(ts[..i]) || AnyTime(ts[i].rows))
  {
    if UsesTime(ts[..i + 1]) && !AnyTime(ts[i].rows) {
      var k :| 0 <= k < i + 1 && AnyTime(ts[..i + 1][k].rows);
      assert ts[..i][k] == ts[k];
    }
    if UsesTime(ts[..i]) {
      var k :| 0 <= k < i && AnyTime(ts[..i][k].rows);
      assert ts[..i + 1][k] == ts[k];
    }
    if AnyTime(ts[i].rows) {
      assert ts[..i + 1][i] == ts[i];
    }
  }

  /** The `scalar Time` declaration, present only when some column maps to `Time`. */
  function ScalarDecl(ts: seq<Table>): string {
    if UsesTime(ts) then "scalar Time" else ""
  }

  /** The schema text as the generator writes it: the families derived by the rewrites,
      `Pagination`, the two roots and the optional scalar. */
  function Schema(ts: seq<Table>): string {
    Families(Objects(ts)) + Pagination +
    "type Query {\n" + QueryFields(ts) + "}\n\n" +
    "type Mutation {\n" + MutationFields(ts) + "}\n\n" +
    ScalarDecl(ts)
  }

  /** The same text with every family generated straight from the column model. */
  function DirectSchema(ts: seq<Table>): string {
    Objects(ts) + Inputs(ts) + Filters(ts) + FilterAlls(ts) + Pagination +
    "type Query {\n" + QueryFields(ts) + "}\n\n" +
    "type Mutation {\n" + MutationFields(ts) + "}\n\n" +
    ScalarDecl(ts)
  }

  // ---------------------------------------------------------------------------
  // The generator
  // ---------------------------------------------------------------------------

  /** The field lines of one object type, and whether one of its columns maps to `Time`. */
  method EmitFields(rows: seq<Column>) returns (lines: string, time: bool)
    ensures lines == Lines(Marked, rows)
    ensures time == AnyTime(rows)
  {
    lines, time := "", false;
    for j := 0 to |rows|
      invariant lines == Lines(Marked, rows[..j])
      invariant time == AnyTime(rows[..j])
    {
      var dataType := MapType(rows[j].dataType, rows[j].scale);
      if dataType == Time {
        time := true;
      }
      var typeText := dataType.Name();
      if rows[j].nullable == "N" || rows[j].nullable == "NO" {
        typeText := typeText + "!";
      }
      assert typeText == MarkedType(rows[j]);
      lines := lines + ("    " + ToLower(rows[j].name) + ": " + typeText + "\n");
      assert rows[..j + 1][..j] == rows[..j] && rows[..j + 1][j] == rows[j];
      AnyTimeSnoc(rows, j);
    }
    assert rows[..|rows|] == rows;
  }

  /** The object types of all entities in order, their root fields, and the `scalar` flag. */
  method EmitTypes(tables: seq<Table>) returns (data: string, typeQuery: string, typeMutation: string, scalar: bool)
    ensures data == Objects(tables)
    ensures typeQuery == QueryFields(tables)
    ensures typeMutation == MutationFields(tables)
    ensures scalar == UsesTime(tables)
  {
    data, typeQuery, typeMutation, scalar := "", "", "", false;
    for i := 0 to |tables|
      invariant data == Objects(tables[..i])
      invariant typeQuery == QueryFields(tables[..i])
      invariant typeMutation == MutationFields(tables[..i])
      invariant scalar == UsesTime(tables[..i])
    {
      var entityTitle := EntityTitle(tables[i].entity);
      typeQuery := typeQuery + (GetRowField(entityTitle) + GetRowsField(entityTitle));
      typeMutation := typeMutation + (CreateField(entityTitle) + UpdateField(entityTitle));
      var lines, time := EmitFields(tables[i].rows);
      scalar := scalar || time;
      data := data + ("type " + entityTitle + " {\n" + lines + "}\n\n");
      assert tables[..i + 1][..i] == tables[..i] && tables[..i + 1][i] == tables[i];
      UsesTimeSnoc(tables, i);
    }
    assert tables[..|tables|] == tables;
  }

  /** Builds the metadata query for the driver and the schema text for the tables. */
  method MakeSchemas(driver: string, tables: seq<Table>) returns (query: string, data: string)
    ensures query == MetadataQuery(driver)
    ensures data == Schema(tables)
  {
    query := MetadataQuery(driver);
    var typeQuery, typeMutation, scalar;
    data, typeQuery, typeMutation, scalar := EmitTypes(tables);
    var data2 := Replace(data, "type ", "input In");
    data := data + data2;
    data2 := Replace(data2, "input In", "input Filter");
    data2 := Replace(data2, "!", "");
    data := data + data2;
    data2 := Replace(data2, "input Filter", "input FilterAll");
    data2 := ListWrap(data2);
    data := data + data2;

    data := data + Pagination;
    data := data + "type Query {\n" + typeQuery + "}\n\n";
    data := data + "type Mutation {\n" + typeMutation + "}\n\n";
    if scalar {
      data := data + "scalar Time";
    }
  }

  // ---------------------------------------------------------------------------
  // The rewrite chain agrees with direct generation on clean names
  // ---------------------------------------------------------------------------

  /** Text none of whose parts the rewrites would touch. */
  predicate Clean(s: string) {
    NoOcc(s, "type ") && NoOcc(s, "input In") && NoOcc(s, "input Filter") && NoOcc(s, ": ") && '!' !in s
  }

  /** The entity's header text `Title {` and every field name are clean. */
  predicate CleanTable(t: Table) {
    Clean(EntityTitle(t.entity) + " {") && forall c | c in t.rows :: Clean(FieldName(c))
  }

  predicate CleanTables(ts: seq<Table>) {
    forall t | t in ts :: CleanTable(t)
  }

  /** The three header keywords the renaming passes look for. */
  predicate RenamePattern(p: string) {
    p == "type " || p == "input In" || p == "input Filter"
  }

  /** Facts about the keywords that the renaming proofs use. A keyword holds the letter 'p'
      ("type ", "input …"), and no scalar name, field tail or layout literal holds it.
      NoOccMissing then shows in one step that a keyword occurs in none of them. This is why
      Scalar.Name promises `'p' !in r`. */
  lemma RenamePatternFacts(p: string)
    requires RenamePattern(p)
    ensures p != [] && 'p' in p && '\n' !in p && ':' !in p && ' ' !in p[..1] && '\n' !in p[..|p| - 1]
    ensures ':' !in p[1..] && '\n' !in p[1..]
  {
  }

  /** The part of a field line after its name. */
  function Tail(style: Style, c: Column): (r: string)
    ensures r != [] && r[0] == ':' && r[|r| - 1] == '\n'
  {
    ": " + StyledType(style, c) + "\n"
  }

  lemma FieldLineSplit(style: Style, c: Column)
    ensures FieldLine(style, c) == ("    " + FieldName(c)) + Tail(style, c)
  {
  }

  lemma TailFree(style: Style, c: Column)
    ensures 'p' !in Tail(style, c)
    ensures style != Marked ==> '!' !in Tail(style, c)
  {
    var n := ColumnType(c).Name();
    assert 'p' !in n && '!' !in n;
  }

  lemma BlockSplit(keyword: string, style: Style, t: Table)
    ensures Block(keyword, style, t) ==
      (keyword + (EntityTitle(t.entity) + " {") + "\n") + Lines(style, t.rows) + "}\n\n"
  {
  }

  lemma {:induction false} LinesEnd(style: Style, rows: seq<Column>)
    ensures Lines(style, rows) == [] || Lines(style, rows)[|Lines(style, rows)| - 1] == '\n'
  {
  }

  lemma SectionEnd(keyword: string, style: Style, ts: seq<Table>)
    ensures Section(keyword, style, ts) == [] ||
      Section(keyword, style, ts)[|Section(keyword, style, ts)| - 1] == '\n'
  {
  }

  /** A clean field name never meets a renaming pattern, so its line is never renamed. */
  lemma {:induction false} LinesNoRename(style: Style, rows: seq<Column>, p: string)
    requires RenamePattern(p)
    requires forall c | c in rows :: Clean(FieldName(c))
    ensures NoOcc(Lines(style, rows), p)
  {
    RenamePatternFacts(p);
    if rows != [] {
      var init, c := rows[..|rows| - 1], rows[|rows| - 1];
      assert forall d | d in init :: d in rows;
      LinesNoRename(style, init, p);
      var head := "    " + FieldName(c);
      NoOccMissing("    ", p, 'p');
      NoStraddleLeftFree("    ", FieldName(c), p);
      NoOccAppend("    ", FieldName(c), p);
      TailFree(style, c);
      NoOccMissing(Tail(style, c), p, 'p');
      NoStraddleRightStart(head, Tail(style, c), p);
      NoOccAppend(head, Tail(style, c), p);
      FieldLineSplit(style, c);
      LinesEnd(style, init);
      if Lines(style, init) != [] {
        NoStraddleLeftEnd(Lines(style, init), FieldLine(style, c), p);
      }
      NoOccAppend(Lines(style, init), FieldLine(style, c), p);
    }
  }

  /** Renaming one block changes its keyword and nothing else. */
  lemma RenameBlock(p: string, q: string, style: Style, t: Table)
    requires RenamePattern(p) && CleanTable(t)
    ensures Replace(Block(p, style, t), p, q) == Block(q, style, t)
  {
    RenamePatternFacts(p);
    var x := EntityTitle(t.entity) + " {";
    var lines := Lines(style, t.rows);
    var rest := x + "\n";
    NoOccMissing("\n", p, 'p');
    NoStraddleRightStart(x, "\n", p);
    NoOccAppend(x, "\n", p);
    ReplaceNoOcc(rest, p, q);
    assert p + x + "\n" == p + rest;
    ReplacePrefix(rest, p, q);
    var head := p + x + "\n";
    assert Replace(head, p, q) == q + x + "\n";
    LinesNoRename(style, t.rows, p);
    ReplaceNoOcc(lines, p, q);
    NoStraddleLeftEnd(head, lines, p);
    ReplaceAppend(head, lines, p, q);
    NoStraddleLeftEnd(head + lines, "}\n\n", p);
    ReplaceAppend(head + lines, "}\n\n", p, q);
    NoOccMissing("}\n\n", p, 'p');
    ReplaceNoOcc("}\n\n", p, q);
    BlockSplit(p, style, t);
    BlockSplit(q, style, t);
  }

  /** Renaming a section renames each of its blocks. */
  lemma {:induction false} RenameSection(p: string, q: string, style: Style, ts: seq<Table>)
    requires RenamePattern(p) && CleanTables(ts)
    ensures Replace(Section(p, style, ts), p, q) == Section(q, style, ts)
  {
    if ts != [] {
      RenamePatternFacts(p);
      var init, t := ts[..|ts| - 1], ts[|ts| - 1];
      assert forall u | u in init :: u in ts;
      RenameSection(p, q, style, init);
      RenameBlock(p, q, style, t);
      SectionEnd(p, style, init);
      if Section(p, style, init) != [] {
        NoStraddleLeftEnd(Section(p, style, init), Block(p, style, t), p);
      }
      ReplaceAppend(Section(p, style, init), Block(p, style, t), p, q);
    }
  }

  /** Deleting `!` from a marked field line leaves the bare line. */
  lemma StripLine(c: Column)
    requires Clean(FieldName(c))
    ensures Replace(FieldLine(Marked, c), "!", "") == FieldLine(Plain, c)
  {
    var head := "    " + FieldName(c);
    var name := ColumnType(c).Name();
    NoOccMissing(head, "!", '!');
    ReplaceNoOcc(head, "!", "");
    NoStraddleSingle(head, Tail(Marked, c), "!");
    ReplaceAppend(head, Tail(Marked, c), "!", "");
    FieldLineSplit(Marked, c);
    FieldLineSplit(Plain, c);
    var pre := ": " + name;
    NoOccMissing(pre, "!", '!');
    ReplaceNoOcc(pre, "!", "");
    NoOccMissing("\n", "!", '!');
    ReplaceNoOcc("\n", "!", "");
    if NotNull(c.nullable) {
      assert Tail(Marked, c) == pre + "!" + "\n";
      NoStraddleSingle(pre + "!", "\n", "!");
      ReplaceAppend(pre + "!", "\n", "!", "");
      NoStraddleSingle(pre, "!", "!");
      ReplaceAppend(pre, "!", "!", "");
      ReplacePrefix([], "!", "");
      assert "!" + [] == "!";
    } else {
      assert Tail(Marked, c) == pre + "\n";
      NoStraddleSingle(pre, "\n", "!");
      ReplaceAppend(pre, "\n", "!", "");
    }
  }

  lemma {:induction false} StripLines(rows: seq<Column>)
    requires forall c | c in rows :: Clean(FieldName(c))
    ensures Replace(Lines(Marked, rows), "!", "") == Lines(Plain, rows)
  {
    if rows != [] {
      var init, c := rows[..|rows| - 1], rows[|rows| - 1];
      assert forall d | d in init :: d in rows;
      StripLines(init);
      StripLine(c);
      NoStraddleSingle(Lines(Marked, init), FieldLine(Marked, c), "!");
      ReplaceAppend(Lines(Marked, init), FieldLine(Marked, c), "!", "");
    }
  }

  /** Deleting `!` from an `input Filter…` block with marked fields leaves the bare block. */
  lemma StripBlock(t: Table)
    requires CleanTable(t)
    ensures Replace(Block("input Filter", Marked, t), "!", "") == Block("input Filter", Plain, t)
  {
    var head := "input Filter" + (EntityTitle(t.entity) + " {") + "\n";
    assert '!' !in head;
    NoOccMissing(head, "!", '!');
    ReplaceNoOcc(head, "!", "");
    StripLines(t.rows);
    NoStraddleSingle(head, Lines(Marked, t.rows), "!");
    ReplaceAppend(head, Lines(Marked, t.rows), "!", "");
    NoStraddleSingle(head + Lines(Marked, t.rows), "}\n\n", "!");
    ReplaceAppend(head + Lines(Marked, t.rows), "}\n\n", "!", "");
    NoOccMissing("}\n\n", "!", '!');
    ReplaceNoOcc("}\n\n", "!", "");
    BlockSplit("input Filter", Marked, t);
    BlockSplit("input Filter", Plain, t);
  }

  lemma {:induction false} StripSection(ts: seq<Table>)
    requires CleanTables(ts)
    ensures Replace(Section("input Filter", Marked, ts), "!", "") == Filters(ts)
  {
    if ts != [] {
      var init, t := ts[..|ts| - 1], ts[|ts| - 1];
      assert forall u | u in init :: u in ts;
      StripSection(init);
      StripBlock(t);
      NoStraddleSingle(Section("input Filter", Marked, init), Block("input Filter", Marked, t), "!");
      ReplaceAppend(Section("input Filter", Marked, init), Block("input Filter", Marked, t), "!", "");
    }
  }

  /** An indented clean field name followed by a colon holds no `": "`. */
  lemma IndentedNameNoColonSpace(n: string)
    requires Clean(n)
    ensures NoOcc("    " + n + ":", ": ")
  {
    NoOccMissing("    ", ": ", ':');
    NoStraddleLeftFree("    ", n, ": ");
    NoOccAppend("    ", n, ": ");
    NoOccMissing(":", ": ", ' ');
    NoStraddleRightStart("    " + n, ":", ": ");
    NoOccAppend("    " + n, ":", ": ");
  }

  lemma FieldLineForms(c: Column)
    ensures FieldLine(Plain, c) == "    " + FieldName(c) + ": " + ColumnType(c).Name() + "\n"
    ensures FieldLine(Listed, c) == "    " + FieldName(c) + ": [" + ColumnType(c).Name() + "]\n"
  {
  }

  /** The list-wrap rewrite turns a bare field line into its list form. */
  lemma WrapLine(c: Column)
    requires Clean(FieldName(c))
    ensures ListWrap(FieldLine(Plain, c)) == FieldLine(Listed, c)
  {
    IndentedNameNoColonSpace(FieldName(c));
    ListWrapField("    " + FieldName(c), ColumnType(c).Name());
    FieldLineForms(c);
  }

  lemma {:induction false} WrapLines(rows: seq<Column>)
    requires forall c | c in rows :: Clean(FieldName(c))
    ensures ListWrap(Lines(Plain, rows)) == Lines(Listed, rows)
  {
    if rows != [] {
      var init, c := rows[..|rows| - 1], rows[|rows| - 1];
      assert forall d | d in init :: d in rows;
      WrapLines(init);
      WrapLine(c);
      LinesEnd(Plain, init);
      ListWrapAppend(Lines(Plain, init), FieldLine(Plain, c));
    }
  }

  lemma WrapBlock(t: Table)
    requires CleanTable(t)
    ensures ListWrap(Block("input FilterAll", Plain, t)) == Block("input FilterAll", Listed, t)
  {
    var x := EntityTitle(t.entity) + " {";
    var kw := "input FilterAll";
    NoOccMissing(kw, ": ", ':');
    NoStraddleLeftFree(kw, x, ": ");
    NoOccAppend(kw, x, ": ");
    NoOccMissing("\n", ": ", ':');
    NoStraddleRightStart(kw + x, "\n", ": ");
    NoOccAppend(kw + x, "\n", ": ");
    var head := kw + x + "\n";
    ListWrapNoOcc(head);
    WrapLines(t.rows);
    ListWrapAppend(head, Lines(Plain, t.rows));
    LinesEnd(Plain, t.rows);
    ListWrapAppend(head + Lines(Plain, t.rows), "}\n\n");
    NoOccMissing("}\n\n", ": ", ':');
    ListWrapNoOcc("}\n\n");
    BlockSplit(kw, Plain, t);
    BlockSplit(kw, Listed, t);
  }

  lemma {:induction false} WrapSection(ts: seq<Table>)
    requires CleanTables(ts)
    ensures ListWrap(Section("input FilterAll", Plain, ts)) == FilterAlls(ts)
  {
    if ts != [] {
      var init, t := ts[..|ts| - 1], ts[|ts| - 1];
      assert forall u | u in init :: u in ts;
      WrapSection(init);
      WrapBlock(t);
      SectionEnd("input FilterAll", Plain, init);
      ListWrapAppend(Section("input FilterAll", Plain, init), Block("input FilterAll", Plain, t));
    }
  }

  /** On clean names the rewrite chain yields exactly the four families generated directly
      from the column model: same fields, same order, `!` only in the object and `In…`
      types, and list types only in `FilterAll…`. */
  lemma ChainMatchesDirect(ts: seq<Table>)
    requires CleanTables(ts)
    ensures InputPass(Objects(ts)) == Inputs(ts)
    ensures FilterPass(Inputs(ts)) == Filters(ts)
    ensures FilterAllPass(Filters(ts)) == FilterAlls(ts)
    ensures Schema(ts) == DirectSchema(ts)
  {
    RenameSection("type ", "input In", Marked, ts);
    RenameSection("input In", "input Filter", Marked, ts);
    StripSection(ts);
    RenameSection("input Filter", "input FilterAll", Plain, ts);
    WrapSection(ts);
  }

  // ---------------------------------------------------------------------------
  // Type mapping
  // ---------------------------------------------------------------------------

  /** The mapping does not depend on the case of the native type name. */
  lemma MapTypeIgnoresCase(dataType: string, scale: string)
    ensures MapType(ToLower(dataType), scale) == MapType(dataType, scale)
    ensures MapType(ToUpper(dataType), scale) == MapType(dataType, scale)
  {
    UpperOfLower(dataType);
    ToUpperIdempotent(dataType);
  }

  /** Which scalar each native type gets: the six character types give `String`, dates and
      any `TIMESTAMP` type give `Time`, BOOLEAN gives `Boolean`, and every other type gives
      `Float` exactly when Atoi reads its scale text as positive (no minus sign, and either a
      decimal that has a non-zero digit or leading digits that overflow uint64), `Int`
      otherwise (an empty or unparsable scale included). */
  lemma MapTypeCases(dataType: string, scale: string)
    ensures var up := ToUpper(dataType);
      var other := up !in StringTypes && !IsTimeType(up) && up != "BOOLEAN";
      var positive := ReadsPositive(scale);
      && (MapType(dataType, scale) == String <==> up in StringTypes)
      && (MapType(dataType, scale) == Time <==> up !in StringTypes && IsTimeType(up))
      && (MapType(dataType, scale) == Boolean <==> up == "BOOLEAN")
      && (MapType(dataType, scale) == Float <==> other && positive)
      && (MapType(dataType, scale) == Int <==> other && !positive)
  {
    AtoiPositive(scale);
    var up := ToUpper(dataType);
    if up == "BOOLEAN" {
      assert up !in StringTypes by {
        assert up[0] == 'B';
        forall k | 0 <= k < |StringTypes| ensures StringTypes[k][0] != 'B' {}
      }
      assert !IsTimeType(up) by {
        assert up != "DATE" && up != "DATETIME";
        NoOccMissing(up, "TIMESTAMP", 'T');
      }
    }
  }

  /** The field type in an object or `In…` type ends in `!` exactly when the column's
      nullable flag is "N" or "NO"; a lower-case or other flag leaves it bare. */
  lemma MarkedExactlyForNotNull(c: Column)
    ensures var r := MarkedType(c);
      (r[|r| - 1] == '!' <==> c.nullable == "N" || c.nullable == "NO") &&
      '!' !in r[..|r| - 1]
  {
    var n := ColumnType(c).Name();
    assert n != [] && '!' !in n && n[|n| - 1] != '!';
    if NotNull(c.nullable) {
      assert MarkedType(c)[..|MarkedType(c)| - 1] == n;
    } else {
      assert MarkedType(c)[..|MarkedType(c)| - 1] == n[..|n| - 1];
    }
  }

  // ---------------------------------------------------------------------------
  // Whole-schema properties of the text as the generator writes it
  // ---------------------------------------------------------------------------

  /** `scalar Time` ends the schema exactly when some column of some entity maps to `Time`. */
  lemma ScalarTimeLast(ts: seq<Table>)
    ensures EndsWith(Schema(ts), "scalar Time") <==> UsesTime(ts)
  {
    var body := Families(Objects(ts)) + Pagination +
      "type Query {\n" + QueryFields(ts) + "}\n\n" +
      "type Mutation {\n" + MutationFields(ts) + "}\n\n";
    if UsesTime(ts) {
      assert Schema(ts) == body + "scalar Time";
      assert Schema(ts)[|body|..] == "scalar Time";
    } else {
      assert Schema(ts) == body;
      assert body[|body| - 1] == '\n';
      assert "scalar Time"[10] == 'e';
    }
  }

  /** Whatever the object text, the `Filter…` and `FilterAll…` families carry no `!`. */
  lemma FiltersUnmarked(objects: string)
    ensures '!' !in FilterPass(InputPass(objects))
    ensures '!' !in FilterAllPass(FilterPass(InputPass(objects)))
  {
    var filters := FilterPass(InputPass(objects));
    ReplaceDeletes(Replace(InputPass(objects), "input In", "input Filter"), '!');
    assert "!" == ['!'];
    ReplaceAbsent(filters, "input Filter", "input FilterAll", '!');
    ListWrapAbsent(Replace(filters, "input Filter", "input FilterAll"), '!');
  }

  /** With no entities the schema is the `Pagination` input and two empty roots. */
  lemma EmptySchema()
    ensures Schema([]) == Pagination + "type Query {\n}\n\ntype Mutation {\n}\n\n"
  {
    assert Objects([]) == [];
    assert InputPass([]) == [];
    assert Replace([], "input In", "input Filter") == [];
    assert FilterPass([]) == [];
    assert Replace([], "input Filter", "input FilterAll") == [];
    assert FilterAllPass([]) == [];
    assert !UsesTime([]);
  }

  lemma EntityFieldCount(title: string)
    requires '\n' !in title
    ensures CountChar(QueryFieldsOf(title), '\n') == 2
    ensures CountChar(MutationFieldsOf(title), '\n') == 2
  {
    var getRow := "    getRow" + title + "(filter: Filter" + title + "): " + title;
    var getRows := "    getRows" + title + "(filter: FilterAll" + title + ", pagination: Pagination): [" + title + "]";
    var create := "    create" + title + "(input: In" + title + "): " + title;
    var update := "    update" + title + "(input: Filter" + title + ", filter: Filter" + title + "): " + title;
    assert '\n' !in getRow && '\n' !in getRows && '\n' !in create && '\n' !in update;
    OneLine(getRow);
    OneLine(getRows);
    OneLine(create);
    OneLine(update);
    assert GetRowField(title) == getRow + "\n" && GetRowsField(title) == getRows + "\n";
    assert CreateField(title) == create + "\n" && UpdateField(title) == update + "\n";
    CountCharAppend(GetRowField(title), GetRowsField(title), '\n');
    CountCharAppend(CreateField(title), UpdateField(title), '\n');
  }

  /** Each entity contributes exactly two `Query` lines and two `Mutation` lines. */
  lemma {:induction false} RootFieldCount(ts: seq<Table>)
    requires forall t | t in ts :: '\n' !in EntityTitle(t.entity)
    ensures CountChar(QueryFields(ts), '\n') == 2 * |ts|
    ensures CountChar(MutationFields(ts), '\n') == 2 * |ts|
  {
    if ts != [] {
      var init, title := ts[..|ts| - 1], EntityTitle(ts[|ts| - 1].entity);
      assert forall u | u in init :: u in ts;
      RootFieldCount(init);
      EntityFieldCount(title);
      CountCharAppend(QueryFields(init), QueryFieldsOf(title), '\n');
      CountCharAppend(MutationFields(init), MutationFieldsOf(title), '\n');
    }
  }

  // ---------------------------------------------------------------------------
  // Single declarations
  // ---------------------------------------------------------------------------

  lemma Regroup(k: string, e: string, l: string)
    ensures k + e + " {\n" + l + "}\n\n" == k + (e + " {\n" + l + "}\n\n")
  {
  }

  lemma SectionOne(keyword: string, style: Style, t: Table)
    ensures Section(keyword, style, [t]) == Block(keyword, style, t)
  {
    var ts := [t];
    assert ts[..|ts| - 1] == [];
    assert Section(keyword, style, ts) == Section(keyword, style, []) + Block(keyword, style, t);
  }

  /** Corrected: generated directly, every `In…` type is its object type with only the
      leading keyword changed, whatever the entity is called. */
  lemma DirectInputKeepsObject(t: Table)
    ensures Block("input In", Marked, t) == "input In" + Block("type ", Marked, t)[5..]
  {
    var e, l := EntityTitle(t.entity), Lines(Marked, t.rows);
    var rest := e + " {\n" + l + "}\n\n";
    Regroup("type ", e, l);
    Regroup("input In", e, l);
    assert ("type " + rest)[5..] == rest;
  }
}
