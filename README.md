# graphql-schema-generator, modelled in Dafny

The repository holds two small command-line generators. Both read column metadata from a
database catalog (Oracle through the godror driver, Postgres, or MySQL) for a list of
entities and write one text artifact.

- **schemagen** writes a GraphQL schema. For each entity it emits an object type
  `type <Title> {…}`. Each column becomes a field `<lower name>: <Scalar>[!]`. The native
  type and the scale pick the scalar, and `!` marks a non-nullable column. Three global
  text rewrites of the object types then derive three input families:
  - `input In…`;
  - `input Filter…`, with every `!` removed;
  - `input FilterAll…`, with every field type wrapped in a list.

  After these come the shared `Pagination` input, the `Query` root (`getRow…` and
  `getRows…` per entity) and the `Mutation` root (`create…` and `update…` per entity).
  If some column mapped to `Time`, the schema ends with `scalar Time`.
- **querygen** writes, for each entity, a SELECT, an INSERT and an UPDATE statement over
  its columns in row order, with named parameters.

The model takes each program's `makeSchemas` with the catalog rows as its input. The
rows are a sequence of tables, each an untrimmed entity name plus the rows its metadata
query returned.

Both generators are modelled as imperative methods with loops, as in the source:
- `SchemaGen.MakeSchemas` and its helpers `EmitTypes` and `EmitFields`;
- `QueryGen.MakeQueries` and its helper `EntityQueries`.

Each method is proved equal to a specification function (`Schema`, `Queries`). The
properties are proved as lemmas about those functions.

`Text` models the Go library calls the generators rely on, restricted to ASCII:
- `strings.ToLower`, `ToUpper`, `TrimSpace`, `Title` and `TrimRight`;
- `strings.Replace` with n = -1: leftmost, non-overlapping, all occurrences;
- the regular-expression rewrite `: (.*)` → `: [$1]`, as `ListWrap`;
- `strconv.Atoi` with its error ignored, as ParseUint scans the digits from left to right.
  A decimal integer gives its value, saturated to the 64-bit range. Text whose leading
  digits already exceed the uint64 maximum gives the 64-bit bound on the side of its sign,
  whatever follows them; `"99999999999999999999x"` gives the maximum. Any other text gives 0.

`Dialect` holds what both programs share: the `-motor` → driver rule and the dialect's
parameter placeholders.

The schema side has two definitions of the input families:
- as the source computes them, by rewriting the object text (`InputPass`, `FilterPass`,
  `FilterAllPass`);
- directly from the columns (`Inputs`, `Filters`, `FilterAlls`, `DirectSchema`).

`ChainMatchesDirect` proves the two equal when no name contains text the rewrites look
for. `SchemaFinding` shows a realistic table name on which they differ (see Findings).
`MakeSchemas` keeps the rewrite chain, as the source does.

The definitions follow the source line by line:
- `SchemaGen.MetadataQuery`: schemagen.go:70-81;
- `SchemaGen.MapType`: schemagen.go:113-137;
- `SchemaGen.MarkedType` and `FieldLine`: schemagen.go:139-143;
- `SchemaGen.Block` and `Objects`: schemagen.go:103-145;
- `SchemaGen.QueryFields` and `MutationFields`: schemagen.go:98-101;
- `SchemaGen.InputPass`: schemagen.go:147;
- `SchemaGen.FilterPass`: schemagen.go:149-150;
- `SchemaGen.FilterAllPass`: schemagen.go:152-153;
- `SchemaGen.EntityTitle`: schemagen.go:90-91;
- `SchemaGen.Schema`: schemagen.go:147-165;
- `QueryGen.MetadataQuery`: querygen.go:66-77;
- `QueryGen.Triad`: querygen.go:93-111, per entity;
- `QueryGen.Queries`: querygen.go:85-114;
- `Text.TrimSpace`: schemagen.go:90 and querygen.go:86;
- `Text.Title`: schemagen.go:91;
- `Text.Replace`: schemagen.go:147-152 and querygen.go:109;
- `Text.ListWrap`: schemagen.go:68 and 153;
- `Text.TrimRight`: querygen.go:107-110;
- `Text.Atoi`: schemagen.go:130.

## Model

| member | source | states |
|---|---|---|
| Dialect.Driver | schemagen.go:40-42 | the motor "oracle" becomes the godror driver; every other motor is kept as given |
| SchemaGen.MetadataQuery | schemagen.go:70-81 | Oracle's catalog query filters on upper-cased table and owner with `:1`/`:2` and orders by COLUMN_ID; otherwise INFORMATION_SCHEMA is filtered with `$1`/`$2` on postgres and `?`/`?` on any other driver |
| SchemaGen.MapTypeCases | schemagen.go:113-137 | the scalar is String exactly for the six string types, Time exactly for DATE, DATETIME or a type containing TIMESTAMP, Boolean exactly for BOOLEAN, and otherwise Float exactly when Atoi reads the scale text as above 0 (a decimal integer above 0, or text without a minus sign whose leading digits overflow uint64), else Int (empty or unparsable scale gives Int) |
| SchemaGen.MapTypeIgnoresCase | schemagen.go:113 | the type name is compared upper-cased, so its letter case does not change the scalar |
| SchemaGen.MarkedType | schemagen.go:139-141 | a field type carries `!` if and only if the nullable flag is exactly "N" or "NO" |
| SchemaGen.MarkedExactlyForNotNull | schemagen.go:139-141 | the `!` is the last character of the field type and occurs nowhere else in it |
| SchemaGen.EmitFields | schemagen.go:104-144 | the row loop emits one `    <lower name>: <type>` line per column in row order, and reports whether a column mapped to Time |
| SchemaGen.EmitTypes | schemagen.go:89-146 | the entity loop emits one object type per entity in order, the two Query and two Mutation lines per entity, and the `scalar` flag |
| SchemaGen.MakeSchemas | schemagen.go:60-166 | the schema is the object types, then the three rewritten copies, then Pagination, Query, Mutation and `scalar Time` when needed |
| SchemaGen.RenameSection | schemagen.go:147-149 | renaming a keyword that no clean name contains renames every header and nothing else |
| SchemaGen.StripSection | schemagen.go:150 | deleting every `!` from the clean Filter section leaves the same fields unmarked |
| SchemaGen.WrapLine | schemagen.go:153 | when the field name holds no `: `, `!`, `type `, `input In` or `input Filter`, the list rewrite turns the field line `name: T` into `name: [T]` |
| SchemaGen.WrapSection | schemagen.go:152-153 | on clean names the list rewrite wraps every field type of the FilterAll section and leaves its headers alone |
| SchemaGen.ChainMatchesDirect | schemagen.go:147-154 | on clean names each rewrite pass yields exactly the directly generated In, Filter and FilterAll types, and the whole schema equals the direct one |
| SchemaGen.FiltersUnmarked | schemagen.go:150-153 | no `!` remains in the Filter or FilterAll text, whatever the names |
| SchemaGen.ScalarTimeLast | schemagen.go:161-163 | the schema ends with `scalar Time` if and only if some column of some entity maps to Time |
| SchemaGen.EmptySchema | schemagen.go:156-159 | an empty entity list gives Pagination and empty Query and Mutation roots |
| SchemaGen.EntityFieldCount | schemagen.go:98-101 | when the entity title holds no newline, each entity adds exactly two Query lines and two Mutation lines |
| SchemaGen.RootFieldCount | schemagen.go:98-101 | when no entity title holds a newline, the Query and Mutation roots hold exactly two lines per entity |
| SchemaGen.DirectInputKeepsObject | schemagen.go:147 | the directly generated In type is the object type with only its leading keyword changed, for any entity name |
| SchemaFinding.UserTypeTitle | schemagen.go:90-91 | the entity USER_TYPE is titled `User_type` |
| SchemaFinding.TypeSuffixRenamed | schemagen.go:147 | the renaming pass also rewrites a `type ` that ends a name, not only the keyword |
| SchemaFinding.UserTypeInputMangled | schemagen.go:147 | for a table titled `User_type` the rewrite chain declares `input InUser_input In{`, not the intended `input InUser_type {` |
| Text.ToUpper | schemagen.go:113 | each character is upper-cased, length kept |
| Text.ToLower | schemagen.go:143 | each character is lower-cased, length kept |
| Text.TrimSpaceInfix | schemagen.go:90 | trimming yields a contiguous part of the name with no white space at either end; everything removed before and after it is white space |
| Text.TrimSpaceKeeps | schemagen.go:90 | a name without white space at its ends is kept unchanged |
| Text.Title | schemagen.go:91 | a character is upper-cased exactly when it starts the name or follows a character other than a letter, digit or underscore |
| Text.ReplacePrefix | schemagen.go:147 | a leading occurrence of the pattern is replaced and the rest rewritten after it |
| Text.ReplaceNoOcc | schemagen.go:147-152 | text with no occurrence of the pattern is left unchanged |
| Text.ReplaceAppend | schemagen.go:147-152 | replacing in two parts that no occurrence straddles replaces in each part |
| Text.ReplaceDeletes | schemagen.go:150 | deleting every `!` leaves none |
| Text.ListWrapNoOcc | schemagen.go:153 | a line without `: ` is not rewritten |
| Text.ListWrapAppend | schemagen.go:153 | the list rewrite works line by line |
| Text.ListWrapField | schemagen.go:153 | on `x: y` ending a line, the first `: ` of the line is followed by `[`, and `]` closes the rest of the line |
| Text.Atoi | schemagen.go:130 | the parsed scale stays within the 64-bit range |
| Text.ScanOutcome | schemagen.go:130 | ParseUint's scan ends in a range error exactly when some leading run of digits exceeds the uint64 maximum; it yields a value exactly for digits only that fit, and that value is the digits' decimal value |
| Text.AtoiCases | schemagen.go:130 | a decimal integer gives its signed value saturated to int64; other text whose leading digits overflow gives the bound on its sign's side; all other text gives 0 |
| Text.AtoiOverflowFirst | schemagen.go:130 | once a run of digits exceeds the uint64 maximum, nothing after it changes the result: the int64 bound on the side of the sign |
| Text.AtoiPositive | schemagen.go:130-132 | the parsed scale is above 0 if and only if there is no minus sign and either the text is a decimal integer with a digit other than 0 or its leading digits overflow uint64 |
| Text.TrimRight | querygen.go:107-110 | trimming removes only trailing commas, all of them, and keeps the text before them |
| QueryGen.MetadataQuery | querygen.go:66-77 | the column-name query on Oracle ends with the owner filter and ORDER BY COLUMN_ID; elsewhere it filters with `$1`/`$2` on postgres and `?`/`?` otherwise |
| QueryGen.OnlyOracleOrders | querygen.go:69-77 | the non-Oracle query has no ORDER BY |
| QueryGen.Marks | querygen.go:104 | the parameter of each column is `:` before the name, one per column in order |
| QueryGen.Assignments | querygen.go:105 | the SET item of each column is `c = :lower(c)`, one per column in order |
| QueryGen.EntityQueries | querygen.go:86-111 | the row loop with its trims and rewrites yields the entity's triad |
| QueryGen.MakeQueries | querygen.go:58-115 | the output is the metadata query and the triads of all entities in order |
| QueryGen.TerminatedJoin | querygen.go:103-105 | the row loop's list is the comma-joined list with one trailing comma |
| QueryGen.TrimTerminated | querygen.go:107-110 | trimming that list leaves the comma-joined list when the last item ends in something other than a comma |
| QueryGen.JoinCommas | querygen.go:103-107 | a joined list of `n` comma-free names holds `n - 1` commas |
| QueryGen.ReplaceJoinMarks | querygen.go:108-109 | on column names without `:`, deleting every `:` from the parameter list leaves the column list |
| QueryGen.ToLowerJoin | querygen.go:111 | lower-casing the joined list lower-cases each item |
| QueryGen.LowerMarks | querygen.go:111 | the lower-cased parameters are the parameters of the lower-cased names |
| QueryGen.SelectDirect | querygen.go:93-107 | on non-empty column names without `:` or `,`, the SELECT line is `e:SELECT c1,…,cn FROM e WHERE 1=1`, columns in row order |
| QueryGen.InsertDirect | querygen.go:94-111 | on non-empty column names without `:` or `,`, the INSERT line lists the columns after INTO and `:lower(c1),…,:lower(cn)` after VALUES |
| QueryGen.UpdateDirect | querygen.go:96-110 | on non-empty column names without `:` or `,`, the UPDATE line sets `c = :lower(c)` for each column in order, with no trailing comma |
| QueryGen.TriadDirect | querygen.go:93-111 | on identifier-like column names the triad is exactly the SELECT, INSERT and UPDATE lines above |
| QueryGen.TriadNoColumns | querygen.go:93-111 | an entity with no columns still gets its three statements, with empty lists |
| QueryGen.QueriesAppend | querygen.go:85-112 | the text of a list of entities is the texts of its parts, in entity order |
| QueryGen.TriadLines | querygen.go:111 | when neither the entity nor a column name holds a newline, each triad is three lines and a blank line |
| QueryGen.EntityLines | querygen.go:86-111 | when neither the entity nor a column name holds a newline, the triad of the trimmed entity name is three lines and a blank line |
| QueryGen.QueriesLines | querygen.go:85-112 | when no entity or column name holds a newline, the text holds exactly four newlines per entity |

## Left out

- Flag parsing, the required-flag check and `os.Exit(2)` (schemagen.go:25-43, querygen.go:23-41) are not modelled. The driver is a parameter; `Dialect.Driver` models only the motor rewrite.
- `main` is not modelled: it opens the database, splits `-entities` on commas and trims `-schema`. The entity list is an input. The schema name is used only by the database query.
- Database I/O is not modelled: `db.Prepare`, `stm.Query`, `rows.Next`, `rows.Scan` and `defer rows.Close`. The rows each query returned are an input. The `log.Println` after a failed Prepare and the `log.Fatalf` aborts on query or scan errors are not modelled either, because the model starts from rows that were read.
- `Write` in both programs is file I/O and is not modelled.
- Unicode is not modelled:
  - `strings.ToLower`, `ToUpper`, `Title` and `TrimSpace` act on ASCII only;
  - white space is the six ASCII space characters;
  - the regular expression is modelled by what it does on text whose lines end in `\n`.
- SchemaGen.MetadataQuery: states the filter that ends each dialect's query, not the column list before it.
- QueryGen.MetadataQuery: states the filter that ends each dialect's query, not the column list before it; `QueryGen.OnlyOracleOrders` adds that only Oracle orders the rows.
- SchemaGen.ScalarTimeLast: states that the schema ends with `scalar Time` exactly when a column maps to Time. It does not state that the phrase occurs nowhere else: a column or entity name could contain it.
- SchemaGen.ChainMatchesDirect: holds only for names the rewrites do not touch. These names contain no `type `, `input In`, `input Filter`, `: ` or `!`. The Findings section shows a name outside that condition.
- QueryGen.TriadDirect: holds only for column names that are non-empty and contain no `:` or `,`. On other names the generator's `TrimRight` and `Replace` also change the names. `QueryGen.Triad` models that behaviour for every input.

## Findings

| source | as written | input that shows it | evidently intended | confidence | as-written member | corrected member |
|---|---|---|---|---|---|---|
| schemagen.go:147 | `strings.Replace(data, "type ", "input In", -1)` rewrites every `type ` in the object text, including one that ends an entity title | table `USER_TYPE` with no columns (title `User_type`): the In type is declared `input InUser_input In{`, so `InUser_type`, which the Mutation root's `createUser_type` takes, is never declared | only the leading `type ` keyword of each declaration becomes `input In`, as in direct generation (`Inputs`, `DirectSchema`) | not executed | SchemaFinding.UserTypeInputMangled | SchemaGen.DirectInputKeepsObject |
