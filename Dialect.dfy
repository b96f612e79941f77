/** What the two generators share about the database they talk to: the driver the -motor
    flag selects and the parameter placeholders of its SQL dialect. */
module Dialect {

  /** The -motor flag after start-up: "oracle" names the godror driver. */
  function Driver(motor: string): (d: string)
    ensures d == "godror" <==> motor == "oracle" || motor == "godror"
    ensures motor != "oracle" ==> d == motor
  {
    if motor == "oracle" then "godror" else motor
  }

  /** The placeholders of the table and schema parameters outside Oracle. */
  function Binds(driver: string): (string, string) {
    if driver == "postgres" then ("$1", "$2") else ("?", "?")
  }

  /** The filter of Oracle's catalog query: owner and table compared upper-cased, with the
      `:1`/`:2` binds, the columns in their declared order. */
  const OracleFilter: string := "WHERE UPPER(TABLE_NAME)=UPPER(:1) AND UPPER(OWNER)=UPPER(:2) ORDER BY COLUMN_ID"

  /** The filter of the INFORMATION_SCHEMA query, with no ordering. */
  function CatalogFilter(driver: string): string {
    "WHERE TABLE_NAME=" + Binds(driver).0 + " AND TABLE_SCHEMA=" + Binds(driver).1
  }

  lemma CatalogFilterCases(driver: string)
    ensures driver == "postgres" ==> CatalogFilter(driver) == "WHERE TABLE_NAME=$1 AND TABLE_SCHEMA=$2"
    ensures driver != "postgres" ==> CatalogFilter(driver) == "WHERE TABLE_NAME=? AND TABLE_SCHEMA=?"
  {
  }
}
