/** The backend name the database-status endpoint reports, found by looking
    for a driver name inside the connection string (app.py `database_status`). */
module DbType {

  const MYSQL := "MySQL"
  const SQLITE := "SQLite"
  const POSTGRESQL := "PostgreSQL"
  const UNKNOWN := "Unknown"

  predicate IsPrefix(p: string, s: string) {
    |p| <= |s| && s[..|p|] == p
  }

  /** Python's `sub in s`. */
  predicate Contains(s: string, sub: string)
    decreases |s|
  {
    IsPrefix(sub, s) || (s != [] && Contains(s[1..], sub))
  }

  /** `sub` occurs in `s` starting at index `i`. */
  predicate OccursAt(s: string, sub: string, i: int) {
    0 <= i <= |s| - |sub| && s[i..i + |sub|] == sub
  }

  /** `sub in s` holds exactly when `sub` occurs at some position of `s`. */
  lemma {:induction false} ContainsAt(s: string, sub: string)
    ensures Contains(s, sub) <==> exists i :: OccursAt(s, sub, i)
  {
    if IsPrefix(sub, s) {
      assert OccursAt(s, sub, 0);
    } else if s == [] {
    } else {
      ContainsAt(s[1..], sub);
      if exists i :: OccursAt(s, sub, i) {
        var i :| OccursAt(s, sub, i);
        assert i != 0;
        assert s[1..][i - 1..i - 1 + |sub|] == s[i..i + |sub|];
        assert OccursAt(s[1..], sub, i - 1);
      }
      if Contains(s[1..], sub) {
        var i :| OccursAt(s[1..], sub, i);
        assert s[i + 1..i + 1 + |sub|] == s[1..][i..i + |sub|];
        assert OccursAt(s, sub, i + 1);
      }
    }
  }

  /** The first driver name found, in the order MySQL, SQLite, PostgreSQL,
      stated by where the name occurs in the connection string. */
  function DetectDbType(uri: string): (name: string)
    ensures name == MYSQL <==> exists i :: OccursAt(uri, "mysql", i)
    ensures name == SQLITE <==>
              (forall i :: !OccursAt(uri, "mysql", i)) && exists i :: OccursAt(uri, "sqlite", i)
    ensures name == POSTGRESQL <==>
              (forall i :: !OccursAt(uri, "mysql", i)) && (forall i :: !OccursAt(uri, "sqlite", i)) &&
              exists i :: OccursAt(uri, "postgresql", i)
    ensures name in {MYSQL, SQLITE, POSTGRESQL, UNKNOWN}
  {
    ContainsAt(uri, "mysql");
    ContainsAt(uri, "sqlite");
    ContainsAt(uri, "postgresql");
    if Contains(uri, "mysql") then MYSQL
    else if Contains(uri, "sqlite") then SQLITE
    else if Contains(uri, "postgresql") then POSTGRESQL
    else UNKNOWN
  }

  /** A connection string that starts with a driver name is reported as that
      backend, unless it also names a driver checked earlier. */
  lemma SchemeNamesBackend(driver: string, rest: string)
    requires driver in {"mysql", "sqlite", "postgresql"}
    ensures driver == "mysql" ==> DetectDbType(driver + rest) == MYSQL
    ensures driver == "sqlite" && (forall i :: !OccursAt(driver + rest, "mysql", i)) ==>
              DetectDbType(driver + rest) == SQLITE
    ensures driver == "postgresql" && (forall i :: !OccursAt(driver + rest, "mysql", i)) &&
            (forall i :: !OccursAt(driver + rest, "sqlite", i)) ==>
              DetectDbType(driver + rest) == POSTGRESQL
  {
    assert OccursAt(driver + rest, driver, 0);
  }

  /** The whole connection string is searched, not just its scheme: "mysql"
      anywhere (a host, user or database name) makes the report MySQL. */
  lemma MysqlAnywhereWins(before: string, after: string)
    ensures DetectDbType(before + "mysql" + after) == MYSQL
  {
    var uri := before + "mysql" + after;
    assert uri[|before|..|before| + 5] == "mysql";
    assert OccursAt(uri, "mysql", |before|);
  }
}
