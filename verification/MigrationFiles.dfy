/** src/db/migrate.ts: `listMigrationFiles`, the order in which deltas are applied. */
module MigrationFiles {
  import opened Lists
  import opened Strings

  predicate IsSql(name: string) {
    |name| >= 4 && name[|name| - 4..] == ".sql"
  }

  function SqlFiles(names: seq<string>): seq<string> {
    if names == [] then [] else (if IsSql(names[0]) then [names[0]] else []) + SqlFiles(names[1..])
  }

  function Insert(name: string, sorted: seq<string>): seq<string> {
    if sorted == [] || Before(name, sorted[0]) then [name] + sorted
    else [sorted[0]] + Insert(name, sorted[1..])
  }

  function Sort(names: seq<string>): seq<string> {
    if names == [] then [] else Insert(names[0], Sort(names[1..]))
  }

  /** `listMigrationFiles`; a missing directory reads as the empty listing. */
  function ListMigrationFiles(listing: seq<string>): seq<string> {
    Sort(SqlFiles(listing))
  }

  ghost predicate Ascending(files: seq<string>) {
    forall i, j | 0 <= i < j < |files| :: Before(files[i], files[j])
  }

  lemma {:induction false} InsertAscending(name: string, sorted: seq<string>)
    requires Ascending(sorted) && name !in sorted
    ensures Ascending(Insert(name, sorted))
    ensures forall f :: f in Insert(name, sorted) <==> f == name || f in sorted
  {
    if sorted != [] {
      var first, rest := sorted[0], sorted[1..];
      assert forall f :: f in sorted <==> f == first || f in rest;
      if Before(name, first) {
        forall j | 0 <= j < |rest| ensures Before(name, rest[j]) {
          assert Before(sorted[0], sorted[j + 1]);
          BeforeTransitive(name, first, rest[j]);
        }
      } else {
        BeforeTotal(name, first);
        assert forall i, j | 0 <= i < j < |rest| :: rest[i] == sorted[i + 1] && rest[j] == sorted[j + 1];
        InsertAscending(name, rest);
        var tail := Insert(name, rest);
        forall j | 0 <= j < |tail| ensures Before(first, tail[j]) {
          assert tail[j] in tail;
          if tail[j] in rest {
            var k :| 0 <= k < |rest| && rest[k] == tail[j];
            assert Before(sorted[0], sorted[k + 1]);
          }
        }
      }
    }
  }

  lemma {:induction false} SqlFilesExact(names: seq<string>)
    requires Distinct(names)
    ensures Distinct(SqlFiles(names)) && forall f :: f in SqlFiles(names) <==> f in names && IsSql(f)
  {
    if names != [] {
      var rest := names[1..];
      assert forall i, j | 0 <= i < j < |rest| :: rest[i] == names[i + 1] && rest[j] == names[j + 1];
      assert forall f :: f in names <==> f == names[0] || f in rest;
      assert names[0] !in rest;
      SqlFilesExact(rest);
    }
  }

  lemma {:induction false} SortExact(names: seq<string>)
    requires Distinct(names)
    ensures Ascending(Sort(names)) && forall f :: f in Sort(names) <==> f in names
  {
    if names != [] {
      var rest := names[1..];
      assert forall i, j | 0 <= i < j < |rest| :: rest[i] == names[i + 1] && rest[j] == names[j + 1];
      assert forall f :: f in names <==> f == names[0] || f in rest;
      assert names[0] !in rest;
      SortExact(rest);
      InsertAscending(names[0], Sort(rest));
    }
  }

  lemma IsSqlExactly(name: string)
    ensures IsSql(name) <==> exists stem :: name == stem + ".sql"
  {
    if IsSql(name) {
      assert name == name[..|name| - 4] + ".sql";
    }
  }

  /** The list is strictly ascending by code, so without duplicates, and holds exactly the names that end
      in .sql. */
  lemma ListExact(listing: seq<string>)
    requires Distinct(listing)
    ensures Ascending(ListMigrationFiles(listing)) && Distinct(ListMigrationFiles(listing))
    ensures var files := ListMigrationFiles(listing);
            forall i, j | 0 <= i < j < |files| :: Precedes(files[i], files[j])
    ensures forall f :: f in ListMigrationFiles(listing) <==> f in listing && exists stem :: f == stem + ".sql"
  {
    SqlFilesExact(listing);
    SortExact(SqlFiles(listing));
    var files := ListMigrationFiles(listing);
    forall f ensures f in files <==> f in listing && exists stem :: f == stem + ".sql" {
      IsSqlExactly(f);
    }
    forall i, j | 0 <= i < j < |files| ensures files[i] != files[j] && Precedes(files[i], files[j]) {
      assert Before(files[i], files[j]);
      BeforeTotal(files[i], files[j]);
      BeforeExactly(files[i], files[j]);
    }
  }

  /** Two listings with the same names give the same list, whatever their order. */
  lemma ListUnique(a: seq<string>, b: seq<string>)
    requires Distinct(a) && Distinct(b) && forall f :: f in a <==> f in b
    ensures ListMigrationFiles(a) == ListMigrationFiles(b)
  {
    ListExact(a);
    ListExact(b);
    AscendingUnique(ListMigrationFiles(a), ListMigrationFiles(b));
  }

  lemma {:induction false} AscendingUnique(a: seq<string>, b: seq<string>)
    requires Ascending(a) && Ascending(b) && forall f :: f in a <==> f in b
    ensures a == b
  {
    assert b != [] ==> b[0] in b;
    if a != [] {
      assert a[0] in b && b[0] in a;
      FirstIsLeast(a, b[0]);
      FirstIsLeast(b, a[0]);
      BeforeTotal(a[0], b[0]);
      RestMembers(a);
      RestMembers(b);
      AscendingUnique(a[1..], b[1..]);
    }
  }

  lemma FirstIsLeast(a: seq<string>, f: string)
    requires Ascending(a) && f in a
    ensures a[0] == f || Before(a[0], f)
  {
  }

  lemma RestMembers(a: seq<string>)
    requires Ascending(a) && a != []
    ensures Ascending(a[1..]) && forall f :: f in a[1..] <==> f in a && f != a[0]
  {
    assert forall i, j | 0 <= i < j < |a[1..]| :: a[1..][i] == a[i + 1] && a[1..][j] == a[j + 1];
    forall f | f in a[1..] ensures f in a && f != a[0] {
      var k :| 0 <= k < |a[1..]| && a[1..][k] == f;
      assert Before(a[0], a[k + 1]);
      BeforeTotal(a[0], a[k + 1]);
    }
  }
}
