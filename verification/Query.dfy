/** Reading the rows of a query. */
module Query {
  import opened Options

  /** The id of the row, if the query returns exactly one. */
  function OnlyRow(rows: set<nat>): (r: Option<nat>)
    ensures r.Some? <==> |rows| == 1
    ensures r.Some? ==> rows == {r.value}
  {
    if |rows| == 1 then
      var u :| u in rows;
      Singleton(rows, u);
      Some(u)
    else None
  }

  lemma Singleton(rows: set<nat>, u: nat)
    requires |rows| == 1 && u in rows
    ensures rows == {u}
  {
    assert |rows - {u}| == 0;
  }

  lemma OneRow(rows: set<nat>, u: nat)
    ensures OnlyRow(rows) == Some(u) <==> u in rows && forall v | v in rows :: v == u
  {
    if u in rows && forall v | v in rows :: v == u {
      assert rows == {u};
    }
  }
}
