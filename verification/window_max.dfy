/**
  The second and third stages of the aggregation: the maximum total of each
  user over the aggregated table (a window partitioned by user), and the filter
  that keeps every row whose total equals its user's maximum.
 */
module WindowMax {
  import opened Wrappers
  import opened Transactions
  import opened GroupSum

  /** The table holds some row of user `u`. */
  predicate HasUser(rows: seq<Row>, u: UserId)
  {
    exists i :: 0 <= i < |rows| && rows[i].user == u
  }

  /**
    The largest total among the rows of user `u`, which is the value the
    window `max(total_amount) over partitionBy(user_id)` attaches to each of
    them; None when `u` has no row.
   */
  function UserMax(rows: seq<Row>, u: UserId): (m: Option<int>)
    ensures m.None? <==> !HasUser(rows, u)
    ensures m.Some? ==> exists i :: 0 <= i < |rows| && rows[i].user == u && rows[i].total == m.value
    ensures m.Some? ==> forall i :: 0 <= i < |rows| && rows[i].user == u ==> rows[i].total <= m.value
  {
    if |rows| == 0 then None
    else
      var rest := UserMax(rows[1..], u);
      assert forall i :: 1 <= i < |rows| ==> rows[i] == rows[1..][i - 1];
      if rows[0].user != u then
        rest
      else if rest.None? || rest.value <= rows[0].total then
        Some(rows[0].total)
      else
        rest
  }

  /**
    Keeps, in order, the rows of `rest` whose total equals the maximum of
    their user over `table`.
   */
  function KeepMax(table: seq<Row>, rest: seq<Row>): (r: seq<Row>)
    ensures forall row :: row in r <==> row in rest && UserMax(table, row.user) == Some(row.total)
  {
    if |rest| == 0 then []
    else
      var tail := KeepMax(table, rest[1..]);
      assert rest == [rest[0]] + rest[1..];
      if UserMax(table, rest[0].user) == Some(rest[0].total) then [rest[0]] + tail else tail
  }

  /** Filtering a table with distinct keys leaves its keys distinct. */
  lemma {:induction false} KeepMaxDistinct(table: seq<Row>, rest: seq<Row>)
    requires DistinctKeys(rest)
    ensures DistinctKeys(KeepMax(table, rest))
  {
    if |rest| > 0 {
      var tail := KeepMax(table, rest[1..]);
      DistinctTail(rest);
      KeepMaxDistinct(table, rest[1..]);
      if UserMax(table, rest[0].user) == Some(rest[0].total) {
        assert forall j :: 0 <= j < |tail| ==> tail[j] in rest[1..];
        assert !HasKey(tail, rest[0].user, rest[0].counterparty);
        DistinctCons(rest[0], tail);
      }
    }
  }
}
