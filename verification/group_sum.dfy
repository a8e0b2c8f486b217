/**
  The first stage of the aggregation: group the transactions by the composite
  key (user, counterparty) and sum their amounts into one row per key.
 */
module GroupSum {
  import opened Transactions

  /** The table holds a row for the pair (u, c). */
  predicate HasKey(rows: seq<Row>, u: UserId, c: CounterpartyId)
  {
    exists i :: 0 <= i < |rows| && rows[i].user == u && rows[i].counterparty == c
  }

  /** No two rows of the table share a (user, counterparty) key. */
  predicate DistinctKeys(rows: seq<Row>)
  {
    forall i, j :: 0 <= i < j < |rows| ==>
      rows[i].user != rows[j].user || rows[i].counterparty != rows[j].counterparty
  }

  /** The sum of the totals of the rows keyed (u, c); zero when there is none. */
  function TotalIn(rows: seq<Row>, u: UserId, c: CounterpartyId): int
  {
    if |rows| == 0 then 0
    else (if rows[0].user == u && rows[0].counterparty == c then rows[0].total else 0)
         + TotalIn(rows[1..], u, c)
  }

  /**
    Folds one transaction into the table: its amount is added to the row of
    its pair, or a new row is appended when the pair is new.
   */
  function AddTxn(rows: seq<Row>, t: Txn): (r: seq<Row>)
    ensures forall u, c :: HasKey(r, u, c) <==> HasKey(rows, u, c) || (u == t.user && c == t.counterparty)
    ensures forall u, c :: TotalIn(r, u, c) == TotalIn(rows, u, c) + Contribution(t, u, c)
    ensures DistinctKeys(rows) ==> DistinctKeys(r)
  {
    if |rows| == 0 then
      var r := [Row(t.user, t.counterparty, t.amount)];
      assert r[0].user == t.user && r[0].counterparty == t.counterparty;
      r
    else if rows[0].user == t.user && rows[0].counterparty == t.counterparty then
      var r := [rows[0].(total := rows[0].total + t.amount)] + rows[1..];
      assert r[1..] == rows[1..];
      assert forall i :: 0 <= i < |r| ==>
        r[i].user == rows[i].user && r[i].counterparty == rows[i].counterparty;
      r
    else
      var tail := AddTxn(rows[1..], t);
      var r := [rows[0]] + tail;
      assert r[1..] == tail;
      assert rows == [rows[0]] + rows[1..];
      HasKeyCons(rows[0], rows[1..]);
      HasKeyCons(rows[0], tail);
      if DistinctKeys(rows) then
        DistinctTail(rows);
        DistinctCons(rows[0], tail);
        r
      else
        r
  }

  /** Dropping the first row of a table keeps its keys distinct. */
  lemma DistinctTail(rows: seq<Row>)
    requires |rows| > 0 && DistinctKeys(rows)
    ensures DistinctKeys(rows[1..])
    ensures !HasKey(rows[1..], rows[0].user, rows[0].counterparty)
  {
    forall a, b | 0 <= a < b < |rows[1..]|
      ensures rows[1..][a].user != rows[1..][b].user || rows[1..][a].counterparty != rows[1..][b].counterparty
    {
      assert rows[1..][a] == rows[a + 1] && rows[1..][b] == rows[b + 1];
    }
    forall k | 0 <= k < |rows[1..]|
      ensures !(rows[1..][k].user == rows[0].user && rows[1..][k].counterparty == rows[0].counterparty)
    {
      assert rows[1..][k] == rows[k + 1];
    }
  }

  /** A row whose key is new to a table with distinct keys keeps them distinct in front of it. */
  lemma DistinctCons(row: Row, rows: seq<Row>)
    requires DistinctKeys(rows)
    requires !HasKey(rows, row.user, row.counterparty)
    ensures DistinctKeys([row] + rows)
  {
    var r := [row] + rows;
    forall a, b | 0 <= a < b < |r|
      ensures r[a].user != r[b].user || r[a].counterparty != r[b].counterparty
    {
      assert r[b] == rows[b - 1];
      if a > 0 {
        assert r[a] == rows[a - 1];
      }
    }
  }

  /**
    The aggregated table of `groupBy(user_id, counterparty_id).agg(sum(amount))`:
    one row per distinct pair of the input, holding that pair's exact sum.
   */
  function Aggregate(txns: seq<Txn>): (r: seq<Row>)
    ensures forall u, c :: HasKey(r, u, c) <==> Occurs(txns, u, c)
    ensures forall u, c :: TotalIn(r, u, c) == PairSum(txns, u, c)
  {
    if |txns| == 0 then []
    else
      var prefix := txns[..|txns| - 1];
      var t := txns[|txns| - 1];
      assert txns == prefix + [t];
      PairSumSnoc(prefix, t);
      assert forall u, c :: Occurs(txns, u, c) <==>
        Occurs(prefix, u, c) || (u == t.user && c == t.counterparty);
      AddTxn(Aggregate(prefix), t)
  }

  /** A table with one more row in front holds the keys of both. */
  lemma HasKeyCons(row: Row, rows: seq<Row>)
    ensures forall u, c :: HasKey([row] + rows, u, c) <==>
      (row.user == u && row.counterparty == c) || HasKey(rows, u, c)
  {
    assert ([row] + rows)[0] == row;
    forall u, c | HasKey(rows, u, c)
      ensures HasKey([row] + rows, u, c)
    {
      var i :| 0 <= i < |rows| && rows[i].user == u && rows[i].counterparty == c;
      assert ([row] + rows)[i + 1] == rows[i];
    }
    forall u, c | HasKey([row] + rows, u, c) && !(row.user == u && row.counterparty == c)
      ensures HasKey(rows, u, c)
    {
      var i :| 0 <= i < |[row] + rows| && ([row] + rows)[i].user == u && ([row] + rows)[i].counterparty == c;
      assert rows[i - 1] == ([row] + rows)[i];
    }
  }

  /** The aggregated table never holds two rows for one pair. */
  lemma {:induction false} AggregateDistinct(txns: seq<Txn>)
    ensures DistinctKeys(Aggregate(txns))
  {
    if |txns| > 0 {
      AggregateDistinct(txns[..|txns| - 1]);
    }
  }

  /** A pair absent from the table contributes nothing to it. */
  lemma {:induction false} TotalInAbsent(rows: seq<Row>, u: UserId, c: CounterpartyId)
    requires !HasKey(rows, u, c)
    ensures TotalIn(rows, u, c) == 0
  {
    if |rows| > 0 {
      assert !HasKey(rows[1..], u, c) by {
        forall i | 0 <= i < |rows[1..]|
          ensures !(rows[1..][i].user == u && rows[1..][i].counterparty == c)
        {
          assert rows[1..][i] == rows[i + 1];
        }
      }
      TotalInAbsent(rows[1..], u, c);
    }
  }

  /** In a table with distinct keys, the total looked up by a row's key is that row's total. */
  lemma {:induction false} TotalInRow(rows: seq<Row>, i: int)
    requires DistinctKeys(rows)
    requires 0 <= i < |rows|
    ensures TotalIn(rows, rows[i].user, rows[i].counterparty) == rows[i].total
  {
    var u, c := rows[i].user, rows[i].counterparty;
    DistinctTail(rows);
    if i == 0 {
      TotalInAbsent(rows[1..], u, c);
    } else {
      assert rows[1..][i - 1] == rows[i];
      TotalInRow(rows[1..], i - 1);
    }
  }

  /** Every row of the aggregated table holds the exact sum of its pair. */
  lemma AggregateRowExact(txns: seq<Txn>, i: int)
    requires 0 <= i < |Aggregate(txns)|
    ensures Aggregate(txns)[i].total == PairSum(txns, Aggregate(txns)[i].user, Aggregate(txns)[i].counterparty)
    ensures Occurs(txns, Aggregate(txns)[i].user, Aggregate(txns)[i].counterparty)
  {
    AggregateDistinct(txns);
    TotalInRow(Aggregate(txns), i);
  }
}
