/**
  `find_max_counterparty_amount`: for every user, the counterparty (all of
  them, on a tie) to which the user transferred the largest summed amount.
  The result is characterised independently of the three-stage pipeline by
  `IsTopRow`, which speaks only of the input transactions.
 */
module CounterpartyMax {
  import opened Wrappers
  import opened Transactions
  import opened GroupSum
  import opened WindowMax

  /**
    What a result row means: its pair occurs in the input, its total is the
    exact sum of that pair, and no counterparty of the same user received a
    larger sum.
   */
  ghost predicate IsTopRow(txns: seq<Txn>, row: Row)
  {
    && Occurs(txns, row.user, row.counterparty)
    && row.total == PairSum(txns, row.user, row.counterparty)
    && forall c :: Occurs(txns, row.user, c) ==> PairSum(txns, row.user, c) <= row.total
  }

  /**
    Group and sum by (user, counterparty), attach each user's maximum total,
    keep the rows that reach it, and project to (user, counterparty, total).
   */
  function FindMaxCounterpartyAmount(txns: seq<Txn>): (result: seq<Row>)
    ensures DistinctKeys(result)
    ensures forall row :: row in result <==> IsTopRow(txns, row)
    ensures forall u :: UserOccurs(txns, u) ==> HasUser(result, u)
  {
    var agg := Aggregate(txns);
    var result := KeepMax(agg, agg);
    AggregateDistinct(txns);
    KeepMaxDistinct(agg, agg);
    forall row
      ensures row in result <==> IsTopRow(txns, row)
    {
      FilterMeansTop(txns, row);
    }
    forall u | UserOccurs(txns, u)
      ensures HasUser(result, u)
    {
      EveryUserSelected(txns, u);
    }
    result
  }

  /** The filter over the aggregated table keeps exactly the rows that `IsTopRow` describes. */
  lemma FilterMeansTop(txns: seq<Txn>, row: Row)
    ensures row in KeepMax(Aggregate(txns), Aggregate(txns)) <==> IsTopRow(txns, row)
  {
    if row in KeepMax(Aggregate(txns), Aggregate(txns)) {
      KeptIsTop(txns, row);
    }
    if IsTopRow(txns, row) {
      TopIsKept(txns, row);
    }
  }

  /** A kept row has an exact total that no counterparty of its user exceeds. */
  lemma KeptIsTop(txns: seq<Txn>, row: Row)
    requires row in KeepMax(Aggregate(txns), Aggregate(txns))
    ensures IsTopRow(txns, row)
  {
    var agg := Aggregate(txns);
    var u := row.user;
    var i :| 0 <= i < |agg| && agg[i] == row;
    AggregateRowExact(txns, i);
    forall c | Occurs(txns, u, c)
      ensures PairSum(txns, u, c) <= row.total
    {
      var j :| 0 <= j < |agg| && agg[j].user == u && agg[j].counterparty == c;
      AggregateRowExact(txns, j);
    }
  }

  /** A row `IsTopRow` describes is in the table and reaches its user's maximum, so it is kept. */
  lemma TopIsKept(txns: seq<Txn>, row: Row)
    requires IsTopRow(txns, row)
    ensures row in KeepMax(Aggregate(txns), Aggregate(txns))
  {
    var agg := Aggregate(txns);
    var u, c := row.user, row.counterparty;
    assert HasKey(agg, u, c);
    var i :| 0 <= i < |agg| && agg[i].user == u && agg[i].counterparty == c;
    AggregateRowExact(txns, i);
    assert agg[i] == row;
    assert HasUser(agg, u);
    var m := UserMax(agg, u).value;
    var k :| 0 <= k < |agg| && agg[k].user == u && agg[k].total == m;
    AggregateRowExact(txns, k);
    assert m <= row.total;
    assert row.total <= m;
  }

  /** Every user with a transaction reaches its maximum with at least one row. */
  lemma EveryUserSelected(txns: seq<Txn>, u: UserId)
    requires UserOccurs(txns, u)
    ensures HasUser(KeepMax(Aggregate(txns), Aggregate(txns)), u)
  {
    var agg := Aggregate(txns);
    var t :| 0 <= t < |txns| && txns[t].user == u;
    assert Occurs(txns, u, txns[t].counterparty);
    var i :| 0 <= i < |agg| && agg[i].user == u && agg[i].counterparty == txns[t].counterparty;
    assert HasUser(agg, u);
    var k :| 0 <= k < |agg| && agg[k].user == u && agg[k].total == UserMax(agg, u).value;
    var kept := KeepMax(agg, agg);
    assert agg[k] in kept;
    var j :| 0 <= j < |kept| && kept[j] == agg[k];
  }

  /** With no transactions there is nothing to report. */
  lemma EmptyInput()
    ensures FindMaxCounterpartyAmount([]) == []
  {
  }

  /** Counterparties tying with a selected one are selected too: no tie is broken. */
  lemma TiesKept(txns: seq<Txn>, u: UserId, c1: CounterpartyId, c2: CounterpartyId)
    requires Row(u, c1, PairSum(txns, u, c1)) in FindMaxCounterpartyAmount(txns)
    requires Occurs(txns, u, c2)
    requires PairSum(txns, u, c2) == PairSum(txns, u, c1)
    ensures Row(u, c2, PairSum(txns, u, c2)) in FindMaxCounterpartyAmount(txns)
  {
    assert IsTopRow(txns, Row(u, c1, PairSum(txns, u, c1)));
    assert IsTopRow(txns, Row(u, c2, PairSum(txns, u, c2)));
  }

  /** No row of the aggregated table beats a selected row of the same user. */
  lemma NoLargerPair(txns: seq<Txn>, row: Row, i: int)
    requires row in FindMaxCounterpartyAmount(txns)
    requires 0 <= i < |Aggregate(txns)| && Aggregate(txns)[i].user == row.user
    ensures Aggregate(txns)[i].total <= row.total
  {
    AggregateRowExact(txns, i);
    assert IsTopRow(txns, row);
  }

  /** Every selected pair is a row of the aggregated table and occurs in the input. */
  lemma ResultWithinAggregate(txns: seq<Txn>, row: Row)
    requires row in FindMaxCounterpartyAmount(txns)
    ensures row in Aggregate(txns)
    ensures Occurs(txns, row.user, row.counterparty)
  {
    assert IsTopRow(txns, row);
  }
}
