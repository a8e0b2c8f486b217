/** Worked inputs with their exact results, one per documented scenario. */
module Scenarios {
  import opened Transactions
  import opened Wrappers
  import opened GroupSum
  import opened WindowMax
  import opened CounterpartyMax

  /** Two transfers to c1 sum to 80 and tie with one transfer to c2: both are reported. */
  lemma TieAtEighty()
    ensures FindMaxCounterpartyAmount([Txn("u1", "c1", 50), Txn("u1", "c1", 30), Txn("u1", "c2", 80)])
         == [Row("u1", "c1", 80), Row("u1", "c2", 80)]
  {
    var txns := [Txn("u1", "c1", 50), Txn("u1", "c1", 30), Txn("u1", "c2", 80)];
    assert txns[..2][..1] == [txns[0]] && txns[..2] == [txns[0], txns[1]];
    assert Aggregate([txns[0]]) == [Row("u1", "c1", 50)] by {
      assert [txns[0]][..0] == [];
    }
    assert AddTxn([Row("u1", "c1", 50)], txns[1]) == [Row("u1", "c1", 80)];
    assert AddTxn([Row("u1", "c1", 80)], txns[2]) == [Row("u1", "c1", 80), Row("u1", "c2", 80)];
  }

  /** Two users with one counterparty each: each user's only pair is its maximum. */
  lemma OneRowPerUser()
    ensures FindMaxCounterpartyAmount([Txn("u1", "c1", 100), Txn("u2", "c3", 5)])
         == [Row("u1", "c1", 100), Row("u2", "c3", 5)]
  {
    var txns := [Txn("u1", "c1", 100), Txn("u2", "c3", 5)];
    assert txns[..1] == [txns[0]];
    assert Aggregate([txns[0]]) == [Row("u1", "c1", 100)] by {
      assert [txns[0]][..0] == [];
    }
    assert AddTxn([Row("u1", "c1", 100)], txns[1]) == [Row("u1", "c1", 100), Row("u2", "c3", 5)];
  }

  /** A tie at 10 is kept and the smaller total 5 is dropped. */
  lemma SmallerDropped()
    ensures FindMaxCounterpartyAmount([Txn("u1", "c1", 10), Txn("u1", "c2", 10), Txn("u1", "c3", 5)])
         == [Row("u1", "c1", 10), Row("u1", "c2", 10)]
  {
    var txns := [Txn("u1", "c1", 10), Txn("u1", "c2", 10), Txn("u1", "c3", 5)];
    assert txns[..2][..1] == [txns[0]] && txns[..2] == [txns[0], txns[1]];
    assert Aggregate([txns[0]]) == [Row("u1", "c1", 10)] by {
      assert [txns[0]][..0] == [];
    }
    assert AddTxn([Row("u1", "c1", 10)], txns[1]) == [Row("u1", "c1", 10), Row("u1", "c2", 10)];
    var agg := [Row("u1", "c1", 10), Row("u1", "c2", 10), Row("u1", "c3", 5)];
    assert AddTxn([Row("u1", "c1", 10), Row("u1", "c2", 10)], txns[2]) == agg;
    assert Aggregate(txns) == agg;
    assert UserMax(agg, "u1") == Some(10);
    assert agg[1..][1..] == [agg[2]] && agg[1..] == [agg[1], agg[2]];
    assert KeepMax(agg, [agg[2]]) == [];
    assert KeepMax(agg, [agg[1], agg[2]]) == [agg[1]];
  }
}
