/**
  The grouped sums, and so the selected rows, depend only on the multiset of
  transactions: reordering the input cannot change which rows are reported.
 */
module OrderIndependence {
  import opened Transactions
  import opened CounterpartyMax

  /** A pair's exact sum is the same for any ordering of the same transactions. */
  lemma {:induction false} PairSumPermutation(a: seq<Txn>, b: seq<Txn>, u: UserId, c: CounterpartyId)
    requires multiset(a) == multiset(b)
    ensures PairSum(a, u, c) == PairSum(b, u, c)
    decreases |a|
  {
    if |a| == 0 {
      assert |b| == |multiset(b)| == 0;
    } else {
      var t := a[0];
      assert t in multiset(b);
      var j :| 0 <= j < |b| && b[j] == t;
      var left, right := b[..j], b[j + 1..];
      assert b == left + [t] + right;
      assert a == [t] + a[1..];
      assert multiset(a[1..]) == multiset(left + right) by {
        assert multiset(b) == multiset(left) + multiset{t} + multiset(right);
        assert multiset(a) == multiset{t} + multiset(a[1..]);
        assert multiset(left + right) == multiset(left) + multiset(right);
        assert multiset(a[1..]) == multiset(a) - multiset{t};
        assert multiset(left + right) == multiset(b) - multiset{t};
      }
      PairSumPermutation(a[1..], left + right, u, c);
      PairSumAppend(left, right, u, c);
      PairSumAppend(left + [t], right, u, c);
      PairSumAppend(left, [t], u, c);
      assert PairSum([t], u, c) == Contribution(t, u, c) + PairSum([], u, c);
      assert PairSum(a, u, c) == Contribution(t, u, c) + PairSum(a[1..], u, c);
    }
  }

  /** A pair occurs in one ordering exactly when it occurs in another. */
  lemma OccursPermutation(a: seq<Txn>, b: seq<Txn>, u: UserId, c: CounterpartyId)
    requires multiset(a) == multiset(b)
    ensures Occurs(a, u, c) <==> Occurs(b, u, c)
  {
    if Occurs(a, u, c) {
      var i :| 0 <= i < |a| && a[i].user == u && a[i].counterparty == c;
      assert a[i] in multiset(b);
      var j :| 0 <= j < |b| && b[j] == a[i];
    }
    if Occurs(b, u, c) {
      var i :| 0 <= i < |b| && b[i].user == u && b[i].counterparty == c;
      assert b[i] in multiset(a);
      var j :| 0 <= j < |a| && a[j] == b[i];
    }
  }

  /** Permuting the input leaves the set of reported rows unchanged. */
  lemma OrderIndependent(a: seq<Txn>, b: seq<Txn>)
    requires multiset(a) == multiset(b)
    ensures forall row :: row in FindMaxCounterpartyAmount(a) <==> row in FindMaxCounterpartyAmount(b)
  {
    forall u, c
      ensures PairSum(a, u, c) == PairSum(b, u, c)
      ensures Occurs(a, u, c) <==> Occurs(b, u, c)
    {
      PairSumPermutation(a, b, u, c);
      OccursPermutation(a, b, u, c);
    }
    forall row
      ensures IsTopRow(a, row) <==> IsTopRow(b, row)
    {
    }
  }
}
