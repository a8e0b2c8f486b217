/**
  The input and output records of the counterparty aggregation, and the
  reference meaning of a pair's total: the exact sum of the amounts of every
  transaction from a user to a counterparty.
 */
module Transactions {

  type UserId = string
  type CounterpartyId = string

  /** One input record: `amount` transferred from `user` to `counterparty`. */
  datatype Txn = Txn(user: UserId, counterparty: CounterpartyId, amount: int)

  /** A row of the aggregated table and of the result: a pair and its total. */
  datatype Row = Row(user: UserId, counterparty: CounterpartyId, total: int)

  /** What `t` adds to the total of the pair (u, c). */
  function Contribution(t: Txn, u: UserId, c: CounterpartyId): int
  {
    if t.user == u && t.counterparty == c then t.amount else 0
  }

  /** The exact sum of the amounts of all transactions from `u` to `c`. */
  function PairSum(txns: seq<Txn>, u: UserId, c: CounterpartyId): int
  {
    if |txns| == 0 then 0 else Contribution(txns[0], u, c) + PairSum(txns[1..], u, c)
  }

  /** Some transaction goes from `u` to `c`. */
  predicate Occurs(txns: seq<Txn>, u: UserId, c: CounterpartyId)
  {
    exists i :: 0 <= i < |txns| && txns[i].user == u && txns[i].counterparty == c
  }

  /** Some transaction is sent by `u`. */
  predicate UserOccurs(txns: seq<Txn>, u: UserId)
  {
    exists i :: 0 <= i < |txns| && txns[i].user == u
  }

  /** Partial sums of two slices of the input merge by addition. */
  lemma {:induction false} PairSumAppend(a: seq<Txn>, b: seq<Txn>, u: UserId, c: CounterpartyId)
    ensures PairSum(a + b, u, c) == PairSum(a, u, c) + PairSum(b, u, c)
  {
    if |a| == 0 {
      assert a + b == b;
    } else {
      assert (a + b)[1..] == a[1..] + b;
      PairSumAppend(a[1..], b, u, c);
    }
  }

  /** Folding one more transaction into a prefix adds exactly its contribution. */
  lemma PairSumSnoc(s: seq<Txn>, t: Txn)
    ensures forall u, c :: PairSum(s + [t], u, c) == PairSum(s, u, c) + Contribution(t, u, c)
  {
    forall u, c
      ensures PairSum(s + [t], u, c) == PairSum(s, u, c) + Contribution(t, u, c)
    {
      PairSumAppend(s, [t], u, c);
      assert PairSum([t], u, c) == Contribution(t, u, c) + PairSum([], u, c);
    }
  }

  /** A pair that never occurs has total zero. */
  lemma {:induction false} PairSumAbsent(txns: seq<Txn>, u: UserId, c: CounterpartyId)
    requires !Occurs(txns, u, c)
    ensures PairSum(txns, u, c) == 0
  {
    if |txns| > 0 {
      assert !Occurs(txns[1..], u, c) by {
        forall i | 0 <= i < |txns[1..]|
          ensures !(txns[1..][i].user == u && txns[1..][i].counterparty == c)
        {
          assert txns[1..][i] == txns[i + 1];
        }
      }
      PairSumAbsent(txns[1..], u, c);
    }
  }
}
