# Counterparty with the largest transferred amount

A Dafny model of `find_max_counterparty_amount`, the aggregation at the heart
of the Spark job in `Counterpart_Max_Amount.py`. For every user it reports
the counterparty to which the user transferred the largest summed amount. When
several counterparties tie, it reports all of them. The job works in three
relational steps, and the model follows them:

1. **Group and sum** (`GroupSum`). The transactions are grouped by the key
   (user, counterparty). Each group's `amount` values are summed into
   `total_amount`. `Aggregate` folds the input left to right into a table with
   one row per distinct key.
2. **Per-user maximum** (`WindowMax.UserMax`). This is the window
   `max(total_amount) over partitionBy(user_id)`: the largest total among a
   user's rows.
3. **Filter and project** (`WindowMax.KeepMax`). Keep every row whose total
   equals its user's maximum, as a `(user, counterparty, total)` row.

`CounterpartyMax.FindMaxCounterpartyAmount` chains the three steps. Its
contract does not refer to the pipeline. It characterises the result through
`IsTopRow`, which speaks only of the input:

- the row's pair occurs in the input;
- the row's total is the exact sum `PairSum` of that pair's amounts;
- no counterparty of the same user received a larger sum.

Modules:

- `Transactions`: the `Txn` and `Row` records and the reference sum `PairSum`.
- `GroupSum`: the grouped sums.
- `WindowMax`: the window maximum and the filter.
- `CounterpartyMax`: the entry point and its properties.
- `OrderIndependence`: results do not depend on input order.
- `Scenarios`: worked inputs with their exact outputs.
- `Wrappers`: `Option`.

User and counterparty ids are strings. Amounts are unbounded integers, so sums
and the equality test of the filter are exact.

## Model

| member | source | states |
|---|---|---|
| `Transactions.PairSumAppend` | my_spark_project/my_spark_project/src/main/python/Counterpart_Max_Amount.py:28-29 | The sum of a pair over two concatenated slices of the input is the sum of the two slices' sums, so partial sums merge by addition |
| `GroupSum.AddTxn` | my_spark_project/my_spark_project/src/main/python/Counterpart_Max_Amount.py:28-29 | Folding one transaction into the table adds its pair to the keys and nothing else. Its amount is added to that pair's total only, every other total is unchanged, and distinct keys stay distinct |
| `GroupSum.Aggregate` | my_spark_project/my_spark_project/src/main/python/Counterpart_Max_Amount.py:28-29 | A (user, counterparty) key is in the aggregated table exactly when it occurs in the input. Its total equals the exact sum of that pair's amounts |
| `GroupSum.AggregateDistinct` | my_spark_project/my_spark_project/src/main/python/Counterpart_Max_Amount.py:28-29 | The aggregated table has no repeated (user, counterparty) key |
| `GroupSum.AggregateRowExact` | my_spark_project/my_spark_project/src/main/python/Counterpart_Max_Amount.py:28-29 | Each row of the aggregated table holds the exact sum of its own pair, and that pair occurs in the input |
| `WindowMax.UserMax` | my_spark_project/my_spark_project/src/main/python/Counterpart_Max_Amount.py:30 | A user's window maximum is absent exactly when the user has no row. When present, some row of the user attains it and no row of the user exceeds it |
| `WindowMax.KeepMax` | my_spark_project/my_spark_project/src/main/python/Counterpart_Max_Amount.py:32-33 | A row is kept exactly when it is in the input table and its total equals its user's maximum |
| `WindowMax.KeepMaxDistinct` | my_spark_project/my_spark_project/src/main/python/Counterpart_Max_Amount.py:32-33 | Filtering a table whose keys are distinct leaves the keys distinct, so no pair appears twice in the output |
| `CounterpartyMax.FindMaxCounterpartyAmount` | my_spark_project/my_spark_project/src/main/python/Counterpart_Max_Amount.py:24-35 | Each (user, counterparty) appears at most once. A row is in the output exactly when its pair occurs, its total is the pair's exact sum, and no counterparty of that user got more. So ties are all kept. Every user with a transaction has at least one output row |
| `CounterpartyMax.FilterMeansTop` | my_spark_project/my_spark_project/src/main/python/Counterpart_Max_Amount.py:28-33 | Filtering the aggregated table by the per-user maximum keeps exactly the rows `IsTopRow` describes |
| `CounterpartyMax.KeptIsTop` | my_spark_project/my_spark_project/src/main/python/Counterpart_Max_Amount.py:28-32 | A kept row's pair occurs, its total is exact, and no counterparty of the same user received more |
| `CounterpartyMax.TopIsKept` | my_spark_project/my_spark_project/src/main/python/Counterpart_Max_Amount.py:28-32 | Every occurring pair whose exact sum is maximal for its user survives the filter. No tied pair is dropped |
| `CounterpartyMax.EveryUserSelected` | my_spark_project/my_spark_project/src/main/python/Counterpart_Max_Amount.py:30-32 | Every user who sends at least one transaction has at least one selected row, because the maximum is attained |
| `CounterpartyMax.EmptyInput` | my_spark_project/my_spark_project/src/main/python/Counterpart_Max_Amount.py:28-33 | No transactions give no rows |
| `CounterpartyMax.TiesKept` | my_spark_project/my_spark_project/src/main/python/Counterpart_Max_Amount.py:32 | If one counterparty of a user is selected, every counterparty with the same sum for that user is selected too |
| `CounterpartyMax.NoLargerPair` | my_spark_project/my_spark_project/src/main/python/Counterpart_Max_Amount.py:30-32 | No row of the aggregated table for the same user has a larger total than a selected row |
| `CounterpartyMax.ResultWithinAggregate` | my_spark_project/my_spark_project/src/main/python/Counterpart_Max_Amount.py:28-33 | Every selected row is a row of the aggregated table, and its pair occurs in some input transaction |
| `OrderIndependence.PairSumPermutation` | my_spark_project/my_spark_project/src/main/python/Counterpart_Max_Amount.py:28-29 | Two orderings of the same multiset of transactions give every pair the same sum |
| `OrderIndependence.OccursPermutation` | my_spark_project/my_spark_project/src/main/python/Counterpart_Max_Amount.py:28 | Two orderings of the same multiset of transactions contain the same pairs |
| `OrderIndependence.OrderIndependent` | my_spark_project/my_spark_project/src/main/python/Counterpart_Max_Amount.py:28-33 | Permuting the input leaves the set of reported rows unchanged |
| `Scenarios.TieAtEighty` | my_spark_project/my_spark_project/src/main/python/Counterpart_Max_Amount.py:24-35 | Input (u1,c1,50), (u1,c1,30), (u1,c2,80) gives exactly (u1,c1,80) and (u1,c2,80) |
| `Scenarios.OneRowPerUser` | my_spark_project/my_spark_project/src/main/python/Counterpart_Max_Amount.py:24-35 | Input (u1,c1,100), (u2,c3,5) gives exactly (u1,c1,100) and (u2,c3,5) |
| `Scenarios.SmallerDropped` | my_spark_project/my_spark_project/src/main/python/Counterpart_Max_Amount.py:24-35 | Input (u1,c1,10), (u1,c2,10), (u1,c3,5) gives exactly (u1,c1,10) and (u1,c2,10) |

## Left out

- `create_spark_session` (`Counterpart_Max_Amount.py:6-13`): building the session and setting the shuffle-partition count is runtime configuration with no effect on the result.
- `load_data` (`Counterpart_Max_Amount.py:16-21`): reading the CSV file and inferring its schema is file I/O done by Spark's reader. The model's input is already a sequence of typed transactions.
- `main` (`Counterpart_Max_Amount.py:38-55`): the fixed input path, `show()` printing and the catch-all handler that prints errors belong to the harness. The model has no I/O.
- Distributed execution: partitioning, shuffles and the order in which partial sums are merged are engine details. `PairSumAppend` and `PairSumPermutation` show that any merge order gives the same sums.
- Row order: Spark promises no order for the output. The model lists rows in order of each pair's first occurrence. All properties except the three `Scenarios` lemmas are about membership, not position.
- Null keys and null amounts: the model's keys and amounts cannot be null. Spark would group null keys together and skip null amounts in `sum`.
- Floating-point amounts, which schema inference may produce: the model uses exact integers, so the filter's equality test compares exact values.
- Overflow: Spark sums integer columns as 64-bit values. The model's sums are unbounded integers and do not wrap.
- Error kinds: the source code does not check records and raises no typed errors of its own. The model follows the code, not a validating design: it has no rejection path for malformed records and no overflow error.
- Idempotence: the model is a pure function, so running it twice on the same input gives the same output by construction. No lemma is needed for this.
