# LWW element dictionary in Dafny

This project models a Last-Writer-Wins element dictionary, a CRDT (conflict-free
replicated data type), and proves properties of the model. Replicas accept `put` and
`remove` locally and converge by `merge`. Two pieces cooperate:

- **`TimestampedValue`** (`timestamped_value.dfy`, module `TimestampedValues`) is a
  register that holds a `(value, timestamp)` pair. `setValue` accepts a candidate that
  is strictly later. On an equal timestamp it accepts the candidate only when the held
  value's hash is strictly greater, so the lower hash wins the tie. `merge` copies the
  register and applies `setValue` with the other pair. The pair itself is the datatype
  `Stamped`. The pure functions `Accept` (setValue) and `Join` (merge) specify the
  class `TimestampedValue`, whose `SetValue` updates its fields in place and whose
  `Merge` allocates a copy.
- **`LwwElementDictionary`** (`lww_element_dictionary.dfy`) holds an adds table
  (key → register) and a removes table (key → tombstone time) as `map` fields. Its
  methods `Put`, `Remove`, `Clear`, `RemoveDuplicates` and `Merge` are each specified
  by a function on the value `Replica(adds, removes)` in `replica.dfy` (module
  `Replicas`). `Merge` loops over the other replica's entries in an arbitrary order,
  as the source's `forEach` does; those loops are the methods `UnionAdds` and
  `UnionRemoves`. `Contains` and `Get` are pure functions.

`replica_laws.dfy` (module `ReplicaLaws`) proves the headline theorems:

- merge is associative and idempotent on `(adds, removes)`;
- merge is commutative whenever no key carries two different values that tie on both
  timestamp and hash (in particular, for any injective hash);
- compaction (`removeDuplicates`) never changes what `contains` or `get` report;
- compaction does not change what any later merge reports either.

`scenarios.dfy` restates the repository's test scenarios as lemmas. They hold for any
starting value of the test's shared timestamp counter.

The value's `hashCode()` is the parameter `hash: V -> int`. The timestamp supplier is
replaced by an explicit argument `ts` on `Put` and `Remove`. Timestamps are unbounded
integers. A missing entry stands for the source's `Long.MIN_VALUE` default.

Two places where the code decides what its own comments leave open. The Javadoc of
`setValue` (src/main/java/com/bwee/crdt/TimestampedValue.java:26) says only that a tie
"compares the hashcode", and the class comments do not say which merge laws hold:

- The tie-break follows the code: the LOWER hash wins
  (src/main/java/com/bwee/crdt/TimestampedValue.java:29).
- Merge associativity needs no assumption on the hash. The merged register is the
  leftmost maximum of the (timestamp, then lower hash) order, and the leftmost
  maximum does not depend on grouping. Only commutativity needs distinct values that
  share a timestamp to have distinct hashes. `ReplicaLaws.MergeNotCommutativeOnCollision`
  exhibits two replicas that disagree, depending on merge order, when the hashes collide.

## Model

| member | source | states |
|---|---|---|
| TimestampedValues.TimestampedValue.constructor | src/main/java/com/bwee/crdt/TimestampedValue.java:12-15 | the new register holds exactly the given value and timestamp |
| TimestampedValues.Accept | src/main/java/com/bwee/crdt/TimestampedValue.java:28-34 | the register keeps its pair when the pair ranks at least as high as the candidate, and otherwise takes the candidate; the result ranks at least both; its timestamp is the max of the old and new timestamps, so it never decreases |
| TimestampedValues.TimestampedValue.SetValue | src/main/java/com/bwee/crdt/TimestampedValue.java:28-34 | the fields after the in-place update equal `Accept` of the old fields and the candidate |
| TimestampedValues.AcceptLaterReplaces | src/test/java/com/bwee/crdt/TimestampedValueTest.java:17-22 | a strictly later timestamp replaces both value and timestamp |
| TimestampedValues.AcceptEarlierKeeps | src/test/java/com/bwee/crdt/TimestampedValueTest.java:25-30 | a strictly earlier timestamp leaves value and timestamp unchanged |
| TimestampedValues.AcceptEqualTimestamp | src/main/java/com/bwee/crdt/TimestampedValue.java:29 | on an equal timestamp the candidate gets in iff the held value's hash is strictly greater; setting the held pair again is a no-op |
| TimestampedValues.RankIsTotalPreorder | src/main/java/com/bwee/crdt/TimestampedValue.java:29 | the (timestamp, then lower hash) order is reflexive, total and transitive, and the setValue guard is its strict part |
| TimestampedValues.RankAntisymmetric | src/main/java/com/bwee/crdt/TimestampedValue.java:29 | without a tie collision, two pairs that rank alike are equal |
| TimestampedValues.Join | src/main/java/com/bwee/crdt/TimestampedValue.java:37-39 | merge returns the left operand when it ranks at least as high as the right one, else the right one, so the result is the leftmost maximum; its timestamp is the max of both |
| TimestampedValues.TimestampedValue.Merge | src/main/java/com/bwee/crdt/TimestampedValue.java:37-39 | merge returns a fresh register holding `Join` of both operands and leaves both operands unchanged |
| TimestampedValues.JoinIdempotent | src/test/java/com/bwee/crdt/TimestampedValueTest.java:60-66 | `merge(a,a) == a`, and merging either operand in again changes nothing, for any hash |
| TimestampedValues.JoinAssociative | src/test/java/com/bwee/crdt/TimestampedValueTest.java:51-57 | merge is associative, for any hash |
| TimestampedValues.JoinCommutative | src/test/java/com/bwee/crdt/TimestampedValueTest.java:69-75 | `merge(a,b) == merge(b,a)` holds iff the two pairs do not tie on both timestamp and hash with different values |
| TimestampedValues.InjectiveHasNoTieCollision | src/main/java/com/bwee/crdt/TimestampedValue.java:29 | an injective hash never produces a tie collision |
| Replicas.Latest | src/main/java/com/bwee/crdt/LwwElementDictionary.java:56 | the later of two optional times, where a missing time counts as earliest: it is one of the two and at least both |
| Replicas.Contains | src/main/java/com/bwee/crdt/LwwElementDictionary.java:76-89 | a key is present iff it has an insertion and either no tombstone or a strictly older one, so on a tie the remove wins |
| Replicas.Get | src/main/java/com/bwee/crdt/LwwElementDictionary.java:65-67 | get returns a value iff contains holds, and that value is the one in the adds table |
| Replicas.Compact | src/main/java/com/bwee/crdt/LwwElementDictionary.java:117-127 | afterwards the key is not in both tables; entries are only dropped, never changed; every other key is untouched; contains and get answer alike for every key |
| Replicas.Put | src/main/java/com/bwee/crdt/LwwElementDictionary.java:34-44 | every other key is untouched; the key is compacted; the key is present iff the register's new timestamp beats the tombstone, and then get returns the value the register kept; a kept register is exactly what `setValue` left (value and timestamp); a put that loses to the tombstone leaves the removes table as it was |
| Replicas.Remove | src/main/java/com/bwee/crdt/LwwElementDictionary.java:52-59 | every other key is untouched; the key is compacted; the key stays present iff it was present with an insertion strictly newer than `ts`; whenever the key ends up absent its tombstone is recorded, at the later of `ts` and the old one; a kept insertion is unchanged |
| Replicas.Merge | src/main/java/com/bwee/crdt/LwwElementDictionary.java:92-105 | both key sets are unions; every key's newest insertion time and newest tombstone time are the later of the two sides' |
| Replicas.MergeAddsPicksWinner | src/main/java/com/bwee/crdt/LwwElementDictionary.java:93-98 | the merged adds table holds exactly the keys of either side; each register is one of the two sides' registers, ranks at least as high as both, and is the left one whenever that ranks at least as high |
| Replicas.MergeRemovesPicksLatest | src/main/java/com/bwee/crdt/LwwElementDictionary.java:100-102 | the merged removes table holds exactly the keys of either side; each tombstone is one of the two sides' tombstones and no older than either |
| LwwElementDictionaries.UnionAdds | src/main/java/com/bwee/crdt/LwwElementDictionary.java:93-98 | the loop over the other replica's entries, in any order, builds exactly the key-wise union of the adds tables, with registers joined where both sides hold the key |
| LwwElementDictionaries.UnionRemoves | src/main/java/com/bwee/crdt/LwwElementDictionary.java:100-102 | the loop over the other replica's tombstones builds exactly the key-wise union of the removes tables, with the later time where both sides hold the key |
| LwwElementDictionaries.LwwElementDictionary.constructor | src/main/java/com/bwee/crdt/LwwElementDictionary.java:16-18 | a new dictionary has both tables empty |
| LwwElementDictionaries.LwwElementDictionary.FromTables | src/main/java/com/bwee/crdt/LwwElementDictionary.java:20-26 | the private constructor stores exactly the given tables |
| LwwElementDictionaries.LwwElementDictionary.Contains | src/main/java/com/bwee/crdt/LwwElementDictionary.java:76-89 | the object reports a key present iff its insertion is strictly newer than any tombstone it holds |
| LwwElementDictionaries.LwwElementDictionary.Get | src/main/java/com/bwee/crdt/LwwElementDictionary.java:65-67 | the object returns a value iff it contains the key, and that value is the one in its adds table |
| LwwElementDictionaries.LwwElementDictionary.Put | src/main/java/com/bwee/crdt/LwwElementDictionary.java:34-44 | the new state is `Replicas.Put` of the old state |
| LwwElementDictionaries.LwwElementDictionary.Remove | src/main/java/com/bwee/crdt/LwwElementDictionary.java:52-59 | the new state is `Replicas.Remove` of the old state |
| LwwElementDictionaries.LwwElementDictionary.Clear | src/main/java/com/bwee/crdt/LwwElementDictionary.java:107-111 | both tables are empty afterwards |
| LwwElementDictionaries.LwwElementDictionary.RemoveDuplicates | src/main/java/com/bwee/crdt/LwwElementDictionary.java:113-127 | the new state is `Replicas.Compact` of the old state |
| LwwElementDictionaries.LwwElementDictionary.Merge | src/main/java/com/bwee/crdt/LwwElementDictionary.java:91-105 | merge returns a fresh dictionary whose state is `Replicas.Merge` of both operands' states, and leaves both operands unchanged |
| ReplicaLaws.MergeCommutative | src/test/java/com/bwee/crdt/LwwElementDictionaryTest.java:102-120 | merge is commutative on `(adds, removes)` when no shared key has a tie collision |
| ReplicaLaws.InjectiveIsCollisionless | src/main/java/com/bwee/crdt/TimestampedValue.java:29 | with an injective hash every pair of replicas meets the condition of `MergeCommutative` |
| ReplicaLaws.MergeNotCommutativeOnCollision | src/main/java/com/bwee/crdt/TimestampedValue.java:29 | with a hash that collides, two replicas writing different values at the same time get different answers depending on merge order |
| ReplicaLaws.AddsAssociative | src/main/java/com/bwee/crdt/LwwElementDictionary.java:97-98 | the union of adds tables is associative |
| ReplicaLaws.RemovesAssociative | src/main/java/com/bwee/crdt/LwwElementDictionary.java:101-102 | the union of removes tables is associative |
| ReplicaLaws.MergeAssociative | src/test/java/com/bwee/crdt/LwwElementDictionaryTest.java:122-145 | merge is associative on `(adds, removes)`, for any hash |
| ReplicaLaws.MergeIdempotent | src/test/java/com/bwee/crdt/LwwElementDictionaryTest.java:147-163 | `merge(a,a) == a`, and merging either operand in again changes nothing, for any hash |
| ReplicaLaws.MergeEmpty | src/main/java/com/bwee/crdt/LwwElementDictionary.java:92-104 | an empty replica is the identity of merge on either side |
| ReplicaLaws.MergedPresence | src/main/java/com/bwee/crdt/LwwElementDictionary.java:76-105 | after a merge a key is present iff its newest insertion on either side is strictly newer than its newest tombstone on either side |
| ReplicaLaws.MergedValue | src/main/java/com/bwee/crdt/LwwElementDictionary.java:65-98 | a key present after a merge reads the joined register's value, or the one side's value when only one side holds it |
| ReplicaLaws.MergeIgnoresDroppedTombstone | src/main/java/com/bwee/crdt/LwwElementDictionary.java:121-122 | dropping a tombstone older than the insertion leaves every merge's get for that key unchanged |
| ReplicaLaws.MergeIgnoresDroppedInsertion | src/main/java/com/bwee/crdt/LwwElementDictionary.java:123-124 | dropping an insertion no newer than the tombstone leaves every merge's get for that key unchanged |
| ReplicaLaws.MergeIgnoresCompaction | src/main/java/com/bwee/crdt/LwwElementDictionary.java:117-127 | merging a compacted replica, on either side, answers every get as merging the uncompacted one does |
| ReplicaLaws.MergeRespectsSameAt | src/main/java/com/bwee/crdt/LwwElementDictionary.java:92-105 | merge is key-wise: replicas that agree on a key give merges that agree on that key |
| ReplicaLaws.PutNewest | src/test/java/com/bwee/crdt/LwwElementDictionaryTest.java:24-30 | a put newer than anything recorded for the key makes get return the value, and no other key's get changes |
| ReplicaLaws.RemoveNewest | src/test/java/com/bwee/crdt/LwwElementDictionaryTest.java:64-69 | a remove no older than the key's insertion makes the key absent, a tie included, and no other key's get changes |
| ReplicaLaws.RemoveWinsMerge | src/test/java/com/bwee/crdt/LwwElementDictionaryTest.java:184-193 | a remove at least as new as every insertion of the key on both replicas leaves the key absent after merging in either order, a tie included |
| ReplicaLaws.ClearedHoldsNothing | src/test/java/com/bwee/crdt/LwwElementDictionaryTest.java:72-77 | after clear no key is present and get returns nothing |
| Scenarios.PutThenGet | src/test/java/com/bwee/crdt/LwwElementDictionaryTest.java:15-30 | two puts of different keys are both readable; an unknown key reads nothing |
| Scenarios.PutOverwrites | src/test/java/com/bwee/crdt/LwwElementDictionaryTest.java:52-61 | a later put of the same key overwrites it and leaves the other key alone |
| Scenarios.RemoveAfterPut | src/test/java/com/bwee/crdt/LwwElementDictionaryTest.java:63-69 | a later remove makes get return nothing |
| Scenarios.RemoveWinsTie | src/test/java/com/bwee/crdt/LwwElementDictionaryTest.java:184-193 | a remove and a put at the same time on two replicas merge to an absent key |
| Scenarios.ReplicaOne | src/test/java/com/bwee/crdt/LwwElementDictionaryTest.java:85-87 | removing a key the replica never held records a tombstone and keeps both inserted keys |
| Scenarios.ThreeWayMerge | src/test/java/com/bwee/crdt/LwwElementDictionaryTest.java:79-100 | the three replicas merge alike in either grouping, to A absent, B = Brains and C = Cat |
| Scenarios.TwoWayMergeCommutes | src/test/java/com/bwee/crdt/LwwElementDictionaryTest.java:102-120 | the commutativity test's two replicas merge to the same state in either order |
| Scenarios.RepeatedMerge | src/test/java/com/bwee/crdt/LwwElementDictionaryTest.java:147-163 | `merge(merge(merge(a,b),b),a) == merge(a,b)`, with A = Alligator and B = Banana |
| Scenarios.EqualTimestampMergeCommutes | src/test/java/com/bwee/crdt/LwwElementDictionaryTest.java:165-182 | with a frozen counter and hashes that tell the rival values apart, both merge orders read the same values |

## Left out

- The debug `System.out.println` in `put` (src/main/java/com/bwee/crdt/LwwElementDictionary.java:39) is I/O with no effect on the state.
- The `Supplier<Long>` timestamp source is not modelled: `Put` and `Remove` take the timestamp it would return as the argument `ts`.
- The test suite's static counter is left out too; the scenarios hold for any starting value `t`.
- Timestamps are unbounded integers: 64-bit `long` bounds and overflow are not modelled. `Long.MIN_VALUE` as the default tombstone is modelled as absence from the map.
- `hashCode()` is the parameter `hash`, not Java's hash internals. The same function must be passed to every operation of one program.
- `equals`, `hashCode` and `toString` of both classes are not modelled. State equality is equality of the two maps. Java's `equals` on the dictionary also compares the supplier, and `merge` keeps the receiver's supplier; neither is modelled.
- `getValue` and `getTimestamp` are plain reads of the fields `value` and `timestamp` of `TimestampedValue`.
- `setValue` returns `this` so that `merge` can chain it; `SetValue` returns nothing and `Merge` reads the updated copy instead.
- Null values are excluded: the model's values are ordinary Dafny values. In the source, a timestamp tie with a null value throws `NullPointerException` at src/main/java/com/bwee/crdt/TimestampedValue.java:29.
- Keys are value types (`K(==, !new)`): a map key is never an object whose identity matters.
- Reference aliasing is not modelled. The adds table holds `Stamped` values, not shared `TimestampedValue` objects. In the source, `new HashMap<>(adds)` (src/main/java/com/bwee/crdt/LwwElementDictionary.java:93) copies only references. A key present only in the receiver therefore shares its register with the merged result, and a later `put` on one dictionary changes the other through line 37.
- `LwwElementDictionary.Put` applies `Accept` to the stored pair instead of calling `SetValue` on a shared register object; this follows from the value semantics above.
- `Dictionary.java` and the `Crdt` interface are declarations without logic. The `Crdt` interface is not part of this model.
- ReplicaLaws.MergeCommutative: requires that no key held on both sides has two different values tying on both timestamp and hash. The source's tests assert commutativity outright; it holds for the values their tests use but fails for colliding hashes, as `MergeNotCommutativeOnCollision` shows.
- Thread safety and the transport of states between replicas are outside the core, and are not modelled.
