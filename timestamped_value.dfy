/**
 A last-writer-wins register: a value paired with a logical timestamp.

 `hash` stands for the values' `hashCode()`. It only matters when two
 timestamps are equal: then the value with the LOWER hash wins.
 */
module TimestampedValues {

  /** The contents of a register: the value held and the timestamp it was written at. */
  datatype Stamped<V> = Stamped(value: V, timestamp: int)

  function Max(x: int, y: int): int
  {
    if x >= y then x else y
  }

  /**
   The guard of `setValue`: the candidate `b` displaces the held pair `a`
   when it is strictly later, or equally late with a strictly lower hash.
   */
  predicate Outranks<V>(hash: V -> int, b: Stamped<V>, a: Stamped<V>)
  {
    b.timestamp > a.timestamp || (a.timestamp == b.timestamp && hash(a.value) > hash(b.value))
  }

  /**
   The order the register resolves conflicts by: `a` ranks at least as high
   as `b` when `b` does not outrank it, that is, lexicographically on the
   timestamp (larger first), then on the hash (smaller first).
   */
  predicate RanksAtLeast<V>(hash: V -> int, a: Stamped<V>, b: Stamped<V>)
  {
    !Outranks(hash, b, a)
  }

  /** Two pairs that the order cannot tell apart are the same pair. */
  predicate NoTieCollision<V(==)>(hash: V -> int, a: Stamped<V>, b: Stamped<V>)
  {
    a.timestamp == b.timestamp && hash(a.value) == hash(b.value) ==> a.value == b.value
  }

  /** A hash that never maps two distinct values to the same number. */
  ghost predicate Injective<V(!new)>(hash: V -> int)
  {
    forall x, y :: hash(x) == hash(y) ==> x == y
  }

  lemma InjectiveHasNoTieCollision<V(!new)>(hash: V -> int, a: Stamped<V>, b: Stamped<V>)
    requires Injective(hash)
    ensures NoTieCollision(hash, a, b)
  {
  }

  /** `RanksAtLeast` is a total preorder, and `Outranks` is its strict part. */
  lemma RankIsTotalPreorder<V>(hash: V -> int, a: Stamped<V>, b: Stamped<V>, c: Stamped<V>)
    ensures RanksAtLeast(hash, a, a)
    ensures RanksAtLeast(hash, a, b) || RanksAtLeast(hash, b, a)
    ensures RanksAtLeast(hash, a, b) && RanksAtLeast(hash, b, c) ==> RanksAtLeast(hash, a, c)
    ensures Outranks(hash, b, a) <==> !RanksAtLeast(hash, a, b)
  {
  }

  /** Without tie collisions the order is antisymmetric, hence total. */
  lemma RankAntisymmetric<V>(hash: V -> int, a: Stamped<V>, b: Stamped<V>)
    requires NoTieCollision(hash, a, b)
    requires RanksAtLeast(hash, a, b) && RanksAtLeast(hash, b, a)
    ensures a == b
  {
  }

  /**
   `setValue(v, ts)` applied to the pair `cur`: the candidate replaces the
   held pair only if it strictly outranks it, so the register ends up with
   the larger of the two, keeping what it held when they rank alike.
   */
  function Accept<V>(hash: V -> int, cur: Stamped<V>, v: V, ts: int): (r: Stamped<V>)
    ensures RanksAtLeast(hash, cur, Stamped(v, ts)) ==> r == cur
    ensures !RanksAtLeast(hash, cur, Stamped(v, ts)) ==> r == Stamped(v, ts)
    ensures RanksAtLeast(hash, r, cur) && RanksAtLeast(hash, r, Stamped(v, ts))
    ensures r.timestamp == Max(cur.timestamp, ts)
  {
    if Outranks(hash, Stamped(v, ts), cur) then Stamped(v, ts) else cur
  }

  lemma AcceptLaterReplaces<V>(hash: V -> int, cur: Stamped<V>, v: V, ts: int)
    requires ts > cur.timestamp
    ensures Accept(hash, cur, v, ts) == Stamped(v, ts)
  {
  }

  lemma AcceptEarlierKeeps<V>(hash: V -> int, cur: Stamped<V>, v: V, ts: int)
    requires ts < cur.timestamp
    ensures Accept(hash, cur, v, ts) == cur
  {
  }

  /** On equal timestamps only a strictly lower hash gets in; setting the same pair again changes nothing. */
  lemma AcceptEqualTimestamp<V>(hash: V -> int, cur: Stamped<V>, v: V)
    ensures Accept(hash, cur, v, cur.timestamp) == (if hash(cur.value) > hash(v) then Stamped(v, cur.timestamp) else cur)
    ensures Accept(hash, cur, cur.value, cur.timestamp) == cur
  {
  }

  /**
   `a.merge(b)`: a copy of `a` after `setValue(b.value, b.timestamp)`.
   The result is the leftmost maximum of `a, b` under `RanksAtLeast`.
   */
  function Join<V>(hash: V -> int, a: Stamped<V>, b: Stamped<V>): (r: Stamped<V>)
    ensures RanksAtLeast(hash, a, b) ==> r == a
    ensures !RanksAtLeast(hash, a, b) ==> r == b
    ensures r.timestamp == Max(a.timestamp, b.timestamp)
  {
    Accept(hash, a, b.value, b.timestamp)
  }

  lemma JoinIdempotent<V>(hash: V -> int, a: Stamped<V>, b: Stamped<V>)
    ensures Join(hash, a, a) == a
    ensures Join(hash, Join(hash, a, b), b) == Join(hash, a, b)
    ensures Join(hash, Join(hash, a, b), a) == Join(hash, a, b)
  {
  }

  /** Associativity needs no assumption on the hash: both groupings pick the leftmost maximum. */
  lemma JoinAssociative<V>(hash: V -> int, a: Stamped<V>, b: Stamped<V>, c: Stamped<V>)
    ensures Join(hash, Join(hash, a, b), c) == Join(hash, a, Join(hash, b, c))
  {
  }

  /** Commutativity holds exactly when the two pairs do not collide on a tie. */
  lemma JoinCommutative<V>(hash: V -> int, a: Stamped<V>, b: Stamped<V>)
    ensures Join(hash, a, b) == Join(hash, b, a) <==> NoTieCollision(hash, a, b)
  {
  }

  /** A mutable register, as the dictionary's adds table holds them. */
  class TimestampedValue<V> {
    var value: V
    var timestamp: int

    function View(): Stamped<V>
      reads this
    {
      Stamped(value, timestamp)
    }

    constructor (value: V, timestamp: int)
      ensures this.value == value && this.timestamp == timestamp
    {
      this.value := value;
      this.timestamp := timestamp;
    }

    /** Accepts the new pair only if it outranks the held one. */
    method SetValue(hash: V -> int, value: V, timestamp: int)
      modifies this
      ensures View() == Accept(hash, old(View()), value, timestamp)
    {
      if Outranks(hash, Stamped(value, timestamp), View()) {
        this.value := value;
        this.timestamp := timestamp;
      }
    }

    /** A fresh register holding the merge of this one and `other`; neither operand changes. */
    method Merge(hash: V -> int, other: TimestampedValue<V>) returns (merged: TimestampedValue<V>)
      ensures fresh(merged)
      ensures merged.View() == Join(hash, View(), other.View())
      ensures View() == old(View()) && other.View() == old(other.View())
    {
      merged := new TimestampedValue(value, timestamp);
      merged.SetValue(hash, other.value, other.timestamp);
    }
  }
}
