/**
 The scenarios of the repository's test suite, for any starting value `t`
 of the shared timestamp counter and any hash on strings.
 */
module Scenarios {
  import opened Options
  import opened TimestampedValues
  import opened Replicas
  import opened ReplicaLaws

  lemma PutThenGet(hash: string -> int, t: int)
    ensures var s := Put(hash, Put(hash, Empty(), "A", "Apple", t), "O", "Orange", t + 1);
            Get(s, "A") == Some("Apple") && Get(s, "O") == Some("Orange") && Get(s, "UNKNOWN") == None
  {
  }

  lemma PutOverwrites(hash: string -> int, t: int)
    ensures var s := Put(hash, Put(hash, Put(hash, Empty(), "A", "Apple", t), "B", "Banana", t + 1), "A", "Alligator", t + 2);
            Get(s, "A") == Some("Alligator") && Get(s, "B") == Some("Banana")
  {
  }

  lemma RemoveAfterPut(hash: string -> int, t: int)
    ensures Get(Remove(Put(hash, Empty(), "A", "Apple", t), "A", t + 1), "A") == None
  {
  }

  /** Two replicas whose shared counter is frozen: the remove on one beats the put on the other. */
  lemma RemoveWinsTie(hash: string -> int)
    ensures Get(Merge(hash, Remove(Empty(), "A", 1), Put(hash, Empty(), "A", "Apple", 1)), "A") == None
  {
  }

  /** The first replica of the merge tests: puts A and B, then removes C, which it never held. */
  lemma ReplicaOne(hash: string -> int, t: int)
    ensures Remove(Put(hash, Put(hash, Empty(), "A", "Apple", t), "B", "Banana", t + 1), "C", t + 2)
         == Replica(map["A" := Stamped("Apple", t), "B" := Stamped("Banana", t + 1)], map["C" := t + 2])
  {
  }

  /** Merging three replicas in either grouping leaves A absent, B = Brains and C = Cat. */
  lemma ThreeWayMerge(hash: string -> int, t: int)
    ensures var a := Remove(Put(hash, Put(hash, Empty(), "A", "Apple", t), "B", "Banana", t + 1), "C", t + 2);
            var b := Remove(Put(hash, Put(hash, Empty(), "B", "Brains", t + 3), "C", "Carrot", t + 4), "A", t + 5);
            var c := Put(hash, Empty(), "C", "Cat", t + 6);
            var m := Merge(hash, Merge(hash, a, b), c);
            && m == Merge(hash, a, Merge(hash, b, c))
            && !Contains(m, "A") && Get(m, "B") == Some("Brains") && Get(m, "C") == Some("Cat")
  {
    var a := Remove(Put(hash, Put(hash, Empty(), "A", "Apple", t), "B", "Banana", t + 1), "C", t + 2);
    var b := Remove(Put(hash, Put(hash, Empty(), "B", "Brains", t + 3), "C", "Carrot", t + 4), "A", t + 5);
    var c := Put(hash, Empty(), "C", "Cat", t + 6);
    ReplicaOne(hash, t);
    var b1 := Put(hash, Empty(), "B", "Brains", t + 3);
    assert b1 == Replica(map["B" := Stamped("Brains", t + 3)], map[]);
    var b2 := Put(hash, b1, "C", "Carrot", t + 4);
    assert b2 == Replica(map["B" := Stamped("Brains", t + 3), "C" := Stamped("Carrot", t + 4)], map[]);
    assert b == Replica(map["B" := Stamped("Brains", t + 3), "C" := Stamped("Carrot", t + 4)], map["A" := t + 5]);
    assert c == Replica(map["C" := Stamped("Cat", t + 6)], map[]);
    MergeAssociative(hash, a, b, c);
    var m := Merge(hash, Merge(hash, a, b), c);
    assert m.adds["B"] == Stamped("Brains", t + 3);
    assert m.adds["C"] == Stamped("Cat", t + 6);
    assert m.removes["A"] == t + 5 && m.removes["C"] == t + 2 && "B" !in m.removes;
  }

  /** The commutativity test: the two replicas share key B, written at different times. */
  lemma TwoWayMergeCommutes(hash: string -> int, t: int)
    ensures var a := Remove(Put(hash, Put(hash, Empty(), "A", "Apple", t), "B", "Banana", t + 1), "C", t + 2);
            var b := Remove(Put(hash, Put(hash, Empty(), "B", "Brains", t + 3), "C", "Carrot", t + 4), "A", t + 5);
            Merge(hash, a, b) == Merge(hash, b, a)
  {
  }

  /** The idempotence test: merging the same replicas again and again ends where one merge does. */
  lemma RepeatedMerge(hash: string -> int, t: int)
    ensures var a := Remove(Put(hash, Empty(), "A", "Apple", t), "B", t + 1);
            var b := Put(hash, Put(hash, Empty(), "A", "Alligator", t + 2), "B", "Banana", t + 3);
            var m := Merge(hash, Merge(hash, Merge(hash, a, b), b), a);
            && m == Merge(hash, a, b)
            && Get(m, "A") == Some("Alligator") && Get(m, "B") == Some("Banana")
  {
    var a := Remove(Put(hash, Empty(), "A", "Apple", t), "B", t + 1);
    var b := Put(hash, Put(hash, Empty(), "A", "Alligator", t + 2), "B", "Banana", t + 3);
    assert Put(hash, Empty(), "A", "Apple", t) == Replica(map["A" := Stamped("Apple", t)], map[]);
    assert a == Replica(map["A" := Stamped("Apple", t)], map["B" := t + 1]);
    assert Put(hash, Empty(), "A", "Alligator", t + 2) == Replica(map["A" := Stamped("Alligator", t + 2)], map[]);
    assert b == Replica(map["A" := Stamped("Alligator", t + 2), "B" := Stamped("Banana", t + 3)], map[]);
    MergeIdempotent(hash, a, b);
    var m := Merge(hash, a, b);
    assert m.adds["A"] == Stamped("Alligator", t + 2);
    assert m.adds["B"] == Stamped("Banana", t + 3) && m.removes["B"] == t + 1;
  }

  /**
   The frozen-counter test: both replicas write A and B at the same time.
   With hashes that tell the competing values apart, both merge orders agree.
   */
  lemma EqualTimestampMergeCommutes(hash: string -> int)
    requires hash("Apple") != hash("Alligator") && hash("Banana") != hash("Bison")
    ensures var a := Put(hash, Put(hash, Empty(), "A", "Apple", 1), "B", "Banana", 1);
            var b := Put(hash, Put(hash, Empty(), "A", "Alligator", 1), "B", "Bison", 1);
            Get(Merge(hash, a, b), "A") == Get(Merge(hash, b, a), "A")
            && Get(Merge(hash, a, b), "B") == Get(Merge(hash, b, a), "B")
  {
  }
}
