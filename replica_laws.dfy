/**
 The properties the dictionary promises about its replicas: the merge
 algebra that makes it a CRDT, the invisibility of compaction, and what a
 put, remove or clear with the newest timestamp leaves behind.
 */
module ReplicaLaws {
  import opened Options
  import opened TimestampedValues
  import opened Replicas

  /** No key held by both replicas has two different values that tie on timestamp and hash. */
  ghost predicate Collisionless<K(!new), V>(hash: V -> int, a: Replica<K, V>, b: Replica<K, V>)
  {
    forall k :: k in a.adds && k in b.adds ==> NoTieCollision(hash, a.adds[k], b.adds[k])
  }

  lemma InjectiveIsCollisionless<K(!new), V(!new)>(hash: V -> int, a: Replica<K, V>, b: Replica<K, V>)
    requires Injective(hash)
    ensures Collisionless(hash, a, b)
  {
  }

  lemma MergeCommutative<K(!new), V>(hash: V -> int, a: Replica<K, V>, b: Replica<K, V>)
    requires Collisionless(hash, a, b)
    ensures Merge(hash, a, b) == Merge(hash, b, a)
  {
  }

  /** Without the no-collision condition, two replicas that tie on one key can disagree after merging in opposite orders. */
  lemma MergeNotCommutativeOnCollision()
    ensures var hash := (v: int) => 0;
            var a := Replica(map["A" := Stamped(1, 10)], map[]);
            var b := Replica(map["A" := Stamped(2, 10)], map[]);
            Get(Merge(hash, a, b), "A") == Some(1) && Get(Merge(hash, b, a), "A") == Some(2)
  {
  }

  lemma AddsAssociative<K(!new), V>(hash: V -> int, a: map<K, Stamped<V>>, b: map<K, Stamped<V>>, c: map<K, Stamped<V>>)
    ensures MergeAdds(hash, MergeAdds(hash, a, b), c) == MergeAdds(hash, a, MergeAdds(hash, b, c))
  {
  }

  lemma RemovesAssociative<K(!new)>(a: map<K, int>, b: map<K, int>, c: map<K, int>)
    ensures MergeRemoves(MergeRemoves(a, b), c) == MergeRemoves(a, MergeRemoves(b, c))
  {
  }

  lemma MergeAssociative<K(!new), V>(hash: V -> int, a: Replica<K, V>, b: Replica<K, V>, c: Replica<K, V>)
    ensures Merge(hash, Merge(hash, a, b), c) == Merge(hash, a, Merge(hash, b, c))
  {
    AddsAssociative(hash, a.adds, b.adds, c.adds);
    RemovesAssociative(a.removes, b.removes, c.removes);
  }

  /** Merging with itself changes nothing, and merging either operand in again changes nothing. */
  lemma MergeIdempotent<K(!new), V>(hash: V -> int, a: Replica<K, V>, b: Replica<K, V>)
    ensures Merge(hash, a, a) == a
    ensures Merge(hash, Merge(hash, a, b), b) == Merge(hash, a, b)
    ensures Merge(hash, Merge(hash, a, b), a) == Merge(hash, a, b)
  {
    var ab := Merge(hash, a, b);
    assert MergeAdds(hash, a.adds, a.adds) == a.adds;
    assert MergeAdds(hash, ab.adds, b.adds) == ab.adds;
    assert MergeAdds(hash, ab.adds, a.adds) == ab.adds;
  }

  /** A fresh (or cleared) replica is the identity of merge. */
  lemma MergeEmpty<K(!new), V>(hash: V -> int, a: Replica<K, V>)
    ensures Merge(hash, Empty(), a) == a && Merge(hash, a, Empty()) == a
  {
  }

  /** After a merge a key is present iff its newest insertion on either side is newer than its newest tombstone on either side. */
  lemma MergedPresence<K(!new), V>(hash: V -> int, a: Replica<K, V>, b: Replica<K, V>, k: K)
    ensures Contains(Merge(hash, a, b), k)
        <==> Newer(Latest(AddTime(a, k), AddTime(b, k)), Latest(RemoveTime(a, k), RemoveTime(b, k)))
  {
  }

  /** When a key is present after a merge, `get` returns the value of the register that wins the join. */
  lemma MergedValue<K(!new), V>(hash: V -> int, a: Replica<K, V>, b: Replica<K, V>, k: K)
    requires Contains(Merge(hash, a, b), k)
    ensures k in a.adds && k in b.adds ==> Get(Merge(hash, a, b), k) == Some(Join(hash, a.adds[k], b.adds[k]).value)
    ensures k in a.adds && k !in b.adds ==> Get(Merge(hash, a, b), k) == Some(a.adds[k].value)
    ensures k !in a.adds ==> Get(Merge(hash, a, b), k) == Some(b.adds[k].value)
  {
  }

  /** Dropping a tombstone older than the key's insertion does not change any merge's answer for that key. */
  lemma MergeIgnoresDroppedTombstone<K(!new), V>(hash: V -> int, s: Replica<K, V>, t: Replica<K, V>, k: K)
    requires k in s.adds && k in s.removes && s.adds[k].timestamp > s.removes[k]
    ensures Get(Merge(hash, Replica(s.adds, s.removes - {k}), t), k) == Get(Merge(hash, s, t), k)
    ensures Get(Merge(hash, t, Replica(s.adds, s.removes - {k})), k) == Get(Merge(hash, t, s), k)
  {
  }

  /** Dropping an insertion no newer than the key's tombstone does not change any merge's answer for that key. */
  lemma MergeIgnoresDroppedInsertion<K(!new), V>(hash: V -> int, s: Replica<K, V>, t: Replica<K, V>, k: K)
    requires k in s.adds && k in s.removes && s.adds[k].timestamp <= s.removes[k]
    ensures Get(Merge(hash, Replica(s.adds - {k}, s.removes), t), k) == Get(Merge(hash, s, t), k)
    ensures Get(Merge(hash, t, Replica(s.adds - {k}, s.removes)), k) == Get(Merge(hash, t, s), k)
  {
  }

  /**
   Compaction is invisible to merging too: a replica merged before or
   after compacting `k` answers every `get` alike, on either side.
   */
  lemma MergeIgnoresCompaction<K(!new), V>(hash: V -> int, s: Replica<K, V>, t: Replica<K, V>, k: K, j: K)
    ensures Get(Merge(hash, Compact(s, k), t), j) == Get(Merge(hash, s, t), j)
    ensures Get(Merge(hash, t, Compact(s, k)), j) == Get(Merge(hash, t, s), j)
  {
    var c := Compact(s, k);
    if j == k && k in s.adds && k in s.removes {
      if s.adds[k].timestamp > s.removes[k] {
        MergeIgnoresDroppedTombstone(hash, s, t, k);
      } else {
        MergeIgnoresDroppedInsertion(hash, s, t, k);
      }
    } else {
      assert SameAt(c, s, j);
      MergeRespectsSameAt(hash, c, s, t, j);
    }
  }

  /** Merging two replicas that agree on a key with a third gives results that agree on that key. */
  lemma MergeRespectsSameAt<K(!new), V>(hash: V -> int, s: Replica<K, V>, s': Replica<K, V>, t: Replica<K, V>, j: K)
    requires SameAt(s, s', j)
    ensures Get(Merge(hash, s, t), j) == Get(Merge(hash, s', t), j)
    ensures Get(Merge(hash, t, s), j) == Get(Merge(hash, t, s'), j)
  {
  }

  /** A put with a timestamp newer than anything recorded for the key makes `get` return the value; no other key changes. */
  lemma PutNewest<K(!new), V>(hash: V -> int, s: Replica<K, V>, k: K, v: V, ts: int)
    requires k in s.adds ==> s.adds[k].timestamp < ts
    requires k in s.removes ==> s.removes[k] < ts
    ensures Get(Put(hash, s, k, v, ts), k) == Some(v)
    ensures forall j :: j != k ==> Get(Put(hash, s, k, v, ts), j) == Get(s, j)
  {
  }

  /** A remove no older than the key's insertion makes the key absent (the remove wins a tie); no other key changes. */
  lemma RemoveNewest<K(!new), V>(s: Replica<K, V>, k: K, ts: int)
    requires k in s.adds ==> s.adds[k].timestamp <= ts
    ensures !Contains(Remove(s, k, ts), k)
    ensures forall j :: j != k ==> Get(Remove(s, k, ts), j) == Get(s, j)
  {
  }

  /**
   A remove at least as new as every insertion of `k` on both replicas
   wins whichever way the replicas are merged: its tombstone survives
   compaction and outranks the other side's insertion, a tie included.
   */
  lemma RemoveWinsMerge<K(!new), V>(hash: V -> int, s: Replica<K, V>, t: Replica<K, V>, k: K, ts: int)
    requires k in s.adds ==> s.adds[k].timestamp <= ts
    requires k in t.adds ==> t.adds[k].timestamp <= ts
    ensures !Contains(Merge(hash, Remove(s, k, ts), t), k)
    ensures !Contains(Merge(hash, t, Remove(s, k, ts)), k)
  {
  }

  /** After `clear` no key is present. */
  lemma ClearedHoldsNothing<K(!new), V>(k: K)
    ensures !Contains(Empty<K, V>(), k) && Get(Empty<K, V>(), k) == None
  {
  }
}
