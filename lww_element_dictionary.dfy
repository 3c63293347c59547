/**
 The dictionary object of one replica. Its two tables are fields that the
 mutating operations reassign; every operation is specified by the
 function of the same name on `Replica` values, whose properties are
 proved in `ReplicaLaws`. Timestamps, which the object draws from its
 timestamp supplier, arrive as the argument `ts`.
 */
module LwwElementDictionaries {
  import opened Options
  import opened TimestampedValues
  import opened Replicas

  /**
   The adds half of `merge`: start from a copy of `mine` and, for each
   entry of `theirs` in whatever order, store the join of the entry already
   there (or of the entry itself, if there is none) with it.
   */
  method UnionAdds<K(!new), V>(hash: V -> int, mine: map<K, Stamped<V>>, theirs: map<K, Stamped<V>>)
    returns (merged: map<K, Stamped<V>>)
    ensures merged == MergeAdds(hash, mine, theirs)
  {
    merged := mine;
    var todo := theirs.Keys;
    ghost var done: set<K> := {};
    while todo != {}
      invariant todo !! done && todo + done == theirs.Keys
      invariant merged.Keys == mine.Keys + done
      invariant forall k :: k in merged && k !in done ==> merged[k] == mine[k]
      invariant forall k :: k in done ==> merged[k] == MergeAdds(hash, mine, theirs)[k]
      decreases todo
    {
      var k :| k in todo;
      var current := if k in merged then merged[k] else theirs[k];
      JoinIdempotent(hash, theirs[k], theirs[k]);
      merged := merged[k := Join(hash, current, theirs[k])];
      todo, done := todo - {k}, done + {k};
    }
  }

  /**
   The removes half of `merge`: start from a copy of `mine` and, for each
   tombstone of `theirs`, store the later of it and the one already there.
   */
  method UnionRemoves<K(!new)>(mine: map<K, int>, theirs: map<K, int>) returns (merged: map<K, int>)
    ensures merged == MergeRemoves(mine, theirs)
  {
    merged := mine;
    var todo := theirs.Keys;
    ghost var done: set<K> := {};
    while todo != {}
      invariant todo !! done && todo + done == theirs.Keys
      invariant merged.Keys == mine.Keys + done
      invariant forall k :: k in merged && k !in done ==> merged[k] == mine[k]
      invariant forall k :: k in done ==> merged[k] == MergeRemoves(mine, theirs)[k]
      decreases todo
    {
      var k :| k in todo;
      merged := merged[k := if k in merged then Max(theirs[k], merged[k]) else theirs[k]];
      todo, done := todo - {k}, done + {k};
    }
  }

  class LwwElementDictionary<K(==, !new), V> {
    var adds: map<K, Stamped<V>>
    var removes: map<K, int>

    /** The replica state this object holds. */
    function State(): Replica<K, V>
      reads this
    {
      Replica(adds, removes)
    }

    /** A new, empty replica. */
    constructor ()
      ensures State() == Empty()
    {
      adds, removes := map[], map[];
    }

    /** The private constructor `merge` uses to wrap the tables it built. */
    constructor FromTables(adds: map<K, Stamped<V>>, removes: map<K, int>)
      ensures State() == Replica(adds, removes)
    {
      this.adds, this.removes := adds, removes;
    }

    /** `contains`: the key has an insertion strictly newer than any tombstone it has. */
    predicate Contains(key: K)
      reads this
      ensures Contains(key) <==> Newer(AddTime(State(), key), RemoveTime(State(), key))
    {
      Replicas.Contains(State(), key)
    }

    /** `get`: the value in the adds table exactly when the key is present, else `None`. */
    function Get(key: K): (r: Option<V>)
      reads this
      ensures r.Some? <==> Contains(key)
      ensures r.Some? ==> key in adds && r.value == adds[key].value
    {
      Replicas.Get(State(), key)
    }

    method Put(hash: V -> int, key: K, value: V, ts: int)
      modifies this
      ensures State() == Replicas.Put(hash, old(State()), key, value, ts)
    {
      if key in adds {
        adds := adds[key := Accept(hash, adds[key], value, ts)];
      } else {
        adds := adds[key := Stamped(value, ts)];
      }
      RemoveDuplicates(key);
    }

    method Remove(key: K, ts: int)
      modifies this
      ensures State() == Replicas.Remove(old(State()), key, ts)
    {
      removes := removes[key := if key in removes then Max(ts, removes[key]) else ts];
      RemoveDuplicates(key);
    }

    /** Empties both tables; nothing is recorded that a later merge would see. */
    method Clear()
      modifies this
      ensures State() == Empty()
    {
      adds, removes := map[], map[];
    }

    method RemoveDuplicates(key: K)
      modifies this
      ensures State() == Compact(old(State()), key)
    {
      if key in adds && key in removes {
        var addTs, removeTs := adds[key].timestamp, removes[key];
        if addTs > removeTs {
          removes := removes - {key};
        } else {
          adds := adds - {key};
        }
      }
    }

    /** A new replica holding the merge of this one and `other`; neither operand changes. */
    method Merge(hash: V -> int, other: LwwElementDictionary<K, V>) returns (merged: LwwElementDictionary<K, V>)
      ensures fresh(merged)
      ensures merged.State() == Replicas.Merge(hash, State(), other.State())
      ensures State() == old(State()) && other.State() == old(other.State())
    {
      var mergedAdds := UnionAdds(hash, adds, other.adds);
      var mergedRemoves := UnionRemoves(removes, other.removes);
      merged := new LwwElementDictionary.FromTables(mergedAdds, mergedRemoves);
    }
  }
}
