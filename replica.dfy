/** The value `get` returns: `None` where the dictionary answers null. */
module Options {
  datatype Option<T> = None | Some(value: T)
}

/**
 The state of one replica of the last-writer-wins element dictionary, as a
 value: the adds table (key to the latest observed insertion) and the
 removes table (key to the latest observed tombstone). Every operation of
 the dictionary is specified here as a function on that state.
 */
module Replicas {
  import opened Options
  import opened TimestampedValues

  datatype Replica<K, V> = Replica(adds: map<K, Stamped<V>>, removes: map<K, int>)

  function Empty<K(!new), V>(): Replica<K, V>
  {
    Replica(map[], map[])
  }

  /** The time of the newest insertion of `k`, if any. */
  function AddTime<K(!new), V>(s: Replica<K, V>, k: K): Option<int>
  {
    if k in s.adds then Some(s.adds[k].timestamp) else None
  }

  /** The time of the newest tombstone of `k`, if any. */
  function RemoveTime<K(!new), V>(s: Replica<K, V>, k: K): Option<int>
  {
    if k in s.removes then Some(s.removes[k]) else None
  }

  /** An insertion at `add` survives a tombstone at `remove` when it is strictly newer; a missing tombstone is older than anything. */
  predicate Newer(add: Option<int>, remove: Option<int>)
  {
    add.Some? && (remove.None? || remove.value < add.value)
  }

  /** The later of two optional times, a missing time being the earliest. */
  function Latest(x: Option<int>, y: Option<int>): (r: Option<int>)
    ensures r.None? <==> x.None? && y.None?
    ensures x.Some? ==> r.value >= x.value
    ensures y.Some? ==> r.value >= y.value
    ensures r == x || r == y
  {
    match (x, y)
    case (None, _) => y
    case (_, None) => x
    case (Some(a), Some(b)) => Some(Max(a, b))
  }

  /**
   `contains`: no insertion means absent, an insertion without tombstone
   means present, and otherwise the tombstone must be strictly older, so
   a remove wins a tie.
   */
  predicate Contains<K(!new), V>(s: Replica<K, V>, k: K)
    ensures Contains(s, k) <==> Newer(AddTime(s, k), RemoveTime(s, k))
  {
    if k !in s.adds then false
    else if k !in s.removes then true
    else s.removes[k] < s.adds[k].timestamp
  }

  /** `get`: the inserted value exactly when the key is present. */
  function Get<K(!new), V>(s: Replica<K, V>, k: K): (r: Option<V>)
    ensures r.Some? <==> Contains(s, k)
    ensures r.Some? ==> k in s.adds && r.value == s.adds[k].value
  {
    if Contains(s, k) then Some(s.adds[k].value) else None
  }

  /** The entries of `s` and `t` for key `j` are the same in both tables. */
  ghost predicate SameAt<K(!new), V>(s: Replica<K, V>, t: Replica<K, V>, j: K)
  {
    && (j in s.adds <==> j in t.adds)
    && (j in s.adds ==> s.adds[j] == t.adds[j])
    && (j in s.removes <==> j in t.removes)
    && (j in s.removes ==> s.removes[j] == t.removes[j])
  }

  /**
   `removeDuplicates(k)`: when `k` is in both tables, drop the dominated
   entry: the tombstone if the insertion is strictly newer, else the
   insertion. It never changes what `contains` or `get` report.
   */
  function Compact<K(!new), V>(s: Replica<K, V>, k: K): (r: Replica<K, V>)
    ensures !(k in r.adds && k in r.removes)
    ensures r.adds.Keys <= s.adds.Keys && r.removes.Keys <= s.removes.Keys
    ensures forall j :: j in r.adds ==> r.adds[j] == s.adds[j]
    ensures forall j :: j in r.removes ==> r.removes[j] == s.removes[j]
    ensures forall j :: j != k ==> SameAt(r, s, j)
    ensures forall j :: Contains(r, j) == Contains(s, j)
    ensures forall j :: Get(r, j) == Get(s, j)
  {
    if k in s.adds && k in s.removes then
      if s.adds[k].timestamp > s.removes[k] then Replica(s.adds, s.removes - {k})
      else Replica(s.adds - {k}, s.removes)
    else s
  }

  /** The register `put(k, v)` at `ts` leaves for `k` before compaction. */
  function Inserted<K(!new), V>(hash: V -> int, s: Replica<K, V>, k: K, v: V, ts: int): Stamped<V>
  {
    if k in s.adds then Accept(hash, s.adds[k], v, ts) else Stamped(v, ts)
  }

  /**
   `put(k, v)` at time `ts`: offer `(v, ts)` to the register of `k`
   (creating it if `k` has none), then compact `k`.
   */
  function Put<K(!new), V>(hash: V -> int, s: Replica<K, V>, k: K, v: V, ts: int): (r: Replica<K, V>)
    ensures forall j :: j != k ==> SameAt(r, s, j)
    ensures !(k in r.adds && k in r.removes)
    ensures Contains(r, k) <==> Newer(Some(Inserted(hash, s, k, v, ts).timestamp), RemoveTime(s, k))
    ensures Contains(r, k) ==> Get(r, k) == Some(Inserted(hash, s, k, v, ts).value)
    ensures k in r.adds ==> r.adds[k] == Inserted(hash, s, k, v, ts)
    ensures !Contains(r, k) ==> r.removes == s.removes
    ensures k in r.removes ==> r.removes == s.removes
  {
    Compact(Replica(s.adds[k := Inserted(hash, s, k, v, ts)], s.removes), k)
  }

  /**
   `remove(k)` at time `ts`: keep the later of `ts` and any existing
   tombstone of `k`, then compact `k`.
   */
  function Remove<K(!new), V>(s: Replica<K, V>, k: K, ts: int): (r: Replica<K, V>)
    ensures forall j :: j != k ==> SameAt(r, s, j)
    ensures !(k in r.adds && k in r.removes)
    ensures Contains(r, k) <==> Contains(s, k) && ts < s.adds[k].timestamp
    ensures k in r.removes ==> RemoveTime(r, k) == Latest(Some(ts), RemoveTime(s, k))
    ensures !Contains(r, k) ==> RemoveTime(r, k) == Latest(Some(ts), RemoveTime(s, k))
    ensures k in r.adds ==> r.adds[k] == s.adds[k]
  {
    var tomb := if k in s.removes then Max(ts, s.removes[k]) else ts;
    Compact(Replica(s.adds, s.removes[k := tomb]), k)
  }

  /** The adds table of a merge: union of keys, registers joined where both sides hold one. */
  function MergeAdds<K(!new), V>(hash: V -> int, a: map<K, Stamped<V>>, b: map<K, Stamped<V>>): map<K, Stamped<V>>
  {
    map k | k in a.Keys + b.Keys ::
      if k in a && k in b then Join(hash, a[k], b[k])
      else if k in a then a[k]
      else b[k]
  }

  /** The removes table of a merge: union of keys, the later tombstone where both sides hold one. */
  function MergeRemoves<K(!new)>(a: map<K, int>, b: map<K, int>): map<K, int>
  {
    map k | k in a.Keys + b.Keys ::
      if k in a && k in b then Max(a[k], b[k])
      else if k in a then a[k]
      else b[k]
  }

  /**
   Each register of the merged adds table is one of the two sides'
   registers for that key, it ranks at least as high as both, and the
   left one is kept when it ranks at least as high as the right one.
   */
  lemma MergeAddsPicksWinner<K(!new), V>(hash: V -> int, a: map<K, Stamped<V>>, b: map<K, Stamped<V>>, k: K)
    ensures k in MergeAdds(hash, a, b) <==> k in a || k in b
    ensures k in a || k in b ==> var r := MergeAdds(hash, a, b)[k];
      && ((k in a && r == a[k]) || (k in b && r == b[k]))
      && (k in a ==> RanksAtLeast(hash, r, a[k]))
      && (k in b ==> RanksAtLeast(hash, r, b[k]))
      && (k in a && k in b && RanksAtLeast(hash, a[k], b[k]) ==> r == a[k])
  {
  }

  /** Each tombstone of the merged removes table is one of the two sides' tombstones for that key, and no older than either. */
  lemma MergeRemovesPicksLatest<K(!new)>(a: map<K, int>, b: map<K, int>, k: K)
    ensures k in MergeRemoves(a, b) <==> k in a || k in b
    ensures k in a || k in b ==> var r := MergeRemoves(a, b)[k];
      && ((k in a && r == a[k]) || (k in b && r == b[k]))
      && (k in a ==> r >= a[k])
      && (k in b ==> r >= b[k])
  {
  }

  /** `merge`: the key-wise union of both tables; nothing is compacted. */
  function Merge<K(!new), V>(hash: V -> int, a: Replica<K, V>, b: Replica<K, V>): (r: Replica<K, V>)
    ensures r.adds.Keys == a.adds.Keys + b.adds.Keys
    ensures r.removes.Keys == a.removes.Keys + b.removes.Keys
    ensures forall k :: AddTime(r, k) == Latest(AddTime(a, k), AddTime(b, k))
    ensures forall k :: RemoveTime(r, k) == Latest(RemoveTime(a, k), RemoveTime(b, k))
  {
    Replica(MergeAdds(hash, a.adds, b.adds), MergeRemoves(a.removes, b.removes))
  }
}
