/** The in-memory caches of the retrieval layer: a key -> (timestamp, value)
    dictionary whose entries are valid for 24 hours and are never removed on
    read, and the size-bounded memoiser that evicts the entry with the oldest
    timestamp once it holds more than `max_size` results. The clock is passed
    in as `now` (a reading of `time.time()`). */
module Cache {
  import opened Common

  /** Seconds an entry stays valid: 24 hours. */
  const CacheExpiry: real := 86400.0

  datatype Entry<V> = Entry(timestamp: real, value: V)

  type Store<V> = map<string, Entry<V>>

  /** `get_from_cache` at clock reading `now`: the stored value while it is
      younger than `CacheExpiry`, otherwise nothing. */
  function Lookup<V>(m: Store<V>, key: string, now: real): Option<V> {
    if key in m && now - m[key].timestamp < CacheExpiry then Some(m[key].value) else None
  }

  /** `add_to_cache` at clock reading `now`. */
  function Add<V>(m: Store<V>, key: string, data: V, now: real): Store<V> {
    m[key := Entry(now, data)]
  }

  /** What is stored at time `t` reads back unchanged exactly while the reading
      is less than `CacheExpiry` later; after that it reads as absent. */
  lemma AddThenLookup<V>(m: Store<V>, key: string, data: V, t: real, t': real)
    ensures Lookup(Add(m, key, data, t), key, t') == if t' - t < CacheExpiry then Some(data) else None
  {
  }

  /** Adding under one key leaves every other key's lookup as it was. */
  lemma AddLeavesOtherKeys<V>(m: Store<V>, key: string, data: V, t: real, other: string, t': real)
    requires other != key
    ensures Lookup(Add(m, key, data, t), other, t') == Lookup(m, other, t')
  {
  }

  /** Lookups are monotone in time: an entry that has expired stays expired. */
  lemma ExpiryIsPermanent<V>(m: Store<V>, key: string, t: real, t': real)
    requires t <= t'
    requires Lookup(m, key, t).None?
    ensures Lookup(m, key, t').None?
  {
  }

  /** One of the two module-level dictionaries (`pmid_cache`, `geo_cache`). */
  class TtlCache<V> {
    var entries: Store<V>

    constructor ()
      ensures entries == map[]
    {
      entries := map[];
    }

    /** `get_from_cache(self, key)`: reads only; an expired entry stays in place. */
    method Get(key: string, now: real) returns (r: Option<V>)
      ensures r == Lookup(entries, key, now)
      ensures r.Some? <==> key in entries && now - entries[key].timestamp < CacheExpiry
    {
      r := None;
      if key in entries {
        var e := entries[key];
        if now - e.timestamp < CacheExpiry {
          r := Some(e.value);
        }
      }
    }

    /** `add_to_cache(self, key, data)`. */
    method Put(key: string, data: V, now: real)
      modifies this
      ensures entries == Add(old(entries), key, data, now)
    {
      entries := entries[key := Entry(now, data)];
    }

    /** The objects (or values) held by the cache. */
    ghost function Values(): set<V>
      reads this
    {
      set k | k in entries :: entries[k].value
    }
  }

  // ---------------------------------------------------------------------
  // The `cached_result(max_size)` decorator.
  // ---------------------------------------------------------------------

  ghost predicate NoDuplicates(s: seq<string>) {
    forall i, j :: 0 <= i < j < |s| ==> s[i] != s[j]
  }

  /** The closure dictionary of a decorated function, with its keys in
      insertion order (the order `min` scans them in). The stored values are
      `Option<R>` because the decorated function may return None. */
  datatype MemoState<R> = MemoState(entries: Store<Option<R>>, order: seq<string>)

  ghost predicate WellFormed<R>(s: MemoState<R>) {
    && NoDuplicates(s.order)
    && (forall i :: 0 <= i < |s.order| ==> s.order[i] in s.entries)
    && (forall k :: k in s.entries ==> k in s.order)
  }

  /** The largest size the dictionary can have between calls. */
  function Capacity(maxSize: int): nat {
    if maxSize < 0 then 0 else maxSize
  }

  /** `cached is not None`: a stored None reads back as a miss. */
  predicate IsHit<R>(entries: Store<Option<R>>, key: string, now: real) {
    var c := Lookup(entries, key, now);
    c.Some? && c.value.Some?
  }

  /** The timestamps of the entries, in key order. */
  function Stamps<R>(entries: Store<Option<R>>, order: seq<string>): (ts: seq<real>)
    requires forall i :: 0 <= i < |order| ==> order[i] in entries
    ensures |ts| == |order|
    ensures forall i :: 0 <= i < |order| ==> ts[i] == entries[order[i]].timestamp
  {
    seq(|order|, i requires 0 <= i < |order| => entries[order[i]].timestamp)
  }

  /** `add_to_cache(cache, key, result)` on the ordered dictionary: a key that
      is already present keeps its position. */
  function Inserted<R>(s: MemoState<R>, key: string, result: Option<R>, now: real): MemoState<R> {
    MemoState(s.entries[key := Entry(now, result)],
              if key in s.entries then s.order else s.order + [key])
  }

  /** The size check that follows the insertion: when the dictionary holds more
      than `maxSize` entries, the first key (in insertion order) with the
      smallest timestamp is deleted. */
  function Evicted<R>(s: MemoState<R>, maxSize: int): MemoState<R>
    requires WellFormed(s)
  {
    if |s.entries| > maxSize && |s.order| > 0 then
      var i := FirstMinIndex(Stamps(s.entries, s.order));
      MemoState(s.entries - {s.order[i]}, s.order[..i] + s.order[i + 1..])
    else s
  }

  /** The dictionary after a miss has called the function and stored `result`. */
  function AfterMiss<R>(s: MemoState<R>, key: string, result: Option<R>, now: real, maxSize: int): MemoState<R>
    requires WellFormed(s)
  {
    InsertedWellFormed(s, key, result, now);
    Evicted(Inserted(s, key, result, now), maxSize)
  }

  lemma InsertedWellFormed<R>(s: MemoState<R>, key: string, result: Option<R>, now: real)
    requires WellFormed(s)
    ensures WellFormed(Inserted(s, key, result, now))
  {
  }

  /** A duplicate-free key sequence has as many elements as its key set. */
  lemma {:induction false} DistinctCount(order: seq<string>, keys: set<string>)
    requires NoDuplicates(order)
    requires forall i :: 0 <= i < |order| ==> order[i] in keys
    requires forall k :: k in keys ==> k in order
    ensures |keys| == |order|
  {
    if order != [] {
      var x := order[|order| - 1];
      var rest := order[..|order| - 1];
      forall k | k in keys - {x} ensures k in rest {
        var i :| 0 <= i < |order| && order[i] == k;
      }
      DistinctCount(rest, keys - {x});
    }
  }

  /** Deleting position `i` from a duplicate-free key sequence leaves it
      duplicate free and removes exactly that key. */
  lemma RemovedOrder(order: seq<string>, i: int)
    requires NoDuplicates(order) && 0 <= i < |order|
    ensures NoDuplicates(order[..i] + order[i + 1..])
    ensures forall k :: k in order[..i] + order[i + 1..] <==> k in order && k != order[i]
  {
    var out := order[..i] + order[i + 1..];
    assert |out| == |order| - 1;
    forall a, b | 0 <= a < b < |out| ensures out[a] != out[b] {
      var a' := if a < i then a else a + 1;
      var b' := if b < i then b else b + 1;
      assert out[a] == order[a'] && out[b] == order[b'];
    }
    forall k ensures k in out <==> k in order && k != order[i] {
      if k in out {
        var j :| 0 <= j < |out| && out[j] == k;
        var j' := if j < i then j else j + 1;
        assert out[j] == order[j'];
      }
      if k in order && k != order[i] {
        var j :| 0 <= j < |order| && order[j] == k;
        if j < i { assert out[j] == k; } else { assert out[j - 1] == k; }
      }
    }
  }

  /** Deleting the key at position `i` keeps the dictionary well formed and
      shrinks it by one entry. */
  lemma RemovedWellFormed<R>(s: MemoState<R>, i: int)
    requires WellFormed(s) && 0 <= i < |s.order|
    ensures WellFormed(MemoState(s.entries - {s.order[i]}, s.order[..i] + s.order[i + 1..]))
    ensures |s.entries - {s.order[i]}| == |s.entries| - 1
  {
    var x := s.order[i];
    var out := MemoState(s.entries - {x}, s.order[..i] + s.order[i + 1..]);
    RemovedOrder(s.order, i);
    forall j | 0 <= j < |out.order| ensures out.order[j] in out.entries {
      assert out.order[j] in out.order;
    }
    DistinctCount(s.order, s.entries.Keys);
    DistinctCount(out.order, out.entries.Keys);
  }

  /** Whatever happens on a miss, the dictionary stays well formed and never
      grows beyond the capacity it had before. */
  lemma AfterMissBounded<R>(s: MemoState<R>, key: string, result: Option<R>, now: real, maxSize: int)
    requires WellFormed(s) && |s.entries| <= Capacity(maxSize)
    ensures WellFormed(AfterMiss(s, key, result, now, maxSize))
    ensures |AfterMiss(s, key, result, now, maxSize).entries| <= Capacity(maxSize)
  {
    var ins := Inserted(s, key, result, now);
    InsertedWellFormed(s, key, result, now);
    InsertedSize(s, key, result, now);
    assert AfterMiss(s, key, result, now, maxSize) == Evicted(ins, maxSize);
    EvictedWellFormed(ins, maxSize);
  }

  /** Storing a key adds at most one entry, and the key order is never empty
      afterwards. */
  lemma InsertedSize<R>(s: MemoState<R>, key: string, result: Option<R>, now: real)
    ensures |Inserted(s, key, result, now).entries| <= |s.entries| + 1
    ensures |Inserted(s, key, result, now).order| > 0 || key in s.entries
  {
    var ins := Inserted(s, key, result, now);
    if key in s.entries {
      assert ins.entries.Keys == s.entries.Keys;
    } else {
      assert ins.entries.Keys == s.entries.Keys + {key};
    }
  }

  lemma EvictedUnfolds<R>(s: MemoState<R>, maxSize: int)
    requires WellFormed(s)
    ensures |s.entries| > maxSize && |s.order| > 0 ==>
      var i := FirstMinIndex(Stamps(s.entries, s.order));
      Evicted(s, maxSize) == MemoState(s.entries - {s.order[i]}, s.order[..i] + s.order[i + 1..])
    ensures !(|s.entries| > maxSize && |s.order| > 0) ==> Evicted(s, maxSize) == s
  {
  }

  /** The size check removes one entry when the dictionary is over `maxSize`
      and none otherwise. */
  lemma EvictedWellFormed<R>(s: MemoState<R>, maxSize: int)
    requires WellFormed(s)
    ensures WellFormed(Evicted(s, maxSize))
    ensures |Evicted(s, maxSize).entries| ==
      if |s.entries| > maxSize && |s.order| > 0 then |s.entries| - 1 else |s.entries|
  {
    if |s.entries| > maxSize && |s.order| > 0 {
      RemovedWellFormed(s, FirstMinIndex(Stamps(s.entries, s.order)));
    }
  }

  /** With a clock that moves forward strictly (every stored timestamp is older
      than `now`) and `maxSize >= 1`, the entry just stored is never the one
      evicted. */
  lemma NewestNotEvicted<R>(s: MemoState<R>, key: string, result: Option<R>, now: real, maxSize: int)
    requires WellFormed(s) && |s.entries| <= Capacity(maxSize)
    requires maxSize >= 1
    requires forall k :: k in s.entries ==> s.entries[k].timestamp < now
    ensures key in AfterMiss(s, key, result, now, maxSize).entries
    ensures AfterMiss(s, key, result, now, maxSize).entries[key] == Entry(now, result)
  {
    var ins := Inserted(s, key, result, now);
    InsertedWellFormed(s, key, result, now);
    if |ins.entries| > maxSize && |ins.order| > 0 {
      DistinctCount(s.order, s.entries.Keys);
      DistinctCount(ins.order, ins.entries.Keys);
      var ts := Stamps(ins.entries, ins.order);
      var i := FirstMinIndex(ts);
      // Two keys at least are present, so some other key is strictly older.
      assert |ins.order| >= 2;
      var j :| 0 <= j < |ins.order| && ins.order[j] == key;
      var other := if j == 0 then 1 else 0;
      assert ins.order[other] != key;
      assert ts[other] < now == ts[j];
      assert i != j;
    }
  }

  /** A stored None is a miss at every later reading, so the decorated
      function is called again. */
  lemma NoneResultIsNotAHit<R>(s: MemoState<R>, key: string, now: real, later: real, maxSize: int)
    requires WellFormed(s)
    requires key in AfterMiss(s, key, None, now, maxSize).entries
    ensures !IsHit(AfterMiss(s, key, None, now, maxSize).entries, key, later)
  {
    var ins := Inserted(s, key, None, now);
    InsertedWellFormed(s, key, None, now);
    if |ins.entries| > maxSize && |ins.order| > 0 {
      var i := FirstMinIndex(Stamps(ins.entries, ins.order));
      assert key != ins.order[i];
    }
  }

  /** A function decorated with `cached_result(max_size)`. `keyOf` renders the
      arguments (`str(args) + str(sorted(kwargs.items()))`); `func` is the
      decorated function, whose None result is `None` here and which may
      raise instead of returning. */
  class Memoiser<A, R> {
    const maxSize: int
    const func: A -> Result<Option<R>>
    const keyOf: A -> string
    var entries: Store<Option<R>>
    var order: seq<string>

    ghost function State(): MemoState<R>
      reads this
    {
      MemoState(entries, order)
    }

    ghost predicate Valid()
      reads this
    {
      WellFormed(State()) && |entries| <= Capacity(maxSize)
    }

    constructor (maxSize: int, func: A -> Result<Option<R>>, keyOf: A -> string)
      ensures Valid()
      ensures this.maxSize == maxSize && this.func == func && this.keyOf == keyOf
      ensures entries == map[] && order == []
    {
      this.maxSize := maxSize;
      this.func := func;
      this.keyOf := keyOf;
      entries := map[];
      order := [];
    }

    /** `wrapper(*args, **kwargs)`. The clock is read twice: `now` when the
        cache is looked up and `storedAt` when a miss is stored, after `func`
        has run. `called` tells whether the decorated function was invoked.
        An exception raised by `func` propagates before anything is stored. */
    method Call(args: A, now: real, storedAt: real) returns (r: Result<Option<R>>, called: bool)
      requires Valid()
      requires now <= storedAt
      modifies this
      ensures Valid()
      ensures IsHit(old(entries), keyOf(args), now) ==>
                && !called
                && r == Ok(Lookup(old(entries), keyOf(args), now).value)
                && entries == old(entries) && order == old(order)
      ensures !IsHit(old(entries), keyOf(args), now) ==> called && r == func(args)
      ensures !IsHit(old(entries), keyOf(args), now) && func(args).Raised? ==>
                entries == old(entries) && order == old(order)
      ensures !IsHit(old(entries), keyOf(args), now) && func(args).Ok? ==>
                State() == AfterMiss(old(State()), keyOf(args), func(args).value, storedAt, maxSize)
    {
      var key := keyOf(args);
      var cached := Lookup(entries, key, now);
      if cached.Some? && cached.value.Some? {
        return Ok(cached.value), false;
      }
      r := func(args);
      called := true;
      if r.Raised? {
        return;
      }
      var result := r.value;
      ghost var s0 := State();
      AfterMissBounded(s0, key, result, storedAt, maxSize);
      InsertedWellFormed(s0, key, result, storedAt);
      if key !in entries {
        order := order + [key];
      }
      entries := entries[key := Entry(storedAt, result)];
      ghost var ins := State();
      assert ins == Inserted(s0, key, result, storedAt);
      EvictedUnfolds(ins, maxSize);
      if |entries| > maxSize && |order| > 0 {
        var i := FirstMinIndex(Stamps(entries, order));
        var oldest := order[i];
        entries := entries - {oldest};
        order := order[..i] + order[i + 1..];
      }
    }
  }
}
