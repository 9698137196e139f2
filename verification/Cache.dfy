/** The in-memory cache with expiration (pkg/httputil/middleware/cache.go), run sequentially
    against a clock that never goes back. */
module Cache {
  import opened Options

  datatype Item<V> = Item(value: V, expiration: int)

  type Items<V> = map<string, Item<V>>

  /** Calls with the clock readings they take; cleanup reads the clock once for each item. */
  datatype Call<V> =
    | Set(key: string, value: V, duration: int, at: int)
    | Get(key: string, at: int)
    | Cleanup(reading: string -> int, at: int)

  function Answer<V>(items: Items<V>, key: string, at: int): Option<V> {
    if key in items && at <= items[key].expiration then Some(items[key].value) else None
  }

  /** Set overwrites; Get drops an item it finds expired; cleanup drops the expired ones. */
  function After<V>(items: Items<V>, call: Call<V>): Items<V> {
    match call
    case Set(key, value, duration, at) => items[key := Item(value, at + duration)]
    case Get(key, at) => if key in items && at > items[key].expiration then items - {key} else items
    case Cleanup(reading, _) => map k | k in items && reading(k) <= items[k].expiration :: items[k]
  }

  class Cache<V(==)> {
    var items: Items<V>

    constructor ()
      ensures items == map[]
    {
      items := map[];
    }

    method Set(key: string, value: V, duration: int, now: int)
      modifies this
      ensures items == After(old(items), Call.Set(key, value, duration, now))
    {
      items := items[key := Item(value, now + duration)];
    }

    method Get(key: string, now: int) returns (r: Option<V>)
      modifies this
      ensures r == Answer(old(items), key, now)
      ensures items == After(old(items), Call.Get(key, now))
    {
      if key !in items { return None; }
      var item := items[key];
      if now > item.expiration {
        items := items - {key};
        return None;
      }
      r := Some(item.value);
    }

    /** The items are visited in any order. */
    method CleanupExpired(reading: string -> int, now: int)
      modifies this
      ensures items == After(old(items), Call.Cleanup(reading, now))
    {
      var left := items.Keys;
      while left != {}
        invariant left <= old(items).Keys
        invariant items == map k | k in old(items) && (k in left || reading(k) <= old(items)[k].expiration) :: old(items)[k]
        decreases left
      {
        var key :| key in left;
        if reading(key) > items[key].expiration { items := items - {key}; }
        left := left - {key};
      }
    }
  }

  // ---- Runs ----

  /** The readings of a call lie between the end of the call before it and its own. */
  ghost predicate InOrder<V(!new)>(run: seq<Call<V>>)
    decreases |run|
  {
    run != [] ==>
      var n := |run| - 1;
      && InOrder(run[..n])
      && (n > 0 ==> run[n - 1].at <= run[n].at)
      && (run[n].Cleanup? ==> forall k :: run[n].reading(k) <= run[n].at)
  }

  function AfterRun<V>(run: seq<Call<V>>): Items<V>
    decreases |run|
  {
    if run == [] then map[] else After(AfterRun(run[..|run| - 1]), run[|run| - 1])
  }

  /** The last item set for a key. */
  function LastSet<V>(run: seq<Call<V>>, key: string): Option<Item<V>>
    decreases |run|
  {
    if run == [] then None
    else
      var last := run[|run| - 1];
      if last.Set? && last.key == key then Some(Item(last.value, last.at + last.duration))
      else LastSet(run[..|run| - 1], key)
  }

  lemma {:induction false} HeldIsLastSet<V(!new)>(run: seq<Call<V>>, key: string)
    requires InOrder(run)
    ensures var items := AfterRun(run);
            if key in items then LastSet(run, key) == Some(items[key])
            else LastSet(run, key).None? || LastSet(run, key).value.expiration < run[|run| - 1].at
    ensures run == [] ==> LastSet(run, key).None?
    decreases |run|
  {
    if run != [] { HeldIsLastSet(run[..|run| - 1], key); }
  }

  /** After every run, a Get returns exactly the last value set whose expiration is not past:
      lazy deletion and cleanup are never observed. */
  lemma {:induction false} GetIsLastUnexpired<V(!new)>(run: seq<Call<V>>, key: string, now: int)
    requires InOrder(run) && (run != [] ==> run[|run| - 1].at <= now)
    ensures Answer(AfterRun(run), key, now)
            == match LastSet(run, key)
               case None => None
               case Some(item) => if now <= item.expiration then Some(item.value) else None
  {
    HeldIsLastSet(run, key);
  }
}
