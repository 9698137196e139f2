/** The pool manager (pkg/pgx/pool.go). */
module Pool {
  import opened Options

  /** A connection pool, counting how often it was closed. */
  class Conn {
    var closes: nat

    constructor ()
      ensures closes == 0
    {
      closes := 0;
    }

    method Close()
      modifies this
      ensures closes == old(closes) + 1
    {
      closes := closes + 1;
    }
  }

  /** What creating a pool comes to: no pool, one that does not answer, or a live one. */
  datatype Attempt = NotCreated | Unreachable | Live

  class PoolManager {
    var pools: map<string, Conn>
    var active: string
    var closed: bool   // after Close the map is nil and cannot be written to
    ghost var created: set<Conn>

    /** Every pool ever created is either held under exactly one name and open, or closed exactly
        once; the active name is that of a held pool, and empty when there is none. */
    ghost predicate Valid()
      reads this, created
    {
      && pools.Values <= created
      && (forall a, b | a in pools && b in pools && a != b :: pools[a] != pools[b])
      && (forall c | c in created :: c.closes == if c in pools.Values then 0 else 1)
      && (if pools == map[] then active == "" else active in pools)
    }

    constructor ()
      ensures Valid() && pools == map[] && !closed && created == {}
    {
      pools, active, closed, created := map[], "", false, {};
    }

    method Add(name: string, attempt: Attempt, setActive: bool) returns (ok: bool)
      requires Valid() && !closed
      modifies this, created
      ensures Valid() && !closed
      ensures old(created) <= created && fresh(created - old(created))
      ensures ok <==> name !in old(pools) && attempt.Live?
      ensures if ok then name in pools && pools == old(pools)[name := pools[name]] && pools[name] !in old(created)
              else pools == old(pools)
      ensures active == if ok && (setActive || old(active) == "") then name else old(active)
    {
      if name in pools { return false; }
      if attempt.NotCreated? { return false; }
      var conn := new Conn();
      created := created + {conn};
      if attempt.Unreachable? {
        conn.Close();
        return false;
      }
      ghost var before := pools;
      pools := pools[name := conn];
      assert pools.Values == before.Values + {conn} by {
        assert pools[name] == conn;
        assert forall k | k in before :: k in pools && pools[k] == before[k];
      }
      if setActive || active == "" { active := name; }
      ok := true;
    }

    method Active() returns (r: Option<Conn>)
      requires Valid()
      ensures active == "" ==> r.None?
      ensures active != "" ==> active in pools && r == Some(pools[active]) && pools[active].closes == 0
    {
      if active == "" { return None; }
      assert pools[active] in pools.Values;
      r := Some(pools[active]);
    }

    method SetActive(name: string) returns (ok: bool)
      requires Valid()
      modifies this`active
      ensures Valid()
      ensures ok <==> name in pools
      ensures active == if ok then name else old(active)
    {
      if name !in pools { return false; }
      active := name;
      ok := true;
    }

    /** Removing the active pool makes any of the others active. */
    method Remove(name: string) returns (ok: bool)
      requires Valid()
      modifies this, created
      ensures Valid() && created == old(created) && closed == old(closed)
      ensures ok <==> name in old(pools)
      ensures pools == old(pools) - {name}
      ensures ok ==> old(pools)[name].closes == 1
      ensures old(active) != name || !ok ==> active == old(active)
    {
      if name !in pools { return false; }
      var conn := pools[name];
      ghost var before := pools;
      assert conn in before.Values;
      conn.Close();
      pools := pools - {name};
      assert pools.Values == before.Values - {conn} by {
        assert forall k | k in before && k != name :: k in pools && pools[k] == before[k];
      }
      if active == name {
        active := "";
        if pools != map[] {
          var k :| k in pools;
          active := k;
        }
      } else {
        assert active in pools;
      }
      ok := true;
    }

    /** The pools are closed in any order. */
    method Close()
      requires Valid()
      modifies this, created
      ensures Valid() && pools == map[] && closed && created == old(created)
      ensures forall c | c in created :: c.closes == 1
    {
      var left := pools.Keys;
      while left != {}
        invariant pools == old(pools) && active == old(active) && created == old(created)
        invariant left <= pools.Keys
        invariant forall c | c in created :: c.closes == if exists k :: k in left && pools[k] == c then 0 else 1
        decreases left
      {
        var name :| name in left;
        assert pools[name] in pools.Values;
        pools[name].Close();
        left := left - {name};
      }
      pools, active, closed := map[], "", true;
    }
  }
}
