/**
 * The cache of aggregated flow rows: bounded by the rows it holds, cleared by
 * administrative writes, and running one query per key for all concurrent
 * callers.  A load is two atomic steps, Begin and Finish, with the query
 * between them; any other steps may come in between.
 */
module FlowCache {
  import opened Sums

  const MAX_ROWS: nat := 400_000

  datatype Table = Minute | Hour

  datatype Key = Key(exporter: int, ifs: string, table: Table, from: int, to: int, step: int)

  datatype Entry<Row> = Entry(rows: seq<Row>, expires: int, added: int)

  datatype Result<Row> = Rows(rows: seq<Row>) | Failed(error: string)

  /** One in-flight query; its followers hold the same object. */
  class Call<Row> {
    const key: Key
    ghost const began: nat // clears before the query began
    var done: bool
    var result: Result<Row>

    constructor (key: Key, ghost began: nat)
      ensures this.key == key && this.began == began && !done
    {
      this.key, this.began, done := key, began, false;
      result := Failed("flow aggregate aborted");
    }
  }

  datatype Start<Row> = Hit(rows: seq<Row>) | Follow(call: Call<Row>) | Lead(call: Call<Row>, gen: nat)

  // ---------- what is held ----------

  function Length<Row>(e: Entry<Row>): nat { |e.rows| }

  ghost function Held<Row(!new)>(m: map<Key, Entry<Row>>): int {
    MapSum(m, (e: Entry<Row>) => Length(e))
  }

  lemma HeldRemove<Row(!new)>(m: map<Key, Entry<Row>>, k: Key)
    requires k in m
    ensures Held(m) == |m[k].rows| + Held(m - {k})
  {
    MapSumRemove(m, (e: Entry<Row>) => Length(e), k);
  }

  lemma HeldAdd<Row(!new)>(m: map<Key, Entry<Row>>, k: Key, e: Entry<Row>)
    requires k !in m
    ensures Held(m[k := e]) == Held(m) + |e.rows|
  {
    MapSumUpdate(m, (e: Entry<Row>) => Length(e), k, e);
  }

  lemma HeldNatural<Row(!new)>(m: map<Key, Entry<Row>>)
    ensures 0 <= Held(m)
  {
    MapSumNonNegative(m, (e: Entry<Row>) => Length(e));
  }

  // ---------- eviction ----------

  /** The entries of m that are neither under k nor expired. */
  ghost function Live<Row(!new)>(m: map<Key, Entry<Row>>, k: Key, now: int): map<Key, Entry<Row>> {
    map x | x in m && x != k && now <= m[x].expires :: m[x]
  }

  ghost predicate Part<Row(!new)>(kept: map<Key, Entry<Row>>, all: map<Key, Entry<Row>>) {
    kept.Keys <= all.Keys && forall x :: x in kept ==> kept[x] == all[x]
  }

  /** What is kept is what was added last. */
  ghost predicate OldestFirst<Row(!new)>(all: map<Key, Entry<Row>>, kept: map<Key, Entry<Row>>) {
    forall x, y :: x in all && x !in kept && y in kept ==> y in all && all[x].added <= all[y].added
  }

  /** The newest evicted entry would not have fitted beside the kept ones. */
  ghost predicate NoMoreThanNeeded<Row(!new)>(all: map<Key, Entry<Row>>, kept: map<Key, Entry<Row>>, need: nat) {
    kept.Keys != all.Keys ==>
      exists x :: x in all && x !in kept && Held(kept) + |all[x].rows| + need > MAX_ROWS
                  && forall y :: y in all && y !in kept ==> all[y].added <= all[x].added
  }

  ghost predicate IsEviction<Row(!new)>(all: map<Key, Entry<Row>>, kept: map<Key, Entry<Row>>, need: nat) {
    Part(kept, all) && Held(kept) + need <= MAX_ROWS && OldestFirst(all, kept) && NoMoreThanNeeded(all, kept, need)
  }

  /** Evicting the oldest kept entry, when something has to go. */
  lemma EvictStep<Row(!new)>(all: map<Key, Entry<Row>>, kept: map<Key, Entry<Row>>, need: nat, x: Key)
    requires Part(kept, all) && OldestFirst(all, kept)
    requires x in kept && forall y :: y in kept ==> kept[x].added <= kept[y].added
    requires Held(kept) + need > MAX_ROWS
    ensures Part(kept - {x}, all) && OldestFirst(all, kept - {x}) && NoMoreThanNeeded(all, kept - {x}, need)
  {
    HeldRemove(kept, x);
    assert all[x] == kept[x];
    assert x !in kept - {x};
  }

  // ---------- the cache ----------

  class Cache<Row(!new)> {
    var m: map<Key, Entry<Row>>
    var rows: int
    var inflight: map<Key, Call<Row>>
    var gen: nat
    ghost var running: set<Call<Row>>       // queries begun and not finished
    ghost var origin: map<Key, Call<Row>>   // the query each entry came from
    ghost var stale: set<Key>               // keys in flight at the last clear and not landed since

    ghost predicate Counted()
      reads this`m, this`rows
    {
      rows == Held(m) <= MAX_ROWS
    }

    /** One query per key is in flight, and it is the one followers find. */
    ghost predicate SingleFlight()
      reads this`inflight, this`running, this`gen, this`stale, running
    {
      && (forall c :: c in running ==> !c.done && c.key in inflight && inflight[c.key] == c)
      && (forall k :: k in inflight ==> inflight[k] in running && inflight[k].key == k)
      && (forall k :: k in inflight ==>
           inflight[k].began <= gen && (inflight[k].began < gen <==> k in stale))
      && stale <= inflight.Keys
    }

    /** Every entry is the result of a finished query for its key, begun after the last clear. */
    ghost predicate Sourced()
      reads this`m, this`origin, this`running, this`gen, origin.Values
    {
      && origin.Keys == m.Keys
      && forall k :: k in m ==>
           && origin[k] !in running && origin[k].key == k
           && origin[k].result == Rows(m[k].rows)
           && origin[k].began == gen
    }

    ghost predicate Valid()
      reads this, running, origin.Values
    {
      Counted() && SingleFlight() && Sourced()
    }

    constructor ()
      ensures Valid() && m == map[] && inflight == map[] && gen == 0
    {
      m, rows, inflight, gen := map[], 0, map[], 0;
      running, origin, stale := {}, map[], {};
    }

    method Delete(k: Key)
      requires rows == Held(m)
      modifies this`m, this`rows, this`origin
      ensures rows == Held(m) && m == old(m) - {k} && origin == old(origin) - {k}
    {
      if k in m {
        HeldRemove(m, k);
        rows := rows - |m[k].rows|;
        m := m - {k};
      }
      origin := origin - {k};
    }

    /** The unexpired entry of k; an expired one is deleted. */
    method Get(k: Key, now: int) returns (r: seq<Row>, ok: bool)
      requires Valid()
      modifies this`m, this`rows, this`origin
      ensures Valid()
      ensures ok <==> k in old(m) && now <= old(m)[k].expires
      ensures ok ==> r == old(m)[k].rows && m == old(m) && origin == old(origin)
      ensures !ok ==> m == old(m) - {k} && origin == old(origin) - {k}
    {
      if k !in m {
        return [], false;
      }
      if now > m[k].expires {
        HeldRemove(m, k);
        HeldNatural(m - {k});
        Delete(k);
        return [], false;
      }
      return m[k].rows, true;
    }

    /** The parts of the ghost origins that belong to what is still held. */
    ghost predicate Follows(was: map<Key, Call<Row>>)
      reads this`m, this`origin
    {
      origin.Keys == m.Keys && forall x :: x in m ==> x in was && origin[x] == was[x]
    }

    method Sweep(now: int)
      requires rows == Held(m) && origin.Keys == m.Keys
      modifies this`m, this`rows, this`origin
      ensures rows == Held(m) && Follows(old(origin))
      ensures m == map x | x in old(m) && now <= old(m)[x].expires :: old(m)[x]
    {
      var todo := m.Keys;
      while todo != {}
        invariant rows == Held(m) && Follows(old(origin)) && Part(m, old(m))
        invariant todo <= m.Keys
        invariant forall x :: x in old(m) ==> (x in m <==> x in todo || now <= old(m)[x].expires)
        decreases |todo|
      {
        var key :| key in todo;
        todo := todo - {key};
        if now > m[key].expires {
          Delete(key);
        }
      }
    }

    method Oldest() returns (key: Key)
      requires m != map[]
      ensures key in m && forall x :: x in m ==> m[key].added <= m[x].added
    {
      var todo := m.Keys;
      assert exists x :: x in todo;
      key :| key in todo;
      todo := todo - {key};
      while todo != {}
        invariant todo <= m.Keys && key in m
        invariant forall x :: x in m && x !in todo ==> m[key].added <= m[x].added
        decreases |todo|
      {
        var x :| x in todo;
        todo := todo - {x};
        if m[x].added < m[key].added {
          key := x;
        }
      }
    }

    /** Evicts the oldest entries until `need` more rows fit. */
    method Evict(need: nat)
      requires rows == Held(m) && origin.Keys == m.Keys && need <= MAX_ROWS
      modifies this`m, this`rows, this`origin
      ensures rows == Held(m) && Follows(old(origin))
      ensures IsEviction(old(m), m, need)
    {
      while |m| > 0 && rows + need > MAX_ROWS
        invariant rows == Held(m) && Follows(old(origin))
        invariant Part(m, old(m)) && OldestFirst(old(m), m) && NoMoreThanNeeded(old(m), m, need)
        decreases |m|
      {
        var key := Oldest();
        EvictStep(old(m), m, need, key);
        MapMinusSize(m, key);
        Delete(key);
      }
    }

    /** Stores a result, making room for it; one larger than the cache is not stored. */
    method Put(k: Key, fetched: seq<Row>, ttl: int, now: int, ghost c: Call<Row>)
      requires Counted() && origin.Keys == m.Keys
      modifies this`m, this`rows, this`origin
      ensures Counted() && origin.Keys == m.Keys
      ensures |fetched| > MAX_ROWS ==> m == old(m) && origin == old(origin)
      ensures |fetched| <= MAX_ROWS ==>
        && k in m && m[k] == Entry(fetched, now + ttl, now) && origin[k] == c
        && IsEviction(Live(old(m), k, now), m - {k}, |fetched|)
        && forall x :: x in m && x != k ==> x in old(origin) && origin[x] == old(origin)[x]
    {
      hide Held;
      if |fetched| > MAX_ROWS {
        return;
      }
      Delete(k);
      Sweep(now);
      assert m == Live(old(m), k, now);
      Evict(|fetched|);
      HeldAdd(m, k, Entry(fetched, now + ttl, now));
      ghost var kept := m;
      m := m[k := Entry(fetched, now + ttl, now)];
      rows := rows + |fetched|;
      origin := origin[k := c];
      assert m - {k} == kept;
    }

    method Clear()
      requires Valid()
      modifies this
      ensures Valid() && gen == old(gen) + 1 && m == map[] && inflight == old(inflight)
      ensures running == old(running) && stale == inflight.Keys
    {
      m, rows, gen := map[], 0, gen + 1;
      origin, stale := map[], inflight.Keys;
    }

    method Launch(k: Key) returns (call: Call<Row>)
      requires Valid() && k !in inflight
      modifies this`inflight, this`running
      ensures Valid() && fresh(call) && call.key == k && call.began == gen
      ensures inflight == old(inflight)[k := call] && running == old(running) + {call}
    {
      hide Held;
      call := new Call(k, gen);
      inflight := inflight[k := call];
      running := running + {call};
    }

    /** A hit, the query to wait for, or the query to run. */
    method Begin(k: Key, now: int) returns (r: Start<Row>)
      requires Valid()
      modifies this
      ensures Valid() && gen == old(gen)
      ensures r.Hit? <==> k in old(m) && now <= old(m)[k].expires
      ensures r.Hit? ==> r.rows == old(m)[k].rows && m == old(m) && running == old(running)
      ensures r.Follow? ==> k in old(inflight) && r.call == old(inflight)[k] && running == old(running)
      // a follower shares a query older than the last clear exactly when its key was in flight
      // at the clear and has not landed since
      ensures r.Follow? ==> (r.call.began < gen <==> k in old(stale))
      ensures r.Lead? ==> k !in old(inflight) && fresh(r.call) && r.call.key == k && r.gen == gen
      ensures r.Lead? ==> r.call.began == gen && running == old(running) + {r.call}
      ensures inflight == if r.Lead? then old(inflight)[k := r.call] else old(inflight)
      ensures !r.Hit? ==> m == old(m) - {k}
      ensures stale == old(stale)
    {
      hide Held;
      var found, ok := Get(k, now);
      if ok {
        return Hit(found);
      }
      if k in inflight {
        return Follow(inflight[k]);
      }
      var call := Launch(k);
      return Lead(call, gen);
    }

    /** The leader's result reaches its followers. */
    method Land(call: Call<Row>, result: Result<Row>)
      requires Valid() && call in running
      modifies this`inflight, this`running, this`stale, call
      ensures Valid() && call.done && call.result == result
      ensures inflight == old(inflight) - {call.key} && running == old(running) - {call}
      ensures stale == old(stale) - {call.key}
    {
      hide Held;
      call.result, call.done := result, true;
      inflight := inflight - {call.key};
      running := running - {call};
      stale := stale - {call.key};
    }

    /** A landed result of the current generation is stored. */
    method Store(call: Call<Row>, fetched: seq<Row>, ttl: int, now: int)
      requires Valid() && call !in running && call.result == Rows(fetched) && call.began == gen
      modifies this`m, this`rows, this`origin
      ensures Valid()
      ensures |fetched| > MAX_ROWS ==> m == old(m)
      ensures |fetched| <= MAX_ROWS ==>
        && call.key in m && m[call.key] == Entry(fetched, now + ttl, now)
        && IsEviction(Live(old(m), call.key, now), m - {call.key}, |fetched|)
    {
      hide Held, OldestFirst, NoMoreThanNeeded;
      Put(call.key, fetched, ttl, now, call);
      forall x | x in m && |fetched| <= MAX_ROWS && x != call.key
        ensures x in old(m) && m[x] == old(m)[x]
      {
        assert x in m - {call.key};
      }
    }

    /** Lands a query; its result is stored unless it failed or the cache was cleared since it began. */
    method Finish(call: Call<Row>, began: nat, ttl: int, now: int, result: Result<Row>)
      requires Valid() && call in running && began == call.began
      modifies this, call
      ensures Valid() && gen == old(gen)
      ensures call.done && call.result == result
      ensures inflight == old(inflight) - {call.key} && running == old(running) - {call}
      ensures stale == old(stale) - {call.key}
      ensures !(result.Rows? && call.began == gen && |result.rows| <= MAX_ROWS) ==> m == old(m)
      ensures result.Rows? && call.began == gen && |result.rows| <= MAX_ROWS ==>
        && call.key in m && m[call.key] == Entry(result.rows, now + ttl, now)
        && IsEviction(Live(old(m), call.key, now), m - {call.key}, |result.rows|)
    {
      hide Held, IsEviction, Live;
      Land(call, result);
      if result.Rows? && gen == began {
        Store(call, result.rows, ttl, now);
      }
    }
  }

  /**
   * A load that starts after a clear can still be handed a result queried
   * before it: the clear empties the entries, not the queries in flight.
   */
  method FollowAfterClear<Row(!new)>(k: Key, now: int) returns (c: Cache<Row>, r: Start<Row>)
    ensures c.Valid() && c.gen == 1
    ensures r.Follow? && r.call.key == k && r.call.began == 0
  {
    c := new Cache<Row>();
    var first := c.Begin(k, now);
    c.Clear();
    r := c.Begin(k, now);
  }
}
