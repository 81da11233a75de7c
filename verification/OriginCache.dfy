/** The cache of column origins: bounded under any mix of storing and
    forgetting, although forgetting leaves slots behind. */
module OriginCache {
  import opened Prelude
  import opened Keys
  import opened Ring

  type Origins = seq<string>

  class Cache {
    var ring: Ring<string, Origins>

    ghost predicate Valid()
      reads this
    {
      Bounded(ring)
    }

    constructor ()
      ensures Valid() && ring == Empty()
    {
      ring := Empty();
    }

    method Get(key: string) returns (found: Option<Origins>)
      ensures found == Lookup(ring.entries, key)
    {
      found := if key in ring.entries then Some(ring.entries[key]) else None;
    }

    method Put(key: string, origins: Origins)
      requires Valid()
      modifies this
      ensures Valid() && key in ring.entries && ring.entries[key] == origins
      ensures ring == if key in old(ring).entries then old(ring).(entries := old(ring).entries[key := origins])
                      else Insert(old(ring), key, origins)
      ensures |ring.entries.Keys| <= 512
    {
      if key in ring.entries {
        ring := ring.(entries := ring.entries[key := origins]);
      } else {
        InsertKeepsBounds(ring, key, origins);
        if |ring.order| < LIMIT {
          ring := Ring(ring.entries[key := origins], ring.order + [key], ring.next);
        } else {
          var kept := ring.entries - {ring.order[ring.next]};
          ring := Ring(kept[key := origins], ring.order[ring.next := key], (ring.next + 1) % LIMIT);
        }
      }
      BoundHolds(ring);
    }

    /** Drops every entry of a connection; the ring keeps their slots. */
    method Forget(id: string)
      requires Valid()
      modifies this
      ensures Valid()
      ensures ring == old(ring).(entries := old(ring).entries - Under(old(ring).entries.Keys, id))
      ensures DropsConnection(old(ring).entries, ring.entries, id)
    {
      hide Belongs, DropsConnection;
      UnderIsConnection(ring.entries, id);
      var entries := ring.entries;
      var rest := entries.Keys;
      while rest != {}
        invariant rest <= ring.entries.Keys
        invariant entries == ring.entries - Under(ring.entries.Keys - rest, id)
        decreases |rest|
      {
        var k :| k in rest;
        ghost var before := Under(ring.entries.Keys - rest, id);
        rest := rest - {k};
        assert ring.entries.Keys - rest == (ring.entries.Keys - (rest + {k})) + {k};
        if Belongs(k, id) {
          assert Under(ring.entries.Keys - rest, id) == before + {k};
          entries := entries - {k};
        } else {
          assert Under(ring.entries.Keys - rest, id) == before;
        }
      }
      assert ring.entries.Keys - {} == ring.entries.Keys;
      ring := ring.(entries := entries);
    }
  }

  // ------------------------------------------------------------------
  // Any mix of calls.

  datatype Call = Store(key: string, origins: Origins) | Drop(id: string)

  function After(r: Ring<string, Origins>, c: Call): Ring<string, Origins>
    requires |r.order| < LIMIT || r.next < |r.order|
  {
    match c
    case Store(key, origins) => if key in r.entries then r.(entries := r.entries[key := origins]) else Insert(r, key, origins)
    case Drop(id) => r.(entries := r.entries - Under(r.entries.Keys, id))
  }

  lemma StepIsBounded(r: Ring<string, Origins>, c: Call)
    requires Bounded(r)
    ensures Bounded(After(r, c))
  {
    if c.Store? && c.key !in r.entries {
      InsertKeepsBounds(r, c.key, c.origins);
    }
  }

  ghost predicate Reaches(r: Ring<string, Origins>, calls: seq<Call>, t: Ring<string, Origins>)
    requires Bounded(r)
    decreases |calls|
  {
    if calls == [] then r == t
    else
      StepIsBounded(r, calls[0]);
      Reaches(After(r, calls[0]), calls[1..], t)
  }

  /** Main result: after any calls every cached key still has a slot, so it can be
      evicted, and no more than 512 keys are cached. */
  lemma {:induction false} AnyMixIsBounded(r: Ring<string, Origins>, calls: seq<Call>, t: Ring<string, Origins>)
    requires Bounded(r) && Reaches(r, calls, t)
    ensures Bounded(t) && |t.entries.Keys| <= 512
    decreases |calls|
  {
    if calls == [] {
      BoundHolds(t);
    } else {
      StepIsBounded(r, calls[0]);
      AnyMixIsBounded(After(r, calls[0]), calls[1..], t);
    }
  }

  /** The slots no longer list each key once: storing, forgetting and storing again leaves two. */
  lemma ForgettingLeavesASlot(c: Connection, query: string, origins: Origins)
    ensures var key := OriginKey(c, query);
            var once := After(Empty(), Store(key, origins));
            var again := After(After(once, Drop(c.id)), Store(key, origins));
            again.order == [key, key] && again.entries == map[key := origins] && !Exact(again)
  {
    hide Belongs, OriginKey;
    var key, id := OriginKey(c, query), c.id;
    KeysBelongById(c, id, query);
    var once := After(Empty(), Store(key, origins));
    var dropped := After(once, Drop(id));
    assert dropped.entries == map[];
    var again := After(dropped, Store(key, origins));
    assert again.order[0] == again.order[1];
  }
}
