/** The pool manager's critical sections in place. Each method is one step of
    the protocol; the handles it hands back are closed after the lock is released. */
module Manager {
  import opened Prelude
  import opened Keys
  import opened PoolManager

  /** What the first critical section of `database` decides. */
  datatype Asked = Answered(outcome: Outcome) | WaitsFor(p: nat) | Opens

  lemma UnderEach(a: set<string>, b: set<string>, c: set<string>, id: string)
    ensures Under(a + b + c, id) == Under(a, id) + Under(b, id) + Under(c, id)
  {
    hide Belongs;
  }

  lemma ForgetParts(s: State, id: string)
    ensures var t := Forget(s, Under(s.pools.Keys + s.tunnels.Keys + s.opening.Keys, id));
            && t.pools == s.pools - Under(s.pools.Keys, id) && t.tunnels == s.tunnels - Under(s.tunnels.Keys, id)
            && t.opening == s.opening - Under(s.opening.Keys, id)
            && t.place == Moved(s.place, ValuesAt(s.pools, Under(s.pools.Keys, id)) + ValuesAt(s.tunnels, Under(s.tunnels.Keys, id)), Closing)
            && t == s.(pools := t.pools, tunnels := t.tunnels, opening := t.opening, place := t.place)
  {
    hide Belongs, Moved;
    var keys := Under(s.pools.Keys + s.tunnels.Keys + s.opening.Keys, id);
    UnderEach(s.pools.Keys, s.tunnels.Keys, s.opening.Keys, id);
    assert s.pools - keys == s.pools - Under(s.pools.Keys, id);
    assert s.tunnels - keys == s.tunnels - Under(s.tunnels.Keys, id);
    assert s.opening - keys == s.opening - Under(s.opening.Keys, id);
    assert ValuesAt(s.pools, keys) == ValuesAt(s.pools, Under(s.pools.Keys, id));
    assert ValuesAt(s.tunnels, keys) == ValuesAt(s.tunnels, Under(s.tunnels.Keys, id));
  }

  lemma ForgetAll(s: State)
    ensures Forget(s, s.pools.Keys + s.tunnels.Keys + s.opening.Keys)
         == s.(pools := map[], tunnels := map[], opening := map[], place := Moved(s.place, s.pools.Values + s.tunnels.Values, Closing))
  {
    hide Moved;
    var keys := s.pools.Keys + s.tunnels.Keys + s.opening.Keys;
    AllValues(s.pools, keys);
    AllValues(s.tunnels, keys);
    assert s.pools - keys == map[];
    assert s.tunnels - keys == map[];
    assert s.opening - keys == map[];
  }

  lemma AllValues(m: map<string, Handle>, keys: set<string>)
    requires m.Keys <= keys
    ensures ValuesAt(m, keys) == m.Values
  {
    forall h | h in m.Values ensures h in ValuesAt(m, keys) {
      var k :| k in m && m[k] == h;
      assert k in keys;
    }
  }

  class Pools {
    var closed: bool
    var pools: map<string, Handle>
    var tunnels: map<string, Handle>
    var opening: map<string, nat>
    var attempts: map<nat, Attempt>
    var waiting: map<nat, nat>
    var answers: map<nat, Outcome>
    ghost var place: map<Handle, Place>
    ghost var source: map<string, nat>
    ghost var stale: set<nat>

    ghost function View(): State
      reads this
    {
      State(closed, pools, tunnels, opening, attempts, waiting, answers, place, source, stale)
    }

    constructor ()
      ensures View() == Start()
    {
      closed, pools, tunnels, opening, attempts, waiting, answers := false, map[], map[], map[], map[], map[], map[];
      place, source, stale := map[], map[], {};
    }

    method Ask(p: nat, key: string) returns (asked: Asked)
      modifies this
      ensures View() == Next(old(View()), PoolManager.Ask(p, key))
      ensures asked == if old(closed) then Answered(Failed)
                       else if key in old(pools) then Answered(Got(old(pools)[key]))
                       else if key in old(opening) then WaitsFor(old(opening)[key]) else Opens
    {
      if closed {
        answers := answers[p := Failed];
        return Answered(Failed);
      }
      if key in pools {
        answers := answers[p := Got(pools[key])];
        return Answered(Got(pools[key]));
      }
      if key in opening {
        waiting := waiting[p := opening[key]];
        return WaitsFor(opening[key]);
      }
      opening := opening[key := p];
      attempts := attempts[p := Attempt(key, None, None, Opening)];
      asked := Opens;
    }

    method Install(p: nat, a: Attempt)
      requires a.db.Some?
      modifies this`pools, this`tunnels, this`place, this`source
      ensures pools == old(pools)[a.key := a.db.value] && source == old(source)[a.key := p]
      ensures tunnels == if a.tunnel.Some? then old(tunnels)[a.key := a.tunnel.value] else old(tunnels)
      ensures place == Moved(if a.tunnel.Some? then Moved(old(place), {a.tunnel.value}, InTunnel(a.key)) else old(place), {a.db.value}, InPool(a.key))
    {
      hide Moved;
      pools := pools[a.key := a.db.value];
      if a.tunnel.Some? {
        tunnels := tunnels[a.key := a.tunnel.value];
        place := Moved(place, {a.tunnel.value}, InTunnel(a.key));
      }
      place, source := Moved(place, {a.db.value}, InPool(a.key)), source[a.key := p];
    }

    /** The second critical section: publishes the pool, or leaves its handles to be closed. */
    method Publish(p: nat) returns (toClose: set<Handle>)
      requires p in attempts && attempts[p].phase.Opened? && Ready(attempts[p])
      modifies this
      ensures View() == Next(old(View()), PoolManager.Publish(p))
      ensures toClose == if Publishes(old(View()), p) then {} else Leftover(old(attempts)[p])
    {
      hide Moved, Leftover;
      var a := attempts[p];
      var expected := a.key in opening && opening[a.key] == p;
      var failed := closed || !expected || !a.phase.ok;
      if !failed {
        Install(p, a);
      }
      if expected {
        opening := opening - {a.key};
      }
      var outcome := if failed then Failed else Got(a.db.value);
      attempts := attempts[p := a.(phase := Done(outcome))];
      answers := answers[p := outcome];
      toClose := {};
      if failed {
        toClose := Leftover(a);
        place := Moved(place, toClose, Closing);
      }
    }

    method Invalidate(id: string) returns (toClose: set<Handle>)
      modifies this
      ensures View() == Next(old(View()), PoolManager.Invalidate(id))
      ensures toClose == if id == "" then {} else ValuesAt(old(pools), Under(old(pools.Keys), id)) + ValuesAt(old(tunnels), Under(old(tunnels.Keys), id))
      ensures id != "" ==> DropsConnection(old(pools), pools, id) && DropsConnection(old(tunnels), tunnels, id) && DropsConnection(old(opening), opening, id)
    {
      hide Moved, Belongs, Under, ValuesAt, Forget, Begun, DropsConnection;
      if id == "" {
        return {};
      }
      ForgetParts(View(), id);
      var keptPools, gonePools := DeleteUnder(pools, id);
      var keptTunnels, goneTunnels := DeleteUnder(tunnels, id);
      var keptOpening, _ := DeleteUnder(opening, id);
      stale := stale + Begun(View(), id);
      pools, tunnels, opening := keptPools, keptTunnels, keptOpening;
      toClose := gonePools + goneTunnels;
      place := Moved(place, toClose, Closing);
    }

    method Close() returns (toClose: set<Handle>)
      modifies this
      ensures View() == Next(old(View()), CloseAll)
      ensures toClose == old(pools).Values + old(tunnels).Values
    {
      hide Moved, Forget;
      ForgetAll(View());
      toClose := pools.Values + tunnels.Values;
      closed, opening := true, map[];
      pools, tunnels := map[], map[];
      stale := attempts.Keys;
      place := Moved(place, toClose, Closing);
    }
  }
}
