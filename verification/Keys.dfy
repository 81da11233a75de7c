/** The keys of connections, and the maps the engine keeps under them. */
module Keys {
  import opened Prelude
  import opened Bytes

  predicate Belongs(key: string, id: string) {
    HasPrefix(key, id + "|")
  }

  /** A saved connection; digests and numbers as the text they are printed as. */
  datatype Connection = Connection(
    id: string, engine: string, host: string, port: string, database: string, username: string,
    password: string, tls: string, poolSize: string, ssh: string)

  function PoolKey(c: Connection): string {
    c.id + "|" + c.engine + ":" + c.host + ":" + c.port + "/" + c.database + "/" + c.username + "/" + c.password
    + "/" + c.tls + "/" + c.poolSize + "/" + c.ssh
  }

  /** Column origins are kept per statement. */
  function OriginKey(c: Connection, query: string): string {
    PoolKey(c) + "\0" + query
  }

  predicate BarFree(s: string) {
    forall i :: 0 <= i < |s| ==> s[i] != '|'
  }

  lemma Starts(c: Connection) returns (rest: string)
    ensures PoolKey(c) == c.id + ("|" + rest)
  {
    rest := c.engine + ":" + c.host + ":" + c.port + "/" + c.database + "/" + c.username + "/" + c.password
            + "/" + c.tls + "/" + c.poolSize + "/" + c.ssh;
  }

  /** What begins with two ids, each followed by a bar, begins with one. */
  lemma {:induction false} OneId(a: string, x: string, b: string, y: string)
    requires a + ("|" + x) == b + ("|" + y) && BarFree(a) && BarFree(b)
    ensures a == b
    decreases |a|
  {
    var s, t := a + ("|" + x), b + ("|" + y);
    if a == "" || b == "" {
      assert s[0] == t[0];
    } else {
      assert s[0] == t[0] && s[1..] == a[1..] + ("|" + x) && t[1..] == b[1..] + ("|" + y);
      OneId(a[1..], x, b[1..], y);
      assert a == [a[0]] + a[1..] && b == [b[0]] + b[1..];
    }
  }

  lemma IdBelongs(id: string, rest: string)
    ensures Belongs(id + ("|" + rest), id)
  {
    assert (id + ("|" + rest))[..|id| + 1] == id + "|";
  }

  lemma BelongsById(id: string, rest: string, other: string)
    requires BarFree(id) && BarFree(other) && Belongs(id + ("|" + rest), other)
    ensures id == other
  {
    var key := id + ("|" + rest);
    assert key[..|other| + 1] == other + "|";
    assert key == other + ("|" + key[|other| + 1..]);
    OneId(id, rest, other, key[|other| + 1..]);
  }

  /** Main result: the key of a connection, and of any statement's origins on it, belongs to the connection; and, of ids
      without a bar, to no other. */
  lemma KeysBelongById(c: Connection, id: string, query: string)
    ensures c.id == id ==> Belongs(PoolKey(c), id) && Belongs(OriginKey(c, query), id)
    ensures BarFree(c.id) && BarFree(id) ==> (Belongs(PoolKey(c), id) <==> c.id == id) && (Belongs(OriginKey(c, query), id) <==> c.id == id)
  {
    hide Belongs, PoolKey;
    var rest := Starts(c);
    assert OriginKey(c, query) == c.id + ("|" + (rest + "\0" + query));
    IdBelongs(c.id, rest);
    IdBelongs(c.id, rest + "\0" + query);
    if BarFree(c.id) && BarFree(id) {
      if Belongs(PoolKey(c), id) {
        BelongsById(c.id, rest, id);
      }
      if Belongs(OriginKey(c, query), id) {
        BelongsById(c.id, rest + "\0" + query, id);
      }
    }
  }

  /** An id with a bar can claim another connection's keys. */
  lemma BarsMislead(c: Connection)
    requires c.id == "a" && c.engine == "b|"
    ensures Belongs(PoolKey(c), "a|b") && c.id != "a|b"
  {
    var key := PoolKey(c);
    assert |key| >= 4 && key[0] == 'a' && key[1] == '|' && key[2] == 'b' && key[3] == '|';
    assert key[..4] == "a|b|";
  }

  /** The connection's keys are gone and every other connection's are as they were; nothing came in. */
  ghost predicate DropsConnection<V(!new)>(before: map<string, V>, after: map<string, V>, id: string) {
    && (forall c: Connection | c.id == id :: PoolKey(c) !in after)
    && (forall c: Connection, query | c.id == id :: OriginKey(c, query) !in after)
    && (forall c: Connection | BarFree(c.id) && BarFree(id) && c.id != id :: Lookup(after, PoolKey(c)) == Lookup(before, PoolKey(c)))
    && (forall c: Connection, query | BarFree(c.id) && BarFree(id) && c.id != id :: Lookup(after, OriginKey(c, query)) == Lookup(before, OriginKey(c, query)))
    && (forall k :: k in after ==> k in before && after[k] == before[k])
  }

  lemma UnderIsConnection<V(!new)>(m: map<string, V>, id: string)
    ensures DropsConnection(m, m - Under(m.Keys, id), id)
  {
    hide Belongs, PoolKey, OriginKey, BarFree;
    var kept := m - Under(m.Keys, id);
    forall c: Connection | c.id == id ensures PoolKey(c) !in kept {
      KeysBelongById(c, id, "");
    }
    forall c: Connection, query | c.id == id ensures OriginKey(c, query) !in kept {
      KeysBelongById(c, id, query);
    }
    forall c: Connection | BarFree(c.id) && BarFree(id) && c.id != id ensures Lookup(kept, PoolKey(c)) == Lookup(m, PoolKey(c)) {
      KeysBelongById(c, id, "");
    }
    forall c: Connection, query | BarFree(c.id) && BarFree(id) && c.id != id ensures Lookup(kept, OriginKey(c, query)) == Lookup(m, OriginKey(c, query)) {
      KeysBelongById(c, id, query);
    }
  }

  function Lookup<K, V>(m: map<K, V>, k: K): Option<V> {
    if k in m then Some(m[k]) else None
  }

  function Under(keys: set<string>, id: string): set<string> {
    set k | k in keys && Belongs(k, id)
  }

  function ValuesAt(m: map<string, nat>, keys: set<string>): set<nat> {
    set k | k in keys && k in m :: m[k]
  }

  /** One more key looked at. */
  lemma OneMoreKey(m: map<string, nat>, rest: set<string>, k: string, id: string)
    requires rest <= m.Keys && k in rest
    ensures var before, after := Under(m.Keys - rest, id), Under(m.Keys - (rest - {k}), id);
            if Belongs(k, id) then m - after == (m - before) - {k} && ValuesAt(m, after) == ValuesAt(m, before) + {m[k]}
            else after == before
  {
    hide Belongs;
    assert m.Keys - (rest - {k}) == (m.Keys - rest) + {k};
    var before, after := Under(m.Keys - rest, id), Under(m.Keys - (rest - {k}), id);
    assert after == if Belongs(k, id) then before + {k} else before;
  }

  lemma NoKeyYet(m: map<string, nat>, id: string)
    ensures m - Under(m.Keys - m.Keys, id) == m && ValuesAt(m, Under(m.Keys - m.Keys, id)) == {}
  {
    hide Belongs;
    assert Under(m.Keys - m.Keys, id) == {};
  }

  /** The deleting loop over one map; what it deletes is handed back. */
  method DeleteUnder(m: map<string, nat>, id: string) returns (kept: map<string, nat>, gone: set<nat>)
    ensures kept == m - Under(m.Keys, id) && DropsConnection(m, kept, id)
    ensures gone == ValuesAt(m, Under(m.Keys, id))
  {
    hide Belongs, Under, ValuesAt, DropsConnection;
    UnderIsConnection(m, id);
    kept, gone := m, {};
    NoKeyYet(m, id);
    var rest := m.Keys;
    while rest != {}
      invariant rest <= m.Keys
      invariant kept == m - Under(m.Keys - rest, id)
      invariant gone == ValuesAt(m, Under(m.Keys - rest, id))
      decreases |rest|
    {
      var k :| k in rest;
      OneMoreKey(m, rest, k, id);
      rest := rest - {k};
      if Belongs(k, id) {
        kept, gone := kept - {k}, gone + {m[k]};
      }
    }
    assert m.Keys - {} == m.Keys;
  }
}
