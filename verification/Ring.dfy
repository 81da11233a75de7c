/** The bounded ring behind the statement caches: a map, and the order its keys came in. */
module Ring {

  const LIMIT := 512

  datatype Ring<K, V> = Ring(entries: map<K, V>, order: seq<K>, next: nat)

  function Empty<K, V>(): Ring<K, V> {
    Ring(map[], [], 0)
  }

  /** Every cached key has a slot, and there are at most LIMIT slots. */
  ghost predicate Bounded<K, V>(r: Ring<K, V>) {
    && |r.order| <= LIMIT && r.next < LIMIT && (|r.order| < LIMIT ==> r.next == 0)
    && (forall k :: k in r.entries ==> k in r.order)
  }

  /** The slots hold exactly the cached keys, each once. */
  ghost predicate Exact<K, V>(r: Ring<K, V>) {
    && Bounded(r)
    && (forall i :: 0 <= i < |r.order| ==> r.order[i] in r.entries)
    && (forall i, j :: 0 <= i < j < |r.order| ==> r.order[i] != r.order[j])
  }

  /** A key that is not cached takes a free slot, or the next one with whatever is in it. */
  function Insert<K, V>(r: Ring<K, V>, k: K, v: V): Ring<K, V>
    requires |r.order| < LIMIT || r.next < |r.order|
  {
    if |r.order| < LIMIT then Ring(r.entries[k := v], r.order + [k], r.next)
    else Ring((r.entries - {r.order[r.next]})[k := v], r.order[r.next := k], (r.next + 1) % LIMIT)
  }

  /** Slots from the oldest to the newest. */
  function ByAge<K, V>(r: Ring<K, V>): seq<K>
    requires r.next <= |r.order|
  {
    r.order[r.next..] + r.order[..r.next]
  }

  /** An entry of the ring after an insertion is the new one, or was there before. */
  lemma InsertedOrOld<K, V>(r: Ring<K, V>, k: K, v: V, j: K)
    requires |r.order| < LIMIT || r.next < |r.order|
    requires j in Insert(r, k, v).entries
    ensures if j == k then Insert(r, k, v).entries[j] == v else j in r.entries && Insert(r, k, v).entries[j] == r.entries[j]
  {
  }

  lemma InsertKeepsBounds<K, V>(r: Ring<K, V>, k: K, v: V)
    requires Bounded(r) && k !in r.entries
    ensures Bounded(Insert(r, k, v))
  {
    var t := Insert(r, k, v);
    forall j | j in t.entries ensures j in t.order {
      if |r.order| < LIMIT {
        assert t.order[|r.order|] == k;
      } else {
        assert t.order[r.next] == k;
        if j != k {
          var i :| 0 <= i < |r.order| && r.order[i] == j;
          assert i != r.next;
          assert t.order[i] == j;
        }
      }
    }
  }

  lemma InsertKeepsExact<K, V>(r: Ring<K, V>, k: K, v: V)
    requires Exact(r) && k !in r.entries
    ensures Exact(Insert(r, k, v))
  {
    InsertKeepsBounds(r, k, v);
    assert k !in r.order;
  }

  lemma AgeAfterInsert<K, V>(r: Ring<K, V>, k: K, v: V)
    requires |r.order| == LIMIT && r.next < LIMIT
    ensures ByAge(Insert(r, k, v)) == ByAge(r)[1..] + [k] && ByAge(r)[0] == r.order[r.next]
  {
    var t := Insert(r, k, v);
    if r.next + 1 == LIMIT {
      assert ByAge(r)[1..] == r.order[..r.next];
      assert ByAge(t) == t.order == r.order[..r.next] + [k];
    } else {
      assert ByAge(r)[1..] == r.order[r.next + 1..] + r.order[..r.next];
      assert ByAge(t) == t.order[r.next + 1..] + t.order[..r.next + 1];
      assert t.order[..r.next + 1] == r.order[..r.next] + [k];
    }
  }

  /** Oldest out first: the new key becomes the youngest, and a full ring drops its oldest. */
  lemma InsertEvictsOldest<K, V>(r: Ring<K, V>, k: K, v: V)
    requires Exact(r) && k !in r.entries
    ensures ByAge(Insert(r, k, v)) == (if |r.order| < LIMIT then ByAge(r) else ByAge(r)[1..]) + [k]
    ensures forall j :: j in Insert(r, k, v).entries <==> j == k || (j in r.entries && (|r.order| == LIMIT ==> j != ByAge(r)[0]))
    ensures forall j :: j in Insert(r, k, v).entries && j != k ==> Insert(r, k, v).entries[j] == r.entries[j]
  {
    if |r.order| == LIMIT {
      hide ByAge;
      AgeAfterInsert(r, k, v);
    } else {
      assert ByAge(r) == r.order;
    }
  }

  lemma {:induction false} DistinctFits<K>(order: seq<K>, keys: set<K>)
    requires forall k :: k in keys ==> k in order
    ensures |keys| <= |order|
    decreases |order|
  {
    if order == [] {
      assert keys == {};
    } else {
      var front, last := order[..|order| - 1], order[|order| - 1];
      forall k | k in keys - {last} ensures k in front {
        var i :| 0 <= i < |order| && order[i] == k;
        assert front[i] == k;
      }
      DistinctFits(front, keys - {last});
      assert keys <= (keys - {last}) + {last};
      CardAddOne(keys - {last}, last, keys);
    }
  }

  lemma CardAddOne<K>(a: set<K>, k: K, b: set<K>)
    requires a == b - {k}
    ensures |b| <= |a| + 1
  {
    if k in b {
      assert b == a + {k};
    } else {
      assert b == a;
    }
  }

  /** Main result: a bounded ring never caches more than 512 keys. */
  lemma BoundHolds<K, V>(r: Ring<K, V>)
    requires Bounded(r)
    ensures |r.entries.Keys| <= 512
  {
    DistinctFits(r.order, r.entries.Keys);
  }
}
