/** The sharded cache of parsed statements: it answers as the parser would. */
module ParseCache {
  import opened Prelude
  import opened Lexer
  import opened Ring

  const SHARDS := 16
  const MAX_CACHED_BYTES := 16384

  datatype Key = Key(dialect: Dialect, sql: string)

  type Parser<!T> = (Dialect, string) -> Result<T, string>

  function DialectName(d: Dialect): string {
    match d
    case Generic => "generic"
    case Postgres => "postgres"
    case MySQL => "mysql"
    case MSSQL => "mssql"
  }

  /** FNV-1a, 32 bits wide. */
  function Fnv(hash: bv32, text: string): bv32
    decreases |text|
  {
    if text == "" then hash else Fnv((hash ^ ((text[0] as int) as bv32)) * 16777619, text[1..])
  }

  function ShardOf(key: Key): (i: nat)
    ensures i < SHARDS
  {
    LowBits(Fnv(Fnv(2166136261, DialectName(key.dialect)), key.sql))
  }

  function LowBits(h: bv32): (i: nat)
    ensures i < SHARDS
  {
    (h & 15) as nat
  }

  /** Every cached entry is what the parser says of its key, and stands in its key's shard. */
  ghost predicate Faithful<T(!new)>(parse: Parser<T>, r: Ring<Key, T>, shard: nat) {
    forall k :: k in r.entries ==> Holds(parse, k, r.entries[k], shard)
  }

  /** What the cache may hold under a key. */
  ghost predicate Holds<T(!new)>(parse: Parser<T>, k: Key, v: T, shard: nat) {
    parse(k.dialect, k.sql) == Ok(v) && ShardOf(k) == shard && |k.sql| <= MAX_CACHED_BYTES
  }

  lemma InsertIsFaithful<T(!new)>(parse: Parser<T>, r: Ring<Key, T>, k: Key, v: T)
    requires Exact(r) && Faithful(parse, r, ShardOf(k)) && Holds(parse, k, v, ShardOf(k))
    ensures |r.order| < LIMIT || r.next < |r.order|
    ensures Faithful(parse, Insert(r, k, v), ShardOf(k))
  {
    hide ShardOf, Insert, Exact, Holds;
    SlotIsFree(r);
    var t := Insert(r, k, v);
    forall j | j in t.entries ensures Holds(parse, j, t.entries[j], ShardOf(k)) {
      InsertedOrOld(r, k, v, j);
    }
  }

  class Cache<!T(!new)> {
    const parse: Parser<T>
    const shards: array<Ring<Key, T>>

    ghost predicate Valid()
      reads this, shards
    {
      shards.Length == SHARDS && forall i :: 0 <= i < SHARDS ==> Exact(shards[i]) && Faithful(parse, shards[i], i)
    }

    constructor (p: Parser<T>)
      ensures Valid() && parse == p && fresh(shards)
    {
      parse := p;
      shards := new Ring<Key, T>[SHARDS](_ => Empty());
    }

    /** The read under the shard's lock. */
    method Get(key: Key) returns (found: Option<T>)
      requires Valid()
      ensures found.Some? <==> key in shards[ShardOf(key)].entries
      ensures found.Some? ==> parse(key.dialect, key.sql) == Ok(found.value)
    {
      hide ShardOf, Exact;
      assert Faithful(parse, shards[ShardOf(key)], ShardOf(key));
      var shard := shards[ShardOf(key)];
      found := if key in shard.entries then Some(shard.entries[key]) else None;
    }

    /** The write under the shard's lock: a key another request stored first is left alone. */
    method Store(key: Key, info: T)
      requires Valid() && parse(key.dialect, key.sql) == Ok(info) && |key.sql| <= MAX_CACHED_BYTES
      modifies shards
      ensures Valid()
      ensures key in shards[ShardOf(key)].entries
      ensures forall i :: 0 <= i < SHARDS && i != ShardOf(key) ==> shards[i] == old(shards[i])
      ensures shards[ShardOf(key)] == if key in old(shards[ShardOf(key)]).entries then old(shards[ShardOf(key)])
                                      else Insert(old(shards[ShardOf(key)]), key, info)
    {
      hide ShardOf, Exact, Faithful;
      var at := ShardOf(key);
      var shard := shards[at];
      if key in shard.entries {
        return;
      }
      InsertKeepsExact(shard, key, info);
      InsertIsFaithful(parse, shard, key, info);
      SlotIsFree(shard);
      InsertHolds(shard, key, info);
      if |shard.order| < LIMIT {
        shards[at] := Ring(shard.entries[key := info], shard.order + [key], shard.next);
      } else {
        var entries := shard.entries - {shard.order[shard.next]};
        shards[at] := Ring(entries[key := info], shard.order[shard.next := key], (shard.next + 1) % LIMIT);
      }
    }

    /** Main result: with or without the cache, the answer is the parser's. */
    method ParseDialect(dialect: Dialect, sql: string) returns (r: Result<T, string>)
      requires Valid()
      modifies shards
      ensures Valid() && r == parse(dialect, sql)
    {
      hide *;
      var key := Key(dialect, sql);
      if |sql| <= MAX_CACHED_BYTES {
        var found := Get(key);
        if found.Some? {
          return Ok(found.value);
        }
      }
      r := parse(dialect, sql);
      if r.Ok? && |sql| <= MAX_CACHED_BYTES {
        Store(key, r.value);
      }
    }
  }

  lemma SlotIsFree<T>(r: Ring<Key, T>)
    requires Exact(r)
    ensures |r.order| < LIMIT || r.next < |r.order| == LIMIT
  {
  }

  lemma InsertHolds<T>(r: Ring<Key, T>, k: Key, v: T)
    requires Exact(r)
    ensures k in Insert(r, k, v).entries
  {
  }
}
