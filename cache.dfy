/**
 The Redis client: string keys holding JSON snapshots on the master, read back
 through replicas, and hashes of integer counters.

 The replicas are taken to mirror the master, so a read through the replica
 chosen by `ChooseReplica` sees the master's maps. JSON encoding and decoding
 is the identity on the stored values. A hash is the sequence of its
 (field, value) pairs in the order the fields were created. That order is
 taken to be the order HGETALL reports them in, as it is for a small Redis
 hash; a large hash reports its fields in no fixed order.
 */
module Cache {
  import opened Wrappers
  import opened Ranking

  /** The value of field `f` in a hash snapshot; an absent field reads as 0, as HINCRBY treats it. */
  function Count<F(==)>(h: seq<(F, int)>, f: F): int
    decreases |h|
  {
    if h == [] then 0
    else if h[0].0 == f then h[0].1
    else Count(h[1..], f)
  }

  /** A field that is absent counts 0; a present field's count is the value paired with it. */
  lemma {:induction false} CountSpec<F>(h: seq<(F, int)>, f: F)
    ensures f !in Fields(h) ==> Count(h, f) == 0
    ensures f in Fields(h) ==> (f, Count(h, f)) in h
    decreases |h|
  {
    if h != [] && h[0].0 != f {
      CountSpec(h[1..], f);
      assert h == [h[0]] + h[1..];
      FieldsCons(h[0], h[1..]);
      if f in Fields(h) {
        assert (f, Count(h, f)) in h[1..];
      }
    }
  }

  /**
   HINCRBY on a snapshot: an existing field is raised by `a` where it stands,
   an absent one is created with value `a` after all the others.
   */
  function Bump<F(==)>(h: seq<(F, int)>, f: F, a: int): seq<(F, int)>
    decreases |h|
  {
    if h == [] then [(f, a)]
    else if h[0].0 == f then [(f, h[0].1 + a)] + h[1..]
    else [h[0]] + Bump(h[1..], f, a)
  }

  /**
   What HINCRBY does to a hash: the field's counter moves by `a`, no other
   counter moves, the field exists afterwards, a new field goes last, and no
   field is ever duplicated.
   */
  lemma {:induction false} BumpSpec<F>(h: seq<(F, int)>, f: F, a: int)
    ensures Count(Bump(h, f, a), f) == Count(h, f) + a
    ensures forall g :: g != f ==> Count(Bump(h, f, a), g) == Count(h, g)
    ensures Fields(Bump(h, f, a)) == Fields(h) + {f}
    ensures f !in Fields(h) ==> Bump(h, f, a) == h + [(f, a)]
    ensures f in Fields(h) ==> |Bump(h, f, a)| == |h|
    ensures f in Fields(h) ==> forall i :: 0 <= i < |h| ==> Bump(h, f, a)[i].0 == h[i].0
    ensures DistinctFields(h) ==> DistinctFields(Bump(h, f, a))
    decreases |h|
  {
    if h == [] {
    } else if h[0].0 == f {
      BumpHere(h, f, a);
      assert forall i :: 1 <= i < |h| ==> Bump(h, f, a)[i] == h[i];
    } else {
      var t := Bump(h[1..], f, a);
      BumpSpec(h[1..], f, a);
      BumpLater(h, f, a, t);
      BumpLaterShape(h, f, a, t);
    }
  }

  /** The field to raise is the first: its pair is replaced where it stands. */
  lemma BumpHere<F>(h: seq<(F, int)>, f: F, a: int)
    requires h != [] && h[0].0 == f
    ensures Count([(f, h[0].1 + a)] + h[1..], f) == Count(h, f) + a
    ensures forall g :: g != f ==> Count([(f, h[0].1 + a)] + h[1..], g) == Count(h, g)
    ensures Fields([(f, h[0].1 + a)] + h[1..]) == Fields(h) + {f}
    ensures DistinctFields(h) ==> DistinctFields([(f, h[0].1 + a)] + h[1..])
  {
    var x, s := (f, h[0].1 + a), h[1..];
    assert h == [h[0]] + s;
    CountCons(x, s);
    CountCons(h[0], s);
    FieldsCons(h[0], s);
    FieldsCons(x, s);
    if DistinctFields(h) {
      TailDistinct(h);
      DistinctCons(x, s);
    }
  }

  /** The field to raise comes later: the first pair stays and the rest is raised. */
  lemma BumpLater<F>(h: seq<(F, int)>, f: F, a: int, t: seq<(F, int)>)
    requires h != [] && h[0].0 != f
    requires Count(t, f) == Count(h[1..], f) + a
    requires forall g :: g != f ==> Count(t, g) == Count(h[1..], g)
    ensures Count([h[0]] + t, f) == Count(h, f) + a
    ensures forall g :: g != f ==> Count([h[0]] + t, g) == Count(h, g)
  {
    assert h == [h[0]] + h[1..];
    CountCons(h[0], h[1..]);
    CountCons(h[0], t);
  }

  /** The fields, the length and the distinctness of a hash raised after its first pair. */
  lemma BumpLaterShape<F>(h: seq<(F, int)>, f: F, a: int, t: seq<(F, int)>)
    requires h != [] && h[0].0 != f
    requires Fields(t) == Fields(h[1..]) + {f}
    requires f !in Fields(h[1..]) ==> t == h[1..] + [(f, a)]
    requires f in Fields(h[1..]) ==> |t| == |h[1..]|
    requires f in Fields(h[1..]) ==> forall i :: 0 <= i < |h[1..]| ==> t[i].0 == h[1..][i].0
    requires DistinctFields(h[1..]) ==> DistinctFields(t)
    ensures Fields([h[0]] + t) == Fields(h) + {f}
    ensures f !in Fields(h) ==> [h[0]] + t == h + [(f, a)]
    ensures f in Fields(h) ==> |[h[0]] + t| == |h|
    ensures f in Fields(h) ==> forall i :: 0 <= i < |h| ==> ([h[0]] + t)[i].0 == h[i].0
    ensures DistinctFields(h) ==> DistinctFields([h[0]] + t)
  {
    var s := h[1..];
    assert h == [h[0]] + s;
    FieldsCons(h[0], s);
    FieldsCons(h[0], t);
    if f !in Fields(h) {
      assert [h[0]] + t == [h[0]] + s + [(f, a)];
    } else {
      assert f in Fields(s);
      forall i | 0 <= i < |h| ensures ([h[0]] + t)[i].0 == h[i].0 {
        if i > 0 {
          assert ([h[0]] + t)[i] == t[i - 1];
          assert h[i] == s[i - 1];
        }
      }
    }
    if DistinctFields(h) {
      TailDistinct(h);
      DistinctCons(h[0], t);
    }
  }

  /** Counting in a hash whose first pair is `x`. */
  lemma CountCons<F>(x: (F, int), s: seq<(F, int)>)
    ensures forall g :: Count([x] + s, g) == if x.0 == g then x.1 else Count(s, g)
  {
    assert ([x] + s)[1..] == s;
  }

  lemma FieldsCons<F>(x: (F, int), s: seq<(F, int)>)
    ensures Fields([x] + s) == {x.0} + Fields(s)
  {
    var t := [x] + s;
    forall f | f in Fields(t) ensures f in {x.0} + Fields(s) {
      var e :| e in t && e.0 == f;
    }
    forall f | f in Fields(s) ensures f in Fields(t) {
      var e :| e in s && e.0 == f;
      assert e in t;
    }
    assert x in t;
  }

  /** All hashes after HINCRBY key f a. */
  function Incremented<F(==,!new)>(hashes: map<string, seq<(F, int)>>, key: string, f: F, a: int): map<string, seq<(F, int)>>
  {
    hashes[key := Bump(SeqAt(hashes, key), f, a)]
  }

  /** HINCRBY moves exactly one counter, of one hash, by exactly `a`. */
  lemma IncrementedCount<F(!new)>(hashes: map<string, seq<(F, int)>>, key: string, f: F, a: int)
    ensures Count(SeqAt(Incremented(hashes, key, f, a), key), f) == Count(SeqAt(hashes, key), f) + a
    ensures forall g :: g != f ==> Count(SeqAt(Incremented(hashes, key, f, a), key), g) == Count(SeqAt(hashes, key), g)
    ensures forall k :: k != key ==> SeqAt(Incremented(hashes, key, f, a), k) == SeqAt(hashes, k)
  {
    BumpSpec(SeqAt(hashes, key), f, a);
  }

  class RedisClient<V, F(==,!new)> {
    /** The replica hosts reads are spread over. */
    const replicas: seq<string>
    /** The TTL, in seconds, of a snapshot stored without one. */
    const defaultExpiry: int
    /** The string keyspace of the master, with JSON decoding applied. */
    var master: map<string, V>
    /** The TTL each string key was last set with. */
    var expiry: map<string, int>
    /** The hash keyspace of the master. */
    var hashes: map<string, seq<(F, int)>>

    ghost predicate Valid()
      reads this
    {
      |replicas| > 0 && defaultExpiry > 0 &&
      expiry.Keys == master.Keys &&
      (forall k :: k in expiry ==> expiry[k] > 0) &&
      forall k :: k in hashes ==> DistinctFields(hashes[k])
    }

    constructor (replicas: seq<string>, defaultExpiry: int)
      requires |replicas| > 0 && defaultExpiry > 0
      ensures Valid()
      ensures this.replicas == replicas && this.defaultExpiry == defaultExpiry
      ensures master == map[] && expiry == map[] && hashes == map[]
    {
      this.replicas := replicas;
      this.defaultExpiry := defaultExpiry;
      master := map[];
      expiry := map[];
      hashes := map[];
    }

    /** `_get_replica`: any one of the configured replicas (the source picks at random). */
    method ChooseReplica() returns (i: nat)
      requires Valid()
      ensures i < |replicas|
    {
      i :| i < |replicas|;
    }

    /** The TTL SET is given: `expiry or default_expiry`, so None and 0 both mean the default. */
    function EffectiveExpiry(ex: Option<int>): (t: int)
      reads this
      requires Valid() && (ex.Some? ==> ex.value >= 0)
      ensures t > 0
      ensures ex.Some? && ex.value > 0 ==> t == ex.value
    {
      if ex.None? || ex.value == 0 then defaultExpiry else ex.value
    }

    /** `set_data`: SET key value EX ttl on the master. */
    method SetData(key: string, data: V, ex: Option<int>)
      requires Valid() && (ex.Some? ==> ex.value >= 0)
      modifies this
      ensures Valid()
      ensures master == old(master)[key := data]
      ensures expiry == old(expiry)[key := old(EffectiveExpiry(ex))]
      ensures hashes == old(hashes)
    {
      var ttl := EffectiveExpiry(ex);
      master := master[key := data];
      expiry := expiry[key := ttl];
    }

    /** `get_data`: GET through a replica; a missing key gives None. */
    method GetData(key: string) returns (r: Option<V>)
      requires Valid()
      ensures r.Some? <==> key in master
      ensures r.Some? ==> r.value == master[key]
    {
      var replica := ChooseReplica();
      if key in master {
        r := Some(master[key]);
      } else {
        r := None;
      }
    }

    /** `delete_data`: DEL key on the master. */
    method DeleteData(key: string)
      requires Valid()
      modifies this
      ensures Valid()
      ensures master == old(master) - {key} && expiry == old(expiry) - {key}
      ensures hashes == old(hashes)
    {
      master := master - {key};
      expiry := expiry - {key};
    }

    /** `increment_counter`: HINCRBY key field amount on the master. */
    method IncrementCounter(key: string, field: F, amount: int)
      requires Valid()
      modifies this
      ensures Valid()
      ensures hashes == Incremented(old(hashes), key, field, amount)
      ensures master == old(master) && expiry == old(expiry)
    {
      BumpSpec(SeqAt(hashes, key), field, amount);
      hashes := Incremented(hashes, key, field, amount);
    }

    /** `get_top_values`: HGETALL through a replica, ranked. */
    method GetTopValues(key: string, count: int) returns (r: seq<(F, int)>)
      requires Valid()
      ensures r == TopValues(SeqAt(hashes, key), count)
      ensures key !in hashes ==> r == []
      ensures DistinctFields(r)
    {
      var replica := ChooseReplica();
      var all := SeqAt(hashes, key);
      if all == [] {
        r := [];
      } else {
        r := Take(StableSortDesc(all), count);
      }
    }
  }
}
