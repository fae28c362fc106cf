/** The batch embedder over the cache: only what the cache misses is asked for.
  *
  * The endpoint is a function from the texts sent to its response.  A cache key names model,
  * dimensions and text; the digest of the text in the stored key is taken to tell texts apart.
  */
module Embedding {
  import opened Selection
  import opened LruModel
  import Lru
  import opened Wrappers

  datatype Config = Config(model: string, dims: int)

  datatype Key = Key(config: Config, text: string)

  /** `Overrun`: the response held more vectors than were asked for, which the code meets with
    * an index out of range. */
  datatype Failure<+E> = Request(error: E) | Overrun

  type Entries<V> = seq<Entry<Key, V>>

  function Hit<V>(cap: int, s: Entries<V>, c: Config, text: string): Option<V> {
    Lookup(cap, s, Key(c, text))
  }

  function Misses<V>(cap: int, s: Entries<V>, c: Config): string -> bool {
    (t: string) => Hit(cap, s, c, t).None?
  }

  /** The texts that must be asked for, in order. */
  function Missing<V>(cap: int, s: Entries<V>, c: Config, texts: seq<string>): seq<string> {
    Keep(texts, Misses(cap, s, c), 0, |texts|)
  }

  function MissIndices<V>(cap: int, s: Entries<V>, c: Config, texts: seq<string>): seq<nat> {
    Where(texts, Misses(cap, s, c), |texts|)
  }

  /** The cache contents after the first `n` texts have been looked up. */
  function GetAll<V>(cap: int, s: Entries<V>, c: Config, texts: seq<string>, n: nat): Entries<V>
    requires n <= |texts|
    decreases n
  {
    if n == 0 then s else AfterGet(cap, GetAll(cap, s, c, texts, n - 1), Key(c, texts[n-1]))
  }

  /** The cache contents after the first `n` texts have been stored. */
  function SetAll<V>(cap: int, s: Entries<V>, c: Config, texts: seq<string>, vecs: seq<V>, n: nat): Entries<V>
    requires n <= |texts| && n <= |vecs|
    decreases n
  {
    if n == 0 then s else AfterSet(cap, SetAll(cap, s, c, texts, vecs, n - 1), Key(c, texts[n-1]), vecs[n-1])
  }

  /** What the cache answers for each of the first `n` texts. */
  function Hits<V>(cap: int, s: Entries<V>, c: Config, texts: seq<string>, n: nat): seq<Option<V>>
    requires n <= |texts|
    decreases n
  {
    if n == 0 then [] else Hits(cap, s, c, texts, n - 1) + [Hit(cap, s, c, texts[n-1])]
  }

  lemma {:induction false} HitsAt<V>(cap: int, s: Entries<V>, c: Config, texts: seq<string>, n: nat)
    requires n <= |texts|
    ensures |Hits(cap, s, c, texts, n)| == n
    ensures forall k :: 0 <= k < n ==> Hits(cap, s, c, texts, n)[k] == Hit(cap, s, c, texts[k])
    decreases n
  {
    if n > 0 { HitsAt(cap, s, c, texts, n - 1); }
  }

  /** The first `n` vectors put in the places listed. */
  function Fill<V>(out: seq<Option<V>>, idx: seq<nat>, vecs: seq<V>, n: nat): (r: seq<Option<V>>)
    requires n <= |idx| && n <= |vecs| && forall k :: 0 <= k < |idx| ==> idx[k] < |out|
    ensures |r| == |out|
    decreases n
  {
    if n == 0 then out else Fill(out, idx, vecs, n - 1)[idx[n-1] := Some(vecs[n-1])]
  }

  /** What a response to the missing texts makes of a batch. */
  function Answered<V>(cap: int, s: Entries<V>, c: Config, texts: seq<string>, data: seq<V>): (r: seq<Option<V>>)
    requires |data| <= |MissIndices(cap, s, c, texts)|
    ensures |r| == |texts|
  {
    PositionsRise(texts, Misses(cap, s, c), |texts|);
    HitsAt(cap, s, c, texts, |texts|);
    Fill(Hits(cap, s, c, texts, |texts|), MissIndices(cap, s, c, texts), data, |data|)
  }

  // ---------------------------------------------------------------------------------
  // Looking up changes the order of the cache and nothing else

  lemma LookupIs<K, V>(cap: int, s: seq<Entry<K, V>>, k: K, v: V)
    requires DistinctKeys(s)
    ensures Lookup(cap, s, k) == Some(v) <==> cap > 0 && Entry(k, v) in s
  {
    if Entry(k, v) in s {
      var i :| 0 <= i < |s| && s[i] == Entry(k, v);
    }
  }

  lemma GetKeepsEntries<K, V>(cap: int, s: seq<Entry<K, V>>, k: K)
    ensures forall e :: e in AfterGet(cap, s, k) <==> e in s
  {
    var i := IndexOf(s, k);
    if cap > 0 && i < |s| {
      assert s == s[..i] + [s[i]] + s[i+1..];
    }
  }

  lemma SameLookup<K, V(!new)>(cap: int, s: seq<Entry<K, V>>, t: seq<Entry<K, V>>, k: K)
    requires DistinctKeys(s) && DistinctKeys(t) && forall e :: e in s <==> e in t
    ensures Lookup(cap, s, k) == Lookup(cap, t, k)
  {
    forall v: V ensures Lookup(cap, s, k) == Some(v) <==> Lookup(cap, t, k) == Some(v) {
      LookupIs(cap, s, k, v);
      LookupIs(cap, t, k, v);
    }
  }

  lemma {:induction false} GetAllSame<V(!new)>(cap: int, s: Entries<V>, c: Config, texts: seq<string>, n: nat)
    requires n <= |texts| && Fits(cap, s)
    ensures Fits(cap, GetAll(cap, s, c, texts, n))
    ensures forall e :: e in GetAll(cap, s, c, texts, n) <==> e in s
    decreases n
  {
    if n > 0 {
      GetAllSame(cap, s, c, texts, n - 1);
      var before := GetAll(cap, s, c, texts, n - 1);
      GetKeepsEntries(cap, before, Key(c, texts[n-1]));
      OpFits(cap, before, Get(Key(c, texts[n-1])));
    }
  }

  /** Texts looked up before do not change what a lookup finds. */
  lemma HitAfterGets<V(!new)>(cap: int, s: Entries<V>, c: Config, texts: seq<string>, i: nat)
    requires i < |texts| && Fits(cap, s)
    ensures Hit(cap, GetAll(cap, s, c, texts, i), c, texts[i]) == Hit(cap, s, c, texts[i])
  {
    GetAllSame(cap, s, c, texts, i);
    SameLookup(cap, s, GetAll(cap, s, c, texts, i), Key(c, texts[i]));
  }

  method Place<V>(out: seq<Option<V>>, idx: seq<nat>, vecs: seq<V>) returns (r: seq<Option<V>>)
    requires |vecs| <= |idx| && forall k :: 0 <= k < |idx| ==> idx[k] < |out|
    ensures r == Fill(out, idx, vecs, |vecs|)
  {
    r := out;
    for i := 0 to |vecs|
      invariant r == Fill(out, idx, vecs, i)
    {
      r := r[idx[i] := Some(vecs[i])];
    }
  }

  // ---------------------------------------------------------------------------------
  // The client

  class Embedder<V(!new)> {
    const config: Config
    const cache: Lru.Cache<Key, V>

    ghost predicate Valid()
      reads this, cache, cache.ring, cache.ring.Repr
    {
      cache.Valid()
    }

    constructor (config: Config, capacity: int)
      ensures Valid() && this.config == config && cache.cap == capacity && cache.contents == []
      ensures fresh(cache) && fresh(cache.ring) && fresh(cache.ring.Repr)
    {
      this.config := config;
      cache := new Lru.Cache(capacity);
    }

    method CachedAt(texts: seq<string>, i: nat, ghost s: Entries<V>) returns (v: Option<V>)
      requires Valid() && i < |texts| && Fits(cache.cap, s) && cache.contents == GetAll(cache.cap, s, config, texts, i)
      modifies cache, cache.ring, cache.ring.Repr
      ensures Valid() && cache.ring.Repr == old(cache.ring.Repr)
      ensures v == Hit(cache.cap, s, config, texts[i])
      ensures cache.contents == GetAll(cache.cap, s, config, texts, i + 1)
    {
      HitAfterGets(cache.cap, s, config, texts, i);
      v := Cached(texts[i]);
    }

    method Cached(text: string) returns (v: Option<V>)
      requires Valid()
      modifies cache, cache.ring, cache.ring.Repr
      ensures Valid() && cache.ring.Repr == old(cache.ring.Repr)
      ensures v == Hit(cache.cap, old(cache.contents), config, text)
      ensures cache.contents == AfterGet(cache.cap, old(cache.contents), Key(config, text))
    {
      v := cache.Get(Key(config, text));
    }

    method StoreCached(text: string, v: V)
      requires Valid()
      modifies cache, cache.ring, cache.ring.Repr
      ensures Valid() && fresh(cache.ring.Repr - old(cache.ring.Repr))
      ensures cache.contents == AfterSet(cache.cap, old(cache.contents), Key(config, text), v)
    {
      cache.Set(Key(config, text), v);
    }

    /** Looks every text up, in order, and notes the places of those not found. */
    method LookUp(texts: seq<string>) returns (out: seq<Option<V>>, missIdx: seq<nat>, missTexts: seq<string>)
      requires Valid()
      modifies cache, cache.ring, cache.ring.Repr
      ensures Valid() && cache.ring.Repr == old(cache.ring.Repr)
      ensures cache.contents == GetAll(cache.cap, old(cache.contents), config, texts, |texts|)
      ensures out == Hits(cache.cap, old(cache.contents), config, texts, |texts|)
      ensures missIdx == MissIndices(cache.cap, old(cache.contents), config, texts)
      ensures missTexts == Missing(cache.cap, old(cache.contents), config, texts)
    {
      out, missIdx, missTexts := [], [], [];
      ghost var s := cache.contents;
      ghost var missed := Misses(cache.cap, s, config);
      for i := 0 to |texts|
        invariant Valid() && cache.ring.Repr == old(cache.ring.Repr)
        invariant cache.contents == GetAll(cache.cap, s, config, texts, i)
        invariant out == Hits(cache.cap, s, config, texts, i)
        invariant missIdx == Where(texts, missed, i) && missTexts == Keep(texts, missed, 0, i)
      {
        var v := CachedAt(texts, i, s);
        assert v.None? <==> missed(texts[i]);
        out := out + [v];
        if v.None? {
          missIdx := missIdx + [i];
          missTexts := missTexts + [texts[i]];
        }
      }
    }

    /** Stores each vector under its text, in order. */
    method StoreAll(texts: seq<string>, vecs: seq<V>)
      requires Valid() && |vecs| <= |texts|
      modifies cache, cache.ring, cache.ring.Repr
      ensures Valid() && fresh(cache.ring.Repr - old(cache.ring.Repr))
      ensures cache.contents == SetAll(cache.cap, old(cache.contents), config, texts, vecs, |vecs|)
    {
      ghost var s := cache.contents;
      for i := 0 to |vecs|
        invariant Valid() && fresh(cache.ring.Repr - old(cache.ring.Repr))
        invariant cache.contents == SetAll(cache.cap, s, config, texts, vecs, i)
      {
        StoreAt(texts, vecs, i, s);
      }
    }

    method StoreAt(texts: seq<string>, vecs: seq<V>, i: nat, ghost s: Entries<V>)
      requires Valid() && i < |texts| && i < |vecs| && cache.contents == SetAll(cache.cap, s, config, texts, vecs, i)
      modifies cache, cache.ring, cache.ring.Repr
      ensures Valid() && fresh(cache.ring.Repr - old(cache.ring.Repr))
      ensures cache.contents == SetAll(cache.cap, s, config, texts, vecs, i + 1)
    {
      StoreCached(texts[i], vecs[i]);
    }

    /** Embeds a batch: one request for the texts the cache does not hold, none when it holds
      * all of them. */
    method EmbedBatch<E>(texts: seq<string>, serve: seq<string> -> Result<seq<V>, E>)
      returns (r: Result<seq<Option<V>>, Failure<E>>, ghost sent: seq<seq<string>>)
      requires Valid()
      modifies cache, cache.ring, cache.ring.Repr
      ensures Valid() && fresh(cache.ring.Repr - old(cache.ring.Repr))
      ensures var cap, s := cache.cap, old(cache.contents);
        var missing, after := Missing(cap, s, config, texts), GetAll(cap, s, config, texts, |texts|);
        |missing| == |MissIndices(cap, s, config, texts)| &&
        if missing == [] then sent == [] && r == Ok(Hits(cap, s, config, texts, |texts|)) && cache.contents == after
        else sent == [missing] && match serve(missing)
          case Err(e) => r == Err(Request(e)) && cache.contents == after
          case Ok(data) =>
            if |data| > |missing| then
              r == Err(Overrun) && cache.contents == SetAll(cap, after, config, missing, data, |missing|)
            else
              r == Ok(Answered(cap, s, config, texts, data)) &&
                cache.contents == SetAll(cap, after, config, missing, data, |data|)
    {
      ghost var s := cache.contents;
      WhereCounts(texts, Misses(cache.cap, s, config), |texts|);
      HitsAt(cache.cap, s, config, texts, |texts|);
      PositionsRise(texts, Misses(cache.cap, s, config), |texts|);
      var out, missIdx, missTexts := LookUp(texts);
      sent := [];
      if |missTexts| == 0 { return Ok(out), sent; }
      sent := [missTexts];
      var answer := serve(missTexts);
      if answer.Err? { return Err(Request(answer.error)), sent; }
      if |answer.value| > |missTexts| {
        StoreAll(missTexts, answer.value[..|missTexts|]);
        SetAllSame(cache.cap, GetAll(cache.cap, s, config, texts, |texts|), config, missTexts,
          answer.value[..|missTexts|], answer.value, |missTexts|);
        return Err(Overrun), sent;
      }
      out := Place(out, missIdx, answer.value);
      StoreAll(missTexts, answer.value);
      r := Ok(out);
    }

    /** Embeds one text.  A response without vectors is passed on as no vector, not reported. */
    method Embed<E>(text: string, serve: seq<string> -> Result<seq<V>, E>) returns (r: Result<Option<V>, Failure<E>>)
      requires Valid()
      modifies cache, cache.ring, cache.ring.Repr
      ensures Valid() && fresh(cache.ring.Repr - old(cache.ring.Repr))
      ensures r == match Hit(cache.cap, old(cache.contents), config, text)
                   case Some(v) => Ok(Some(v))
                   case None =>
                     match serve([text])
                     case Err(e) => Err(Request(e))
                     case Ok(data) =>
                       if |data| == 0 then Ok(None) else if |data| == 1 then Ok(Some(data[0])) else Err(Overrun)
      ensures var cap, s, k := cache.cap, old(cache.contents), Key(config, text);
        cache.contents == match Hit(cap, s, config, text)
                          case Some(_) => AfterGet(cap, s, k)
                          case None =>
                            match serve([text])
                            case Err(_) => s
                            case Ok(data) => if |data| == 0 then s else AfterSet(cap, s, k, data[0])
    {
      ghost var s := cache.contents;
      var v := Cached(text);
      if v.Some? { return Ok(v); }
      assert cache.contents == s;
      OneMissing(cache.cap, s, config, text);
      var vecs, sent := EmbedBatch([text], serve);
      OneStored(cache.cap, s, config, text, serve([text]));
      if vecs.Err? { return Err(vecs.error); }
      assert forall data: seq<V> :: |data| == 1 ==> data == [data[0]];
      return Ok(vecs.value[0]);
    }
  }

  lemma OneMissing<V>(cap: int, s: Entries<V>, c: Config, text: string)
    requires Hit(cap, s, c, text).None?
    ensures Missing(cap, s, c, [text]) == [text] && MissIndices(cap, s, c, [text]) == [0]
    ensures Answered(cap, s, c, [text], []) == [None]
    ensures forall v :: Answered(cap, s, c, [text], [v]) == [Some(v)]
  {
    var p := Misses(cap, s, c);
    assert Keep([text], p, 0, 1) == Keep([text], p, 0, 0) + [text];
    assert Where([text], p, 1) == Where([text], p, 0) + [0];
    assert Hits(cap, s, c, [text], 1) == [None];
  }

  /** What a batch of one missing text leaves in the cache. */
  lemma OneStored<V, E>(cap: int, s: Entries<V>, c: Config, text: string, answer: Result<seq<V>, E>)
    requires Hit(cap, s, c, text).None?
    ensures GetAll(cap, s, c, [text], 1) == s
    ensures SetAll(cap, s, c, [text], [], 0) == s
    ensures answer.Ok? && |answer.value| > 0 ==>
      SetAll(cap, s, c, [text], answer.value, 1) == AfterSet(cap, s, Key(c, text), answer.value[0])
  {
    assert GetAll(cap, s, c, [text], 0) == s;
    if answer.Ok? { assert SetAll(cap, s, c, [text], answer.value, 0) == s; }
  }

  lemma {:induction false} SetAllSame<V>(cap: int, s: Entries<V>, c: Config, texts: seq<string>, a: seq<V>, b: seq<V>,
                                         n: nat)
    requires n <= |texts| && n <= |a| && n <= |b| && forall i :: 0 <= i < n ==> a[i] == b[i]
    ensures SetAll(cap, s, c, texts, a, n) == SetAll(cap, s, c, texts, b, n)
    decreases n
  {
    if n > 0 { SetAllSame(cap, s, c, texts, a, b, n - 1); }
  }

  // ---------------------------------------------------------------------------------
  // A batch is a trace of the cache: a Get for each text, then a Set for each vector

  function Gets<V>(c: Config, texts: seq<string>): seq<Op<Key, V>> {
    seq(|texts|, i requires 0 <= i < |texts| => Get(Key(c, texts[i])))
  }

  function Sets<V>(c: Config, texts: seq<string>, vecs: seq<V>): seq<Op<Key, V>>
    requires |vecs| <= |texts|
  {
    seq(|vecs|, i requires 0 <= i < |vecs| => Set(Key(c, texts[i]), vecs[i]))
  }

  /** One more operation of a trace that continues with `more`. */
  lemma TraceStep<V>(cap: int, ops: seq<Op<Key, V>>, more: seq<Op<Key, V>>, n: nat)
    requires 0 < n <= |more|
    ensures Run(cap, ops + more[..n]) == AfterOp(cap, Run(cap, ops + more[..n-1]), more[n-1])
  {
    assert ops + more[..n] == ops + more[..n-1] + [more[n-1]];
    RunAppend(cap, ops + more[..n-1], more[n-1]);
  }

  lemma {:induction false} GetAllIsTrace<V>(cap: int, ops: seq<Op<Key, V>>, c: Config, texts: seq<string>, n: nat)
    requires n <= |texts|
    ensures GetAll(cap, Run(cap, ops), c, texts, n) == Run(cap, ops + Gets<V>(c, texts)[..n])
    decreases n
  {
    if n == 0 {
      assert ops + Gets<V>(c, texts)[..0] == ops;
    } else {
      GetAllIsTrace(cap, ops, c, texts, n - 1);
      TraceStep(cap, ops, Gets<V>(c, texts), n);
    }
  }

  lemma {:induction false} SetAllIsTrace<V>(cap: int, ops: seq<Op<Key, V>>, c: Config, texts: seq<string>,
                                            vecs: seq<V>, n: nat)
    requires n <= |vecs| <= |texts|
    ensures SetAll(cap, Run(cap, ops), c, texts, vecs, n) == Run(cap, ops + Sets(c, texts, vecs)[..n])
    decreases n
  {
    if n == 0 {
      assert ops + Sets(c, texts, vecs)[..0] == ops;
    } else {
      SetAllIsTrace(cap, ops, c, texts, vecs, n - 1);
      TraceStep(cap, ops, Sets(c, texts, vecs), n);
    }
  }

  /** What a batch leaves of a cache that a trace has filled. */
  lemma BatchIsTrace<V>(cap: int, ops: seq<Op<Key, V>>, c: Config, texts: seq<string>, missing: seq<string>,
                        data: seq<V>)
    requires |data| <= |missing|
    ensures SetAll(cap, GetAll(cap, Run(cap, ops), c, texts, |texts|), c, missing, data, |data|) ==
      Run(cap, ops + Gets<V>(c, texts) + Sets(c, missing, data))
  {
    GetAllIsTrace(cap, ops, c, texts, |texts|);
    assert Gets<V>(c, texts)[..|texts|] == Gets<V>(c, texts);
    SetAllIsTrace(cap, ops + Gets<V>(c, texts), c, missing, data, |data|);
    assert Sets(c, missing, data)[..|data|] == Sets(c, missing, data);
  }

  /** A vector that came back is found from then on, if fewer than the capacity came after it
    * and none of those is for the same text. */
  lemma StoredIsHit<V>(cap: int, ops: seq<Op<Key, V>>, c: Config, texts: seq<string>, missing: seq<string>,
                       data: seq<V>, i: nat)
    requires i < |data| <= |missing| && |data| - i <= cap && missing[i] !in missing[i+1..|data|]
    ensures var after := SetAll(cap, GetAll(cap, Run(cap, ops), c, texts, |texts|), c, missing, data, |data|);
      Hit(cap, after, c, missing[i]) == Some(data[i])
  {
    BatchIsTrace(cap, ops, c, texts, missing, data);
    var sets := Sets(c, missing, data);
    forall j | i < j < |sets| ensures sets[j].key != sets[i].key {
      assert missing[i+1..|data|][j - i - 1] == missing[j];
    }
    SetInTraceHits(cap, ops + Gets<V>(c, texts), sets, i);
  }

  // ---------------------------------------------------------------------------------
  // Transparency

  /** Every entry of this configuration holds its text's embedding. */
  ghost predicate Agrees<V>(s: Entries<V>, c: Config, truth: string -> V) {
    forall e :: e in s && e.key.config == c ==> e.val == truth(e.key.text)
  }

  ghost predicate Honest<V>(texts: seq<string>, data: seq<V>, truth: string -> V) {
    |data| <= |texts| && forall j :: 0 <= j < |data| ==> data[j] == truth(texts[j])
  }

  lemma SetKeepsAgreement<V>(cap: int, s: Entries<V>, c: Config, t: string, v: V, truth: string -> V)
    requires Agrees(s, c, truth) && v == truth(t)
    ensures Agrees(AfterSet(cap, s, Key(c, t), v), c, truth)
  {
    forall e | e in AfterSet(cap, s, Key(c, t), v) ensures e == Entry(Key(c, t), v) || e in s {}
  }

  lemma {:induction false} SetAllAgrees<V>(cap: int, s: Entries<V>, c: Config, texts: seq<string>, data: seq<V>,
                                           n: nat, truth: string -> V)
    requires Agrees(s, c, truth) && Honest(texts, data, truth) && n <= |data|
    ensures Agrees(SetAll(cap, s, c, texts, data, n), c, truth)
    decreases n
  {
    if n > 0 {
      SetAllAgrees(cap, s, c, texts, data, n - 1, truth);
      SetKeepsAgreement(cap, SetAll(cap, s, c, texts, data, n - 1), c, texts[n-1], data[n-1], truth);
    }
  }

  /** A batch keeps the cache in agreement with the embedding, whatever part of the response
    * arrived. */
  lemma BatchKeepsAgreement<V(!new)>(cap: int, s: Entries<V>, c: Config, texts: seq<string>, data: seq<V>,
                                     truth: string -> V)
    requires Fits(cap, s) && Agrees(s, c, truth) && Honest(Missing(cap, s, c, texts), data, truth)
    ensures Agrees(SetAll(cap, GetAll(cap, s, c, texts, |texts|), c, Missing(cap, s, c, texts), data, |data|), c, truth)
  {
    GetAllSame(cap, s, c, texts, |texts|);
    SetAllAgrees(cap, GetAll(cap, s, c, texts, |texts|), c, Missing(cap, s, c, texts), data, |data|, truth);
  }

  lemma {:induction false} FillAt<V>(out: seq<Option<V>>, idx: seq<nat>, vecs: seq<V>, n: nat, i: nat)
    requires n <= |idx| && n <= |vecs| && Increasing(idx)
    requires (forall k :: 0 <= k < |idx| ==> idx[k] < |out|) && i < |out|
    ensures (forall k :: 0 <= k < n ==> idx[k] != i) ==> Fill(out, idx, vecs, n)[i] == out[i]
    ensures forall k :: 0 <= k < n && idx[k] == i ==> Fill(out, idx, vecs, n)[i] == Some(vecs[k])
    decreases n
  {
    if n > 0 { FillAt(out, idx, vecs, n - 1, i); }
  }

  lemma AnsweredAt<V(!new)>(cap: int, s: Entries<V>, c: Config, texts: seq<string>, data: seq<V>,
                            truth: string -> V, i: nat)
    requires Fits(cap, s) && Agrees(s, c, truth) && i < |texts|
    requires Honest(Missing(cap, s, c, texts), data, truth)
    ensures |Missing(cap, s, c, texts)| == |MissIndices(cap, s, c, texts)|
    ensures Answered(cap, s, c, texts, data)[i] ==
      if exists k :: |data| <= k < |MissIndices(cap, s, c, texts)| && MissIndices(cap, s, c, texts)[k] == i then None
      else Some(truth(texts[i]))
  {
    var p, idx := Misses(cap, s, c), MissIndices(cap, s, c, texts);
    WhereCounts(texts, p, |texts|);
    PositionsRise(texts, p, |texts|);
    WhereIs(texts, p, |texts|);
    HitsAt(cap, s, c, texts, |texts|);
    FillAt(Hits(cap, s, c, texts, |texts|), idx, data, |data|, i);
    if i in idx {
      var k :| 0 <= k < |idx| && idx[k] == i;
    } else {
      var v := Hit(cap, s, c, texts[i]).value;
      LookupIs(cap, s, Key(c, texts[i]), v);
      assert Entry(Key(c, texts[i]), v) in s;
    }
  }

  /** With correct vectors a batch returns the embedding of every text exactly when the
    * response answers every text sent; a shorter response leaves gaps without an error. */
  lemma BatchIsTransparentIff<V(!new)>(cap: int, s: Entries<V>, c: Config, texts: seq<string>, data: seq<V>,
                                       truth: string -> V)
    requires Fits(cap, s) && Agrees(s, c, truth) && Honest(Missing(cap, s, c, texts), data, truth)
    ensures |Missing(cap, s, c, texts)| == |MissIndices(cap, s, c, texts)|
    ensures (forall i :: 0 <= i < |texts| ==> Answered(cap, s, c, texts, data)[i] == Some(truth(texts[i])))
              <==> |data| == |Missing(cap, s, c, texts)|
  {
    var p, idx := Misses(cap, s, c), MissIndices(cap, s, c, texts);
    WhereCounts(texts, p, |texts|);
    PositionsRise(texts, p, |texts|);
    forall i | 0 <= i < |texts| && |data| == |idx|
      ensures Answered(cap, s, c, texts, data)[i] == Some(truth(texts[i]))
    {
      AnsweredAt(cap, s, c, texts, data, truth, i);
    }
    if |data| < |idx| {
      AnsweredAt(cap, s, c, texts, data, truth, idx[|data|]);
    }
  }

  /** A batch asks for a text only when the cache does not hold it. */
  lemma AskedAreMissing<V>(cap: int, s: Entries<V>, c: Config, texts: seq<string>, t: string)
    ensures t in Missing(cap, s, c, texts) <==> t in texts && Hit(cap, s, c, t).None?
  {
    KeepHolds(texts, Misses(cap, s, c), |texts|, t);
    assert texts[..|texts|] == texts;
  }
}
