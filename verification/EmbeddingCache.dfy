/** The vector cache in front of an embedder. */
module EmbeddingCache {
  import opened Sequences

  datatype Sparse = Sparse(indices: seq<int>, values: seq<real>)

  datatype Embedding = Embedding(dense: seq<real>, sparse: Sparse)

  /** The stored form of an embedding: JSON with the dense and the sparse part. */
  datatype Json = Json(dense: seq<real>, indices: seq<int>, values: seq<real>)

  function ToJson(e: Embedding): Json { Json(e.dense, e.sparse.indices, e.sparse.values) }

  function FromJson(j: Json): Embedding { Embedding(j.dense, Sparse(j.indices, j.values)) }

  lemma {:induction false} JsonRoundTrip(e: Embedding)
    ensures FromJson(ToJson(e)) == e
  {
  }

  /** Version, vector size and text hash, different for different texts and sizes. */
  datatype Key = Key(dim: nat, text: string)

  /** Equal texts embed equally. */
  type VectorOf = string -> Embedding

  type Cache = map<Key, Json>

  /** Every cached entry for vectors of this size decodes to the true vector of its text. */
  ghost predicate Truthful(cache: Cache, vector: VectorOf, dim: nat) {
    forall text :: Key(dim, text) in cache ==> FromJson(cache[Key(dim, text)]) == vector(text)
  }

  /** Every entry of `a` is one of `b`. */
  ghost predicate Within(a: Cache, b: Cache) {
    forall k :: k in a ==> k in b && a[k] == b[k]
  }

  lemma {:induction false} WithinTruthful(a: Cache, b: Cache, vector: VectorOf, dim: nat)
    requires Within(a, b) && Truthful(b, vector, dim)
    ensures Truthful(a, vector, dim)
  {
  }

  function Vectors(texts: seq<string>, vector: VectorOf): seq<Embedding> {
    seq(|texts|, i requires 0 <= i < |texts| => vector(texts[i]))
  }

  datatype BatchResult = Embeddings(vectors: seq<Embedding>) | IncompleteBatch

  /** One question put to the cache, and whether it was answered. */
  datatype Answer = Answer(key: Key, hit: bool)

  /** A best-effort cache: entries may vanish, writes may be dropped and lookups may fail at any
      time. `answers` records every lookup, `faults` counts the times any of this happened. */
  class CacheService {
    var entries: Cache
    ghost var answers: seq<Answer>
    ghost var faults: nat

    constructor ()
      ensures entries == map[] && answers == [] && faults == 0
    {
      entries, answers, faults := map[], [], 0;
    }

    /** Any entries may be gone. */
    method Forget()
      modifies this
      ensures Within(entries, old(entries)) && answers == old(answers) && faults >= old(faults)
      ensures faults == old(faults) ==> entries == old(entries)
    {
      var kept: set<Key> :| kept <= entries.Keys;
      ghost var before := entries;
      entries := map k | k in kept :: entries[k];
      if entries != before { faults := faults + 1; }
    }

    /** A lookup may go unanswered although its entry stays. */
    method Get(key: Key) returns (value: Option<Json>)
      modifies this
      ensures Within(entries, old(entries)) && faults >= old(faults)
      ensures value.Some? ==> key in old(entries) && value.value == old(entries)[key]
      ensures answers == old(answers) + [Answer(key, value.Some?)]
      ensures faults == old(faults) ==> entries == old(entries) && (value.Some? <==> key in old(entries))
    {
      Forget();
      var fails: bool := *;
      value := if !fails && key in entries then Some(entries[key]) else None;
      if fails { faults := faults + 1; }
      answers := answers + [Answer(key, value.Some?)];
    }

    method Set(key: Key, value: Json)
      modifies this
      ensures Within(entries, old(entries)[key := value]) && answers == old(answers) && faults >= old(faults)
      ensures faults == old(faults) ==> entries == old(entries)[key := value]
    {
      entries := entries[key := value];
      Forget();
    }
  }

  /** The wrapped embedder; `requests` records the texts of every call. */
  class WrappedEmbedder {
    const vector: VectorOf
    ghost var requests: seq<seq<string>>

    constructor (vector: VectorOf)
      ensures this.vector == vector && requests == []
    {
      this.vector, requests := vector, [];
    }

    method Embed(text: string) returns (embedding: Embedding)
      modifies this
      ensures embedding == vector(text) && requests == old(requests) + [[text]]
    {
      embedding := vector(text);
      requests := requests + [[text]];
    }

    method EmbedBatch(texts: seq<string>) returns (embeddings: seq<Embedding>)
      modifies this
      ensures embeddings == Vectors(texts, vector) && requests == old(requests) + [texts]
    {
      embeddings := Vectors(texts, vector);
      requests := requests + [texts];
    }
  }

  // ---------------------------------------------------------------- what lookups answer

  /** The lookups of the first `n` texts, in order, with the given answers. */
  function AnswersTo(dim: nat, texts: seq<string>, hits: seq<bool>, n: nat): seq<Answer>
    requires n <= |texts| && n <= |hits|
  {
    if n == 0 then [] else AnswersTo(dim, texts, hits, n - 1) + [Answer(Key(dim, texts[n - 1]), hits[n - 1])]
  }

  /** The texts among the first `n` whose lookup was not answered, in order. */
  function Missed(texts: seq<string>, hits: seq<bool>, n: nat): seq<string>
    requires n <= |texts| && n <= |hits|
  {
    if n == 0 then [] else Missed(texts, hits, n - 1) + (if hits[n - 1] then [] else [texts[n - 1]])
  }

  /** The positions not answered among the first `n`, ascending. */
  function Misses(hits: seq<bool>, n: nat): seq<nat>
    requires n <= |hits|
  {
    if n == 0 then [] else Misses(hits, n - 1) + (if hits[n - 1] then [] else [n - 1])
  }

  lemma {:induction false} AnswersPrefix(dim: nat, texts: seq<string>, hits: seq<bool>, hit: bool, n: nat)
    requires n <= |texts| && n <= |hits|
    ensures AnswersTo(dim, texts, hits + [hit], n) == AnswersTo(dim, texts, hits, n)
    ensures Misses(hits + [hit], n) == Misses(hits, n)
  {
    if n > 0 { AnswersPrefix(dim, texts, hits, hit, n - 1); }
  }

  lemma {:induction false} MissesFacts(texts: seq<string>, hits: seq<bool>, n: nat)
    requires n <= |texts| && n <= |hits|
    ensures |Misses(hits, n)| == |Missed(texts, hits, n)|
    ensures forall m :: 0 <= m < |Misses(hits, n)| ==>
              Misses(hits, n)[m] < n && Missed(texts, hits, n)[m] == texts[Misses(hits, n)[m]]
    ensures forall i :: 0 <= i < n ==> (i in Misses(hits, n) <==> !hits[i])
  {
    if n > 0 { MissesFacts(texts, hits, n - 1); }
  }

  /** The cache after vectors are stored: every text has its true one, what was there stays, and
      nothing else is added. */
  ghost predicate Stores(after: Cache, before: Cache, dim: nat, texts: seq<string>, vector: VectorOf) {
    && (forall i :: 0 <= i < |texts| ==>
          Key(dim, texts[i]) in after && FromJson(after[Key(dim, texts[i])]) == vector(texts[i]))
    && (forall k :: k in before ==> k in after && after[k] == before[k])
    && (forall k :: k in after ==> k in before || (k.dim == dim && k.text in texts))
  }

  /** The cache after the vectors at the first `m` of `misses` are stored. */
  ghost predicate StoresAt(
    after: Cache, before: Cache, dim: nat, texts: seq<string>, misses: seq<nat>, m: nat, vector: VectorOf)
    requires m <= |misses| && forall j :: 0 <= j < |misses| ==> misses[j] < |texts|
  {
    && (forall j :: 0 <= j < m ==>
          var key := Key(dim, texts[misses[j]]); key in after && FromJson(after[key]) == vector(texts[misses[j]]))
    && (forall k :: k in before ==>
          k in after && (after[k] == before[k] || exists j :: 0 <= j < m && k == Key(dim, texts[misses[j]])))
    && (forall k :: k in after ==> k in before || (k.dim == dim && k.text in texts))
  }

  lemma {:induction false} StoreOneMore(
    after: Cache, before: Cache, dim: nat, texts: seq<string>, misses: seq<nat>, m: nat, vector: VectorOf)
    requires m < |misses| && forall j :: 0 <= j < |misses| ==> misses[j] < |texts|
    requires StoresAt(after, before, dim, texts, misses, m, vector)
    ensures var text := texts[misses[m]];
            StoresAt(after[Key(dim, text) := ToJson(vector(text))], before, dim, texts, misses, m + 1, vector)
  {
    JsonRoundTrip(vector(texts[misses[m]]));
  }

  lemma {:induction false} StoresAll(
    after: Cache, before: Cache, dim: nat, texts: seq<string>, misses: seq<nat>, hits: seq<bool>, vector: VectorOf)
    requires |hits| == |texts| && Truthful(before, vector, dim)
    requires forall j :: 0 <= j < |misses| ==> misses[j] < |texts|
    requires forall i :: 0 <= i < |texts| ==> (i in misses <==> !hits[i])
    requires forall i :: 0 <= i < |texts| ==> (hits[i] <==> Key(dim, texts[i]) in before)
    requires StoresAt(after, before, dim, texts, misses, |misses|, vector)
    ensures Stores(after, before, dim, texts, vector)
  {
    forall i | 0 <= i < |texts|
      ensures Key(dim, texts[i]) in after && FromJson(after[Key(dim, texts[i])]) == vector(texts[i])
    {
      if !hits[i] { var j :| 0 <= j < |misses| && misses[j] == i; }
    }
    forall j | 0 <= j < |misses|
      ensures Key(dim, texts[misses[j]]) !in before
    {
      assert misses[j] in misses;
    }
  }

  /** What the results found so far say about each lookup. */
  ghost predicate Answered(
    results: seq<Option<Embedding>>, hits: seq<bool>, texts: seq<string>, vector: VectorOf, n: nat)
    requires n <= |texts|
  {
    && |results| == |hits| == n
    && forall i :: 0 <= i < n ==>
         (hits[i] <==> results[i].Some?) && (results[i].Some? ==> results[i].value == vector(texts[i]))
  }

  class CachingEmbedder {
    const cache: CacheService
    const embedder: WrappedEmbedder
    const dim: nat

    constructor (cache: CacheService, embedder: WrappedEmbedder, dim: nat)
      ensures this.cache == cache && this.embedder == embedder && this.dim == dim
    {
      this.cache, this.embedder, this.dim := cache, embedder, dim;
    }

    /** The true vector of the text; the embedder is called exactly when the lookup is not
        answered, which without faults is when the text was not cached; then it is cached. */
    method Embed(text: string) returns (vector: Embedding, ghost hit: bool)
      requires Truthful(cache.entries, embedder.vector, dim)
      modifies cache, embedder
      ensures Truthful(cache.entries, embedder.vector, dim)
      ensures vector == embedder.vector(text)
      ensures cache.answers == old(cache.answers) + [Answer(Key(dim, text), hit)]
      ensures embedder.requests == old(embedder.requests) + (if hit then [] else [[text]])
      ensures cache.faults >= old(cache.faults)
      ensures cache.faults == old(cache.faults) ==>
                && (hit <==> Key(dim, text) in old(cache.entries))
                && Stores(cache.entries, old(cache.entries), dim, [text], embedder.vector)
    {
      var key := Key(dim, text);
      var cached := cache.Get(key);
      hit := cached.Some?;
      if cached.Some? { return FromJson(cached.value), hit; }
      vector := embedder.Embed(text);
      JsonRoundTrip(vector);
      cache.Set(key, ToJson(vector));
    }

    /** Looks up one text. */
    method LookupOne(text: string, ghost start: Cache) returns (result: Option<Embedding>)
      requires Truthful(start, embedder.vector, dim) && Within(cache.entries, start)
      modifies cache
      ensures Within(cache.entries, start) && cache.faults >= old(cache.faults)
      ensures result.Some? ==> result.value == embedder.vector(text)
      ensures cache.answers == old(cache.answers) + [Answer(Key(dim, text), result.Some?)]
      ensures cache.faults == old(cache.faults) ==>
                cache.entries == old(cache.entries) && (result.Some? <==> Key(dim, text) in old(cache.entries))
    {
      var cached := cache.Get(Key(dim, text));
      result := if cached.Some? then Some(FromJson(cached.value)) else None;
    }

    /** Looks up every text; `misses` are the positions to compute, in order. */
    method Lookup(texts: seq<string>)
      returns (results: seq<Option<Embedding>>, misses: seq<nat>, ghost hits: seq<bool>)
      requires Truthful(cache.entries, embedder.vector, dim)
      modifies cache
      ensures Within(cache.entries, old(cache.entries)) && cache.faults >= old(cache.faults)
      ensures Answered(results, hits, texts, embedder.vector, |texts|)
      ensures misses == Misses(hits, |texts|)
      ensures cache.answers == old(cache.answers) + AnswersTo(dim, texts, hits, |texts|)
      ensures cache.faults == old(cache.faults) ==>
                && cache.entries == old(cache.entries)
                && forall i :: 0 <= i < |texts| ==> (hits[i] <==> Key(dim, texts[i]) in old(cache.entries))
    {
      hide Truthful;
      results, misses, hits := [], [], [];
      for i := 0 to |texts|
        invariant Within(cache.entries, old(cache.entries)) && cache.faults >= old(cache.faults)
        invariant Answered(results, hits, texts, embedder.vector, i) && misses == Misses(hits, i)
        invariant cache.answers == old(cache.answers) + AnswersTo(dim, texts, hits, i)
        invariant cache.faults == old(cache.faults) ==>
                    && cache.entries == old(cache.entries)
                    && forall j :: 0 <= j < i ==> (hits[j] <==> Key(dim, texts[j]) in old(cache.entries))
      {
        var result := LookupOne(texts[i], old(cache.entries));
        AnswersPrefix(dim, texts, hits, result.Some?, i);
        results, hits := results + [result], hits + [result.Some?];
        if result.None? { misses := misses + [i]; }
      }
    }

    /** Fills in the computed vectors and caches them. */
    method FillMisses(texts: seq<string>, found: seq<Option<Embedding>>, misses: seq<nat>, computed: seq<Embedding>)
      returns (results: seq<Option<Embedding>>)
      requires Truthful(cache.entries, embedder.vector, dim)
      requires |found| == |texts| && |computed| == |misses|
      requires forall m :: 0 <= m < |misses| ==>
                 misses[m] < |texts| && computed[m] == embedder.vector(texts[misses[m]])
      modifies cache
      ensures Truthful(cache.entries, embedder.vector, dim)
      ensures cache.answers == old(cache.answers) && cache.faults >= old(cache.faults)
      ensures |results| == |texts|
      ensures forall i :: 0 <= i < |texts| ==>
                results[i] == if i in misses then Some(embedder.vector(texts[i])) else found[i]
      ensures cache.faults == old(cache.faults) ==>
                StoresAt(cache.entries, old(cache.entries), dim, texts, misses, |misses|, embedder.vector)
    {
      results := found;
      for m := 0 to |misses|
        invariant Truthful(cache.entries, embedder.vector, dim) && |results| == |texts|
        invariant cache.answers == old(cache.answers) && cache.faults >= old(cache.faults)
        invariant forall i :: 0 <= i < |texts| ==>
                    results[i] == if i in misses[..m] then Some(embedder.vector(texts[i])) else found[i]
        invariant cache.faults == old(cache.faults) ==>
                    StoresAt(cache.entries, old(cache.entries), dim, texts, misses, m, embedder.vector)
      {
        SliceAppend(misses, 0, m);
        results := results[misses[m] := Some(computed[m])];
        JsonRoundTrip(computed[m]);
        if cache.faults == old(cache.faults) {
          StoreOneMore(cache.entries, old(cache.entries), dim, texts, misses, m, embedder.vector);
        }
        cache.Set(Key(dim, texts[misses[m]]), ToJson(computed[m]));
      }
      assert misses[..|misses|] == misses;
    }

    /** The true vector of every text, in order, duplicates included. Every text is looked up
        once, in order; the embedder is asked once, for exactly the texts whose lookup was not
        answered, in order, or not at all. Without faults those are the texts not cached, and
        afterwards all of them are cached and nothing else has changed. */
    method EmbedBatch(texts: seq<string>) returns (result: BatchResult, ghost hits: seq<bool>)
      requires Truthful(cache.entries, embedder.vector, dim)
      modifies cache, embedder
      ensures Truthful(cache.entries, embedder.vector, dim)
      ensures result == Embeddings(Vectors(texts, embedder.vector))
      ensures |hits| == |texts|
      ensures cache.answers == old(cache.answers) + AnswersTo(dim, texts, hits, |texts|)
      ensures var missed := Missed(texts, hits, |texts|);
              embedder.requests == old(embedder.requests) + (if missed == [] then [] else [missed])
      ensures cache.faults == old(cache.faults) ==>
                && (forall i :: 0 <= i < |texts| ==> (hits[i] <==> Key(dim, texts[i]) in old(cache.entries)))
                && Stores(cache.entries, old(cache.entries), dim, texts, embedder.vector)
    {
      hide Truthful, Within, Misses, Missed, AnswersTo;
      var results, misses;
      results, misses, hits := Lookup(texts);
      WithinTruthful(cache.entries, old(cache.entries), embedder.vector, dim);
      MissesFacts(texts, hits, |texts|);
      if misses != [] {
        var wanted := seq(|misses|, m requires 0 <= m < |misses| => texts[misses[m]]);
        assert wanted == Missed(texts, hits, |texts|);
        var computed := embedder.EmbedBatch(wanted);
        results := FillMisses(texts, results, misses, computed);
      }
      if cache.faults == old(cache.faults) {
        StoresAll(cache.entries, old(cache.entries), dim, texts, misses, hits, embedder.vector);
      }
      var vectors := Present(results, |results|);
      PresentAll(results, Vectors(texts, embedder.vector), |results|);
      if |vectors| != |texts| { return IncompleteBatch, hits; }
      result := Embeddings(vectors);
    }
  }

  /** The results that are there, among the first `n`. */
  function Present(results: seq<Option<Embedding>>, n: nat): seq<Embedding>
    requires n <= |results|
  {
    if n == 0 then []
    else Present(results, n - 1) + (if results[n - 1].Some? then [results[n - 1].value] else [])
  }

  lemma {:induction false} PresentAll(results: seq<Option<Embedding>>, vectors: seq<Embedding>, n: nat)
    requires n <= |results| == |vectors| && forall i :: 0 <= i < |results| ==> results[i] == Some(vectors[i])
    ensures Present(results, n) == vectors[..n]
  {
    if n > 0 {
      PresentAll(results, vectors, n - 1);
      SliceAppend(vectors, 0, n - 1);
    }
  }
}
