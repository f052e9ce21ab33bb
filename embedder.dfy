/**
 * Embedding providers: choosing the provider and its key, the OpenAI client's
 * batching of requests and re-ordering of the response, and the local
 * model's lazily loaded pipeline. Vectors are opaque; the HTTP exchange and
 * the model's output are parameters.
 */
module Embedder {
  import opened Wrappers
  import opened Text
  import opened JsonValues
  import opened Db
  import ConfigStore

  /** The embedder `createEmbedder` returns. */
  datatype EmbedderKind = Local | OpenAI(apiKey: Json)

  const LocalDimension: nat := 384
  const OpenAIDimension: nat := 1536

  /** The most inputs one OpenAI request carries. */
  const BatchSize: nat := 512

  const MissingKeyError := "OpenAI API key required. Set OPENAI_API_KEY env var or run: kex-mem config set openai-key <key>"
  const EmptyKeyError := "OpenAI API key is required"

  function Dimension(k: EmbedderKind): nat {
    if k.Local? then LocalDimension else OpenAIDimension
  }

  /** The `OpenAIEmbedder` constructor: a falsy key is refused. */
  function NewOpenAI(apiKey: Json): (r: Result<EmbedderKind, string>)
    ensures r.Success? <==> Truthy(apiKey)
    ensures r.Success? ==> r.value == OpenAI(apiKey)
    ensures r.Failure? ==> r.error == EmptyKeyError
  {
    if !Truthy(apiKey) then Failure(EmptyKeyError) else Success(OpenAI(apiKey))
  }

  /**
   * `createEmbedder(provider, openaiKey)`, with `envKey` for the
   * OPENAI_API_KEY environment variable: the explicit key wins when truthy,
   * then the environment's; with neither the call fails.
   */
  function CreateEmbedder(provider: Json, openaiKey: Option<Json>, envKey: Option<string>): (r: Result<EmbedderKind, string>)
    ensures provider != JStr("openai") ==> r == Success(Local)
    ensures provider == JStr("openai") ==>
      (r.Success? <==> (openaiKey.Some? && Truthy(openaiKey.value)) || (envKey.Some? && envKey.value != ""))
    ensures provider == JStr("openai") && openaiKey.Some? && Truthy(openaiKey.value) ==> r == Success(OpenAI(openaiKey.value))
    ensures provider == JStr("openai") && !(openaiKey.Some? && Truthy(openaiKey.value)) && envKey.Some? && envKey.value != "" ==>
      r == Success(OpenAI(JStr(envKey.value)))
    ensures r.Failure? ==> r.error == MissingKeyError
  {
    if provider == JStr("openai") then
      var key := if openaiKey.Some? && Truthy(openaiKey.value) then openaiKey.value
                 else if envKey.Some? then JStr(envKey.value) else JNull;
      if !Truthy(key) then Failure(MissingKeyError) else NewOpenAI(key)
    else Success(Local)
  }

  /** The embedder built for a provider has the dimension the settings record for that provider. */
  lemma DimensionAgrees(provider: Json, openaiKey: Option<Json>, envKey: Option<string>)
    requires CreateEmbedder(provider, openaiKey, envKey).Success?
    ensures Dimension(CreateEmbedder(provider, openaiKey, envKey).value) == ConfigStore.DimensionForProvider(provider)
  {
  }

  /** One element of the embeddings response. */
  datatype ApiItem = ApiItem(index: int, embedding: Vector)

  /** The embeddings endpoint's answer: an error status with its body, or the data list. */
  datatype ApiResponse = NotOk(status: int, body: string) | Ok(data: seq<ApiItem>)

  predicate SortedByIndex(s: seq<ApiItem>) {
    forall i, j :: 0 <= i < j < |s| ==> s[i].index <= s[j].index
  }

  /** The items of `s` with index `k`, in the order of `s`. */
  function WithIndex(s: seq<ApiItem>, k: int): seq<ApiItem> {
    if |s| == 0 then [] else (if s[0].index == k then [s[0]] else []) + WithIndex(s[1..], k)
  }

  lemma WithIndexCons(x: ApiItem, t: seq<ApiItem>, k: int)
    ensures WithIndex([x] + t, k) == (if x.index == k then [x] else []) + WithIndex(t, k)
  {
    assert ([x] + t)[1..] == t;
  }

  /**
   * Inserts `x` before the first element whose index is not smaller, so
   * that `x` comes first among the items with its index.
   */
  function InsertByIndex(x: ApiItem, s: seq<ApiItem>): (r: seq<ApiItem>)
    requires SortedByIndex(s)
    ensures SortedByIndex(r)
    ensures |r| == |s| + 1 && multiset(r) == multiset(s) + multiset{x}
    ensures forall k :: WithIndex(r, k) == (if x.index == k then [x] else []) + WithIndex(s, k)
  {
    if |s| == 0 then [x]
    else if x.index <= s[0].index then
      InsertFront(x, s);
      [x] + s
    else
      var t := InsertByIndex(x, s[1..]);
      InsertItemAfterHead(x, s, t);
      InsertTiesAfterHead(x, s, t);
      [s[0]] + t
  }

  lemma InsertFront(x: ApiItem, s: seq<ApiItem>)
    ensures forall k :: WithIndex([x] + s, k) == (if x.index == k then [x] else []) + WithIndex(s, k)
  {
    forall k ensures WithIndex([x] + s, k) == (if x.index == k then [x] else []) + WithIndex(s, k) {
      WithIndexCons(x, s, k);
    }
  }

  lemma InsertItemAfterHead(x: ApiItem, s: seq<ApiItem>, t: seq<ApiItem>)
    requires SortedByIndex(s) && |s| > 0 && s[0].index <= x.index
    requires SortedByIndex(t) && multiset(t) == multiset(s[1..]) + multiset{x}
    ensures SortedByIndex([s[0]] + t)
    ensures multiset([s[0]] + t) == multiset(s) + multiset{x}
  {
    forall j | 0 <= j < |t| ensures s[0].index <= t[j].index {
      assert t[j] in multiset(t);
      if t[j] != x {
        assert t[j] in multiset(s[1..]);
        var k :| 0 <= k < |s[1..]| && s[1..][k] == t[j];
        assert s[k + 1] == t[j];
      }
    }
    assert s == [s[0]] + s[1..];
  }

  /** Past a head with a smaller index, `x` still comes first among its ties. */
  lemma InsertTiesAfterHead(x: ApiItem, s: seq<ApiItem>, t: seq<ApiItem>)
    requires |s| > 0 && s[0].index < x.index
    requires forall k :: WithIndex(t, k) == (if x.index == k then [x] else []) + WithIndex(s[1..], k)
    ensures forall k :: WithIndex([s[0]] + t, k) == (if x.index == k then [x] else []) + WithIndex(s, k)
  {
    assert s == [s[0]] + s[1..];
    forall k ensures WithIndex([s[0]] + t, k) == (if x.index == k then [x] else []) + WithIndex(s, k) {
      InsertTieAt(x, s[0], t, s[1..], k);
    }
  }

  lemma InsertTieAt(x: ApiItem, h: ApiItem, t: seq<ApiItem>, rest: seq<ApiItem>, k: int)
    requires h.index < x.index
    requires WithIndex(t, k) == (if x.index == k then [x] else []) + WithIndex(rest, k)
    ensures WithIndex([h] + t, k) == (if x.index == k then [x] else []) + WithIndex([h] + rest, k)
  {
    WithIndexCons(h, t, k);
    WithIndexCons(h, rest, k);
  }

  /**
   * `data.sort((a, b) => a.index - b.index)`: sorted, a permutation, and
   * stable, as the language's sort is: items with equal indices keep their
   * order.
   */
  function SortByIndex(s: seq<ApiItem>): (r: seq<ApiItem>)
    ensures SortedByIndex(r)
    ensures |r| == |s| && multiset(r) == multiset(s)
    ensures forall k :: WithIndex(r, k) == WithIndex(s, k)
  {
    if |s| == 0 then []
    else
      assert s == [s[0]] + s[1..];
      var t := SortByIndex(s[1..]);
      var r := InsertByIndex(s[0], t);
      SortStep(s, t, r);
      r
  }

  lemma SortStep(s: seq<ApiItem>, t: seq<ApiItem>, r: seq<ApiItem>)
    requires |s| > 0 && forall k :: WithIndex(t, k) == WithIndex(s[1..], k)
    requires forall k :: WithIndex(r, k) == (if s[0].index == k then [s[0]] else []) + WithIndex(t, k)
    ensures forall k :: WithIndex(r, k) == WithIndex(s, k)
  {
    forall k ensures WithIndex(r, k) == WithIndex(s, k) {
    }
  }

  /** The indices of the response are exactly 0 .. |s| - 1, each once. */
  predicate IndicesArePermutation(s: seq<ApiItem>) {
    (forall i :: 0 <= i < |s| ==> 0 <= s[i].index < |s|) &&
    (forall i, j :: 0 <= i < j < |s| ==> s[i].index != s[j].index)
  }

  /** When the indices are a permutation, sorting puts the item with index `i` at position `i`. */
  lemma SortedPermutationIsIdentity(s: seq<ApiItem>)
    requires IndicesArePermutation(s)
    ensures forall i :: 0 <= i < |s| ==> SortByIndex(s)[i].index == i
  {
    var r := SortByIndex(s);
    assert forall x :: x in r <==> x in s by {
      forall x ensures x in r <==> x in s {
        assert x in r <==> x in multiset(r);
        assert x in s <==> x in multiset(s);
      }
    }
    assert forall i :: 0 <= i < |r| ==> 0 <= r[i].index < |r| by {
      forall i | 0 <= i < |r| ensures 0 <= r[i].index < |r| {
        assert r[i] in s;
      }
    }
    assert forall i, j :: 0 <= i < j < |r| ==> r[i].index != r[j].index by {
      forall i, j | 0 <= i < j < |r| ensures r[i].index != r[j].index {
        DistinctInPermutation(s, r, i, j);
      }
    }
    StrictRange(r);
  }

  /** Two positions of a permutation of `s` hold items of different indices. */
  lemma DistinctInPermutation(s: seq<ApiItem>, r: seq<ApiItem>, i: int, j: int)
    requires IndicesArePermutation(s) && multiset(r) == multiset(s)
    requires 0 <= i < j < |r|
    ensures r[i].index != r[j].index
  {
    var a, b := r[i], r[j];
    assert a in multiset(s) && b in multiset(s);
    var p :| 0 <= p < |s| && s[p] == a;
    var q :| 0 <= q < |s| && s[q] == b;
    if a == b {
      assert r[i] == r[j];
      var m := multiset(r);
      assert m[a] >= 2 by {
        assert r == r[..i] + [r[i]] + r[i + 1..j] + [r[j]] + r[j + 1..];
      }
      assert multiset(s)[a] >= 2;
      CountTwo(s, a);
    } else {
      assert p != q;
      assert s[p].index != s[q].index;
    }
  }

  /** An item that occurs twice in `s` occurs at two positions. */
  lemma CountTwo(s: seq<ApiItem>, a: ApiItem)
    requires multiset(s)[a] >= 2
    ensures exists p, q :: 0 <= p < q < |s| && s[p] == a && s[q] == a
  {
    var p :| 0 <= p < |s| && s[p] == a by {
      assert a in multiset(s);
    }
    var rest := s[..p] + s[p + 1..];
    assert s == s[..p] + [s[p]] + s[p + 1..];
    assert multiset(rest)[a] >= 1;
    var k :| 0 <= k < |rest| && rest[k] == a by {
      assert a in multiset(rest);
    }
    if k < p {
      assert s[k] == a;
    } else {
      assert s[k + 1] == a;
    }
  }

  /** Sorted, distinct indices within 0 .. |r| - 1 are 0, 1, 2, ... in order. */
  lemma StrictRange(r: seq<ApiItem>)
    requires SortedByIndex(r)
    requires forall i :: 0 <= i < |r| ==> 0 <= r[i].index < |r|
    requires forall i, j :: 0 <= i < j < |r| ==> r[i].index != r[j].index
    ensures forall i :: 0 <= i < |r| ==> r[i].index == i
  {
    forall i | 0 <= i < |r| ensures r[i].index == i {
      LowerBound(r, i);
      UpperBound(r, i);
    }
  }

  lemma {:induction false} LowerBound(r: seq<ApiItem>, i: int)
    requires SortedByIndex(r) && 0 <= i < |r|
    requires forall k :: 0 <= k < |r| ==> 0 <= r[k].index
    requires forall k, j :: 0 <= k < j < |r| ==> r[k].index != r[j].index
    ensures r[i].index >= i
  {
    if i > 0 {
      LowerBound(r, i - 1);
      assert r[i - 1].index < r[i].index;
    }
  }

  lemma {:induction false} UpperBound(r: seq<ApiItem>, i: int)
    requires SortedByIndex(r) && 0 <= i < |r|
    requires forall k :: 0 <= k < |r| ==> r[k].index < |r|
    requires forall k, j :: 0 <= k < j < |r| ==> r[k].index != r[j].index
    ensures r[i].index <= i
    decreases |r| - i
  {
    if i < |r| - 1 {
      UpperBound(r, i + 1);
      assert r[i].index < r[i + 1].index;
    }
  }

  function Embeddings(s: seq<ApiItem>): (r: seq<Vector>)
    ensures |r| == |s| && forall i :: 0 <= i < |s| ==> r[i] == s[i].embedding
  {
    if |s| == 0 then [] else [s[0].embedding] + Embeddings(s[1..])
  }

  /**
   * `callApi` after the request: a non-ok response is an error carrying its
   * status and body; otherwise the vectors in the order of the response indices.
   */
  function CallApi(resp: ApiResponse): (r: Result<seq<Vector>, string>)
    ensures resp.NotOk? ==> r == Failure("OpenAI API error " + IntToString(resp.status) + ": " + resp.body)
    ensures resp.Ok? ==> r.Success? && |r.value| == |resp.data|
  {
    if resp.NotOk? then Failure("OpenAI API error " + IntToString(resp.status) + ": " + resp.body)
    else Success(Embeddings(SortByIndex(resp.data)))
  }

  /**
   * When the response's indices are 0 .. n - 1 in any order, the i-th vector
   * returned is the embedding the response gives for index i.
   */
  lemma CallApiInOrder(resp: ApiResponse)
    requires resp.Ok? && IndicesArePermutation(resp.data)
    ensures forall i :: 0 <= i < |resp.data| ==> ApiItem(i, CallApi(resp).value[i]) in resp.data
  {
    var sorted := SortByIndex(resp.data);
    SortedPermutationIsIdentity(resp.data);
    assert forall x :: x in sorted ==> x in resp.data by {
      forall x | x in sorted ensures x in resp.data {
        assert x in multiset(sorted);
      }
    }
    assert forall i :: 0 <= i < |sorted| ==> sorted[i] == ApiItem(i, sorted[i].embedding);
  }

  /** `r` is `s` sorted by index, with items of equal index in the order of `s`. */
  ghost predicate StableSortOf(r: seq<ApiItem>, s: seq<ApiItem>) {
    SortedByIndex(r) && multiset(r) == multiset(s) && forall k :: WithIndex(r, k) == WithIndex(s, k)
  }

  /** An ok response gives the embeddings of its data stably sorted by index. */
  lemma CallApiStable(resp: ApiResponse)
    requires resp.Ok?
    ensures exists sorted :: StableSortOf(sorted, resp.data) && CallApi(resp).value == Embeddings(sorted)
  {
    assert StableSortOf(SortByIndex(resp.data), resp.data);
  }

  /** Items that all carry the same index come back in the order the response lists them. */
  lemma TiesKeepOrder(resp: ApiResponse, k: int)
    requires resp.Ok? && forall i :: 0 <= i < |resp.data| ==> resp.data[i].index == k
    ensures CallApi(resp).value == Embeddings(resp.data)
  {
    var s := resp.data;
    var r := SortByIndex(s);
    forall i | 0 <= i < |r| ensures r[i].index == k {
      assert r[i] in multiset(s);
      var j :| 0 <= j < |s| && s[j] == r[i];
    }
    AllWithIndex(r, k);
    AllWithIndex(s, k);
  }

  /** For instance, two vectors both reported for index 0 keep their order. */
  lemma TwoTies(a: Vector, b: Vector)
    ensures CallApi(Ok([ApiItem(0, a), ApiItem(0, b)])).value == [a, b]
  {
    var resp := Ok([ApiItem(0, a), ApiItem(0, b)]);
    TiesKeepOrder(resp, 0);
    assert Embeddings(resp.data) == [a, b];
  }

  /** When every item has index `k`, the items with index `k` are all of them. */
  lemma {:induction false} AllWithIndex(r: seq<ApiItem>, k: int)
    requires forall i :: 0 <= i < |r| ==> r[i].index == k
    ensures WithIndex(r, k) == r
  {
    if |r| > 0 {
      AllWithIndex(r[1..], k);
    }
  }

  /** The consecutive slices of at most `BatchSize` inputs that `embedBatch` sends. */
  function Chunks(texts: seq<string>): (r: seq<seq<string>>)
    ensures forall c :: c in r ==> 1 <= |c| <= BatchSize
    decreases |texts|
  {
    if |texts| == 0 then []
    else if |texts| <= BatchSize then [texts]
    else [texts[..BatchSize]] + Chunks(texts[BatchSize..])
  }

  function Concat<T>(cs: seq<seq<T>>): seq<T> {
    if |cs| == 0 then [] else cs[0] + Concat(cs[1..])
  }

  /** The slices cover the inputs in order, and there are ceil(n / 512) of them. */
  lemma {:induction false} ChunksCover(texts: seq<string>)
    ensures Concat(Chunks(texts)) == texts
    ensures |Chunks(texts)| == (|texts| + BatchSize - 1) / BatchSize
    decreases |texts|
  {
    if |texts| > BatchSize {
      ChunksCover(texts[BatchSize..]);
      assert texts == texts[..BatchSize] + texts[BatchSize..];
    }
  }

  /** The outcome of sending every slice in turn: the first error, or all vectors concatenated. */
  function BatchOutcome(cs: seq<seq<string>>, api: seq<string> -> ApiResponse): Result<seq<Vector>, string> {
    if |cs| == 0 then Success([])
    else
      var first := CallApi(api(cs[0]));
      if first.Failure? then first
      else Prepend(first.value, BatchOutcome(cs[1..], api))
  }

  function Prepend(v: seq<Vector>, r: Result<seq<Vector>, string>): Result<seq<Vector>, string> {
    if r.Success? then Success(v + r.value) else r
  }

  /** Where slice `k` starts in the concatenation of the slices. */
  function Offset<T>(cs: seq<seq<T>>, k: nat): (n: nat)
    requires k < |cs|
    ensures n + |cs[k]| <= |Concat(cs)|
  {
    ConcatSplit(cs, k);
    |Concat(cs[..k])|
  }

  /** The concatenation around slice `k`. */
  lemma {:induction false} ConcatSplit<T>(cs: seq<seq<T>>, k: nat)
    requires k < |cs|
    ensures Concat(cs) == Concat(cs[..k]) + cs[k] + Concat(cs[k + 1..])
  {
    if k > 0 {
      ConcatSplit(cs[1..], k - 1);
      assert cs[..k][1..] == cs[1..][..k - 1];
      assert cs[1..][k..] == cs[k + 1..];
    }
  }

  /** The first slice starts at 0, and slice `k + 1` of `cs` starts `|cs[0]|` later than slice `k` of `cs[1..]`. */
  lemma OffsetStep<T>(cs: seq<seq<T>>, k: nat)
    requires 0 < k < |cs|
    ensures Offset(cs, 0) == 0 && Offset(cs, k) == |cs[0]| + Offset(cs[1..], k - 1)
  {
    assert cs[..k][1..] == cs[1..][..k - 1];
  }

  /** `v[i]` is the embedding the response gives for index `i`, for every position of `v`. */
  ghost predicate InIndexOrder(v: seq<Vector>, resp: ApiResponse) {
    resp.Ok? && forall i :: 0 <= i < |v| ==> ApiItem(i, v[i]) in resp.data
  }

  /** Within `v`, the vectors of slice `k` are in the index order of the response for that slice. */
  ghost predicate SlicesInOrder(v: seq<Vector>, cs: seq<seq<string>>, api: seq<string> -> ApiResponse) {
    |v| == |Concat(cs)| &&
    forall k :: 0 <= k < |cs| ==> var o := Offset(cs, k); InIndexOrder(v[o..o + |cs[k]|], api(cs[k]))
  }

  /**
   * A response whose indices are a permutation of its length gives the
   * vectors in input order: within the result, the vectors of slice `k`
   * are the ones the response for that slice gives for indices 0, 1, 2, ...
   */
  lemma {:induction false} BatchOutcomeOrdered(cs: seq<seq<string>>, api: seq<string> -> ApiResponse)
    requires forall c :: c in cs ==> api(c).Ok? && |api(c).data| == |c| && IndicesArePermutation(api(c).data)
    ensures BatchOutcome(cs, api).Success?
    ensures SlicesInOrder(BatchOutcome(cs, api).value, cs, api)
  {
    if |cs| > 0 {
      assert cs[0] in cs;
      assert forall c :: c in cs[1..] ==> c in cs;
      BatchOutcomeOrdered(cs[1..], api);
      CallApiInOrder(api(cs[0]));
      var first := CallApi(api(cs[0])).value;
      var rest := BatchOutcome(cs[1..], api).value;
      assert BatchOutcome(cs, api).value == first + rest;
      assert |first| == |cs[0]| && InIndexOrder(first, api(cs[0]));
      assert |rest| == |Concat(cs[1..])|;
      forall k | 0 <= k < |cs|
        ensures var o := Offset(cs, k); InIndexOrder((first + rest)[o..o + |cs[k]|], api(cs[k]))
      {
        SliceOrdered(cs, api, first, rest, k);
      }
    }
  }

  /** Slice `k` of the whole result: the first response's vectors, or a slice of the rest. */
  lemma SliceOrdered(cs: seq<seq<string>>, api: seq<string> -> ApiResponse, first: seq<Vector>, rest: seq<Vector>, k: nat)
    requires k < |cs| && |first| == |cs[0]| && |rest| == |Concat(cs[1..])|
    requires InIndexOrder(first, api(cs[0]))
    requires SlicesInOrder(rest, cs[1..], api)
    ensures Offset(cs, k) + |cs[k]| <= |first + rest|
    ensures var o := Offset(cs, k); InIndexOrder((first + rest)[o..o + |cs[k]|], api(cs[k]))
  {
    if k == 0 {
      assert cs[..0] == [];
      PrefixOfAppend(first, rest);
    } else {
      OffsetStep(cs, k);
      assert cs[k] == cs[1..][k - 1];
      var o' := Offset(cs[1..], k - 1);
      SliceAfter(first, rest, |first| + o', |first| + o' + |cs[k]|);
    }
  }

  /** The slices still to send once the inputs before `i` are sent. */
  function Remaining(texts: seq<string>, i: nat): seq<seq<string>> {
    if i < |texts| then Chunks(texts[i..]) else []
  }

  /** The slice starting at `i` ends at `j`, and the next one starts 512 inputs on. */
  lemma RemainingStep(texts: seq<string>, i: nat, j: nat)
    requires i < |texts| && j == (if i + BatchSize < |texts| then i + BatchSize else |texts|)
    ensures Remaining(texts, i) == [texts[i..j]] + Remaining(texts, i + BatchSize)
  {
    var rest := texts[i..];
    if j < |texts| {
      assert rest[..BatchSize] == texts[i..j];
      assert rest[BatchSize..] == texts[j..];
    } else {
      assert rest == texts[i..j];
    }
  }

  lemma OutcomeStep(b: seq<string>, rest: seq<seq<string>>, api: seq<string> -> ApiResponse, results: seq<Vector>)
    ensures var first := CallApi(api(b));
      Prepend(results, BatchOutcome([b] + rest, api)) ==
        if first.Failure? then first else Prepend(results + first.value, BatchOutcome(rest, api))
  {
    assert ([b] + rest)[1..] == rest;
    var first := CallApi(api(b));
    if first.Success? {
      var o := BatchOutcome(rest, api);
      if o.Success? {
        assert results + (first.value + o.value) == (results + first.value) + o.value;
      }
    }
  }

  /**
   * OpenAI `embedBatch`: the inputs go out in slices of at most 512, one
   * request each in order, and the answers are concatenated; the first
   * error ends the batch. `api` stands for the HTTP exchange.
   */
  method EmbedBatch(texts: seq<string>, api: seq<string> -> ApiResponse) returns (r: Result<seq<Vector>, string>, ghost calls: seq<seq<string>>)
    ensures r == BatchOutcome(Chunks(texts), api)
    ensures r.Success? ==> calls == Chunks(texts)
    ensures |calls| <= |Chunks(texts)| && calls == Chunks(texts)[..|calls|]
  {
    var results: seq<Vector> := [];
    calls := [];
    assert forall v: seq<Vector> :: [] + v == v;
    var i := 0;
    while i < |texts|
      invariant Chunks(texts) == calls + Remaining(texts, i)
      invariant BatchOutcome(Chunks(texts), api) == Prepend(results, BatchOutcome(Remaining(texts, i), api))
      decreases |texts| - i
    {
      var j := if i + BatchSize < |texts| then i + BatchSize else |texts|;
      var batch := texts[i..j];
      RemainingStep(texts, i, j);
      OutcomeStep(batch, Remaining(texts, i + BatchSize), api, results);
      var got := CallApi(api(batch));
      ConsAssoc(calls, batch, Remaining(texts, i + BatchSize));
      calls := calls + [batch];
      if got.Failure? {
        PrefixOfAppend(calls, Remaining(texts, i + BatchSize));
        return got, calls;
      }
      results := results + got.value;
      i := i + BatchSize;
    }
    assert results + [] == results;
    r := Success(results);
    assert calls == Chunks(texts);
    PrefixOfAppend(calls, []);
  }

  /**
   * The local model. The pipeline is loaded on first use, at most once per
   * instance; `loads` counts the loads.
   */
  class LocalEmbedder {
    var loaded: bool
    ghost var loads: nat

    ghost predicate Valid()
      reads this
    {
      loads == if loaded then 1 else 0
    }

    constructor ()
      ensures Valid() && !loaded
    {
      loaded := false;
      loads := 0;
    }

    /** `getPipeline`: loads the pipeline when it is not loaded yet. */
    method GetPipeline()
      requires Valid()
      modifies this
      ensures Valid() && loaded
      ensures loads == if old(loaded) then old(loads) else old(loads) + 1
    {
      if !loaded {
        loaded := true;
        loads := loads + 1;
      }
    }

    /** `embedBatch`: one vector per input, computed one input at a time in input order. */
    method EmbedBatch(texts: seq<string>, model: string -> Vector) returns (r: seq<Vector>)
      requires Valid()
      modifies this
      ensures Valid() && loaded && loads == 1
      ensures |r| == |texts| && forall i :: 0 <= i < |texts| ==> r[i] == model(texts[i])
    {
      GetPipeline();
      r := [];
      var i := 0;
      while i < |texts|
        invariant 0 <= i <= |texts|
        invariant |r| == i && forall k :: 0 <= k < i ==> r[k] == model(texts[k])
      {
        r := r + [model(texts[i])];
        i := i + 1;
      }
    }
  }
}
