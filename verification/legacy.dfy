/**
  `E621.fetch` and `E621.getPool` of the earlier revision (index.js at the
  repository root). It adds single-post lookups through `post/show.json` and
  pool downloads through `pool/show.json`, with patterns that demand an
  explicit `http://` or `https://`. Two slips change what it does, and the
  model keeps both: the pool branch is guarded by the pattern object itself
  (always truthy) instead of a test against it, and the pagination step
  calls `_getPoolpage`, a name that is not defined. The corrected
  definitions beside them say what was evidently meant.
 */
module Legacy {
  import opened Promises
  import opened Text
  import opened Request
  import opened ArrayUtils
  import opened Patterns
  import opened Catalog
  import Fetch

  // ------------------------------------------------------------ endpoints

  /** The URL `getPost` requests: the id is the only parameter. */
  function PostRequestUrl(id: string): (u: string)
    ensures u == PostUrl + "?id=" + id
  {
    var ps := [("id", Scalar(id))];
    assert Pairs(ps)[0] == "id=" + id;
    Prepare(PostUrl, Options(None, Some(ps))).url
  }

  /** The URL `_getPoolPage(page)` requests: the pool id, then the page. */
  function PoolRequestUrl(id: string, page: nat): (u: string)
    ensures u == PoolUrl + "?id=" + id + "&page=" + NatToString(page)
  {
    var n := NatToString(page);
    var ps := [("id", Scalar(id)), ("page", Scalar(n))];
    var pr := Pairs(ps);
    assert pr[0] == "id=" + id && pr[1] == "page=" + n;
    assert Join(pr[1..], '&') == pr[1];
    assert QueryString(ps) == pr[0] + "&" + pr[1];
    assert PoolUrl + "?" + QueryString(ps) == PoolUrl + "?id=" + id + "&page=" + n;
    Prepare(PoolUrl, Options(None, Some(ps))).url
  }

  /** `E621.getPost(id)`: the body of the single-post endpoint; `null` is `None`. */
  function GetPost(net: Network, id: string): Settled<Option<Post>> {
    Settle(net.single(PostRequestUrl(id)))
  }

  /** One page of a pool. */
  function PoolPage(net: Network, id: string, page: nat): Settled<seq<Post>> {
    Settle(net.listing(PoolRequestUrl(id, page)))
  }

  /** Every pool runs out of pages by page `bound`. */
  ghost predicate PoolsExhaust(net: Network, bound: nat) {
    bound >= 1 && forall id :: Stops(PoolPage(net, id, bound))
  }

  /** `E621.getPool(id)` as written: page 1 is requested; a rejection
      propagates and an empty page resolves with `[]`, but a non-empty page
      reaches the call `_getPoolpage(page + 1)`, which throws a ReferenceError
      inside the `then`. It never resolves with a post. */
  function GetPoolAsWritten(net: Network, id: string): (r: Settled<seq<Post>>)
    ensures r.Resolved? ==> r.value == []
    ensures r.Resolved? <==> PoolPage(net, id, 1) == Resolved([])
    ensures PoolPage(net, id, 1).Rejected? ==> r == PoolPage(net, id, 1)
    ensures PoolPage(net, id, 1).Resolved? && |PoolPage(net, id, 1).value| > 0 ==> r == Rejected(ReferenceError("_getPoolpage"))
  {
    match PoolPage(net, id, 1)
    case Rejected(e) => Rejected(e)
    case Resolved(posts) =>
      if |posts| == 0 then Resolved([])
      else Rejected(ReferenceError("_getPoolpage"))
  }

  /** `E621.getPool(id)` as evidently intended: every page of the pool. */
  function GetPool(net: Network, id: string, bound: nat): Settled<seq<Post>>
    requires PoolsExhaust(net, bound)
  {
    Paginate(p => PoolPage(net, id, p), 1, [], bound)
  }

  /** The corrected `getPool` resolves with the pool's pages concatenated in
      order, where the broken one rejects as soon as page 1 holds a post. */
  lemma {:induction false} GetPoolConcatenatesPages(net: Network, id: string, bound: nat, pages: seq<seq<Post>>)
    requires PoolsExhaust(net, bound)
    requires forall k :: 0 <= k < |pages| ==> |pages[k]| > 0 && PoolPage(net, id, 1 + k) == Resolved(pages[k])
    requires PoolPage(net, id, 1 + |pages|) == Resolved([])
    ensures GetPool(net, id, bound) == Resolved(Concat(pages))
    ensures |pages| > 0 ==> GetPoolAsWritten(net, id) == Rejected(ReferenceError("_getPoolpage"))
  {
    var pageOf := (p: nat) => PoolPage(net, id, p);
    assert Stops(pageOf(bound));
    forall k | 0 <= k < |pages|
      ensures |pages[k]| > 0 && pageOf(1 + k) == Resolved(pages[k])
    {
    }
    PaginateConcatenates(pageOf, 1, [], bound, pages);
    assert [] + Concat(pages) == Concat(pages);
    if |pages| > 0 {
      assert PoolPage(net, id, 1 + 0) == Resolved(pages[0]);
    }
  }

  // ------------------------------------------------------- classification

  /** The classifier as written. DIRECT links are searched by hash, links
      matching POST by id; every other reference is taken for a pool because
      the guard `POOL_REGEX` is an object and always truthy. Its id then
      comes from `item.match(ID_REGEX)[1]`, which throws a TypeError (`None`
      here) when the reference holds no `show/<digits>`. The tag branch
      cannot be reached. */
  function ClassifyAsWritten(s: string): (r: Option<Ref>)
    ensures r.Some? ==> !r.value.TagRef?
    ensures r.Some? && r.value.HashRef? <==> MatchesDirect(s)
    ensures r.Some? && r.value.HashRef? ==> FirstHash(s) == Some(r.value.hash)
    ensures r.Some? && r.value.PostRef? <==> !MatchesDirect(s) && MatchesSchemeLink(s, PostPath)
    ensures r.Some? && r.value.PostRef? ==> ShowId(s) == Some(r.value.id)
    ensures r.Some? && r.value.PoolRef? <==> !MatchesDirect(s) && !MatchesSchemeLink(s, PostPath) && ShowId(s).Some?
    ensures r.Some? && r.value.PoolRef? ==> ShowId(s) == Some(r.value.id)
  {
    if MatchesDirect(s) then
      DirectHasHash(s);
      Some(HashRef(FirstHash(s).value))
    else if MatchesSchemeLink(s, PostPath) then
      SchemeLinkHasId(s, PostPath);
      Some(PostRef(ShowId(s).value))
    else
      match ShowId(s)
      case None => None
      case Some(id) => Some(PoolRef(id))
  }

  /** The classifier as evidently intended: the pool branch tests POOL, and
      what matches none of the three patterns is a tag query. */
  function Classify(s: string): (r: Ref)
    ensures r.HashRef? <==> MatchesDirect(s)
    ensures r.PostRef? <==> !MatchesDirect(s) && MatchesSchemeLink(s, PostPath)
    ensures r.PoolRef? <==> !MatchesDirect(s) && !MatchesSchemeLink(s, PostPath) && MatchesSchemeLink(s, PoolPath)
    ensures r.TagRef? <==> !MatchesDirect(s) && !MatchesSchemeLink(s, PostPath) && !MatchesSchemeLink(s, PoolPath)
    ensures r.HashRef? ==> FirstHash(s) == Some(r.hash)
    ensures r.PostRef? || r.PoolRef? ==> ShowId(s) == Some(r.id)
    ensures r.TagRef? ==> |r.tags| >= 1 && Join(r.tags, ' ') == LowerAscii(s)
  {
    if MatchesDirect(s) then
      DirectHasHash(s);
      HashRef(FirstHash(s).value)
    else if MatchesSchemeLink(s, PostPath) then
      SchemeLinkHasId(s, PostPath);
      PostRef(ShowId(s).value)
    else if MatchesSchemeLink(s, PoolPath) then
      SchemeLinkHasId(s, PoolPath);
      PoolRef(ShowId(s).value)
    else TagRef(Split(LowerAscii(s), ' '))
  }

  /** On every link the two classifiers agree; they differ exactly where the
      slip bites: on a reference that is no link at all. */
  lemma ClassifiersAgreeOnLinks(s: string)
    requires MatchesDirect(s) || MatchesSchemeLink(s, PostPath) || MatchesSchemeLink(s, PoolPath)
    ensures ClassifyAsWritten(s) == Some(Classify(s))
  {
    if !MatchesDirect(s) && !MatchesSchemeLink(s, PostPath) {
      SchemeLinkHasId(s, PoolPath);
    }
  }

  /** A plain tag query (no `/`) has no class as written, so the callback
      throws on it; the corrected classifier makes it the tag search. */
  lemma PlainTagQueryUnclassified(s: string)
    requires '/' !in s
    ensures ClassifyAsWritten(s).None?
    ensures Classify(s) == TagRef(Split(LowerAscii(s), ' '))
  {
    NoSlashMatchesNothing(s, PostPath);
    NoSlashMatchesNothing(s, PoolPath);
  }

  // ------------------------------------------------------------- fetching

  /** `.then(post => post)` after `getPost`: a `null` body is collected too
      (only `undefined` is skipped) and removed later by the `null` filter. */
  function FoundOrNull(o: Option<Post>): (v: Option<Value<Post>>)
    ensures v.Some? && !v.value.Arr?
    ensures o.Some? ==> v == Some(Obj(o.value))
    ensures o.None? ==> v == Some(Null)
  {
    Some(if o.Some? then Obj(o.value) else Null)
  }

  /** The `null` a missing post leaves is dropped by the final filter: after
      aggregation a lookup contributes the post it found, or nothing. */
  lemma FoundOrNullFiltered(o: Option<Post>)
    ensures IsFlat(Flatten(Defined(FoundOrNull(o))))
    ensures Fetch.NonNull(Flatten(Defined(FoundOrNull(o)))) == Fetch.FoundPosts(o)
  {
    assert Flatten([FoundOrNull(o).value]) == [FoundOrNull(o).value] + Flatten<Post>([]);
  }

  function Pool(ps: seq<Post>): Option<Value<Post>> {
    Some(Arr(Objs(ps)))
  }

  /** The callback as written. */
  function StepAsWritten(net: Network, item: Option<string>): (c: Call<Option<Value<Post>>>)
    ensures c.Threw? <==> item.None? || ClassifyAsWritten(item.value).None?
    ensures c.Threw? ==> c.reason == TypeError
  {
    match item
    case None => Threw(TypeError)
    case Some(s) =>
      match ClassifyAsWritten(s)
      case None => Threw(TypeError)
      case Some(ref) =>
        if ref.HashRef? then Returned(MapSettled(SearchByMD5(net, ref.hash), Fetch.Found))
        else if ref.PostRef? then Returned(MapSettled(GetPost(net, ref.id), FoundOrNull))
        else Returned(MapSettled(GetPoolAsWritten(net, ref.id), Pool))
  }

  /** `E621.fetch(todo, blacklist)` as written. The blacklist is never
      consulted, since only the tag branch reads it. */
  function FetchAsWritten(net: Network, todo: seq<string>): (r: Call<seq<Post>>)
    ensures r.Threw? <==> |todo| == 0 || ClassifyAsWritten(todo[0]).None?
    ensures r.Threw? ==> r.reason == TypeError
    ensures r.Returned? ==> r.promise.Resolved? && NoDuplicates(r.promise.value)
  {
    var f := (item: Option<string>, idx: nat) => StepAsWritten(net, item);
    assert f(ItemAt(todo, 0), 0) == StepAsWritten(net, ItemAt(todo, 0));
    match MapAsync(todo, f)
    case Threw(e) => Threw(e)
    case Returned(Rejected(_)) => Returned(Resolved([]))
    case Returned(Resolved(results)) => Returned(Resolved(Fetch.Aggregate(results)))
  }

  /** A plain tag query anywhere in the list ruins the whole fetch: first in
      the list it makes `fetch` throw a TypeError; later, the TypeError
      becomes a rejection and `fetch` resolves with no posts at all. */
  lemma PlainTagQueryCrashes(net: Network, todo: seq<string>, k: nat)
    requires k < |todo| && '/' !in todo[k]
    ensures FetchAsWritten(net, todo) ==
      if ClassifyAsWritten(todo[0]).None? then Threw(TypeError) else Returned(Resolved([]))
  {
    PlainTagQueryUnclassified(todo[k]);
    var f := (item: Option<string>, idx: nat) => StepAsWritten(net, item);
    assert f(ItemAt(todo, k), k) == StepAsWritten(net, Some(todo[k]));
    assert !MapAsync(todo, f).Resolves();
  }

  /** A pool link whose first page holds posts yields nothing as written:
      `getPool` rejects, and `fetch` catches that and resolves with `[]`. */
  lemma PoolLinkYieldsNothing(net: Network, s: string, id: string)
    requires !MatchesDirect(s) && !MatchesSchemeLink(s, PostPath) && ShowId(s) == Some(id)
    requires PoolPage(net, id, 1).Resolved? && |PoolPage(net, id, 1).value| > 0
    ensures FetchAsWritten(net, [s]) == Returned(Resolved([]))
  {
    var f := (item: Option<string>, idx: nat) => StepAsWritten(net, item);
    assert f(ItemAt([s], 0), 0) == StepAsWritten(net, Some(s));
    assert !MapAsync([s], f).Resolves();
  }

  /** The callback as evidently intended. */
  function Step(net: Network, blacklist: seq<string>, bound: nat, item: Option<string>): (c: Call<Option<Value<Post>>>)
    requires Exhausts(net, bound) && PoolsExhaust(net, bound)
    ensures c.Threw? <==> item.None?
    ensures c.Threw? ==> c.reason == TypeError
    ensures c.Returned? && c.promise.Rejected? ==> !Classify(item.value).TagRef?
  {
    match item
    case None => Threw(TypeError)
    case Some(s) =>
      var ref := Classify(s);
      if ref.HashRef? then Returned(MapSettled(SearchByMD5(net, ref.hash), Fetch.Found))
      else if ref.PostRef? then Returned(MapSettled(GetPost(net, ref.id), FoundOrNull))
      else if ref.PoolRef? then Returned(MapSettled(GetPool(net, ref.id, bound), Pool))
      else Returned(Resolved(Pool(ResolveTags(net, ref.tags, blacklist, bound))))
  }

  function Callback(net: Network, blacklist: seq<string>, bound: nat): (Option<string>, nat) -> Call<Option<Value<Post>>>
    requires Exhausts(net, bound) && PoolsExhaust(net, bound)
  {
    (item: Option<string>, idx: nat) => Step(net, blacklist, bound, item)
  }

  /** `E621.fetch(todo, blacklist)` with both slips corrected. */
  function FetchCorrected(net: Network, todo: seq<string>, blacklist: seq<string>, bound: nat): (r: Call<seq<Post>>)
    requires Exhausts(net, bound) && PoolsExhaust(net, bound)
    ensures r.Threw? <==> |todo| == 0
    ensures r.Returned? ==> r.promise.Resolved? && NoDuplicates(r.promise.value)
  {
    var f := Callback(net, blacklist, bound);
    assert f(ItemAt(todo, 0), 0) == Step(net, blacklist, bound, ItemAt(todo, 0));
    match MapAsync(todo, f)
    case Threw(e) => Threw(e)
    case Returned(Rejected(_)) => Returned(Resolved([]))
    case Returned(Resolved(results)) => Returned(Resolved(Fetch.Aggregate(results)))
  }

  /** Fetching one reference whose call resolves with `v` yields exactly the
      post objects among the leaves of `v`. */
  lemma {:induction false} SingleFetch(net: Network, s: string, blacklist: seq<string>, bound: nat, v: Option<Value<Post>>, p: Post)
    requires Exhausts(net, bound) && PoolsExhaust(net, bound)
    requires Step(net, blacklist, bound, Some(s)) == Returned(Resolved(v))
    ensures FetchCorrected(net, [s], blacklist, bound).Returned?
    ensures p in FetchCorrected(net, [s], blacklist, bound).promise.value <==> Obj(p) in Flatten(Defined(v))
  {
    var f := Callback(net, blacklist, bound);
    assert f(ItemAt([s], 0), 0) == Step(net, blacklist, bound, Some(s));
    MapAsyncCollects([s], f);
    assert DefinedFrom([s], f, 0) == Defined(v) + DefinedFrom([s], f, 1);
  }

  /** With the corrections a pool link fetches every post of every page of
      the pool, where as written it fetches nothing. */
  lemma PoolLinkFetchesPool(net: Network, s: string, id: string, blacklist: seq<string>, bound: nat, pages: seq<seq<Post>>, p: Post)
    requires Exhausts(net, bound) && PoolsExhaust(net, bound)
    requires !MatchesDirect(s) && !MatchesSchemeLink(s, PostPath) && MatchesSchemeLink(s, PoolPath) && ShowId(s) == Some(id)
    requires forall k :: 0 <= k < |pages| ==> |pages[k]| > 0 && PoolPage(net, id, 1 + k) == Resolved(pages[k])
    requires PoolPage(net, id, 1 + |pages|) == Resolved([])
    ensures FetchCorrected(net, [s], blacklist, bound).Returned?
    ensures p in FetchCorrected(net, [s], blacklist, bound).promise.value <==> p in Concat(pages)
  {
    GetPoolConcatenatesPages(net, id, bound, pages);
    var ps := Concat(pages);
    var v := Pool(ps);
    assert Step(net, blacklist, bound, Some(s)) == Returned(Resolved(v));
    SingleFetch(net, s, blacklist, bound, v, p);
    assert Flatten(Defined(v)) == Flatten(Objs(ps)) + Flatten<Post>([]);
    FlattenFlat(Objs(ps));
  }

  /** With the corrections a plain tag query fetches its non-blacklisted
      search results, where as written it throws. */
  lemma TagQueryFetchesTags(net: Network, s: string, blacklist: seq<string>, bound: nat, p: Post)
    requires Exhausts(net, bound) && PoolsExhaust(net, bound)
    requires '/' !in s
    ensures FetchAsWritten(net, [s]) == Threw(TypeError)
    ensures FetchCorrected(net, [s], blacklist, bound).Returned?
    ensures p in FetchCorrected(net, [s], blacklist, bound).promise.value <==>
      p in ResolveTags(net, Split(LowerAscii(s), ' '), blacklist, bound)
  {
    PlainTagQueryUnclassified(s);
    PlainTagQueryCrashes(net, [s], 0);
    var ps := ResolveTags(net, Split(LowerAscii(s), ' '), blacklist, bound);
    var v := Pool(ps);
    assert Step(net, blacklist, bound, Some(s)) == Returned(Resolved(v));
    SingleFetch(net, s, blacklist, bound, v, p);
    assert Flatten(Defined(v)) == Flatten(Objs(ps)) + Flatten<Post>([]);
    FlattenFlat(Objs(ps));
  }
}
