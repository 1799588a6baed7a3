/**
  The catalog side shared by both revisions: the post record, the remote
  endpoints (as oracles keyed by the request URL), paginated search, the
  single-post lookups by MD5 and id, and the blacklist filter applied to tag
  search results.
 */
module Catalog {
  import opened Promises
  import opened Text
  import opened Request
  import opened ArrayUtils

  /** A post object as parsed from the catalog's JSON. `ref` is the object's
      identity: two lookups yield distinct objects (distinct `ref`s) even for
      the same catalog entry. Absent fields are `None`. */
  datatype Post = Post(ref: nat, id: Option<nat>, fileSize: Option<nat>, fileUrl: Option<string>, tags: string)

  /** No catalog entry occurs twice: all ids differ. */
  predicate DistinctIds(ps: seq<Post>) {
    forall i, j :: 0 <= i < j < |ps| ==> ps[i].id != ps[j].id
  }

  /** Two distinct objects for one entry break `DistinctIds`. */
  lemma SharedId(ps: seq<Post>, a: Post, b: Post)
    requires a in ps && b in ps && a != b && a.id == b.id
    ensures !DistinctIds(ps)
  {
    var i :| 0 <= i < |ps| && ps[i] == a;
    var j :| 0 <= j < |ps| && ps[j] == b;
    if i < j {
      assert ps[i].id == ps[j].id;
    } else {
      assert ps[j].id == ps[i].id;
    }
  }

  /** The remote catalog, as the transport answers each URL: list endpoints
      (post search and pool pages) answer with an array of posts, the
      single-post endpoint with one post or `null` (`None`). */
  datatype Network = Network(listing: string -> Reply<seq<Post>>, single: string -> Reply<Option<Post>>)

  /** A reference, as the classifiers sort it. */
  datatype Ref = HashRef(hash: string) | PostRef(id: string) | PoolRef(id: string) | TagRef(tags: seq<string>)

  const IndexUrl: string := "https://e621.net/post/index.json"
  const PostUrl: string := "https://e621.net/post/show.json"
  const PoolUrl: string := "https://e621.net/pool/show.json"
  const PageLimit: nat := 100

  /** All three endpoints end in `json`, so `fetch` sets the `json` flag and
      the bodies arrive parsed. */
  lemma EndpointsAreJson(o: Options)
    ensures Prepare(IndexUrl, o).json && Prepare(PostUrl, o).json && Prepare(PoolUrl, o).json
  {
    assert IndexUrl[|IndexUrl| - 4..] == "json";
    assert PostUrl[|PostUrl| - 4..] == "json";
    assert PoolUrl[|PoolUrl| - 4..] == "json";
  }

  // ---------------------------------------------------------------- search

  function SearchOptions(tags: seq<string>, page: nat): Options {
    Options(None, Some([("tags", List(tags)), ("limit", Scalar(NatToString(PageLimit))), ("page", Scalar(NatToString(page)))]))
  }

  /** `E621.search(tags, page)`: one page of the post index. */
  function Search(net: Network, tags: seq<string>, page: nat): Settled<seq<Post>> {
    Settle(net.listing(Prepare(IndexUrl, SearchOptions(tags, page)).url))
  }

  /** The request `search(tags, page)` sends: the index endpoint, then the
      tags joined by `+`, the page size 100 and the page number, in that
      order. */
  lemma SearchUrl(tags: seq<string>, page: nat)
    ensures Prepare(IndexUrl, SearchOptions(tags, page)).url
      == IndexUrl + "?tags=" + Join(tags, '+') + "&limit=100&page=" + NatToString(page)
  {
    var j, n := Join(tags, '+'), NatToString(page);
    var ps := SearchOptions(tags, page).parameters.value;
    var a, b, c := "tags=" + j, "limit=100", "page=" + n;
    LimitDigits();
    var pr := Pairs(ps);
    assert pr[0] == a && pr[1] == b && pr[2] == c;
    assert pr == [a, b, c];
    JoinThree(a, b, c, '&');
    assert QueryString(ps) == a + "&" + b + "&" + c;
    QueryPieces(IndexUrl, j, n);
  }

  /** The query pieces fuse into one string. */
  lemma QueryPieces(url: string, j: string, n: string)
    ensures url + "?" + (("tags=" + j) + "&" + "limit=100" + "&" + ("page=" + n)) == url + "?tags=" + j + "&limit=100&page=" + n
  {
    assert "?" + "tags=" == "?tags=";
    assert "&" + "limit=100" + "&" + "page=" == "&limit=100&page=";
  }

  lemma LimitDigits()
    ensures NatToString(PageLimit) == "100"
  {
    assert NatToString(1) == "1";
    assert NatToString(10) == NatToString(1) + "0";
  }

  lemma JoinThree(a: string, b: string, c: string, sep: char)
    ensures Join([a, b, c], sep) == a + [sep] + b + [sep] + c
  {
    assert [a, b, c][1..] == [b, c];
    assert [b, c][1..] == [c];
    assert Join([b, c], sep) == b + [sep] + c;
  }

  /** A page ends pagination: it rejected, or it resolved to no posts. */
  predicate Stops<T>(p: Settled<seq<T>>) {
    p.Rejected? || |p.value| == 0
  }

  /** The catalog runs out by page `bound`: for every tag list, page `bound`
      of the search ends pagination. Pagination has no other stopping rule. */
  ghost predicate Exhausts(net: Network, bound: nat) {
    bound >= 1 && forall tags :: Stops(Search(net, tags, bound))
  }

  /** The recursive `_search(page)` / `_getPoolPage(page)` loop: request `page`;
      an empty page resolves with everything accumulated so far, a non-empty
      one is appended and the next page requested; any rejection rejects the
      whole loop. */
  function Paginate<T>(pageOf: nat -> Settled<seq<T>>, page: nat, acc: seq<T>, bound: nat): (r: Settled<seq<T>>)
    requires page <= bound && Stops(pageOf(bound))
    ensures r.Resolved? ==> |r.value| >= |acc| && r.value[..|acc|] == acc
    ensures r.Rejected? ==> exists j :: page <= j <= bound && pageOf(j) == Rejected(r.reason)
    decreases bound - page
  {
    match pageOf(page)
    case Rejected(e) => Rejected(e)
    case Resolved(posts) =>
      if |posts| == 0 then Resolved(acc)
      else
        var r := Paginate(pageOf, page + 1, acc + posts, bound);
        assert r.Resolved? ==> r.value[..|acc|] == (r.value[..|acc + posts|])[..|acc|];
        r
  }

  /** The concatenation of a list of pages. */
  function Concat<T>(pages: seq<seq<T>>): seq<T> {
    if |pages| == 0 then [] else pages[0] + Concat(pages[1..])
  }

  function TotalLength<T>(pages: seq<seq<T>>): nat {
    if |pages| == 0 then 0 else |pages[0]| + TotalLength(pages[1..])
  }

  lemma {:induction false} ConcatLength<T>(pages: seq<seq<T>>)
    ensures |Concat(pages)| == TotalLength(pages)
  {
    if |pages| > 0 {
      ConcatLength(pages[1..]);
    }
  }

  /** If pages `from`, `from + 1`, … hold the non-empty `pages` and the page
      after them is empty, pagination resolves with the accumulator followed
      by every page in order, and with as many posts as the pages hold. */
  lemma {:induction false} PaginateConcatenates<T>(pageOf: nat -> Settled<seq<T>>, from: nat, acc: seq<T>, bound: nat, pages: seq<seq<T>>)
    requires from <= bound && Stops(pageOf(bound))
    requires forall k :: 0 <= k < |pages| ==> |pages[k]| > 0 && pageOf(from + k) == Resolved(pages[k])
    requires pageOf(from + |pages|) == Resolved([])
    ensures Paginate(pageOf, from, acc, bound) == Resolved(acc + Concat(pages))
    ensures |Concat(pages)| == TotalLength(pages)
    decreases |pages|
  {
    ConcatLength(pages);
    if |pages| == 0 {
      assert acc + Concat(pages) == acc;
    } else {
      assert pageOf(from) == Resolved(pages[0]);
      assert from < bound;
      forall k | 0 <= k < |pages[1..]|
        ensures |pages[1..][k]| > 0 && pageOf(from + 1 + k) == Resolved(pages[1..][k])
      {
        assert pageOf(from + (k + 1)) == Resolved(pages[k + 1]);
      }
      assert from + 1 + |pages[1..]| == from + |pages|;
      PaginateConcatenates(pageOf, from + 1, acc + pages[0], bound, pages[1..]);
      assert acc + pages[0] + Concat(pages[1..]) == acc + Concat(pages);
    }
  }

  /** The first rejected page (after only non-empty ones) rejects the loop
      with its reason: the posts accumulated so far are lost. */
  lemma {:induction false} PaginateRejects<T>(pageOf: nat -> Settled<seq<T>>, from: nat, acc: seq<T>, bound: nat, n: nat)
    requires from <= bound && Stops(pageOf(bound))
    requires forall k :: from <= k < from + n ==> pageOf(k).Resolved? && |pageOf(k).value| > 0
    requires pageOf(from + n).Rejected?
    ensures Paginate(pageOf, from, acc, bound) == Rejected(pageOf(from + n).reason)
    decreases n
  {
    if n > 0 {
      assert pageOf(from).Resolved? && |pageOf(from).value| > 0;
      assert from < bound;
      PaginateRejects(pageOf, from + 1, acc + pageOf(from).value, bound, n - 1);
    }
  }

  /** The stopping witness does not matter: any two bounds that both end
      pagination give the same result. */
  lemma {:induction false} PaginateBoundIrrelevant<T>(pageOf: nat -> Settled<seq<T>>, page: nat, acc: seq<T>, b1: nat, b2: nat)
    requires page <= b1 && Stops(pageOf(b1))
    requires page <= b2 && Stops(pageOf(b2))
    ensures Paginate(pageOf, page, acc, b1) == Paginate(pageOf, page, acc, b2)
    decreases b1 - page
  {
    match pageOf(page)
    case Rejected(_) =>
    case Resolved(posts) =>
      if |posts| > 0 {
        PaginateBoundIrrelevant(pageOf, page + 1, acc + posts, b1, b2);
      }
  }

  /** `E621.searchAll(tags)`: every page of the search, from page 1. */
  function SearchAll(net: Network, tags: seq<string>, bound: nat): (r: Settled<seq<Post>>)
    requires Exhausts(net, bound)
  {
    Paginate(p => Search(net, tags, p), 1, [], bound)
  }

  /** For search results that end with an empty page after the non-empty
      `pages`, `searchAll` resolves with exactly their concatenation, in page
      order; if instead page `n + 1` rejects first, `searchAll` rejects. */
  lemma SearchAllPages(net: Network, tags: seq<string>, bound: nat, pages: seq<seq<Post>>)
    requires Exhausts(net, bound)
    requires forall k :: 0 <= k < |pages| ==> |pages[k]| > 0 && Search(net, tags, 1 + k) == Resolved(pages[k])
    requires Search(net, tags, 1 + |pages|) == Resolved([])
    ensures SearchAll(net, tags, bound) == Resolved(Concat(pages))
    ensures |SearchAll(net, tags, bound).value| == TotalLength(pages)
  {
    var pageOf := p => Search(net, tags, p);
    assert Stops(pageOf(bound));
    PaginateConcatenates(pageOf, 1, [], bound, pages);
    assert [] + Concat(pages) == Concat(pages);
  }

  /** `posts[0]`: the first post, or `undefined` for an empty page. */
  function First(posts: seq<Post>): (r: Option<Post>)
    ensures r.Some? <==> |posts| > 0
    ensures r.Some? ==> r.value == posts[0]
  {
    if |posts| > 0 then Some(posts[0]) else None
  }

  /** `E621.searchByMD5(hash)`: the first post of page 1 of the search
      `md5:<hash>`. */
  function SearchByMD5(net: Network, hash: string): (r: Settled<Option<Post>>)
    ensures r.Rejected? <==> Search(net, ["md5:" + hash], 1).Rejected?
    ensures r.Resolved? ==> r.value == First(Search(net, ["md5:" + hash], 1).value)
  {
    MapSettled(Search(net, ["md5:" + hash], 1), First)
  }

  /** `E621.searchByID(id)` (src/index.js): the first post of page 1 of the
      search `id:<id>`. */
  function SearchByID(net: Network, id: string): (r: Settled<Option<Post>>)
    ensures r.Rejected? <==> Search(net, ["id:" + id], 1).Rejected?
    ensures r.Resolved? ==> r.value == First(Search(net, ["id:" + id], 1).value)
  {
    MapSettled(Search(net, ["id:" + id], 1), First)
  }

  /** A lookup of page 1 of the one-tag search `tag`, as `searchByMD5` and
      `searchByID` make it: it asks the index endpoint for that tag with page
      size 100, resolves exactly when the transport answers 200, and then
      yields the first post of the answer, `undefined` for an empty page. */
  lemma LookupAsks(net: Network, tag: string)
    ensures var reply := net.listing(IndexUrl + "?tags=" + tag + "&limit=100&page=1");
      var r := MapSettled(Search(net, [tag], 1), First);
      && (r.Resolved? <==> reply.Response? && reply.statusCode == 200)
      && (r.Resolved? ==> (r.value.Some? <==> |reply.body| > 0) && (r.value.Some? ==> r.value.value == reply.body[0]))
      && (reply.TransportFailure? ==> r == Rejected(TransportError(reply.error)))
  {
    var url := IndexUrl + "?tags=" + tag + "&limit=100&page=1";
    SearchUrl([tag], 1);
    assert Join([tag], '+') == tag;
    assert NatToString(1) == "1";
    assert Prepare(IndexUrl, SearchOptions([tag], 1)).url == url;
    assert Search(net, [tag], 1) == Settle(net.listing(url));
  }

  /** `searchByMD5(hash)` asks for `md5:<hash>` and yields the first post of
      the answer. */
  lemma SearchByMD5Asks(net: Network, hash: string)
    ensures var reply := net.listing(IndexUrl + "?tags=md5:" + hash + "&limit=100&page=1");
      var r := SearchByMD5(net, hash);
      && (r.Resolved? <==> reply.Response? && reply.statusCode == 200)
      && (r.Resolved? ==> (r.value.Some? <==> |reply.body| > 0) && (r.value.Some? ==> r.value.value == reply.body[0]))
      && (reply.TransportFailure? ==> r == Rejected(TransportError(reply.error)))
  {
    LookupAsks(net, "md5:" + hash);
    Regroup(IndexUrl, "?tags=", "md5:", hash, "&limit=100&page=1");
    assert "?tags=" + "md5:" == "?tags=md5:";
  }

  lemma Regroup(u: string, a: string, b: string, x: string, r: string)
    ensures u + a + (b + x) + r == u + (a + b) + x + r
  {
  }

  /** `searchByID(id)` asks for `id:<id>` and yields the first post of the
      answer. */
  lemma SearchByIDAsks(net: Network, id: string)
    ensures var reply := net.listing(IndexUrl + "?tags=id:" + id + "&limit=100&page=1");
      var r := SearchByID(net, id);
      && (r.Resolved? <==> reply.Response? && reply.statusCode == 200)
      && (r.Resolved? ==> (r.value.Some? <==> |reply.body| > 0) && (r.value.Some? ==> r.value.value == reply.body[0]))
      && (reply.TransportFailure? ==> r == Rejected(TransportError(reply.error)))
  {
    LookupAsks(net, "id:" + id);
    Regroup(IndexUrl, "?tags=", "id:", id, "&limit=100&page=1");
    assert "?tags=" + "id:" == "?tags=id:";
  }

  // ------------------------------------------------------------- blacklist

  /** Some space-separated tag of the post is on the blacklist. */
  ghost predicate Blacklisted(p: Post, blacklist: seq<string>) {
    exists t :: t in Split(p.tags, ' ') && t in blacklist
  }

  /** The source's test `p.tags.split(' ').every(t => !blacklist.includes(t))`. */
  predicate Clean(p: Post, blacklist: seq<string>) {
    var tags := Split(p.tags, ' ');
    forall i :: 0 <= i < |tags| ==> tags[i] !in blacklist
  }

  /** `posts.filter(Clean)`: keeps, in order, exactly the posts none of whose
      tags is blacklisted; every post it drops has a blacklisted tag. */
  function FilterBlacklist(posts: seq<Post>, blacklist: seq<string>): (r: seq<Post>)
    ensures |r| <= |posts|
    ensures forall p :: p in r <==> p in posts && !Blacklisted(p, blacklist)
    ensures forall p :: p in posts && p !in r ==> Blacklisted(p, blacklist)
  {
    if |posts| == 0 then []
    else
      var rest := FilterBlacklist(posts[1..], blacklist);
      assert forall p :: p in posts <==> p == posts[0] || p in posts[1..];
      assert Clean(posts[0], blacklist) <==> !Blacklisted(posts[0], blacklist);
      if Clean(posts[0], blacklist) then [posts[0]] + rest else rest
  }

  /** Filtering keeps the input order: it distributes over concatenation,
      and on a single post it keeps the post exactly when the post is not
      blacklisted. */
  lemma {:induction false} FilterBlacklistInOrder(xs: seq<Post>, ys: seq<Post>, p: Post, blacklist: seq<string>)
    ensures FilterBlacklist(xs + ys, blacklist) == FilterBlacklist(xs, blacklist) + FilterBlacklist(ys, blacklist)
    ensures FilterBlacklist([p], blacklist) == if Blacklisted(p, blacklist) then [] else [p]
    decreases |xs|
  {
    assert [p][1..] == [];
    if |xs| == 0 {
      assert xs + ys == ys;
    } else {
      assert (xs + ys)[0] == xs[0];
      assert (xs + ys)[1..] == xs[1..] + ys;
      FilterBlacklistInOrder(xs[1..], ys, p, blacklist);
    }
  }

  /** The posts of each page that survive the blacklist. */
  function FilterPages(pages: seq<seq<Post>>, blacklist: seq<string>): (r: seq<seq<Post>>)
    ensures |r| == |pages|
    ensures forall i :: 0 <= i < |pages| ==> r[i] == FilterBlacklist(pages[i], blacklist)
  {
    seq(|pages|, i requires 0 <= i < |pages| => FilterBlacklist(pages[i], blacklist))
  }

  /** Filtering the concatenated pages is filtering page by page. */
  lemma {:induction false} FilterConcat(pages: seq<seq<Post>>, blacklist: seq<string>)
    ensures FilterBlacklist(Concat(pages), blacklist) == Concat(FilterPages(pages, blacklist))
    decreases |pages|
  {
    if |pages| > 0 {
      var p := Post(0, None, None, None, "");
      FilterBlacklistInOrder(pages[0], Concat(pages[1..]), p, blacklist);
      FilterConcat(pages[1..], blacklist);
      assert FilterPages(pages, blacklist)[1..] == FilterPages(pages[1..], blacklist);
    }
  }

  /** Filtering twice is filtering once. */
  lemma {:induction false} FilterBlacklistIdempotent(posts: seq<Post>, blacklist: seq<string>)
    ensures FilterBlacklist(FilterBlacklist(posts, blacklist), blacklist) == FilterBlacklist(posts, blacklist)
  {
    if |posts| > 0 {
      FilterBlacklistIdempotent(posts[1..], blacklist);
    }
  }

  /** A tag query's contribution: its search results minus blacklisted posts;
      a failed search is caught and contributes nothing. */
  function ResolveTags(net: Network, tags: seq<string>, blacklist: seq<string>, bound: nat): (r: seq<Post>)
    requires Exhausts(net, bound)
    ensures SearchAll(net, tags, bound).Rejected? ==> r == []
    ensures SearchAll(net, tags, bound).Resolved? ==>
      forall p :: p in r <==> p in SearchAll(net, tags, bound).value && !Blacklisted(p, blacklist)
  {
    match SearchAll(net, tags, bound)
    case Rejected(_) => []
    case Resolved(posts) => FilterBlacklist(posts, blacklist)
  }

  /** For search results that end with an empty page after the non-empty
      `pages`, a tag query contributes the posts of every page that survive
      the blacklist, page after page, each page in its own order. */
  lemma ResolveTagsPages(net: Network, tags: seq<string>, blacklist: seq<string>, bound: nat, pages: seq<seq<Post>>)
    requires Exhausts(net, bound)
    requires forall k :: 0 <= k < |pages| ==> |pages[k]| > 0 && Search(net, tags, 1 + k) == Resolved(pages[k])
    requires Search(net, tags, 1 + |pages|) == Resolved([])
    ensures ResolveTags(net, tags, blacklist, bound) == Concat(FilterPages(pages, blacklist))
  {
    SearchAllPages(net, tags, bound, pages);
    FilterConcat(pages, blacklist);
  }

  /** Posts as the JavaScript objects `flatten`/`unique` see. */
  function Objs(ps: seq<Post>): (r: seq<Value<Post>>)
    ensures |r| == |ps| && IsFlat(r)
    ensures forall i :: 0 <= i < |ps| ==> r[i] == Obj(ps[i])
    ensures forall v :: v in r <==> v.Obj? && v.obj in ps
  {
    if |ps| == 0 then [] else [Obj(ps[0])] + Objs(ps[1..])
  }
}
