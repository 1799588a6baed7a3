/**
  `E621.fetch(todo, blacklist)` of the current revision (src/index.js): every
  reference is classified as an MD5 link, a post link or a tag query and
  looked up in turn through `mapAsync`; the results are flattened,
  de-duplicated (by object identity) and stripped of `null`.
 */
module Fetch {
  import opened Promises
  import opened Text
  import opened ArrayUtils
  import opened Patterns
  import opened Catalog

  /** How the callback sorts a (defined) reference: a DIRECT link is searched
      by the first hash in it, a post link by the id after `show/`, anything
      else is a lower-cased, space-separated tag query. */
  function Classify(s: string): (r: Ref)
    ensures r.HashRef? <==> MatchesDirect(s)
    ensures r.PostRef? <==> !MatchesDirect(s) && MatchesPostLink(s)
    ensures r.TagRef? <==> !MatchesDirect(s) && !MatchesPostLink(s)
    ensures r.HashRef? ==> FirstHash(s) == Some(r.hash)
    ensures r.PostRef? ==> ShowId(s) == Some(r.id)
    ensures r.TagRef? ==> |r.tags| >= 1 && Join(r.tags, ' ') == LowerAscii(s)
    ensures r.TagRef? ==> forall i :: 0 <= i < |r.tags| ==> ' ' !in r.tags[i]
  {
    if MatchesDirect(s) then
      DirectHasHash(s);
      HashRef(FirstHash(s).value)
    else if MatchesPostLink(s) then
      PostLinkHasId(s);
      PostRef(ShowId(s).value)
    else TagRef(Split(LowerAscii(s), ' '))
  }

  /** A reference without `/` is always a tag query, split into its words. */
  lemma PlainQueryIsTagSearch(s: string)
    requires '/' !in s
    ensures Classify(s) == TagRef(Split(LowerAscii(s), ' '))
  {
    NoSlashMatchesNothing(s, PoolPath);
  }

  /** Lower-case words without spaces or slashes, joined by spaces, come back
      from the classifier as exactly those words. */
  lemma {:induction false} TagWordsRoundTrip(words: seq<string>)
    requires |words| >= 1
    requires forall i :: 0 <= i < |words| ==> ' ' !in words[i] && '/' !in words[i] && LowerAscii(words[i]) == words[i]
    ensures Classify(Join(words, ' ')) == TagRef(words)
  {
    var s := Join(words, ' ');
    JoinLowered(words);
    JoinNoSlash(words);
    PlainQueryIsTagSearch(s);
    SplitJoin(words, ' ');
  }

  lemma {:induction false} JoinLowered(words: seq<string>)
    requires forall i :: 0 <= i < |words| ==> ' ' !in words[i] && LowerAscii(words[i]) == words[i]
    ensures LowerAscii(Join(words, ' ')) == Join(words, ' ')
    decreases |words|
  {
    if |words| > 1 {
      JoinLowered(words[1..]);
      var s := Join(words, ' ');
      var w := words[0];
      var t := Join(words[1..], ' ');
      assert s == w + [' '] + t;
      forall i | 0 <= i < |s|
        ensures LowerChar(s[i]) == s[i]
      {
        if i < |w| {
          assert s[i] == w[i] && LowerAscii(w)[i] == w[i];
        } else if i > |w| {
          assert s[i] == t[i - |w| - 1] && LowerAscii(t)[i - |w| - 1] == t[i - |w| - 1];
        }
      }
    }
  }

  lemma {:induction false} JoinNoSlash(words: seq<string>)
    requires forall i :: 0 <= i < |words| ==> '/' !in words[i]
    ensures '/' !in Join(words, ' ')
    decreases |words|
  {
    if |words| > 1 {
      JoinNoSlash(words[1..]);
      assert Join(words, ' ') == words[0] + [' '] + Join(words[1..], ' ');
    }
  }

  // ------------------------------------------------------------ the callback

  /** `.then(post => post)`: a found post is collected, `undefined` is not. */
  function Found(o: Option<Post>): Option<Value<Post>> {
    if o.Some? then Some(Obj(o.value)) else None
  }

  /** The callback of `mapAsync` for one reference. `undefined` (the call
      `mapAsync` makes for an empty array) fails the two tests and throws a
      TypeError at `item.toLowerCase()`. A tag query catches its own
      failure; a failed MD5 or id lookup rejects. */
  function Step(net: Network, blacklist: seq<string>, bound: nat, item: Option<string>): (c: Call<Option<Value<Post>>>)
    requires Exhausts(net, bound)
    ensures c.Threw? <==> item.None?
    ensures c.Threw? ==> c.reason == TypeError
    ensures c.Returned? && c.promise.Rejected? ==> !Classify(item.value).TagRef?
  {
    match item
    case None => Threw(TypeError)
    case Some(s) =>
      var ref := Classify(s);
      if ref.HashRef? then Returned(MapSettled(SearchByMD5(net, ref.hash), Found))
      else if ref.PostRef? then Returned(MapSettled(SearchByID(net, ref.id), Found))
      else Returned(Resolved(Some(Arr(Objs(ResolveTags(net, ref.tags, blacklist, bound))))))
  }

  function Callback(net: Network, blacklist: seq<string>, bound: nat): (Option<string>, nat) -> Call<Option<Value<Post>>>
    requires Exhausts(net, bound)
  {
    (item: Option<string>, idx: nat) => Step(net, blacklist, bound, item)
  }

  // ------------------------------------------------------------ aggregation

  /** `filter(p => p != null)` on a flat array, unwrapping the objects. */
  function NonNull(vs: seq<Value<Post>>): (r: seq<Post>)
    requires IsFlat(vs)
    ensures forall p :: p in r <==> Obj(p) in vs
    ensures NoDuplicates(vs) ==> NoDuplicates(r)
    ensures |r| <= |vs|
  {
    if |vs| == 0 then []
    else
      var rest := NonNull(vs[1..]);
      assert forall v :: v in vs <==> v == vs[0] || v in vs[1..];
      if vs[0].Obj? then
        assert NoDuplicates(vs) ==> vs[0] !in vs[1..];
        [vs[0].obj] + rest
      else rest
  }

  /** Dropping `null` distributes over concatenation. */
  lemma {:induction false} NonNullAppend(a: seq<Value<Post>>, b: seq<Value<Post>>)
    requires IsFlat(a) && IsFlat(b)
    ensures IsFlat(a + b)
    ensures NonNull(a + b) == NonNull(a) + NonNull(b)
    decreases |a|
  {
    if |a| == 0 {
      assert a + b == b;
    } else {
      assert (a + b)[0] == a[0];
      assert (a + b)[1..] == a[1..] + b;
      NonNullAppend(a[1..], b);
    }
  }

  /** Unwrapping wrapped posts gives the posts back. */
  lemma {:induction false} NonNullObjs(ps: seq<Post>)
    ensures NonNull(Objs(ps)) == ps
    decreases |ps|
  {
    if |ps| > 0 {
      assert Objs(ps)[1..] == Objs(ps[1..]);
      NonNullObjs(ps[1..]);
    }
  }

  /** Keeping first occurrences commutes with dropping `null`: the objects
      that survive are the first occurrences of the posts. */
  lemma {:induction false} NonNullKeepFirst(vs: seq<Value<Post>>)
    requires IsFlat(vs)
    ensures IsFlat(KeepFirst(vs))
    ensures NonNull(KeepFirst(vs)) == KeepFirst(NonNull(vs))
    decreases |vs|
  {
    if |vs| > 0 {
      var init, last := vs[..|vs| - 1], vs[|vs| - 1];
      assert vs == init + [last];
      NonNullKeepFirst(init);
      var tail: seq<Value<Post>> := if last in init then [] else [last];
      assert KeepFirst(vs) == KeepFirst(init) + tail;
      NonNullAppend(KeepFirst(init), tail);
      NonNullAppend(init, [last]);
      var ps := NonNull(init);
      if last.Obj? {
        var p := last.obj;
        assert NonNull([last]) == [p];
        assert p in ps <==> last in init;
        assert NonNull(tail) == (if p in ps then [] else [p]);
        KeepFirstSnoc(ps, p);
      } else {
        assert NonNull([last]) == [] && NonNull(tail) == [];
        assert NonNull(vs) == ps;
      }
    }
  }

  /** `posts.flatten().unique().filter(p => p != null)`: every post object
      found anywhere in the results, each object once, `null` dropped, in
      the order of first appearance among the leaves. */
  function Aggregate(results: seq<Value<Post>>): (r: seq<Post>)
    ensures forall p :: p in r <==> Obj(p) in Flatten(results)
    ensures NoDuplicates(r)
    ensures r == KeepFirst(NonNull(Flatten(results)))
  {
    var u := Unique(Flatten(results));
    NonNullKeepFirst(Flatten(results));
    NonNull(u)
  }

  /** `E621.fetch(todo, blacklist)`. With an empty `todo` the callback runs
      once on `undefined` and throws before any promise exists; otherwise the
      promise always resolves (a failure anywhere is caught and yields `[]`),
      and never with the same object twice. */
  function Fetch(net: Network, todo: seq<string>, blacklist: seq<string>, bound: nat): (r: Call<seq<Post>>)
    requires Exhausts(net, bound)
    ensures r.Threw? <==> |todo| == 0
    ensures r.Threw? ==> r.reason == TypeError
    ensures r.Returned? ==> r.promise.Resolved? && NoDuplicates(r.promise.value)
  {
    var f := Callback(net, blacklist, bound);
    assert f(ItemAt(todo, 0), 0) == Step(net, blacklist, bound, ItemAt(todo, 0));
    match MapAsync(todo, f)
    case Threw(e) => Threw(e)
    case Returned(Rejected(_)) => Returned(Resolved([]))
    case Returned(Resolved(results)) => Returned(Resolved(Aggregate(results)))
  }

  // ------------------------------------------------------------- reference

  /** What one reference is meant to contribute, stated on posts: the post an
      MD5 or id lookup finds (nothing if none), or the non-blacklisted results
      of a tag search (nothing if the search fails). Only a lookup can fail. */
  function Contribution(net: Network, blacklist: seq<string>, bound: nat, s: string): Settled<seq<Post>>
    requires Exhausts(net, bound)
  {
    var ref := Classify(s);
    if ref.HashRef? then MapSettled(SearchByMD5(net, ref.hash), FoundPosts)
    else if ref.PostRef? then MapSettled(SearchByID(net, ref.id), FoundPosts)
    else Resolved(ResolveTags(net, ref.tags, blacklist, bound))
  }

  function FoundPosts(o: Option<Post>): seq<Post> {
    if o.Some? then [o.value] else []
  }

  /** The defined result of one call holds exactly the reference's
      contribution. */
  lemma StepContributes(net: Network, blacklist: seq<string>, bound: nat, s: string)
    requires Exhausts(net, bound)
    ensures Step(net, blacklist, bound, Some(s)).Resolves() <==> Contribution(net, blacklist, bound, s).Resolved?
    ensures Step(net, blacklist, bound, Some(s)).Resolves() ==>
      var v := Step(net, blacklist, bound, Some(s)).promise.value;
      forall p :: Obj(p) in Flatten(Defined(v)) <==> p in Contribution(net, blacklist, bound, s).value
  {
    if Contribution(net, blacklist, bound, s).Resolved? {
      StepFlattens(net, blacklist, bound, s);
    } else {
      var ref := Classify(s);
      var o := if ref.HashRef? then SearchByMD5(net, ref.hash) else SearchByID(net, ref.id);
      assert Contribution(net, blacklist, bound, s) == MapSettled(o, FoundPosts);
      assert Step(net, blacklist, bound, Some(s)) == Returned(MapSettled(o, Found));
    }
  }

  /** When every reference's lookup succeeds, `fetch` resolves with exactly
      the posts the references contribute: a post is in the result if and
      only if some reference contributed it. */
  lemma FetchCollects(net: Network, todo: seq<string>, blacklist: seq<string>, bound: nat, p: Post)
    requires Exhausts(net, bound)
    requires |todo| > 0
    requires forall j :: 0 <= j < |todo| ==> Contribution(net, blacklist, bound, todo[j]).Resolved?
    ensures Fetch(net, todo, blacklist, bound).Returned?
    ensures p in Fetch(net, todo, blacklist, bound).promise.value <==>
      exists j :: 0 <= j < |todo| && p in Contribution(net, blacklist, bound, todo[j]).value
  {
    var f := Callback(net, blacklist, bound);
    forall j | 0 <= j < |todo|
      ensures f(ItemAt(todo, j), j).Resolves()
      ensures Obj(p) in Flatten(Defined(f(ItemAt(todo, j), j).promise.value)) <==> p in Contribution(net, blacklist, bound, todo[j]).value
    {
      StepContributes(net, blacklist, bound, todo[j]);
      assert f(ItemAt(todo, j), j) == Step(net, blacklist, bound, Some(todo[j]));
    }
    MapAsyncCollects(todo, f);
    FlattenDefinedFrom(todo, f, 0, Obj(p));
  }

  /** One failed MD5 or id lookup anywhere discards every other result:
      `fetch` resolves with no posts at all. */
  lemma FetchCollapses(net: Network, todo: seq<string>, blacklist: seq<string>, bound: nat, k: nat)
    requires Exhausts(net, bound)
    requires k < |todo| && Contribution(net, blacklist, bound, todo[k]).Rejected?
    ensures Fetch(net, todo, blacklist, bound) == Returned(Resolved([]))
  {
    var f := Callback(net, blacklist, bound);
    StepContributes(net, blacklist, bound, todo[k]);
    assert f(ItemAt(todo, k), k) == Step(net, blacklist, bound, Some(todo[k]));
    assert !MapAsync(todo, f).Resolves();
  }

  /** `unique` compares objects, not posts: when two references find the
      same catalog entry (same id) as two distinct objects, the result holds
      both of them. */
  lemma SameIdKeptTwice(net: Network, todo: seq<string>, blacklist: seq<string>, bound: nat, i: nat, j: nat, a: Post, b: Post)
    requires Exhausts(net, bound)
    requires forall k :: 0 <= k < |todo| ==> Contribution(net, blacklist, bound, todo[k]).Resolved?
    requires i < |todo| && a in Contribution(net, blacklist, bound, todo[i]).value
    requires j < |todo| && b in Contribution(net, blacklist, bound, todo[j]).value
    requires a.id == b.id && a.ref != b.ref
    ensures Fetch(net, todo, blacklist, bound).Returned?
    ensures var r := Fetch(net, todo, blacklist, bound).promise.value;
      a in r && b in r && !DistinctIds(r)
  {
    FetchKeeps(net, todo, blacklist, bound, i, a);
    FetchKeeps(net, todo, blacklist, bound, j, b);
    SharedId(Fetch(net, todo, blacklist, bound).promise.value, a, b);
  }

  /** The posts the references from index `i` on contribute, reference by
      reference. */
  function Gathered(net: Network, blacklist: seq<string>, bound: nat, todo: seq<string>, i: nat): seq<Post>
    requires Exhausts(net, bound)
    requires i <= |todo|
    requires forall j :: 0 <= j < |todo| ==> Contribution(net, blacklist, bound, todo[j]).Resolved?
    decreases |todo| - i
  {
    if i == |todo| then []
    else Contribution(net, blacklist, bound, todo[i]).value + Gathered(net, blacklist, bound, todo, i + 1)
  }

  /** The leaves one resolved call adds are the reference's contribution, in
      order. */
  lemma StepFlattens(net: Network, blacklist: seq<string>, bound: nat, s: string)
    requires Exhausts(net, bound)
    requires Contribution(net, blacklist, bound, s).Resolved?
    ensures Step(net, blacklist, bound, Some(s)).Resolves()
    ensures IsFlat(Flatten(Defined(Step(net, blacklist, bound, Some(s)).promise.value)))
    ensures NonNull(Flatten(Defined(Step(net, blacklist, bound, Some(s)).promise.value))) == Contribution(net, blacklist, bound, s).value
  {
    var ref := Classify(s);
    if ref.TagRef? {
      var ps := ResolveTags(net, ref.tags, blacklist, bound);
      assert Step(net, blacklist, bound, Some(s)) == Returned(Resolved(Some(Arr(Objs(ps)))));
      TagFlattens(ps);
      assert Contribution(net, blacklist, bound, s) == Resolved(ps);
    } else {
      var o := if ref.HashRef? then SearchByMD5(net, ref.hash) else SearchByID(net, ref.id);
      assert Contribution(net, blacklist, bound, s) == MapSettled(o, FoundPosts);
      assert Step(net, blacklist, bound, Some(s)) == Returned(MapSettled(o, Found));
      assert o.Resolved?;
      assert Step(net, blacklist, bound, Some(s)).promise.value == Found(o.value);
      assert Contribution(net, blacklist, bound, s).value == FoundPosts(o.value);
      FoundFlattens(o.value);
    }
  }

  lemma TagFlattens(ps: seq<Post>)
    ensures IsFlat(Flatten(Defined(Some(Arr(Objs(ps))))))
    ensures NonNull(Flatten(Defined(Some(Arr(Objs(ps)))))) == ps
  {
    var d := Defined(Some(Arr(Objs(ps))));
    assert d == [Arr(Objs(ps))];
    assert Flatten(d) == Flatten(Objs(ps)) + Flatten<Post>([]);
    FlattenFlat(Objs(ps));
    assert Flatten(d) == Objs(ps);
    NonNullObjs(ps);
  }

  lemma FoundFlattens(o: Option<Post>)
    ensures IsFlat(Flatten(Defined(Found(o))))
    ensures NonNull(Flatten(Defined(Found(o)))) == FoundPosts(o)
  {
    if o.Some? {
      assert Flatten([Obj(o.value)]) == [Obj(o.value)] + Flatten<Post>([]);
    }
  }

  /** What `mapAsync` collects from index `i` on, flattened and stripped of
      `null`, is what those references contribute, in order. */
  lemma {:induction false} GatheredFrom(net: Network, todo: seq<string>, blacklist: seq<string>, bound: nat, i: nat)
    requires Exhausts(net, bound)
    requires 0 < |todo| && i <= |todo|
    requires forall j :: 0 <= j < |todo| ==> Contribution(net, blacklist, bound, todo[j]).Resolved?
    requires forall j :: 0 <= j < |todo| ==> Callback(net, blacklist, bound)(ItemAt(todo, j), j).Resolves()
    ensures NonNull(Flatten(DefinedFrom(todo, Callback(net, blacklist, bound), i))) == Gathered(net, blacklist, bound, todo, i)
    decreases |todo| - i
  {
    var f := Callback(net, blacklist, bound);
    if i < |todo| {
      assert f(ItemAt(todo, i), i) == Step(net, blacklist, bound, Some(todo[i]));
      StepFlattens(net, blacklist, bound, todo[i]);
      var head := Defined(f(ItemAt(todo, i), i).promise.value);
      var rest := DefinedFrom(todo, f, i + 1);
      assert DefinedFrom(todo, f, i) == head + rest;
      FlattenAppend(head, rest);
      NonNullAppend(Flatten(head), Flatten(rest));
      GatheredFrom(net, todo, blacklist, bound, i + 1);
    }
  }

  /** When every reference's lookup succeeds, `fetch` resolves with the
      posts the references contribute, reference by reference, each object
      at its first appearance. */
  lemma FetchInOrder(net: Network, todo: seq<string>, blacklist: seq<string>, bound: nat)
    requires Exhausts(net, bound)
    requires |todo| > 0
    requires forall j :: 0 <= j < |todo| ==> Contribution(net, blacklist, bound, todo[j]).Resolved?
    ensures Fetch(net, todo, blacklist, bound) == Returned(Resolved(KeepFirst(Gathered(net, blacklist, bound, todo, 0))))
  {
    var f := Callback(net, blacklist, bound);
    forall j | 0 <= j < |todo|
      ensures f(ItemAt(todo, j), j).Resolves()
    {
      StepContributes(net, blacklist, bound, todo[j]);
      assert f(ItemAt(todo, j), j) == Step(net, blacklist, bound, Some(todo[j]));
    }
    MapAsyncCollects(todo, f);
    GatheredFrom(net, todo, blacklist, bound, 0);
  }

  /** A post some reference contributed is in the result. */
  lemma FetchKeeps(net: Network, todo: seq<string>, blacklist: seq<string>, bound: nat, j: nat, p: Post)
    requires Exhausts(net, bound)
    requires forall j :: 0 <= j < |todo| ==> Contribution(net, blacklist, bound, todo[j]).Resolved?
    requires j < |todo| && p in Contribution(net, blacklist, bound, todo[j]).value
    ensures Fetch(net, todo, blacklist, bound).Returned?
    ensures p in Fetch(net, todo, blacklist, bound).promise.value
  {
    FetchCollects(net, todo, blacklist, bound, p);
  }
}
