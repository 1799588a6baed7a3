/**
  The behaviour the downloader evidently intends where its code falls short:
  the array helpers do nothing on an empty array (so `fetch([])` resolves
  with no posts and `download([])` finishes with zero counters instead of
  throwing), and `fetch` keeps one post per catalog entry (by id) rather
  than one per parsed object.
 */
module Corrections {
  import opened Promises
  import opened ArrayUtils
  import opened Catalog
  import opened Fetch
  import opened Download

  // ------------------------------------------------------------ empty arrays

  /** `mapAsync` that checks the length before the first call: the callback
      only ever sees elements of the array. */
  function MapAsyncChecked<T, U>(xs: seq<T>, f: (Option<T>, nat) -> Call<Option<U>>): (r: Call<seq<U>>)
    ensures |xs| == 0 ==> r == Returned(Resolved([]))
    ensures r.Threw? <==> |xs| > 0 && f(Some(xs[0]), 0).Threw?
    ensures |xs| > 0 ==> r == MapAsync(xs, f)
  {
    if |xs| == 0 then Returned(Resolved([])) else MapAsync(xs, f)
  }

  /** `forEachAsync` that checks the length before the first call. */
  function ForEachAsyncChecked<T, S>(xs: seq<T>, step: (S, Option<T>, nat) -> Call<S>, s: S): (r: Call<S>)
    ensures |xs| == 0 ==> r == Returned(Resolved(s))
    ensures |xs| > 0 ==> r == ForEachAsync(xs, step, s)
  {
    if |xs| == 0 then Returned(Resolved(s)) else ForEachAsync(xs, step, s)
  }

  /** The checked helpers call the callback on every element, in order, and
      never on `undefined`: folding steps that all resolve gives the fold,
      for the empty array too. */
  lemma ForEachAsyncCheckedFolds<T, S>(xs: seq<T>, step: (S, Option<T>, nat) -> Call<S>, g: (S, T, nat) -> S, s: S)
    requires forall t: S, i :: 0 <= i < |xs| ==> step(t, Some(xs[i]), i) == Returned(Resolved(g(t, xs[i], i)))
    ensures ForEachAsyncChecked(xs, step, s) == Returned(Resolved(FoldPrefix(xs, g, s, |xs|)))
  {
    if |xs| > 0 {
      ForEachAsyncFolds(xs, step, g, s);
    }
  }

  // ------------------------------------------------------------- one per id

  function Ids(ps: seq<Post>): set<Option<nat>> {
    set i | 0 <= i < |ps| :: ps[i].id
  }

  /** The first post of each id, in order of appearance. */
  function UniqueById(ps: seq<Post>): (r: seq<Post>)
    ensures DistinctIds(r)
    ensures forall p :: p in r ==> p in ps
    ensures Ids(r) == Ids(ps)
    ensures |r| <= |ps|
  {
    UniqueByIdInto([], ps)
  }

  function UniqueByIdInto(acc: seq<Post>, ps: seq<Post>): (r: seq<Post>)
    requires DistinctIds(acc)
    ensures DistinctIds(r)
    ensures forall p :: p in r ==> p in acc || p in ps
    ensures Ids(r) == Ids(acc) + Ids(ps)
    ensures |acc| <= |r| <= |acc| + |ps|
    ensures r[..|acc|] == acc
    decreases |ps|
  {
    if |ps| == 0 then acc
    else
      var p := ps[0];
      assert Ids(ps) == {p.id} + Ids(ps[1..]) by {
        assert forall q :: q in ps <==> q == p || q in ps[1..];
      }
      if p.id in Ids(acc) then
        UniqueByIdInto(acc, ps[1..])
      else
        var acc' := acc + [p];
        assert Ids(acc') == Ids(acc) + {p.id} by {
          forall x
            ensures x in Ids(acc') <==> x in Ids(acc) + {p.id}
          {
            if x in Ids(acc') {
              var i :| 0 <= i < |acc'| && acc'[i].id == x;
              if i < |acc| {
                assert acc'[i] == acc[i];
              }
            }
            if x in Ids(acc) {
              var i :| 0 <= i < |acc| && acc[i].id == x;
              assert acc'[i] == acc[i];
            }
            if x == p.id {
              assert acc'[|acc|] == p;
            }
          }
        }
        assert DistinctIds(acc') by {
          forall i | 0 <= i < |acc|
            ensures acc[i].id != p.id
          {
            assert acc[i] in acc;
          }
        }
        var r := UniqueByIdInto(acc', ps[1..]);
        assert r[..|acc|] == r[..|acc'|][..|acc|];
        r
  }

  /** The reference for the correction: the posts whose id does not occur
      earlier, in their original order. */
  function FirstById(ps: seq<Post>): seq<Post> {
    if |ps| == 0 then []
    else
      var init := ps[..|ps| - 1];
      FirstById(init) + (if ps[|ps| - 1].id in Ids(init) then [] else [ps[|ps| - 1]])
  }

  lemma IdsAppend(a: seq<Post>, b: seq<Post>)
    ensures Ids(a + b) == Ids(a) + Ids(b)
  {
    var l := a + b;
    forall x
      ensures x in Ids(l) <==> x in Ids(a) + Ids(b)
    {
      if x in Ids(l) {
        var i :| 0 <= i < |l| && l[i].id == x;
        if i < |a| {
          assert l[i] == a[i];
        } else {
          assert l[i] == b[i - |a|];
        }
      }
      if x in Ids(a) {
        var i :| 0 <= i < |a| && a[i].id == x;
        assert l[i] == a[i];
      }
      if x in Ids(b) {
        var i :| 0 <= i < |b| && b[i].id == x;
        assert l[|a| + i] == b[i];
      }
    }
  }

  /** The reference keeps every id, once. */
  lemma {:induction false} FirstByIdIds(ps: seq<Post>)
    ensures Ids(FirstById(ps)) == Ids(ps)
    ensures DistinctIds(FirstById(ps))
    decreases |ps|
  {
    if |ps| > 0 {
      var init, last := ps[..|ps| - 1], ps[|ps| - 1];
      var tail := if last.id in Ids(init) then [] else [last];
      FirstByIdIds(init);
      var r := FirstById(init);
      assert ps == init + [last];
      assert Ids([last]) == {last.id} by {
        assert [last][0] == last;
      }
      IdsAppend(init, [last]);
      IdsAppend(r, tail);
      assert Ids(tail) == (if last.id in Ids(init) then {} else {last.id});
      forall i, j | 0 <= i < j < |r + tail|
        ensures (r + tail)[i].id != (r + tail)[j].id
      {
        if j >= |r| {
          assert (r + tail)[j] == last;
          assert (r + tail)[i] == r[i] && r[i].id in Ids(r);
        } else {
          assert (r + tail)[i] == r[i] && (r + tail)[j] == r[j];
        }
      }
    }
  }

  /** Run from the reference's result on a prefix `p`, the reduction yields
      the reference's result on `p + xs`. */
  lemma {:induction false} UniqueByIdIntoFirst(p: seq<Post>, xs: seq<Post>)
    requires DistinctIds(FirstById(p))
    ensures UniqueByIdInto(FirstById(p), xs) == FirstById(p + xs)
    decreases |xs|
  {
    if |xs| == 0 {
      assert p + xs == p;
    } else {
      var acc := FirstById(p);
      FirstByIdIds(p);
      assert (p + [xs[0]])[..|p|] == p;
      assert (if xs[0].id in Ids(acc) then acc else acc + [xs[0]]) == FirstById(p + [xs[0]]);
      assert p + [xs[0]] + xs[1..] == p + xs;
      FirstByIdIds(p + [xs[0]]);
      UniqueByIdIntoFirst(p + [xs[0]], xs[1..]);
    }
  }

  /** The correction keeps the first post of each id, in order. */
  lemma UniqueByIdIsFirstById(ps: seq<Post>)
    ensures UniqueById(ps) == FirstById(ps)
  {
    assert FirstById([]) == [] && [] + ps == ps;
    UniqueByIdIntoFirst([], ps);
  }

  lemma IdsOfSameMembers(a: seq<Post>, b: seq<Post>)
    requires forall x :: x in a <==> x in b
    ensures Ids(a) == Ids(b)
  {
    forall x | x in Ids(a)
      ensures x in Ids(b)
    {
      var i :| 0 <= i < |a| && a[i].id == x;
      assert a[i] in b;
    }
    forall x | x in Ids(b)
      ensures x in Ids(a)
    {
      var i :| 0 <= i < |b| && b[i].id == x;
      assert b[i] in a;
    }
  }

  /** Dropping repeated objects first does not change which post of each
      id comes first. */
  lemma {:induction false} FirstByIdKeepFirst(xs: seq<Post>)
    ensures FirstById(KeepFirst(xs)) == FirstById(xs)
    decreases |xs|
  {
    if |xs| > 0 {
      var init, last := xs[..|xs| - 1], xs[|xs| - 1];
      var k := KeepFirst(init);
      FirstByIdKeepFirst(init);
      KeepFirstMembers(init);
      IdsOfSameMembers(k, init);
      if last in init {
        var i :| 0 <= i < |init| && init[i] == last;
        assert last.id in Ids(init);
        assert KeepFirst(xs) == k;
        assert FirstById(xs) == FirstById(init);
      } else {
        assert KeepFirst(xs) == k + [last];
        assert (k + [last])[..|k|] == k;
        assert FirstById(k + [last]) == FirstById(k) + (if last.id in Ids(init) then [] else [last]);
      }
    }
  }

  /** A list without repeated ids is left as it is, so applying the
      correction twice is applying it once. */
  lemma {:induction false} UniqueByIdKeepsDistinct(acc: seq<Post>, ps: seq<Post>)
    requires DistinctIds(acc) && DistinctIds(acc + ps)
    ensures UniqueByIdInto(acc, ps) == acc + ps
    decreases |ps|
  {
    if |ps| > 0 {
      var p := ps[0];
      assert p.id !in Ids(acc) by {
        forall q | q in acc
          ensures q.id != p.id
        {
          var i :| 0 <= i < |acc| && acc[i] == q;
          assert (acc + ps)[i] == q && (acc + ps)[|acc|] == p;
        }
      }
      assert acc + [p] + ps[1..] == acc + ps;
      assert DistinctIds(acc + [p]) by {
        forall i, j | 0 <= i < j < |acc| + 1
          ensures (acc + [p])[i].id != (acc + [p])[j].id
        {
          assert (acc + [p])[i] == (acc + ps)[i] && (acc + [p])[j] == (acc + ps)[j];
        }
      }
      UniqueByIdKeepsDistinct(acc + [p], ps[1..]);
    }
  }

  /** Without repeated ids there are as many posts as ids. */
  lemma {:induction false} IdsCount(ps: seq<Post>)
    requires DistinctIds(ps)
    ensures |Ids(ps)| == |ps|
  {
    if |ps| > 0 {
      var init := ps[..|ps| - 1];
      var last := ps[|ps| - 1];
      assert DistinctIds(init) by {
        forall i, j | 0 <= i < j < |init|
          ensures init[i].id != init[j].id
        {
          assert init[i] == ps[i] && init[j] == ps[j];
        }
      }
      IdsCount(init);
      assert Ids(ps) == Ids(init) + {last.id} by {
        assert ps == init + [last];
        assert forall q :: q in ps <==> q in init || q == last;
      }
      assert last.id !in Ids(init) by {
        forall q | q in init
          ensures q.id != last.id
        {
          var i :| 0 <= i < |init| && init[i] == q;
          assert ps[i] == q;
        }
      }
    }
  }

  lemma UniqueByIdIdempotent(ps: seq<Post>)
    ensures UniqueById(UniqueById(ps)) == UniqueById(ps)
  {
    var r := UniqueById(ps);
    assert [] + r == r;
    assert DistinctIds([]);
    UniqueByIdKeepsDistinct([], r);
  }

  // ------------------------------------------------------------------ fetch

  /** `fetch` with both corrections: built on the checked `mapAsync`, so an
      empty list resolves with no posts, and each catalog entry is kept once.
      On a non-empty list it is the original with the duplicates by id
      removed. */
  function FetchFixed(net: Network, todo: seq<string>, blacklist: seq<string>, bound: nat): (r: Call<seq<Post>>)
    requires Exhausts(net, bound)
    ensures r.Returned? && r.promise.Resolved?
    ensures DistinctIds(r.promise.value)
    ensures |todo| == 0 ==> r.promise.value == []
    ensures |todo| > 0 ==> r.promise.value == UniqueById(Fetch.Fetch(net, todo, blacklist, bound).promise.value)
  {
    var f := Callback(net, blacklist, bound);
    assert |todo| > 0 ==> f(Some(todo[0]), 0) == Step(net, blacklist, bound, Some(todo[0]));
    var m := MapAsyncChecked(todo, f);
    if m.promise.Rejected? then Returned(Resolved([]))
    else Returned(Resolved(UniqueById(Aggregate(m.promise.value))))
  }

  /** When every lookup succeeds, the corrected `fetch` resolves with the
      first post of each catalog entry, in the order the references
      contribute them. */
  lemma FetchFixedInOrder(net: Network, todo: seq<string>, blacklist: seq<string>, bound: nat)
    requires Exhausts(net, bound)
    requires forall j :: 0 <= j < |todo| ==> Contribution(net, blacklist, bound, todo[j]).Resolved?
    ensures FetchFixed(net, todo, blacklist, bound).promise.value == FirstById(Gathered(net, blacklist, bound, todo, 0))
  {
    var g := Gathered(net, blacklist, bound, todo, 0);
    if |todo| > 0 {
      FetchInOrder(net, todo, blacklist, bound);
      UniqueByIdIsFirstById(KeepFirst(g));
      FirstByIdKeepFirst(g);
    }
  }

  /** When every lookup succeeds, the corrected `fetch` returns only
      contributed posts and has one post for every contributed entry. */
  lemma FetchFixedCollects(net: Network, todo: seq<string>, blacklist: seq<string>, bound: nat, p: Post)
    requires Exhausts(net, bound)
    requires forall j :: 0 <= j < |todo| ==> Contribution(net, blacklist, bound, todo[j]).Resolved?
    ensures var r := FetchFixed(net, todo, blacklist, bound).promise.value;
      && (p in r ==> exists j :: 0 <= j < |todo| && p in Contribution(net, blacklist, bound, todo[j]).value)
      && ((exists j :: 0 <= j < |todo| && p in Contribution(net, blacklist, bound, todo[j]).value) ==> p.id in Ids(r))
  {
    if |todo| > 0 {
      FetchCollects(net, todo, blacklist, bound, p);
      var found := Fetch.Fetch(net, todo, blacklist, bound).promise.value;
      if p in found {
        assert p.id in Ids(found);
      }
    }
  }

  /** The scenario in which the code as written keeps an entry twice: when
      every contributed post is the same catalog entry, the corrected `fetch`
      keeps exactly one post for it. */
  lemma SameIdKeptOnce(net: Network, todo: seq<string>, blacklist: seq<string>, bound: nat, i: nat, a: Post)
    requires Exhausts(net, bound)
    requires forall k :: 0 <= k < |todo| ==> Contribution(net, blacklist, bound, todo[k]).Resolved?
    requires i < |todo| && a in Contribution(net, blacklist, bound, todo[i]).value
    requires forall k, p :: 0 <= k < |todo| && p in Contribution(net, blacklist, bound, todo[k]).value ==> p.id == a.id
    ensures var r := FetchFixed(net, todo, blacklist, bound).promise.value;
      |r| == 1 && r[0].id == a.id && exists k :: 0 <= k < |todo| && r[0] in Contribution(net, blacklist, bound, todo[k]).value
  {
    var found := Fetch.Fetch(net, todo, blacklist, bound).promise.value;
    FetchKeeps(net, todo, blacklist, bound, i, a);
    forall p | p in found
      ensures p.id == a.id
      ensures exists k :: 0 <= k < |todo| && p in Contribution(net, blacklist, bound, todo[k]).value
    {
      FetchCollects(net, todo, blacklist, bound, p);
    }
    OneEntry(found, a);
  }

  /** Posts that are all one entry collapse to a single post. */
  lemma OneEntry(found: seq<Post>, a: Post)
    requires a in found
    requires forall p :: p in found ==> p.id == a.id
    ensures var r := UniqueById(found);
      |r| == 1 && r[0].id == a.id && r[0] in found
  {
    var r := UniqueById(found);
    assert Ids(r) == {a.id} by {
      forall x
        ensures x in Ids(found) <==> x == a.id
      {
        if x in Ids(found) {
          var i :| 0 <= i < |found| && found[i].id == x;
          assert found[i] in found;
        }
        if x == a.id {
          var i :| 0 <= i < |found| && found[i] == a;
        }
      }
    }
    IdsCount(r);
    assert |r| == 1;
    assert r[0] in found;
  }

  // --------------------------------------------------------------- download

  /** `download` built on the checked `forEachAsync`, so an empty batch
      finishes at once. */
  function DownloadFixed(posts: seq<Post>, dir: string, present: set<string>, succeeds: nat -> bool): (r: Outcome)
    ensures r.madeDir <==> dir !in present
    ensures r.run.Threw? <==> FirstInvalid(posts).Some?
    ensures |posts| > 0 ==> r == DownloadAll(posts, dir, present, succeeds)
    ensures r.run.Returned? ==> r.run.promise.Resolved?
    ensures r.run.Returned? ==> var w := r.run.promise.value;
      && w.tally.progress == w.tally.total == TotalSize(posts)
      && w.tally.successful + w.tally.skipped + w.tally.failed == |posts|
  {
    var made := dir !in present;
    match FirstInvalid(posts)
    case Some(p) => Outcome(made, Threw(InvalidPost(p.ref)))
    case None =>
      var s0 := Start(posts, present + DirPaths(dir));
      var step, g := Visiting(dir, succeeds), Visitor(dir, succeeds);
      forall t: Walk, i | 0 <= i < |posts|
        ensures step(t, Some(posts[i]), i) == Returned(Resolved(g(t, posts[i], i)))
      {
      }
      ForEachAsyncCheckedFolds(posts, step, g, s0);
      RunAccounts(dir, succeeds, posts, s0, |posts|);
      Outcome(made, ForEachAsyncChecked(posts, step, s0))
  }

  /** An empty batch ends at once with every counter at zero. */
  lemma EmptyBatchCountsNothing(dir: string, present: set<string>, succeeds: nat -> bool)
    ensures var r := DownloadFixed([], dir, present, succeeds).run;
      && r.Returned? && r.promise.Resolved?
      && r.promise.value.tally == Tally(0, 0, 0, 0, 0)
      && r.promise.value.transfers == []
      && DownloadAll([], dir, present, succeeds).run == Threw(TypeError)
  {
  }
}
