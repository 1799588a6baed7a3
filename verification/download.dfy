/**
  `E621.download(posts, directory)`, the same in both revisions: make the
  output directory if it is missing, reject the whole batch on the first
  post without an id, a size or a URL, then visit the posts in order with
  `forEachAsync`, skipping every file that already exists and transferring
  the others, while keeping the running totals it reports.

  The filesystem is a set of existing paths; the transfer outcome of the
  post at index `i` is the parameter `succeeds(i)`; the directory is taken
  as already resolved to a full path.
 */
module Download {
  import opened Promises
  import opened Text
  import opened ArrayUtils
  import opened Catalog

  /** What happened to one post. */
  datatype Verdict = Skipped(path: string) | Downloaded(path: string) | Failed(path: string)

  /** The five counters `download` keeps. */
  datatype Tally = Tally(total: nat, progress: nat, successful: nat, skipped: nat, failed: nat)

  /** The state threaded through the visits: the counters, the paths that
      exist, one verdict per visited post, and every transfer started (URL,
      destination). */
  datatype Walk = Walk(tally: Tally, present: set<string>, log: seq<Verdict>, transfers: seq<(string, string)>)

  /** What a call of `download` does: whether it made the directory (this
      happens even when it then throws), and how the visit ends. */
  datatype Outcome = Outcome(madeDir: bool, run: Call<Walk>)

  /** The test `!p.id || !p.file_size || !p.file_url` fails: every field is
      present and truthy (0 and "" are falsy). */
  predicate Valid(p: Post) {
    && p.id.Some? && p.id.value != 0
    && p.fileSize.Some? && p.fileSize.value != 0
    && p.fileUrl.Some? && p.fileUrl.value != ""
  }

  /** The post the validation loop throws on: the first invalid one. */
  function FirstInvalid(posts: seq<Post>): (r: Option<Post>)
    ensures r.None? <==> forall i :: 0 <= i < |posts| ==> Valid(posts[i])
    ensures r.Some? ==> exists k :: 0 <= k < |posts| && posts[k] == r.value && !Valid(r.value)
                          && forall i :: 0 <= i < k ==> Valid(posts[i])
  {
    if |posts| == 0 then None
    else if !Valid(posts[0]) then Some(posts[0])
    else
      var r := FirstInvalid(posts[1..]);
      if r.Some? then
        var k :| 0 <= k < |posts[1..]| && posts[1..][k] == r.value && !Valid(r.value) && forall i :: 0 <= i < k ==> Valid(posts[1..][i]);
        assert posts[k + 1] == r.value;
        assert forall i :: 0 <= i < k + 1 ==> Valid(posts[i]) by {
          forall i | 0 <= i < k + 1
            ensures Valid(posts[i])
          {
            if i > 0 {
              assert posts[i] == posts[1..][i - 1];
            }
          }
        }
        r
      else
        assert forall i :: 0 <= i < |posts| ==> Valid(posts[i]) by {
          forall i | 0 <= i < |posts|
            ensures Valid(posts[i])
          {
            if i > 0 {
              assert posts[i] == posts[1..][i - 1];
            }
          }
        }
        r
  }

  /** The size the running totals add; validation has made it present. */
  function SizeOf(p: Post): nat {
    if p.fileSize.Some? then p.fileSize.value else 0
  }

  function UrlOf(p: Post): string {
    if p.fileUrl.Some? then p.fileUrl.value else ""
  }

  /** `total`: the sum of the sizes of the posts. */
  function TotalSize(posts: seq<Post>): nat {
    SizeUpTo(posts, |posts|)
  }

  /** The size of the first `k` posts. */
  function SizeUpTo(posts: seq<Post>, k: nat): nat
    requires k <= |posts|
  {
    if k == 0 then 0 else SizeUpTo(posts, k - 1) + SizeOf(posts[k - 1])
  }

  /** `file_url.split('/').pop()`: what follows the last `/`. */
  function FileName(url: string): (name: string)
    ensures '/' !in name
    ensures |name| <= |url| && url[|url| - |name|..] == name
    ensures |name| < |url| ==> url[|url| - |name| - 1] == '/'
    ensures '/' !in url ==> name == url
  {
    var parts := Split(url, '/');
    JoinLast(parts, '/');
    assert |parts| == 1 ==> Join(parts, '/') == parts[0];
    parts[|parts| - 1]
  }

  /** The destination `directory + '/' + filename`. */
  function Destination(dir: string, p: Post): (d: string)
    ensures d == dir + "/" + FileName(UrlOf(p))
  {
    dir + "/" + FileName(UrlOf(p))
  }

  /** The verdict on one post: skipped when its destination exists,
      otherwise downloaded or failed as its transfer goes. */
  function Judge(dir: string, succeeds: nat -> bool, present: set<string>, p: Post, i: nat): (v: Verdict)
    ensures v.path == Destination(dir, p)
    ensures v.Skipped? <==> v.path in present
    ensures !v.Skipped? ==> (v.Downloaded? <==> succeeds(i))
  {
    var dest := Destination(dir, p);
    if dest in present then Skipped(dest)
    else if succeeds(i) then Downloaded(dest)
    else Failed(dest)
  }

  /** One visit: the running `progress` grows by the post's size before the
      outcome is known, and the verdict is recorded. */
  function Visit(dir: string, succeeds: nat -> bool, w: Walk, p: Post, i: nat): Walk {
    Record(w, Judge(dir, succeeds, w.present, p, i), UrlOf(p), SizeOf(p))
  }

  /** Recording a verdict: the counter of the verdict is incremented; every
      visit that is not a skip starts a transfer; a completed transfer leaves
      the file in place, a failed one removes it. */
  function Record(w: Walk, v: Verdict, url: string, size: nat): Walk {
    Walk(
      Tally(w.tally.total, w.tally.progress + size,
            w.tally.successful + (if v.Downloaded? then 1 else 0),
            w.tally.skipped + (if v.Skipped? then 1 else 0),
            w.tally.failed + (if v.Failed? then 1 else 0)),
      if v.Downloaded? then w.present + {v.path} else w.present,
      w.log + [v],
      if v.Skipped? then w.transfers else w.transfers + [(url, v.path)])
  }

  /** The callback of `forEachAsync`. On `undefined` (the call an empty array
      gets) reading `file_url` throws a TypeError, as it would on a post
      without a URL, which validation has already excluded. */
  function VisitCall(dir: string, succeeds: nat -> bool, w: Walk, item: Option<Post>, i: nat): (c: Call<Walk>)
    ensures c.Threw? <==> item.None? || item.value.fileUrl.None?
    ensures c.Threw? ==> c.reason == TypeError
    ensures c.Returned? ==> c.promise == Resolved(Visit(dir, succeeds, w, item.value, i))
  {
    match item
    case None => Threw(TypeError)
    case Some(p) =>
      if p.fileUrl.None? then Threw(TypeError)
      else Returned(Resolved(Visit(dir, succeeds, w, p, i)))
  }

  /** The visit, as the function the reference fold applies. */
  function Visitor(dir: string, succeeds: nat -> bool): (Walk, Post, nat) -> Walk {
    (w: Walk, p: Post, i: nat) => Visit(dir, succeeds, w, p, i)
  }

  /** The visit, as the callback `forEachAsync` calls. */
  function Visiting(dir: string, succeeds: nat -> bool): (Walk, Option<Post>, nat) -> Call<Walk> {
    (w: Walk, item: Option<Post>, i: nat) => VisitCall(dir, succeeds, w, item, i)
  }

  /** The state after visiting the first `k` posts, one after another. */
  function Run(dir: string, succeeds: nat -> bool, posts: seq<Post>, start: Walk, k: nat): Walk
    requires k <= |posts|
  {
    FoldPrefix(posts, Visitor(dir, succeeds), start, k)
  }

  /** The paths `existsSync` finds once the directory exists: the directory
      itself, and the names inside it that mean the directory or its parent.
      A `file_url` ending in `/`, `/.` or `/..` gives one of these as its
      destination. */
  function DirPaths(dir: string): set<string> {
    {dir, dir + "/", dir + "/.", dir + "/.."}
  }

  /** The state the visits start from. */
  function Start(posts: seq<Post>, present: set<string>): Walk {
    Walk(Tally(TotalSize(posts), 0, 0, 0, 0), present, [], [])
  }

  /** `E621.download(posts, directory)`. */
  function DownloadAll(posts: seq<Post>, dir: string, present: set<string>, succeeds: nat -> bool): (r: Outcome)
    ensures r.madeDir <==> dir !in present
    ensures r.run.Threw? <==> |posts| == 0 || FirstInvalid(posts).Some?
    ensures FirstInvalid(posts).Some? ==> r.run == Threw(InvalidPost(FirstInvalid(posts).value.ref))
    ensures |posts| == 0 ==> r.run == Threw(TypeError)
    ensures r.run.Returned? ==> r.run.promise == Resolved(Run(dir, succeeds, posts, Start(posts, present + DirPaths(dir)), |posts|))
  {
    var made := dir !in present;
    var present' := present + DirPaths(dir);
    match FirstInvalid(posts)
    case Some(p) => Outcome(made, Threw(InvalidPost(p.ref)))
    case None =>
      var step := Visiting(dir, succeeds);
      var s0 := Start(posts, present');
      var run := ForEachAsync(posts, step, s0);
      if |posts| == 0 then
        assert step(s0, ItemAt(posts, 0), 0) == Threw(TypeError);
        Outcome(made, run)
      else
        RunIsForEach(dir, succeeds, posts, s0);
        Outcome(made, run)
  }

  /** On valid posts `forEachAsync` over the visits resolves with the state
      after the last visit. */
  lemma RunIsForEach(dir: string, succeeds: nat -> bool, posts: seq<Post>, s0: Walk)
    requires |posts| > 0
    requires forall i :: 0 <= i < |posts| ==> Valid(posts[i])
    ensures ForEachAsync(posts, Visiting(dir, succeeds), s0) == Returned(Resolved(Run(dir, succeeds, posts, s0, |posts|)))
  {
    var step := Visiting(dir, succeeds);
    var g := Visitor(dir, succeeds);
    forall t: Walk, i | 0 <= i < |posts|
      ensures step(t, Some(posts[i]), i) == Returned(Resolved(g(t, posts[i], i)))
    {
    }
    ForEachAsyncFolds(posts, step, g, s0);
  }

  // -------------------------------------------------------------- accounting

  function Successes(log: seq<Verdict>): nat {
    if |log| == 0 then 0 else Successes(log[..|log| - 1]) + (if log[|log| - 1].Downloaded? then 1 else 0)
  }

  function Skips(log: seq<Verdict>): nat {
    if |log| == 0 then 0 else Skips(log[..|log| - 1]) + (if log[|log| - 1].Skipped? then 1 else 0)
  }

  function Failures(log: seq<Verdict>): nat {
    if |log| == 0 then 0 else Failures(log[..|log| - 1]) + (if log[|log| - 1].Failed? then 1 else 0)
  }

  /** The paths of the completed transfers in `log`. */
  function DownloadedPaths(log: seq<Verdict>): set<string> {
    set i | 0 <= i < |log| && log[i].Downloaded? :: log[i].path
  }

  lemma DownloadedPathsStep(log: seq<Verdict>, v: Verdict)
    ensures DownloadedPaths(log + [v]) == DownloadedPaths(log) + (if v.Downloaded? then {v.path} else {})
  {
    var l := log + [v];
    forall x
      ensures x in DownloadedPaths(l) <==> x in DownloadedPaths(log) + (if v.Downloaded? then {v.path} else {})
    {
      if x in DownloadedPaths(l) {
        var i :| 0 <= i < |l| && l[i].Downloaded? && l[i].path == x;
        if i < |log| {
          assert log[i] == l[i];
        }
      }
      if x in DownloadedPaths(log) {
        var i :| 0 <= i < |log| && log[i].Downloaded? && log[i].path == x;
        assert l[i] == log[i];
      }
      if v.Downloaded? && x == v.path {
        assert l[|log|] == v;
      }
    }
  }

  lemma DownloadedPathsPrefix(log: seq<Verdict>, i: nat)
    requires i <= |log|
    ensures DownloadedPaths(log[..i]) <= DownloadedPaths(log)
  {
    forall x | x in DownloadedPaths(log[..i])
      ensures x in DownloadedPaths(log)
    {
      var j :| 0 <= j < i && log[..i][j].Downloaded? && log[..i][j].path == x;
      assert log[j] == log[..i][j];
    }
  }

  /** The counters agree with the verdicts, one verdict per visit. */
  ghost predicate Counted(start: Walk, k: nat, w: Walk) {
    && |w.log| == k
    && w.tally.total == start.tally.total
    && w.tally.successful == start.tally.successful + Successes(w.log)
    && w.tally.skipped == start.tally.skipped + Skips(w.log)
    && w.tally.failed == start.tally.failed + Failures(w.log)
    && Successes(w.log) + Skips(w.log) + Failures(w.log) == k
    && |w.transfers| == Successes(w.log) + Failures(w.log)
  }

  /** `progress` is the size of the posts visited so far. */
  ghost predicate Progressed(posts: seq<Post>, start: Walk, k: nat, w: Walk) {
    k <= |posts| && w.tally.progress == start.tally.progress + SizeUpTo(posts, k)
  }

  /** Each verdict names its post's destination, and a visit that was not a
      skip completed exactly when its transfer succeeded. */
  ghost predicate Judged(dir: string, succeeds: nat -> bool, posts: seq<Post>, k: nat, log: seq<Verdict>)
    requires k <= |posts| && |log| == k
  {
    forall i :: 0 <= i < k ==> JudgedAt(dir, succeeds, posts[i], i, log[i])
  }

  ghost predicate JudgedAt(dir: string, succeeds: nat -> bool, p: Post, i: nat, v: Verdict) {
    v.path == Destination(dir, p) && (!v.Skipped? ==> (v.Downloaded? <==> succeeds(i)))
  }

  /** The filesystem holds what it held plus the completed transfers; a
      post is skipped exactly when its destination existed beforehand or an
      earlier post completed a transfer to it; no transfer targets a path
      that existed before the run. */
  ghost predicate Filed(start: Walk, k: nat, w: Walk)
    requires |w.log| == k
  {
    && w.present == start.present + DownloadedPaths(w.log)
    && (forall i :: 0 <= i < k ==>
          (w.log[i].Skipped? <==> w.log[i].path in start.present + DownloadedPaths(w.log[..i])))
    && (forall t :: t in w.transfers ==> t.1 !in start.present)
  }

  ghost predicate Accounts(dir: string, succeeds: nat -> bool, posts: seq<Post>, start: Walk, k: nat, w: Walk)
    requires k <= |posts|
  {
    Counted(start, k, w) && Progressed(posts, start, k, w) && Judged(dir, succeeds, posts, k, w.log) && Filed(start, k, w)
  }

  lemma RecordCounts(start: Walk, k: nat, w: Walk, v: Verdict, url: string, size: nat)
    requires Counted(start, k, w)
    ensures Counted(start, k + 1, Record(w, v, url, size))
  {
    var w' := Record(w, v, url, size);
    assert w'.log[..k] == w.log;
  }

  lemma RecordProgresses(posts: seq<Post>, start: Walk, k: nat, w: Walk, v: Verdict, url: string)
    requires k < |posts| && Progressed(posts, start, k, w)
    ensures Progressed(posts, start, k + 1, Record(w, v, url, SizeOf(posts[k])))
  {
    assert SizeUpTo(posts, k + 1) == SizeUpTo(posts, k) + SizeOf(posts[k]);
  }

  lemma RecordJudges(dir: string, succeeds: nat -> bool, posts: seq<Post>, log: seq<Verdict>, v: Verdict)
    requires |log| < |posts| && Judged(dir, succeeds, posts, |log|, log)
    requires JudgedAt(dir, succeeds, posts[|log|], |log|, v)
    ensures Judged(dir, succeeds, posts, |log| + 1, log + [v])
  {
    var judged := (i: nat, u: Verdict) => i < |posts| && JudgedAt(dir, succeeds, posts[i], i, u);
    assert forall i :: 0 <= i < |log| ==> judged(i, log[i]);
    SnocKeeps(log, v, judged);
  }

  /** A property of each verdict by position survives appending one more. */
  lemma SnocKeeps(log: seq<Verdict>, v: Verdict, P: (nat, Verdict) -> bool)
    requires forall i :: 0 <= i < |log| ==> P(i, log[i])
    requires P(|log|, v)
    ensures forall i :: 0 <= i < |log| + 1 ==> P(i, (log + [v])[i])
  {
  }

  lemma RecordFiles(start: Walk, k: nat, w: Walk, v: Verdict, url: string, size: nat)
    requires |w.log| == k && Filed(start, k, w)
    requires v.Skipped? <==> v.path in w.present
    ensures |Record(w, v, url, size).log| == k + 1
    ensures Filed(start, k + 1, Record(w, v, url, size))
  {
    var w' := Record(w, v, url, size);
    assert w'.log == w.log + [v];
    assert w'.log[..k] == w.log;
    DownloadedPathsStep(w.log, v);
    assert w'.present == start.present + DownloadedPaths(w'.log);
    forall i | 0 <= i < k + 1
      ensures w'.log[i].Skipped? <==> w'.log[i].path in start.present + DownloadedPaths(w'.log[..i])
    {
      if i < k {
        assert w'.log[i] == w.log[i];
        assert w'.log[..i] == w.log[..i];
      } else {
        assert w'.log[i] == v;
      }
    }
    assert w'.transfers == w.transfers || w'.transfers == w.transfers + [(url, v.path)];
  }

  /** The state after one more visit, with the verdict named. */
  lemma VisitRecords(dir: string, succeeds: nat -> bool, t: Walk, p: Post, i: nat)
    ensures Visitor(dir, succeeds)(t, p, i) == Record(t, Judge(dir, succeeds, t.present, p, i), UrlOf(p), SizeOf(p))
  {
  }

  lemma RunCounts(dir: string, succeeds: nat -> bool, posts: seq<Post>, start: Walk, k: nat)
    requires k <= |posts| && start.log == [] && start.transfers == []
    ensures Counted(start, k, Run(dir, succeeds, posts, start, k))
  {
    var g := Visitor(dir, succeeds);
    var inv := (i: nat, w: Walk) => Counted(start, i, w);
    forall i: nat, t: Walk | i < |posts| && inv(i, t)
      ensures inv(i + 1, g(t, posts[i], i))
    {
      var v := Judge(dir, succeeds, t.present, posts[i], i);
      VisitRecords(dir, succeeds, t, posts[i], i);
      RecordCounts(start, i, t, v, UrlOf(posts[i]), SizeOf(posts[i]));
    }
    FoldPrefixKeeps(posts, g, start, k, inv);
  }

  lemma RunProgresses(dir: string, succeeds: nat -> bool, posts: seq<Post>, start: Walk, k: nat)
    requires k <= |posts|
    ensures Progressed(posts, start, k, Run(dir, succeeds, posts, start, k))
  {
    var g := Visitor(dir, succeeds);
    var inv := (i: nat, w: Walk) => Progressed(posts, start, i, w);
    forall i: nat, t: Walk | i < |posts| && inv(i, t)
      ensures inv(i + 1, g(t, posts[i], i))
    {
      var v := Judge(dir, succeeds, t.present, posts[i], i);
      VisitRecords(dir, succeeds, t, posts[i], i);
      RecordProgresses(posts, start, i, t, v, UrlOf(posts[i]));
    }
    FoldPrefixKeeps(posts, g, start, k, inv);
  }

  lemma RunJudges(dir: string, succeeds: nat -> bool, posts: seq<Post>, start: Walk, k: nat)
    requires k <= |posts| && start.log == []
    ensures |Run(dir, succeeds, posts, start, k).log| == k
    ensures Judged(dir, succeeds, posts, k, Run(dir, succeeds, posts, start, k).log)
  {
    var g := Visitor(dir, succeeds);
    var inv := (i: nat, w: Walk) => i <= |posts| && |w.log| == i && Judged(dir, succeeds, posts, i, w.log);
    forall i: nat, t: Walk | i < |posts| && inv(i, t)
      ensures inv(i + 1, g(t, posts[i], i))
    {
      var v := Judge(dir, succeeds, t.present, posts[i], i);
      VisitRecords(dir, succeeds, t, posts[i], i);
      assert g(t, posts[i], i).log == t.log + [v];
      RecordJudges(dir, succeeds, posts, t.log, v);
    }
    FoldPrefixKeeps(posts, g, start, k, inv);
  }

  lemma RunFiles(dir: string, succeeds: nat -> bool, posts: seq<Post>, start: Walk, k: nat)
    requires k <= |posts| && start.log == [] && start.transfers == []
    ensures |Run(dir, succeeds, posts, start, k).log| == k
    ensures Filed(start, k, Run(dir, succeeds, posts, start, k))
  {
    var g := Visitor(dir, succeeds);
    var inv := (i: nat, w: Walk) => |w.log| == i && Filed(start, i, w);
    assert DownloadedPaths([]) == {};
    forall i: nat, t: Walk | i < |posts| && inv(i, t)
      ensures inv(i + 1, g(t, posts[i], i))
    {
      VisitFiles(dir, succeeds, start, i, t, posts[i]);
    }
    FoldPrefixKeeps(posts, g, start, k, inv);
  }

  lemma VisitFiles(dir: string, succeeds: nat -> bool, start: Walk, i: nat, t: Walk, p: Post)
    requires |t.log| == i && Filed(start, i, t)
    ensures |Visitor(dir, succeeds)(t, p, i).log| == i + 1
    ensures Filed(start, i + 1, Visitor(dir, succeeds)(t, p, i))
  {
    var v := Judge(dir, succeeds, t.present, p, i);
    VisitRecords(dir, succeeds, t, p, i);
    RecordFiles(start, i, t, v, UrlOf(p), SizeOf(p));
  }

  /** Every visit keeps the accounts. */
  lemma RunAccounts(dir: string, succeeds: nat -> bool, posts: seq<Post>, start: Walk, k: nat)
    requires k <= |posts|
    requires start.log == [] && start.transfers == []
    ensures Accounts(dir, succeeds, posts, start, k, Run(dir, succeeds, posts, start, k))
  {
    RunCounts(dir, succeeds, posts, start, k);
    RunProgresses(dir, succeeds, posts, start, k);
    RunJudges(dir, succeeds, posts, start, k);
    RunFiles(dir, succeeds, posts, start, k);
  }

  /** After a successful run: `progress` has reached `total`, the three
      counters add up to the number of posts and agree with the verdicts,
      each post's verdict names its destination, exactly the completed
      transfers have been added to the filesystem, a post is skipped exactly
      when its file existed before or an earlier post completed it, and
      nothing that existed before was transferred over. */
  lemma DownloadAccounts(posts: seq<Post>, dir: string, present: set<string>, succeeds: nat -> bool)
    requires DownloadAll(posts, dir, present, succeeds).run.Returned?
    ensures var w := DownloadAll(posts, dir, present, succeeds).run.promise.value;
      && w.tally.progress == w.tally.total == TotalSize(posts)
      && w.tally.successful + w.tally.skipped + w.tally.failed == |posts|
      && w.tally.successful == Successes(w.log) && w.tally.skipped == Skips(w.log) && w.tally.failed == Failures(w.log)
      && |w.log| == |posts|
      && (forall i :: 0 <= i < |posts| ==> w.log[i].path == dir + "/" + FileName(posts[i].fileUrl.value))
      && (forall i :: 0 <= i < |posts| ==>
            (w.log[i].Skipped? <==> w.log[i].path in present + DirPaths(dir) + DownloadedPaths(w.log[..i])))
      && w.present == present + DirPaths(dir) + DownloadedPaths(w.log)
      && (forall t :: t in w.transfers ==> t.1 !in present + DirPaths(dir))
  {
    DownloadCounts(posts, dir, present, succeeds);
    DownloadFiles(posts, dir, present, succeeds);
  }

  /** The counters of a successful run. */
  lemma DownloadCounts(posts: seq<Post>, dir: string, present: set<string>, succeeds: nat -> bool)
    requires DownloadAll(posts, dir, present, succeeds).run.Returned?
    ensures var w := DownloadAll(posts, dir, present, succeeds).run.promise.value;
      && w.tally.progress == w.tally.total == TotalSize(posts)
      && w.tally.successful + w.tally.skipped + w.tally.failed == |posts|
      && w.tally.successful == Successes(w.log) && w.tally.skipped == Skips(w.log) && w.tally.failed == Failures(w.log)
      && |w.log| == |posts|
  {
    var s0 := Start(posts, present + DirPaths(dir));
    RunCounts(dir, succeeds, posts, s0, |posts|);
    RunProgresses(dir, succeeds, posts, s0, |posts|);
  }

  /** The verdicts and the filesystem after a successful run. */
  lemma DownloadFiles(posts: seq<Post>, dir: string, present: set<string>, succeeds: nat -> bool)
    requires DownloadAll(posts, dir, present, succeeds).run.Returned?
    ensures var w := DownloadAll(posts, dir, present, succeeds).run.promise.value;
      && |w.log| == |posts|
      && (forall i :: 0 <= i < |posts| ==> w.log[i].path == dir + "/" + FileName(posts[i].fileUrl.value))
      && (forall i :: 0 <= i < |posts| ==>
            (w.log[i].Skipped? <==> w.log[i].path in present + DirPaths(dir) + DownloadedPaths(w.log[..i])))
      && w.present == present + DirPaths(dir) + DownloadedPaths(w.log)
      && (forall t :: t in w.transfers ==> t.1 !in present + DirPaths(dir))
  {
    var s0 := Start(posts, present + DirPaths(dir));
    RunJudges(dir, succeeds, posts, s0, |posts|);
    RunFiles(dir, succeeds, posts, s0, |posts|);
    var w := Run(dir, succeeds, posts, s0, |posts|);
    assert DownloadAll(posts, dir, present, succeeds).run.promise.value == w;
    forall i | 0 <= i < |posts|
      ensures w.log[i].path == dir + "/" + FileName(posts[i].fileUrl.value)
    {
      assert Valid(posts[i]);
      assert JudgedAt(dir, succeeds, posts[i], i, w.log[i]);
    }
  }

  /** A post whose file name is empty, `.` or `..` names the directory or
      its parent: it is skipped, and nothing is transferred to that path. */
  lemma DirectoryNameSkipped(posts: seq<Post>, dir: string, present: set<string>, succeeds: nat -> bool, i: nat)
    requires DownloadAll(posts, dir, present, succeeds).run.Returned?
    requires i < |posts| && posts[i].fileUrl.Some?
    requires var name := FileName(posts[i].fileUrl.value); name == "" || name == "." || name == ".."
    ensures var w := DownloadAll(posts, dir, present, succeeds).run.promise.value;
      && i < |w.log| && w.log[i] == Skipped(dir + "/" + FileName(posts[i].fileUrl.value))
      && forall t :: t in w.transfers ==> t.1 != dir + "/" + FileName(posts[i].fileUrl.value)
  {
    DirectoryNames(dir, FileName(posts[i].fileUrl.value));
    DownloadAccounts(posts, dir, present, succeeds);
  }

  lemma DirectoryNames(dir: string, name: string)
    requires name == "" || name == "." || name == ".."
    ensures dir + "/" + name in DirPaths(dir)
  {
    if name == "" {
      assert dir + "/" + name == dir + "/";
    } else if name == "." {
      assert dir + "/" + name == dir + "/.";
    } else {
      assert dir + "/" + name == dir + "/..";
    }
  }

  /** Downloading the same batch again, after a run in which every transfer
      completed, transfers nothing: every post is skipped. */
  lemma SecondRunSkipsAll(posts: seq<Post>, dir: string, present: set<string>, succeeds: nat -> bool, again: nat -> bool)
    requires DownloadAll(posts, dir, present, succeeds).run.Returned?
    requires forall i :: 0 <= i < |posts| ==> succeeds(i)
    ensures var w := DownloadAll(posts, dir, present, succeeds).run.promise.value;
      var r2 := DownloadAll(posts, dir, w.present, again).run;
      && r2.Returned? && r2.promise.value.tally.skipped == |posts| && r2.promise.value.transfers == []
  {
    var s0 := Start(posts, present + DirPaths(dir));
    var w := Run(dir, succeeds, posts, s0, |posts|);
    CompletedRunLeavesFiles(dir, succeeds, posts, s0);
    assert DownloadAll(posts, dir, present, succeeds).run.promise.value == w;
    var s1 := Start(posts, w.present + DirPaths(dir));
    AllPresentSkipped(dir, again, posts, s1, |posts|);
    assert DownloadAll(posts, dir, w.present, again).run.promise.value == Run(dir, again, posts, s1, |posts|);
  }

  /** After a run in which every transfer completed, every destination
      exists. */
  lemma CompletedRunLeavesFiles(dir: string, succeeds: nat -> bool, posts: seq<Post>, s0: Walk)
    requires s0.log == [] && s0.transfers == []
    requires forall i :: 0 <= i < |posts| ==> succeeds(i)
    ensures forall i :: 0 <= i < |posts| ==> Destination(dir, posts[i]) in Run(dir, succeeds, posts, s0, |posts|).present
  {
    var w := Run(dir, succeeds, posts, s0, |posts|);
    RunJudges(dir, succeeds, posts, s0, |posts|);
    RunFiles(dir, succeeds, posts, s0, |posts|);
    forall i | 0 <= i < |posts|
      ensures Destination(dir, posts[i]) in w.present
    {
      var v := w.log[i];
      if v.Skipped? {
        DownloadedPathsPrefix(w.log, i);
      } else {
        assert v.path in DownloadedPaths(w.log);
      }
    }
  }

  /** When every destination already exists, every visit is a skip. */
  lemma AllPresentSkipped(dir: string, succeeds: nat -> bool, posts: seq<Post>, s0: Walk, k: nat)
    requires k <= |posts|
    requires forall i :: 0 <= i < |posts| ==> Destination(dir, posts[i]) in s0.present
    ensures var w := Run(dir, succeeds, posts, s0, k);
      w.transfers == s0.transfers && w.tally.skipped == s0.tally.skipped + k && w.present == s0.present
  {
    var g := Visitor(dir, succeeds);
    var inv := (i: nat, w: Walk) =>
      w.transfers == s0.transfers && w.tally.skipped == s0.tally.skipped + i && w.present == s0.present;
    forall i: nat, t: Walk | i < |posts| && inv(i, t)
      ensures inv(i + 1, g(t, posts[i], i))
    {
      var v := Judge(dir, succeeds, t.present, posts[i], i);
      VisitRecords(dir, succeeds, t, posts[i], i);
      assert v.Skipped?;
    }
    FoldPrefixKeeps(posts, g, s0, k, inv);
  }
}
