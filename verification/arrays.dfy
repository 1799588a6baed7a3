/**
  The array helpers the downloader adds to `Array.prototype` (src/index.js
  lines 6-42): the sequential `forEachAsync` and `mapAsync`, the recursive
  `flatten`, and `unique`, which compares elements the way `includes` does.
 */
module ArrayUtils {
  import opened Promises

  /** A JavaScript value as far as `flatten`, `unique` and `!= null` can tell:
      `null`, an object (of type `T`, compared by identity), or an array. */
  datatype Value<+T> = Null | Obj(obj: T) | Arr(elems: seq<Value<T>>)

  /** `iterable[i]`: the element, or `undefined` past the end. */
  function ItemAt<T>(xs: seq<T>, i: nat): (r: Option<T>)
    ensures r.Some? <==> i < |xs|
    ensures r.Some? ==> r.value == xs[i]
  {
    if i < |xs| then Some(xs[i]) else None
  }

  /** How many times the helpers call their callback: once per element, and
      once (at index 0, with `undefined`) for an empty array, because both
      start with `_next(0)` before looking at the length. */
  function Calls<T>(xs: seq<T>): (n: nat)
    ensures n >= 1 && n >= |xs|
  {
    if |xs| == 0 then 1 else |xs|
  }

  // ---------------------------------------------------------------- mapAsync

  /** `mapAsync`: calls `f(iterable[i], i)` for i = 0, 1, … in order, each call
      only after the previous one settled; collects every result that is not
      `undefined`; stops at the first failure. A synchronous throw at index 0
      escapes `mapAsync` itself; at later indices it happens inside a `then`
      and becomes a rejection. */
  function MapAsync<T, U>(xs: seq<T>, f: (Option<T>, nat) -> Call<Option<U>>): (r: Call<seq<U>>)
    ensures r.Threw? <==> f(ItemAt(xs, 0), 0).Threw?
    ensures r.Threw? ==> r.reason == f(ItemAt(xs, 0), 0).reason
    ensures r.Resolves() ==> forall j :: 0 <= j < Calls(xs) ==> f(ItemAt(xs, j), j).Resolves()
    ensures r.Resolves() ==> |r.promise.value| <= Calls(xs)
  {
    MapFrom(xs, f, 0, [])
  }

  function MapFrom<T, U>(xs: seq<T>, f: (Option<T>, nat) -> Call<Option<U>>, i: nat, acc: seq<U>): (r: Call<seq<U>>)
    requires i < Calls(xs)
    ensures r.Threw? <==> i == 0 && f(ItemAt(xs, 0), 0).Threw?
    ensures r.Threw? ==> r.reason == f(ItemAt(xs, 0), 0).reason
    ensures r.Resolves() ==> forall j :: i <= j < Calls(xs) ==> f(ItemAt(xs, j), j).Resolves()
    ensures r.Resolves() ==> |r.promise.value| <= |acc| + Calls(xs) - i
    decreases Calls(xs) - i
  {
    match f(ItemAt(xs, i), i)
    case Threw(e) => if i == 0 then Threw(e) else Returned(Rejected(e))
    case Returned(Rejected(e)) => Returned(Rejected(e))
    case Returned(Resolved(v)) =>
      var acc' := if v.Some? then acc + [v.value] else acc;
      if i + 1 < |xs| then MapFrom(xs, f, i + 1, acc') else Returned(Resolved(acc'))
  }

  /** The defined results of the calls from index `i` on, in call order (the
      reference `mapAsync` is measured against). */
  function DefinedFrom<T, U>(xs: seq<T>, f: (Option<T>, nat) -> Call<Option<U>>, i: nat): seq<U>
    requires i <= Calls(xs)
    requires forall j :: i <= j < Calls(xs) ==> f(ItemAt(xs, j), j).Resolves()
    decreases Calls(xs) - i
  {
    if i == Calls(xs) then []
    else
      assert f(ItemAt(xs, i), i).Resolves();
      var c := f(ItemAt(xs, i), i).promise.value;
      Defined(c) + DefinedFrom(xs, f, i + 1)
  }

  /** The result of one call as `mapAsync` collects it: nothing for `undefined`. */
  function Defined<U>(v: Option<U>): (r: seq<U>)
    ensures |r| <= 1 && (|r| == 1 <==> v.Some?) && (v.Some? ==> r[0] == v.value)
  {
    if v.Some? then [v.value] else []
  }

  /** `x` is a leaf of what some call from index `i` on resolved with. */
  ghost predicate LeafFrom<T, U>(xs: seq<T>, f: (Option<T>, nat) -> Call<Option<Value<U>>>, i: nat, x: Value<U>) {
    exists j :: i <= j < Calls(xs) && f(ItemAt(xs, j), j).Resolves() && x in Flatten(Defined(f(ItemAt(xs, j), j).promise.value))
  }

  /** The leaves of the collected results are the leaves of the individual
      results, whatever their nesting. */
  lemma {:induction false} FlattenDefinedFrom<T, U>(xs: seq<T>, f: (Option<T>, nat) -> Call<Option<Value<U>>>, i: nat, x: Value<U>)
    requires i <= Calls(xs)
    requires forall j :: i <= j < Calls(xs) ==> f(ItemAt(xs, j), j).Resolves()
    ensures x in Flatten(DefinedFrom(xs, f, i)) <==> LeafFrom(xs, f, i, x)
    decreases Calls(xs) - i
  {
    if i < Calls(xs) {
      var head := Defined(f(ItemAt(xs, i), i).promise.value);
      var rest := DefinedFrom(xs, f, i + 1);
      assert DefinedFrom(xs, f, i) == head + rest;
      FlattenAppend(head, rest);
      FlattenDefinedFrom(xs, f, i + 1, x);
      LeafFromStep(xs, f, i, x);
    }
  }

  /** A leaf from index `i` on is a leaf of call `i` or of a later call. */
  lemma LeafFromStep<T, U>(xs: seq<T>, f: (Option<T>, nat) -> Call<Option<Value<U>>>, i: nat, x: Value<U>)
    requires i < Calls(xs)
    requires f(ItemAt(xs, i), i).Resolves()
    ensures LeafFrom(xs, f, i, x) <==>
      x in Flatten(Defined(f(ItemAt(xs, i), i).promise.value)) || LeafFrom(xs, f, i + 1, x)
  {
    if LeafFrom(xs, f, i, x) {
      var j :| i <= j < Calls(xs) && f(ItemAt(xs, j), j).Resolves() && x in Flatten(Defined(f(ItemAt(xs, j), j).promise.value));
      if j > i {
        assert LeafFrom(xs, f, i + 1, x);
      }
    }
    if LeafFrom(xs, f, i + 1, x) {
      var j :| i + 1 <= j < Calls(xs) && f(ItemAt(xs, j), j).Resolves() && x in Flatten(Defined(f(ItemAt(xs, j), j).promise.value));
      assert LeafFrom(xs, f, i, x);
    }
  }

  /** When every call resolves, `mapAsync` resolves with exactly the defined
      results, in index order. */
  lemma {:induction false} MapAsyncCollects<T, U>(xs: seq<T>, f: (Option<T>, nat) -> Call<Option<U>>)
    requires forall j :: 0 <= j < Calls(xs) ==> f(ItemAt(xs, j), j).Resolves()
    ensures MapAsync(xs, f) == Returned(Resolved(DefinedFrom(xs, f, 0)))
  {
    MapFromCollects(xs, f, 0, []);
    assert [] + DefinedFrom(xs, f, 0) == DefinedFrom(xs, f, 0);
  }

  lemma {:induction false} MapFromCollects<T, U>(xs: seq<T>, f: (Option<T>, nat) -> Call<Option<U>>, i: nat, acc: seq<U>)
    requires i < Calls(xs)
    requires forall j :: i <= j < Calls(xs) ==> f(ItemAt(xs, j), j).Resolves()
    ensures MapFrom(xs, f, i, acc) == Returned(Resolved(acc + DefinedFrom(xs, f, i)))
    decreases Calls(xs) - i
  {
    assert f(ItemAt(xs, i), i).Resolves();
    var v := f(ItemAt(xs, i), i).promise.value;
    var head := if v.Some? then [v.value] else [];
    assert DefinedFrom(xs, f, i) == head + DefinedFrom(xs, f, i + 1);
    assert f(ItemAt(xs, i), i) == Returned(Resolved(v));
    assert (if v.Some? then acc + [v.value] else acc) == acc + head;
    if i + 1 < |xs| {
      assert MapFrom(xs, f, i, acc) == MapFrom(xs, f, i + 1, acc + head);
      MapFromCollects(xs, f, i + 1, acc + head);
      AppendAssoc(acc, head, DefinedFrom(xs, f, i + 1));
    } else {
      assert DefinedFrom(xs, f, i + 1) == [];
      assert MapFrom(xs, f, i, acc) == Returned(Resolved(acc + head));
      assert acc + head == acc + DefinedFrom(xs, f, i);
    }
  }

  lemma AppendAssoc<U>(a: seq<U>, b: seq<U>, c: seq<U>)
    ensures a + b + c == a + (b + c)
  {
  }

  /** The first failing call decides the outcome: later elements are never
      visited, a throw at index 0 escapes synchronously, and any other failure
      rejects the whole `mapAsync` with its reason. */
  lemma {:induction false} MapAsyncStopsAtFailure<T, U>(xs: seq<T>, f: (Option<T>, nat) -> Call<Option<U>>, k: nat)
    requires k < Calls(xs)
    requires forall j :: 0 <= j < k ==> f(ItemAt(xs, j), j).Resolves()
    requires !f(ItemAt(xs, k), k).Resolves()
    ensures var c := f(ItemAt(xs, k), k);
      MapAsync(xs, f) ==
        if c.Threw? && k == 0 then Threw(c.reason)
        else Returned(Rejected(if c.Threw? then c.reason else c.promise.reason))
  {
    MapFromStops(xs, f, 0, [], k);
  }

  lemma {:induction false} MapFromStops<T, U>(xs: seq<T>, f: (Option<T>, nat) -> Call<Option<U>>, i: nat, acc: seq<U>, k: nat)
    requires i <= k < Calls(xs)
    requires forall j :: 0 <= j < k ==> f(ItemAt(xs, j), j).Resolves()
    requires !f(ItemAt(xs, k), k).Resolves()
    ensures var c := f(ItemAt(xs, k), k);
      MapFrom(xs, f, i, acc) ==
        if c.Threw? && k == 0 then Threw(c.reason)
        else Returned(Rejected(if c.Threw? then c.reason else c.promise.reason))
    decreases k - i
  {
    if i < k {
      assert f(ItemAt(xs, i), i).Resolves();
      var v := f(ItemAt(xs, i), i).promise.value;
      MapFromStops(xs, f, i + 1, if v.Some? then acc + [v.value] else acc, k);
    }
  }

  // ----------------------------------------------------------- forEachAsync

  /** `forEachAsync`, with the callback's effect on the variables it closes
      over made explicit as a state `S` that each call maps to the next. */
  function ForEachAsync<T, S>(xs: seq<T>, step: (S, Option<T>, nat) -> Call<S>, s: S): (r: Call<S>)
    ensures r.Threw? <==> step(s, ItemAt(xs, 0), 0).Threw?
    ensures r.Threw? ==> r.reason == step(s, ItemAt(xs, 0), 0).reason
  {
    ForEachFrom(xs, step, 0, s)
  }

  function ForEachFrom<T, S>(xs: seq<T>, step: (S, Option<T>, nat) -> Call<S>, i: nat, s: S): (r: Call<S>)
    requires i < Calls(xs)
    ensures r.Threw? <==> i == 0 && step(s, ItemAt(xs, 0), 0).Threw?
    ensures r.Threw? ==> r.reason == step(s, ItemAt(xs, 0), 0).reason
    decreases Calls(xs) - i
  {
    match step(s, ItemAt(xs, i), i)
    case Threw(e) => if i == 0 then Threw(e) else Returned(Rejected(e))
    case Returned(Rejected(e)) => Returned(Rejected(e))
    case Returned(Resolved(s')) =>
      if i + 1 < |xs| then ForEachFrom(xs, step, i + 1, s') else Returned(Resolved(s'))
  }

  /** The plain left fold over the elements `forEachAsync` is measured
      against: the state after applying `g` to the first `k` elements. */
  function FoldPrefix<T, S>(xs: seq<T>, g: (S, T, nat) -> S, s: S, k: nat): S
    requires k <= |xs|
  {
    if k == 0 then s else g(FoldPrefix(xs, g, s, k - 1), xs[k - 1], k - 1)
  }

  /** On a non-empty array whose callback always resolves, `forEachAsync` is
      the left fold of the callback over the elements in index order. */
  lemma ForEachAsyncFolds<T, S>(xs: seq<T>, step: (S, Option<T>, nat) -> Call<S>, g: (S, T, nat) -> S, s: S)
    requires |xs| > 0
    requires forall t: S, i :: 0 <= i < |xs| ==> step(t, Some(xs[i]), i) == Returned(Resolved(g(t, xs[i], i)))
    ensures ForEachAsync(xs, step, s) == Returned(Resolved(FoldPrefix(xs, g, s, |xs|)))
  {
    ForEachFromFolds(xs, step, g, s, 0);
  }

  lemma {:induction false} ForEachFromFolds<T, S>(xs: seq<T>, step: (S, Option<T>, nat) -> Call<S>, g: (S, T, nat) -> S, s: S, i: nat)
    requires i < |xs|
    requires forall t: S, i :: 0 <= i < |xs| ==> step(t, Some(xs[i]), i) == Returned(Resolved(g(t, xs[i], i)))
    ensures ForEachFrom(xs, step, i, FoldPrefix(xs, g, s, i)) == Returned(Resolved(FoldPrefix(xs, g, s, |xs|)))
    decreases |xs| - i
  {
    assert ItemAt(xs, i) == Some(xs[i]);
    if i + 1 < |xs| {
      ForEachFromFolds(xs, step, g, s, i + 1);
    }
  }

  /** A property of the state that every step keeps holds after any number
      of steps. */
  lemma {:induction false} FoldPrefixKeeps<T, S>(xs: seq<T>, g: (S, T, nat) -> S, s: S, k: nat, inv: (nat, S) -> bool)
    requires k <= |xs|
    requires inv(0, s)
    requires forall i: nat, t: S :: i < |xs| && inv(i, t) ==> inv(i + 1, g(t, xs[i], i))
    ensures inv(k, FoldPrefix(xs, g, s, k))
  {
    if k > 0 {
      FoldPrefixKeeps(xs, g, s, k - 1, inv);
    }
  }

  /** On an empty array both helpers still make exactly one call, at index 0
      with `undefined`: `forEachAsync` behaves exactly like that call, and
      `mapAsync` settles as that call does. */
  lemma EmptyArrayCallsOnce<T, U, S>(f: (Option<T>, nat) -> Call<Option<U>>, step: (S, Option<T>, nat) -> Call<S>, s: S)
    ensures ForEachAsync([], step, s) == step(s, None, 0)
    ensures var c := f(None, 0);
      MapAsync([], f) ==
        match c
        case Threw(e) => Threw(e)
        case Returned(Rejected(e)) => Returned(Rejected(e))
        case Returned(Resolved(v)) => Returned(Resolved(if v.Some? then [v.value] else []))
  {
    var none: seq<T> := [];
    assert ItemAt(none, 0) == None;
    match f(None, 0)
    case Threw(e) =>
    case Returned(Rejected(e)) =>
    case Returned(Resolved(v)) =>
      assert v.Some? ==> [] + [v.value] == [v.value];
  }

  // ----------------------------------------------------------------- flatten

  predicate IsFlat<T>(xs: seq<Value<T>>) {
    forall i :: 0 <= i < |xs| ==> !xs[i].Arr?
  }

  /** `flatten`: every nested array replaced, recursively, by its elements. */
  function Flatten<T>(xs: seq<Value<T>>): (r: seq<Value<T>>)
    ensures IsFlat(r)
    decreases xs
  {
    if |xs| == 0 then []
    else (if xs[0].Arr? then Flatten(xs[0].elems) else [xs[0]]) + Flatten(xs[1..])
  }

  /** `x` is a non-array value found somewhere inside `xs`, at any depth. */
  ghost predicate Occurs<T>(x: Value<T>, xs: seq<Value<T>>)
    decreases xs
  {
    exists i :: 0 <= i < |xs| && ((!xs[i].Arr? && xs[i] == x) || (xs[i].Arr? && Occurs(x, xs[i].elems)))
  }

  /** `flatten` distributes over concatenation: the leaves come out left to right. */
  lemma {:induction false} FlattenAppend<T>(a: seq<Value<T>>, b: seq<Value<T>>)
    ensures Flatten(a + b) == Flatten(a) + Flatten(b)
    decreases |a|
  {
    if |a| == 0 {
      assert a + b == b;
    } else {
      var head := if a[0].Arr? then Flatten(a[0].elems) else [a[0]];
      assert (a + b)[0] == a[0];
      assert (a + b)[1..] == a[1..] + b;
      assert Flatten(a + b) == head + Flatten(a[1..] + b);
      assert Flatten(a) == head + Flatten(a[1..]);
      FlattenAppend(a[1..], b);
    }
  }

  /** A flat array is left as it is, so `flatten` is idempotent. */
  lemma {:induction false} FlattenFlat<T>(xs: seq<Value<T>>)
    requires IsFlat(xs)
    ensures Flatten(xs) == xs
    decreases |xs|
  {
    if |xs| > 0 {
      FlattenFlat(xs[1..]);
    }
  }

  /** The result of `flatten` holds exactly the non-array values found at any
      depth of the input. */
  lemma {:induction false} FlattenMembers<T>(xs: seq<Value<T>>, x: Value<T>)
    ensures x in Flatten(xs) <==> !x.Arr? && Occurs(x, xs)
    decreases xs
  {
    if |xs| == 0 {
    } else {
      var head := if xs[0].Arr? then Flatten(xs[0].elems) else [xs[0]];
      assert Flatten(xs) == head + Flatten(xs[1..]);
      FlattenMembers(xs[1..], x);
      if xs[0].Arr? {
        FlattenMembers(xs[0].elems, x);
      }
      OccursCons(x, xs);
    }
  }

  lemma OccursCons<T>(x: Value<T>, xs: seq<Value<T>>)
    requires |xs| > 0
    ensures Occurs(x, xs) <==>
      ((!xs[0].Arr? && xs[0] == x) || (xs[0].Arr? && Occurs(x, xs[0].elems)) || Occurs(x, xs[1..]))
  {
    if Occurs(x, xs[1..]) {
      var i :| 0 <= i < |xs[1..]| && ((!xs[1..][i].Arr? && xs[1..][i] == x) || (xs[1..][i].Arr? && Occurs(x, xs[1..][i].elems)));
      assert xs[i + 1] == xs[1..][i];
    }
    if Occurs(x, xs) {
      var i :| 0 <= i < |xs| && ((!xs[i].Arr? && xs[i] == x) || (xs[i].Arr? && Occurs(x, xs[i].elems)));
      if i > 0 {
        assert xs[1..][i - 1] == xs[i];
      }
    }
  }

  // ------------------------------------------------------------------ unique

  predicate NoDuplicates<T(==)>(xs: seq<T>) {
    forall i, j :: 0 <= i < j < |xs| ==> xs[i] != xs[j]
  }

  /** `unique`: `reduce` with an accumulator that receives an element only if
      `includes` does not find it there yet. */
  function Unique<T(==,!new)>(xs: seq<T>): (r: seq<T>)
    ensures NoDuplicates(r)
    ensures forall x :: x in r <==> x in xs
    ensures r == KeepFirst(xs)
  {
    assert KeepFirst<T>([]) == [] && [] + xs == xs;
    UniqueIntoKeepFirst([], xs);
    UniqueInto([], xs)
  }

  function UniqueInto<T(==,!new)>(acc: seq<T>, xs: seq<T>): (r: seq<T>)
    requires NoDuplicates(acc)
    ensures NoDuplicates(r)
    ensures forall x :: x in r <==> x in acc || x in xs
    decreases |xs|
  {
    if |xs| == 0 then acc
    else UniqueInto(if xs[0] in acc then acc else acc + [xs[0]], xs[1..])
  }

  /** Run from the first occurrences of a prefix `p`, the reduction yields the
      first occurrences of `p + xs`. */
  lemma {:induction false} UniqueIntoKeepFirst<T(!new)>(p: seq<T>, xs: seq<T>)
    requires NoDuplicates(KeepFirst(p))
    ensures UniqueInto(KeepFirst(p), xs) == KeepFirst(p + xs)
    decreases |xs|
  {
    if |xs| == 0 {
      assert p + xs == p;
    } else {
      var acc := KeepFirst(p);
      KeepFirstMembers(p);
      assert (p + [xs[0]])[..|p|] == p;
      assert (if xs[0] in acc then acc else acc + [xs[0]]) == KeepFirst(p + [xs[0]]);
      assert p + [xs[0]] + xs[1..] == p + xs;
      UniqueIntoKeepFirst(p + [xs[0]], xs[1..]);
    }
  }

  /** The reference for `unique`: the elements that do not occur earlier,
      in their original order. */
  function KeepFirst<T(==)>(xs: seq<T>): seq<T> {
    if |xs| == 0 then []
    else
      var init := xs[..|xs| - 1];
      KeepFirst(init) + (if xs[|xs| - 1] in init then [] else [xs[|xs| - 1]])
  }

  /** One more element is kept exactly when it is new. */
  lemma KeepFirstSnoc<T>(xs: seq<T>, x: T)
    ensures KeepFirst(xs + [x]) == KeepFirst(xs) + (if x in xs then [] else [x])
  {
    assert (xs + [x])[..|xs|] == xs;
  }

  lemma {:induction false} KeepFirstMembers<T>(xs: seq<T>)
    ensures forall x :: x in KeepFirst(xs) <==> x in xs
    decreases |xs|
  {
    if |xs| > 0 {
      var init := xs[..|xs| - 1];
      KeepFirstMembers(init);
      assert xs == init + [xs[|xs| - 1]];
    }
  }

  /** A duplicate-free array is its own `KeepFirst`, hence `unique` leaves it
      unchanged and applying `unique` twice is applying it once. */
  lemma {:induction false} KeepFirstOfDistinct<T>(xs: seq<T>)
    requires NoDuplicates(xs)
    ensures KeepFirst(xs) == xs
    decreases |xs|
  {
    if |xs| > 0 {
      var init := xs[..|xs| - 1];
      KeepFirstOfDistinct(init);
      assert xs == init + [xs[|xs| - 1]];
    }
  }

  lemma UniqueIdempotent<T(!new)>(xs: seq<T>)
    ensures Unique(Unique(xs)) == Unique(xs)
  {
    KeepFirstOfDistinct(Unique(xs));
  }
}
