/**
  The regular expressions the two revisions use to classify a reference,
  written out as predicates over positions of the input (no regex engine):

    DIRECT  e621.net\/.*\/([0-9a-f]{32})                 (both revisions)
    POST    e621\.net\/post\/show\/(\d+)                 (src/index.js)
    POST    https?:\/\/e621\.net\/post\/show\/(\d+)      (index.js)
    POOL    https?:\/\/e621\.net\/pool\/show\/(\d+)      (index.js)
    HASH    [0-9a-f]{32}           first match, used to extract the hash
    ID      show\/(\d+)            first match, group 1 used as the id

  `test` is true when some match exists; `match` finds the leftmost one, and
  a greedy `\d+` extends as far as the digits go.
 */
module Patterns {
  import opened Promises
  import opened Text

  const HashLength: nat := 32

  /** The characters the unflagged `.` does not match. */
  predicate IsLineTerminator(c: char) {
    c == '\n' || c == '\r' || c == '\U{2028}' || c == '\U{2029}'
  }

  /** `[0-9a-f]{32}` matches at `i`. */
  predicate HexRunAt(s: string, i: nat) {
    i + HashLength <= |s| && forall k :: i <= k < i + HashLength ==> IsHex(s[k])
  }

  /** DIRECT matches with `e621` at `i` and its last `/` at `j`. */
  predicate DirectAt(s: string, i: nat, j: nat) {
    && At(s, i, "e621") && At(s, i + 5, "net/") && !IsLineTerminator(s[i + 4])
    && i + 9 <= j < |s|
    && (forall k :: i + 9 <= k < j ==> !IsLineTerminator(s[k]))
    && s[j] == '/' && HexRunAt(s, j + 1)
  }

  predicate MatchesDirect(s: string) {
    exists i, j | 0 <= i <= j < |s| :: DirectAt(s, i, j)
  }

  /** `show\/\d` matches at `k`. */
  predicate ShowDigitsAt(s: string, k: nat) {
    At(s, k, "show/") && k + 5 < |s| && IsDigit(s[k + 5])
  }

  const PostPath: string := "e621.net/post/"
  const PoolPath: string := "e621.net/pool/"

  /** The POST pattern of src/index.js. */
  predicate MatchesPostLink(s: string) {
    exists i | 0 <= i < |s| :: At(s, i, PostPath) && ShowDigitsAt(s, i + |PostPath|)
  }

  /** `https?:\/\/` + `path` + `show\/\d` matches at `i`. */
  predicate SchemeLinkAt(s: string, i: nat, path: string) {
    || (At(s, i, "http://" + path) && ShowDigitsAt(s, i + 7 + |path|))
    || (At(s, i, "https://" + path) && ShowDigitsAt(s, i + 8 + |path|))
  }

  /** The POST (`path` = PostPath) and POOL (`path` = PoolPath) patterns of index.js. */
  predicate MatchesSchemeLink(s: string, path: string) {
    exists i | 0 <= i < |s| :: SchemeLinkAt(s, i, path)
  }

  // ------------------------------------------------------------- extraction

  /** The leftmost position at or after `from` where HASH matches. */
  function FirstHexRun(s: string, from: nat): (k: Option<nat>)
    ensures k.Some? ==> from <= k.value && HexRunAt(s, k.value)
    ensures forall m :: from <= m && (k.None? || m < k.value) ==> !HexRunAt(s, m)
    decreases |s| - from
  {
    if from + HashLength > |s| then None
    else if HexRunAt(s, from) then Some(from)
    else FirstHexRun(s, from + 1)
  }

  /** `item.match(HASH_REGEX)`: the leftmost run of 32 lower-case hex digits. */
  function FirstHash(s: string): (h: Option<string>)
    ensures h.Some? ==> |h.value| == HashLength && forall k :: 0 <= k < |h.value| ==> IsHex(h.value[k])
    ensures h.Some? ==> exists i: nat :: HexRunAt(s, i) && At(s, i, h.value) && forall m :: 0 <= m < i ==> !HexRunAt(s, m)
    ensures h.None? <==> forall m :: !HexRunAt(s, m)
  {
    match FirstHexRun(s, 0)
    case None => None
    case Some(k) => Some(s[k..k + HashLength])
  }

  /** The end of the run of digits that starts at `j`. */
  function DigitsEnd(s: string, j: nat): (e: nat)
    requires j <= |s|
    ensures j <= e <= |s|
    ensures forall k :: j <= k < e ==> IsDigit(s[k])
    ensures e == |s| || !IsDigit(s[e])
    decreases |s| - j
  {
    if j < |s| && IsDigit(s[j]) then DigitsEnd(s, j + 1) else j
  }

  /** The leftmost position at or after `from` where ID matches. */
  function FirstShow(s: string, from: nat): (k: Option<nat>)
    ensures k.Some? ==> from <= k.value && ShowDigitsAt(s, k.value)
    ensures forall m :: from <= m && (k.None? || m < k.value) ==> !ShowDigitsAt(s, m)
    decreases |s| - from
  {
    if from + 6 > |s| then None
    else if ShowDigitsAt(s, from) then Some(from)
    else FirstShow(s, from + 1)
  }

  /** `item.match(ID_REGEX)[1]`: the digits after the leftmost `show/` that is
      followed by a digit; `None` where `match` returns `null`. */
  function ShowId(s: string): (id: Option<string>)
    ensures id.Some? ==> |id.value| >= 1 && forall k :: 0 <= k < |id.value| ==> IsDigit(id.value[k])
    ensures id.Some? ==> exists i: nat ::
      && At(s, i, "show/" + id.value)
      && (i + 5 + |id.value| == |s| || !IsDigit(s[i + 5 + |id.value|]))
      && forall m :: 0 <= m < i ==> !ShowDigitsAt(s, m)
    ensures id.None? <==> forall m :: !ShowDigitsAt(s, m)
  {
    match FirstShow(s, 0)
    case None => None
    case Some(k) =>
      var e := DigitsEnd(s, k + 5);
      var id := s[k + 5..e];
      assert s[k..e] == s[k..k + 5] + id;
      assert At(s, k, "show/" + id);
      assert k + 5 + |id| == e;
      Some(id)
  }

  // ---------------------------------------------------------------- lemmas

  lemma AtChar(s: string, i: nat, lit: string, m: nat)
    requires At(s, i, lit) && m < |lit|
    ensures s[i + m] == lit[m]
  {
    assert s[i..i + |lit|][m] == lit[m];
  }

  /** Whenever DIRECT matches, HASH finds a hash to extract. */
  lemma DirectHasHash(s: string)
    requires MatchesDirect(s)
    ensures FirstHash(s).Some?
  {
    var i, j :| 0 <= i <= j < |s| && DirectAt(s, i, j);
    assert HexRunAt(s, j + 1);
  }

  /** Whenever the POST pattern of src/index.js matches, ID finds an id. */
  lemma PostLinkHasId(s: string)
    requires MatchesPostLink(s)
    ensures ShowId(s).Some?
  {
    var i :| 0 <= i < |s| && At(s, i, PostPath) && ShowDigitsAt(s, i + |PostPath|);
  }

  /** Whenever the POST or POOL pattern of index.js matches, ID finds an id. */
  lemma SchemeLinkHasId(s: string, path: string)
    requires MatchesSchemeLink(s, path)
    ensures ShowId(s).Some?
  {
    var i :| 0 <= i < |s| && SchemeLinkAt(s, i, path);
  }

  /** A reference without any `/` (every plain tag query) matches none of the
      link patterns and carries no `show/<digits>` id. */
  lemma NoSlashMatchesNothing(s: string, path: string)
    requires '/' !in s
    ensures !MatchesDirect(s)
    ensures !MatchesPostLink(s)
    ensures !MatchesSchemeLink(s, path)
    ensures ShowId(s).None?
  {
    forall i, j | 0 <= i <= j < |s|
      ensures !DirectAt(s, i, j)
    {
    }
    forall i | 0 <= i < |s|
      ensures !(At(s, i, PostPath) && ShowDigitsAt(s, i + |PostPath|))
    {
      if At(s, i, PostPath) {
        AtChar(s, i, PostPath, 8);
      }
    }
    forall i | 0 <= i < |s|
      ensures !SchemeLinkAt(s, i, path)
    {
      if At(s, i, "http://" + path) {
        AtChar(s, i, "http://" + path, 5);
      }
      if At(s, i, "https://" + path) {
        AtChar(s, i, "https://" + path, 6);
      }
    }
    forall m
      ensures !ShowDigitsAt(s, m)
    {
      if At(s, m, "show/") {
        AtChar(s, m, "show/", 4);
      }
    }
  }
}
