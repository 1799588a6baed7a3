/**
  `RequestPromise.fetch`: how a request URL is assembled from a base URL and a
  parameter object, how the `json` flag is chosen, and how the transport's
  answer settles the returned promise. The transport itself is an oracle: a
  `Reply` is what the `request` library hands to the callback.
 */
module Request {
  import opened Promises
  import opened Text

  /** A parameter value: an array (joined with `+`) or anything else
      (rendered by string conversion, given here already rendered). */
  datatype Param = Scalar(text: string) | List(elems: seq<string>)

  /** The `options` argument; `parameters` keeps `Object.keys` order. */
  datatype Options = Options(url: Option<string>, parameters: Option<seq<(string, Param)>>)

  /** The request `fetch` hands to the transport. */
  datatype Prepared = Prepared(url: string, json: bool, userAgent: string, qsLimit: nat)

  /** What the transport reports: an error, or a response with a status and a body. */
  datatype Reply<+B> = TransportFailure(error: string) | Response(statusCode: nat, body: B)

  const UserAgent: string := "E621Downloader (DragonOfMath @ github)"
  const StatusPrefix: string := "Status Code: "

  function Render(v: Param): string {
    match v
    case Scalar(t) => t
    case List(es) => Join(es, '+')
  }

  /** One `key=value` piece per parameter, in key order. */
  function Pairs(ps: seq<(string, Param)>): (r: seq<string>)
    ensures |r| == |ps|
    ensures forall i :: 0 <= i < |ps| ==> r[i] == ps[i].0 + "=" + Render(ps[i].1)
  {
    seq(|ps|, i requires 0 <= i < |ps| => ps[i].0 + "=" + Render(ps[i].1))
  }

  function QueryString(ps: seq<(string, Param)>): string {
    Join(Pairs(ps), '&')
  }

  /** `options.url || url`: an empty `options.url` is falsy and loses to `url`. */
  function BaseUrl(url: string, o: Options): string {
    if o.url.Some? && o.url.value != "" then o.url.value else url
  }

  /** The test `/json$/i` on the `url` argument. */
  predicate EndsWithJson(url: string) {
    |url| >= 4 && LowerAscii(url[|url| - 4..]) == "json"
  }

  /** The request that `RequestPromise.fetch(url, options)` sends. */
  function Prepare(url: string, o: Options): (p: Prepared)
    ensures o.parameters.None? ==> p.url == BaseUrl(url, o)
    ensures o.parameters.Some? ==> |p.url| > |BaseUrl(url, o)| && p.url[..|BaseUrl(url, o)| + 1] == BaseUrl(url, o) + "?"
    ensures p.userAgent == UserAgent && p.qsLimit == 100
  {
    var base := BaseUrl(url, o);
    var full := match o.parameters
      case None => base
      case Some(ps) => base + "?" + QueryString(ps);
    Prepared(full, EndsWithJson(url), UserAgent, 100)
  }

  /** With parameters, the URL is the base, a `?`, and then exactly one
      `key=value` piece per parameter in key order, separated by `&`: splitting
      the query on `&` and each piece at its first `=` recovers every key and
      its rendered value, provided no key holds `&` or `=` and no rendered
      value holds `&` (nothing is percent-encoded). */
  lemma QueryRoundTrip(url: string, o: Options)
    requires o.parameters.Some? && |o.parameters.value| >= 1
    requires forall i :: 0 <= i < |o.parameters.value| ==>
      '&' !in o.parameters.value[i].0 && '=' !in o.parameters.value[i].0 && '&' !in Render(o.parameters.value[i].1)
    ensures var ps := o.parameters.value; var b := BaseUrl(url, o); var u := Prepare(url, o).url;
      var pieces := Split(u[|b| + 1..], '&');
      && |pieces| == |ps|
      && forall i :: 0 <= i < |ps| ==>
           var e := IndexOf(pieces[i], '=');
           e < |pieces[i]| && pieces[i][..e] == ps[i].0 && pieces[i][e + 1..] == Render(ps[i].1)
  {
    var ps := o.parameters.value;
    var b := BaseUrl(url, o);
    var u := Prepare(url, o).url;
    assert u[|b| + 1..] == QueryString(ps);
    var pairs := Pairs(ps);
    forall i | 0 <= i < |pairs|
      ensures '&' !in pairs[i]
    {
      assert pairs[i] == ps[i].0 + "=" + Render(ps[i].1);
    }
    SplitJoin(pairs, '&');
    forall i | 0 <= i < |ps|
      ensures var e := IndexOf(pairs[i], '=');
        e < |pairs[i]| && pairs[i][..e] == ps[i].0 && pairs[i][e + 1..] == Render(ps[i].1)
    {
      PairRoundTrip(ps[i].0, Render(ps[i].1));
    }
  }

  /** A `key=value` piece splits back at its first `=` when the key holds none. */
  lemma PairRoundTrip(k: string, v: string)
    requires '=' !in k
    ensures var pr := k + "=" + v; var e := IndexOf(pr, '=');
      e == |k| && pr[..e] == k && pr[e + 1..] == v
  {
    var pr := k + "=" + v;
    assert pr[|k|] == '=';
    assert pr[..|k|] == k;
  }

  /** An array value is its elements joined by `+`, which splitting on `+`
      undoes when no element holds a `+`. */
  lemma ListRoundTrip(es: seq<string>)
    requires |es| >= 1
    requires forall i :: 0 <= i < |es| ==> '+' !in es[i]
    ensures Split(Render(List(es)), '+') == es
  {
    SplitJoin(es, '+');
  }

  /** Without encoding, the tag list ["a+b"] and the tag lists ["a", "b"]
      produce the same query. */
  lemma PlusIsAmbiguous()
    ensures Render(List(["a+b"])) == Render(List(["a", "b"]))
  {
    assert Join(["a", "b"], '+') == "a" + "+" + Join(["b"], '+');
  }

  /** The `json` flag depends on the `url` argument only, never on `options.url`. */
  lemma JsonFlagIgnoresOptions(url: string, o1: Options, o2: Options)
    ensures Prepare(url, o1).json == Prepare(url, o2).json
    ensures Prepare(url, o1).json <==> |url| >= 4 && LowerAscii(url[|url| - 4..]) == "json"
  {
  }

  /** The promise `fetch` returns: a transport error rejects with that error,
      a status other than 200 rejects with 'Status Code: N', and only a 200
      response resolves, with the body. */
  function Settle<B>(r: Reply<B>): (s: Settled<B>)
    ensures s.Resolved? <==> r.Response? && r.statusCode == 200
    ensures s.Resolved? ==> s.value == r.body
    ensures r.TransportFailure? ==> s == Rejected(TransportError(r.error))
    ensures r.Response? && r.statusCode != 200 ==>
      && s.Rejected? && s.reason.StatusMessage?
      && var m := s.reason.text;
         && |m| > |StatusPrefix| && m[..|StatusPrefix|] == StatusPrefix
         && (forall i :: |StatusPrefix| <= i < |m| ==> IsDigit(m[i]))
         && DigitsValue(m[|StatusPrefix|..]) == r.statusCode
  {
    match r
    case TransportFailure(e) => Rejected(TransportError(e))
    case Response(code, body) =>
      if code != 200 then
        var m := StatusPrefix + NatToString(code);
        assert m[|StatusPrefix|..] == NatToString(code);
        Rejected(StatusMessage(m))
      else Resolved(body)
  }
}
