/** The generic fetch: which headers are let through, and the chain of requests a series of redirects causes. */
module HttpRedirects {
  import opened Prelude
  import opened OrderedMaps
  import opened Text
  import opened SortedText

  type Headers = seq<Entry<string, string>>

  datatype Request = Request(httpMethod: string, headers: Headers, body: Option<string>)

  datatype Response = Response(status: int, location: Option<string>)

  /** An encoded body and the content type that goes with it by default. */
  datatype Body = Body(bytes: string, contentType: Option<string>)

  datatype Sent = Sent(url: string, request: Request)

  /**
   The answer to the k-th request, if it arrives, and whether its body cannot be discarded; URL resolution;
   and the check of external URLs.
   */
  datatype Env = Env(answer: nat -> Option<Response>, cancelFails: nat -> bool,
                     resolve: (string, string) -> Option<string>, safe: string -> bool)

  datatype NextUrl = Url(url: string) | WithoutLocation | InvalidLocation | UrlBlocked(url: string)

  datatype Outcome =
    | Final(response: Response, url: string)
    | TransportFailed
    | BadRedirect(reason: NextUrl)
    | CancelFailed

  const BLOCKED_REQUEST_HEADERS: set<string> :=
    {"host", "connection", "transfer-encoding", "content-length", "keep-alive", "te", "upgrade", "cookie"}

  const REDIRECT_STATUS_CODES: set<int> := {301, 302, 303, 307, 308}

  const REWRITE_TO_GET: set<int> := {301, 302, 303}

  // ----- Headers -----

  predicate Blocked(name: string) {
    Lower(name) in BLOCKED_REQUEST_HEADERS || StartsWith(Lower(name), "proxy-")
  }

  predicate IsContentType(name: string) { Lower(name) == "content-type" }

  function Kept(headers: Headers): Headers {
    if headers == [] then []
    else (if Blocked(headers[0].key) then [] else [headers[0]]) + Kept(headers[1..])
  }

  function WithoutContentType(headers: Headers): Headers {
    if headers == [] then []
    else (if IsContentType(headers[0].key) then [] else [headers[0]]) + WithoutContentType(headers[1..])
  }

  ghost predicate NoneBlocked(headers: Headers) { forall h <- headers :: !Blocked(h.key) }

  /** The names that never reach the upstream, in lower case. */
  predicate NeverSent(name: string) {
    || name in {"host", "connection", "transfer-encoding", "content-length", "keep-alive", "te", "upgrade", "cookie"}
    || (|name| >= 6 && name[..6] == "proxy-")
  }

  ghost predicate NoneNeverSent(headers: Headers) { forall h <- headers :: !NeverSent(Lower(h.key)) }

  ghost predicate Named(headers: Headers, name: string) { exists h <- headers :: Lower(h.key) == name }

  lemma BlockedIsNeverSent(name: string)
    ensures Blocked(name) <==> NeverSent(Lower(name))
  {}

  /** The name of a header that is not let through, in lower case. */
  ghost predicate IsDropped(headers: Headers, name: string) {
    exists h <- headers :: Blocked(h.key) && Lower(h.key) == name
  }

  /** What is let through is the list of the others in their order, since these clauses leave no choice. */
  lemma {:induction false} KeptSplits(a: Headers, b: Headers)
    ensures Kept(a + b) == Kept(a) + Kept(b)
    ensures |a| == 1 ==> Kept(a) == if NeverSent(Lower(a[0].key)) then [] else a
  {
    if a == [] {
      assert a + b == b;
    } else {
      assert (a + b)[1..] == a[1..] + b;
      KeptSplits(a[1..], b);
    }
  }

  /** The same for a request that loses its content type. */
  lemma {:induction false} WithoutContentTypeSplits(a: Headers, b: Headers)
    ensures WithoutContentType(a + b) == WithoutContentType(a) + WithoutContentType(b)
    ensures |a| == 1 ==> WithoutContentType(a) == if Lower(a[0].key) == "content-type" then [] else a
  {
    if a == [] {
      assert a + b == b;
    } else {
      assert (a + b)[1..] == a[1..] + b;
      WithoutContentTypeSplits(a[1..], b);
    }
  }

  lemma DroppedUpTo(headers: Headers, i: nat, name: string)
    requires i < |headers|
    ensures IsDropped(headers[..i + 1], name)
       <==> IsDropped(headers[..i], name) || (Blocked(headers[i].key) && Lower(headers[i].key) == name)
  {
    assert headers[..i + 1] == headers[..i] + [headers[i]];
  }

  lemma KeptFrom(headers: Headers, i: nat)
    requires i < |headers|
    ensures Kept(headers[i..]) == (if Blocked(headers[i].key) then [] else [headers[i]]) + Kept(headers[i + 1..])
  {
    assert headers[i..][1..] == headers[i + 1..];
  }

  /** Splits the caller's headers; the names dropped are reported in lower case, ascending, once each. */
  method SanitizeRequestHeaders(headers: Headers) returns (kept: Headers, dropped: seq<string>)
    ensures kept == Kept(headers)
    ensures Ascending(dropped)
    ensures forall name :: name in dropped <==> NeverSent(name) && Named(headers, name)
  {
    kept := [];
    var droppedSet: seq<string> := [];
    for i := 0 to |headers|
      invariant kept + Kept(headers[i..]) == Kept(headers)
      invariant NoRepeats(droppedSet)
      invariant forall name :: name in droppedSet <==> IsDropped(headers[..i], name)
    {
      KeptFrom(headers, i);
      forall name ensures IsDropped(headers[..i + 1], name)
                     <==> name in droppedSet || (Blocked(headers[i].key) && Lower(headers[i].key) == name)
      {
        DroppedUpTo(headers, i, name);
      }
      var lower := Lower(headers[i].key);
      if lower in BLOCKED_REQUEST_HEADERS || StartsWith(lower, "proxy-") {
        if lower !in droppedSet { droppedSet := droppedSet + [lower]; }
      } else {
        kept := kept + [headers[i]];
      }
    }
    assert headers[..|headers|] == headers && headers[|headers|..] == [];
    SortFacts(droppedSet);
    dropped := Sort(droppedSet);
    forall name ensures name in dropped <==> NeverSent(name) && Named(headers, name) {
      assert name in Elements(dropped) <==> name in Elements(droppedSet);
      assert IsDropped(headers, name) <==> NeverSent(name) && Named(headers, name);
    }
  }

  predicate HasContentType(headers: Headers) { exists h <- headers :: IsContentType(h.key) }

  /** The default content type fills a gap only. */
  function BuildRequest(httpMethod: string, headers: Headers, body: Option<Body>): Request {
    if body.None? then Request(httpMethod, headers, None)
    else
      Request(httpMethod,
              if body.value.contentType.Some? && !HasContentType(headers)
              then headers + [Entry("content-type", body.value.contentType.value)] else headers,
              Some(body.value.bytes))
  }

  lemma {:induction false} KeptIsClean(headers: Headers)
    ensures NoneBlocked(Kept(headers)) && forall h <- headers :: !Blocked(h.key) ==> h in Kept(headers)
  {
    if headers != [] { KeptIsClean(headers[1..]); }
  }

  lemma BlockedLengths(name: string)
    requires name in BLOCKED_REQUEST_HEADERS
    ensures |name| != 12
  {
    assert |"transfer-encoding"| == 17 && |"content-length"| == 14;
  }

  lemma LowerContentType()
    ensures Lower("content-type") == "content-type"
  {
    var name := "content-type";
    forall i | 0 <= i < |name| ensures LowerChar(name[i]) == name[i] { assert !('A' <= name[i] <= 'Z'); }
    LowerOfLower(name);
  }

  lemma ContentTypeIsLower()
    ensures IsContentType("content-type") && !Blocked("content-type")
  {
    var name := "content-type";
    LowerContentType();
    if name in BLOCKED_REQUEST_HEADERS { BlockedLengths(name); }
    assert name[0] == 'c' && "proxy-"[0] == 'p';
  }

  lemma AppendContentType(headers: Headers, value: string)
    requires NoneBlocked(headers)
    ensures NoneBlocked(headers + [Entry("content-type", value)])
  {
    ContentTypeIsLower();
  }

  /**
   The first request: no header that is never sent, the caller's others in their order, and after them the
   default content type exactly if the body has one and the caller gave none. Method and body as given.
   */
  lemma FirstRequestIsClean(httpMethod: string, headers: Headers, body: Option<Body>)
    ensures var r := BuildRequest(httpMethod, Kept(headers), body);
            && NoneBlocked(r.headers) && r.httpMethod == httpMethod
            && r.body == (if body.None? then None else Some(body.value.bytes))
            && r.headers == Kept(headers) + if body.Some? && body.value.contentType.Some?
                                               && !Named(headers, "content-type")
                                            then [Entry("content-type", body.value.contentType.value)] else []
  {
    KeptIsClean(headers);
    ContentTypeIsKept(headers);
    assert Kept(headers) + [] == Kept(headers);
    if body.Some? && body.value.contentType.Some? { AppendContentType(Kept(headers), body.value.contentType.value); }
  }

  lemma CleanIsNeverSent(headers: Headers)
    ensures NoneBlocked(headers) <==> NoneNeverSent(headers)
  {
    if NoneNeverSent(headers) {
      forall h <- headers ensures !Blocked(h.key) { BlockedIsNeverSent(h.key); }
    }
  }

  lemma ContentTypePasses(name: string)
    ensures IsContentType(name) ==> !Blocked(name)
  {
    LowerContentType();
    ContentTypeIsLower();
  }

  lemma {:induction false} ContentTypeIsKept(headers: Headers)
    ensures HasContentType(Kept(headers)) <==> HasContentType(headers)
  {
    if headers != [] {
      ContentTypeIsKept(headers[1..]);
      ContentTypePasses(headers[0].key);
      assert headers == [headers[0]] + headers[1..];
      var rest := Kept(headers[1..]);
      if !Blocked(headers[0].key) { assert Kept(headers) == [headers[0]] + rest; }
    }
  }

  // ----- Redirects -----

  function ResolveRedirectUrl(e: Env, response: Response, currentUrl: string): NextUrl {
    if response.location in {None, Some("")} then WithoutLocation
    else
      match e.resolve(response.location.value, currentUrl)
      case None => InvalidLocation
      case Some(next) => if e.safe(next) then Url(next) else UrlBlocked(next)
  }

  function AsGet(r: Request): Request { Request("GET", WithoutContentType(r.headers), None) }

  function Redirected(status: int, r: Request): Request {
    if status in REWRITE_TO_GET then AsGet(r) else r
  }

  /** How the chain ends at request `k`; None if it goes on. */
  function Ending(e: Env, follow: bool, maxRedirects: nat, k: nat, url: string): Option<Outcome> {
    match e.answer(k)
    case None => Some(TransportFailed)
    case Some(response) =>
      if !follow || response.status !in REDIRECT_STATUS_CODES || k == maxRedirects then Some(Final(response, url))
      else
        var next := ResolveRedirectUrl(e, response, url);
        if !next.Url? then Some(BadRedirect(next)) else if e.cancelFails(k) then Some(CancelFailed) else None
  }

  /** Request `k` was answered by the redirect that `b` obeys. */
  ghost predicate Hop(e: Env, follow: bool, maxRedirects: nat, k: nat, a: Sent, b: Sent) {
    && Ending(e, follow, maxRedirects, k, a.url).None?
    && ResolveRedirectUrl(e, e.answer(k).value, a.url) == Url(b.url)
    && b.request == Redirected(e.answer(k).value.status, a.request)
  }

  ghost predicate IsChain(e: Env, follow: bool, maxRedirects: nat, sent: seq<Sent>) {
    forall i, j :: 0 <= i && j == i + 1 < |sent| ==> Hop(e, follow, maxRedirects, i, sent[i], sent[j])
  }

  method PerformWithRedirects(e: Env, initialUrl: string, initialRequest: Request, follow: bool, maxRedirects: nat)
    returns (outcome: Outcome, sent: seq<Sent>)
    ensures 1 <= |sent| <= maxRedirects + 1 && (!follow ==> |sent| == 1)
    ensures sent[0] == Sent(initialUrl, initialRequest)
    ensures IsChain(e, follow, maxRedirects, sent) && FollowsRedirects(e, follow, sent)
    ensures EndsAt(e, follow, maxRedirects, |sent| - 1, sent[|sent| - 1].url, outcome)
  {
    var currentUrl, currentRequest := initialUrl, initialRequest;
    sent := [];
    var hop := 0;
    while true
      invariant hop == |sent| <= maxRedirects
      invariant IsChain(e, follow, maxRedirects, sent + [Sent(currentUrl, currentRequest)])
      invariant (sent + [Sent(currentUrl, currentRequest)])[0] == Sent(initialUrl, initialRequest)
      invariant !follow ==> hop == 0
      decreases maxRedirects - hop
    {
      sent := sent + [Sent(currentUrl, currentRequest)];
      var answer := e.answer(hop);
      ChainFollowsRedirects(e, follow, maxRedirects, sent);
      if answer.None? { return TransportFailed, sent; }
      var response := answer.value;
      if !follow || response.status !in REDIRECT_STATUS_CODES || hop == maxRedirects {
        return Final(response, currentUrl), sent;
      }
      var next := ResolveRedirectUrl(e, response, currentUrl);
      if !next.Url? { return BadRedirect(next), sent; }
      if e.cancelFails(hop) { return CancelFailed, sent; }
      assert Hop(e, follow, maxRedirects, hop, sent[hop], Sent(next.url, Redirected(response.status, currentRequest)));
      currentUrl, currentRequest := next.url, Redirected(response.status, currentRequest);
      hop := hop + 1;
    }
  }

  // ----- What a chain does, in terms of the statuses -----

  /** Answer `k` redirects: its Location resolves to `next`, an allowed URL, and its body can be discarded. */
  ghost predicate LeadsTo(e: Env, k: nat, from: string, next: string) {
    && IsRedirect(e, k) && e.answer(k).value.location.Some? && e.answer(k).value.location.value != ""
    && e.resolve(e.answer(k).value.location.value, from) == Some(next) && e.safe(next) && !e.cancelFails(k)
  }

  predicate IsRedirect(e: Env, k: nat) { e.answer(k).Some? && e.answer(k).value.status in {301, 302, 303, 307, 308} }

  predicate KeepsTheRequest(e: Env, k: nat) { e.answer(k).Some? && e.answer(k).value.status in {307, 308} }

  predicate AsksForGet(e: Env, k: nat) { e.answer(k).Some? && e.answer(k).value.status in {301, 302, 303} }

  /** The first `k` answers are all of the one kind, or one of them is of the other. */
  ghost predicate AllKeepTheRequest(e: Env, k: nat) { forall i: nat :: i < k ==> KeepsTheRequest(e, i) }

  ghost predicate SomeAsksForGet(e: Env, k: nat) { exists i: nat :: i < k && AsksForGet(e, i) }

  /** Every answer but the last is a redirect that leads to the next request. */
  ghost predicate FollowsRedirects(e: Env, follow: bool, sent: seq<Sent>) {
    (follow || |sent| <= 1) && (forall k, next :: 0 <= k && next == k + 1 < |sent| ==>
                                                LeadsTo(e, k, sent[k].url, sent[next].url))
  }

  /**
   Why a chain ends with answer `k`, for each of its outcomes: in particular it goes on whenever redirects
   are followed, `k` is below the cap, and the answer is a redirect that leads somewhere.
   */
  ghost predicate EndsAt(e: Env, follow: bool, maxRedirects: nat, k: nat, url: string, outcome: Outcome) {
    var obeys := follow && k != maxRedirects && IsRedirect(e, k);
    match outcome
    case TransportFailed => e.answer(k).None?
    case Final(response, finalUrl) => e.answer(k) == Some(response) && finalUrl == url && !obeys
    case BadRedirect(WithoutLocation) => obeys && e.answer(k).value.location in {None, Some("")}
    case BadRedirect(InvalidLocation) =>
      && obeys && e.answer(k).value.location !in {None, Some("")}
      && e.resolve(e.answer(k).value.location.value, url).None?
    case BadRedirect(UrlBlocked(next)) =>
      && obeys && e.answer(k).value.location !in {None, Some("")}
      && e.resolve(e.answer(k).value.location.value, url) == Some(next) && !e.safe(next)
    case BadRedirect(Url(_)) => false
    case CancelFailed =>
      && obeys && e.answer(k).value.location !in {None, Some("")}
      && (exists next :: e.resolve(e.answer(k).value.location.value, url) == Some(next) && e.safe(next))
      && e.cancelFails(k)
  }

  lemma EndingEndsAt(e: Env, follow: bool, maxRedirects: nat, k: nat, url: string, outcome: Outcome)
    ensures Ending(e, follow, maxRedirects, k, url) == Some(outcome)
       <==> EndsAt(e, follow, maxRedirects, k, url, outcome)
  {}

  lemma ChainFollowsRedirects(e: Env, follow: bool, maxRedirects: nat, sent: seq<Sent>)
    requires IsChain(e, follow, maxRedirects, sent)
    ensures FollowsRedirects(e, follow, sent)
  {
    forall k, next | 0 <= k && next == k + 1 < |sent|
      ensures follow && LeadsTo(e, k, sent[k].url, sent[next].url)
    {
      assert Hop(e, follow, maxRedirects, k, sent[k], sent[next]);
    }
    if |sent| > 1 { assert Hop(e, follow, maxRedirects, 0, sent[0], sent[1]); }
  }

  lemma {:induction false} WithoutContentTypeFacts(headers: Headers)
    ensures WithoutContentType(WithoutContentType(headers)) == WithoutContentType(headers)
    ensures !HasContentType(WithoutContentType(headers))
    ensures forall h :: h in WithoutContentType(headers) <==> h in headers && !IsContentType(h.key)
  {
    if headers != [] {
      WithoutContentTypeFacts(headers[1..]);
      assert headers == [headers[0]] + headers[1..];
      var rest := WithoutContentType(headers[1..]);
      if IsContentType(headers[0].key) {
        assert WithoutContentType(headers) == rest;
      } else {
        assert WithoutContentType(headers) == [headers[0]] + rest && ([headers[0]] + rest)[1..] == rest;
      }
    }
  }

  lemma OneRedirect(e: Env, k: nat, first: Request, r: Request)
    requires e.answer(k).Some? && e.answer(k).value.status in REDIRECT_STATUS_CODES
    requires r in {first, AsGet(first)}
    ensures KeepsTheRequest(e, k) || AsksForGet(e, k)
    ensures KeepsTheRequest(e, k) ==> Redirected(e.answer(k).value.status, r) == r
    ensures AsksForGet(e, k) ==> Redirected(e.answer(k).value.status, r) == AsGet(first)
    ensures !HasContentType(AsGet(first).headers)
    ensures NoneBlocked(first.headers) ==> NoneBlocked(AsGet(first).headers)
  {
    WithoutContentTypeFacts(first.headers);
  }

  /**
   The requests of a chain in closed form: if only 307 and 308 have been followed request `i` is the first
   one again, and if one answer before it was 301, 302 or 303 it is that one as a GET without body or
   content type (section 6.4 of RFC 7231). One of the two is always the case.
   */
  lemma {:induction false} RequestsOfAChain(e: Env, follow: bool, maxRedirects: nat, sent: seq<Sent>, i: nat)
    requires IsChain(e, follow, maxRedirects, sent) && i < |sent|
    ensures AllKeepTheRequest(e, i) ==> sent[i].request == sent[0].request
    ensures SomeAsksForGet(e, i) ==>
              sent[i].request == Request("GET", WithoutContentType(sent[0].request.headers), None)
              && !HasContentType(sent[i].request.headers)
    ensures AllKeepTheRequest(e, i) || SomeAsksForGet(e, i)
    ensures i > 0 ==> e.safe(sent[i].url)
    ensures NoneBlocked(sent[0].request.headers) ==> NoneBlocked(sent[i].request.headers)
    decreases i
  {
    if i == 0 {
      WithoutContentTypeFacts(sent[0].request.headers);
    } else {
      RequestsOfAChain(e, follow, maxRedirects, sent, i - 1);
      assert Hop(e, follow, maxRedirects, i - 1, sent[i - 1], sent[i]);
      OneRedirect(e, i - 1, sent[0].request, sent[i - 1].request);
    }
  }

  /**
   A fetch as a whole: no request has a header that is never sent, each follows the redirect before it, and
   the chain ends where its outcome says.
   */
  method RunHttpFetch(e: Env, url: string, httpMethod: string, headers: Headers, body: Option<Body>, follow: bool,
                      maxRedirects: nat)
    returns (outcome: Outcome, dropped: seq<string>, sent: seq<Sent>)
    ensures 1 <= |sent| <= maxRedirects + 1 && IsChain(e, follow, maxRedirects, sent)
    ensures sent[0] == Sent(url, BuildRequest(httpMethod, Kept(headers), body))
    ensures FollowsRedirects(e, follow, sent)
    ensures forall i :: 0 <= i < |sent| ==> NoneNeverSent(sent[i].request.headers)
    ensures forall name :: name in dropped <==> NeverSent(name) && Named(headers, name)
    ensures EndsAt(e, follow, maxRedirects, |sent| - 1, sent[|sent| - 1].url, outcome)
  {
    var kept;
    kept, dropped := SanitizeRequestHeaders(headers);
    outcome, sent := PerformWithRedirects(e, url, BuildRequest(httpMethod, kept, body), follow, maxRedirects);
    FirstRequestIsClean(httpMethod, headers, body);
    forall i | 0 <= i < |sent| ensures NoneNeverSent(sent[i].request.headers) {
      RequestsOfAChain(e, follow, maxRedirects, sent, i);
      CleanIsNeverSent(sent[i].request.headers);
    }
  }
}
