/** Fetch and validation policy for OAuth client metadata documents. */
module ClientDocument {
  import opened Prelude
  import opened Text
  import Bits

  const MAX_RESPONSE_BYTES: nat := 64 * 1024
  const MAX_REDIRECTS: nat := 3
  const MAX_POSITIVE_TTL_MS: nat := 60 * 60_000

  /** The parts of a parsed URL the policy looks at. */
  datatype Url = Url(href: string, origin: string, protocol: string, username: string, password: string,
                     hash: string, pathname: string)

  /** A document as decoded from JSON and accepted by the schema. */
  datatype Document = Document(clientId: string, clientName: string, redirectUris: seq<string>)

  /** `document` is absent when the body is not JSON or fails the schema; `expires` when it is no date. */
  datatype Response = Response(statusCode: int, location: Option<string>, contentType: Option<string>,
                               bodyLength: nat, document: Option<Document>, cacheControl: Option<string>,
                               expires: Option<int>)

  datatype Result<+T> = Ok(value: T) | Err(message: string)

  datatype ValidatedDocument = ValidatedDocument(clientId: string, clientName: string, redirectUris: seq<string>,
                                                 ttlMs: int)

  /** The URL parser and the redirect-URI policy, which this model does not open. */
  datatype Policy = Policy(resolve: (string, Url) -> Option<Url>, redirectUrisOk: seq<string> -> bool)

  function DocumentUrlError(url: Url): Option<string> {
    if url.protocol != "https:" then Some("CIMD client_id must use HTTPS")
    else if url.username != "" || url.password != "" then Some("CIMD client_id must not contain credentials")
    else if url.hash != "" then Some("CIMD client_id must not contain a fragment")
    else if url.pathname in {"", "/"} then Some("CIMD client_id must contain a document path")
    else None
  }

  predicate DocumentUrlOk(url: Url) { DocumentUrlError(url).None? }

  predicate IsRedirect(statusCode: int) { statusCode in {301, 302, 303, 307, 308} }

  function ResolveRedirect(location: Option<string>, current: Url, origin: string, policy: Policy): Result<Url> {
    if location.None? then Err("CIMD redirect is missing Location")
    else
      match policy.resolve(location.value, current) {
        case None => Err("Invalid URL")
        case Some(target) =>
          if !DocumentUrlOk(target) then Err(DocumentUrlError(target).value)
          else if target.origin != origin then Err("CIMD redirect changed origin")
          else Ok(target)
      }
  }

  /** One thing an answer must satisfy, and the complaint if it does not. */
  datatype Check = Check(passes: bool, complaint: string)

  ghost predicate AllPass(checks: seq<Check>) { forall i :: 0 <= i < |checks| ==> checks[i].passes }

  /** The complaint is that of the first check that fails. */
  ghost predicate FirstComplaint(checks: seq<Check>, message: string) {
    exists i :: 0 <= i < |checks| && !checks[i].passes && checks[i].complaint == message && AllPass(checks[..i])
  }

  ghost function UrlChecks(url: Url): seq<Check> {
    [Check(url.protocol == "https:", "CIMD client_id must use HTTPS"),
     Check(url.username == "" && url.password == "", "CIMD client_id must not contain credentials"),
     Check(url.hash == "", "CIMD client_id must not contain a fragment"),
     Check(url.pathname != "" && url.pathname != "/", "CIMD client_id must contain a document path")]
  }

  lemma DocumentUrlErrors(url: Url)
    ensures match DocumentUrlError(url)
            case None => AllPass(UrlChecks(url))
            case Some(message) => !AllPass(UrlChecks(url)) && FirstComplaint(UrlChecks(url), message)
  {
    var checks := UrlChecks(url);
    if !checks[0].passes { assert AllPass(checks[..0]); }
    else if !checks[1].passes { assert AllPass(checks[..1]); }
    else if !checks[2].passes { assert AllPass(checks[..2]); }
    else if !checks[3].passes { assert AllPass(checks[..3]); }
  }

  /** The n-th request goes to `from` and its answer redirects to `to`. */
  ghost predicate Hop(n: nat, from: Url, to: Url, origin: string, transport: (nat, Url) -> Result<Response>,
                      policy: Policy)
  {
    var answer := transport(n, from);
    && answer.Ok? && answer.value.statusCode in {301, 302, 303, 307, 308}
    && answer.value.location.Some? && policy.resolve(answer.value.location.value, from) == Some(to)
    && AllPass(UrlChecks(to)) && to.origin == origin
  }

  ghost predicate Chained(sent: seq<Url>, origin: string, transport: (nat, Url) -> Result<Response>, policy: Policy) {
    forall i, j :: 0 <= i && j == i + 1 < |sent| ==> Hop(i, sent[i], sent[j], origin, transport, policy)
  }

  /** What a fetch makes of the answer to its n-th request, sent to `from`, if it ends with it. */
  ghost predicate EndsWith(n: nat, from: Url, origin: string, answer: Result<Response>, policy: Policy,
                           r: Result<Response>)
  {
    if answer.Err? || answer.value.statusCode !in {301, 302, 303, 307, 308} then r == answer
    else if n == 3 then r == Err("Too many CIMD redirects")
    else if answer.value.location.None? then r == Err("CIMD redirect is missing Location")
    else
      match policy.resolve(answer.value.location.value, from)
      case None => r == Err("Invalid URL")
      case Some(target) =>
        && r.Err?
        && if AllPass(UrlChecks(target)) then target.origin != origin && r.message == "CIMD redirect changed origin"
           else FirstComplaint(UrlChecks(target), r.message)
  }

  /** Where a redirect leads, or why it leads nowhere. */
  lemma RedirectFacts(n: nat, from: Url, origin: string, transport: (nat, Url) -> Result<Response>, policy: Policy)
    requires n < 3 && transport(n, from).Ok? && IsRedirect(transport(n, from).value.statusCode)
    ensures var answer := transport(n, from);
            match ResolveRedirect(answer.value.location, from, origin, policy)
            case Ok(to) => Hop(n, from, to, origin, transport, policy)
            case Err(message) => EndsWith(n, from, origin, answer, policy, Err(message))
  {
    var location := transport(n, from).value.location;
    if location.Some? && policy.resolve(location.value, from).Some? {
      DocumentUrlErrors(policy.resolve(location.value, from).value);
    }
  }

  ghost predicate OnlyDocumentUrls(sent: seq<Url>, origin: string) {
    forall i :: 0 <= i < |sent| ==> AllPass(UrlChecks(sent[i])) && sent[i].origin == origin
  }

  /**
   Follows the redirect chain of one lookup. `transport(n, url)` is the answer to the n-th request.
   Whatever it answers, at most four requests go out, all to document URLs of the original origin, each
   after the first where the answer before it points; and the result is what the last answer says.
   */
  method FetchFinalResponse(original: Url, transport: (nat, Url) -> Result<Response>, policy: Policy)
    returns (r: Result<Response>, sent: seq<Url>)
    ensures |sent| <= 4 && Chained(sent, original.origin, transport, policy)
    ensures OnlyDocumentUrls(sent, original.origin)
    ensures sent == [] <==> !AllPass(UrlChecks(original))
    ensures sent == [] ==> r.Err? && FirstComplaint(UrlChecks(original), r.message)
    ensures sent != [] ==>
              var n := |sent| - 1;
              sent[0] == original && EndsWith(n, sent[n], original.origin, transport(n, sent[n]), policy, r)
  {
    sent := [];
    DocumentUrlErrors(original);
    if !DocumentUrlOk(original) { return Err(DocumentUrlError(original).value), sent; }
    var current := original;
    var redirects := 0;
    while redirects <= MAX_REDIRECTS
      invariant 0 <= redirects == |sent| <= MAX_REDIRECTS
      invariant Chained(sent + [current], original.origin, transport, policy)
      invariant OnlyDocumentUrls(sent + [current], original.origin)
      invariant (sent + [current])[0] == original
    {
      ghost var before := sent + [current];
      sent := sent + [current];
      var response := transport(redirects, current);
      if response.Err? { return response, sent; }
      if !IsRedirect(response.value.statusCode) { return response, sent; }
      if redirects == MAX_REDIRECTS { return Err("Too many CIMD redirects"), sent; }
      RedirectFacts(redirects, current, original.origin, transport, policy);
      var next := ResolveRedirect(response.value.location, current, original.origin, policy);
      if next.Err? { return Err(next.message), sent; }
      current := next.value;
      redirects := redirects + 1;
      assert forall i :: 0 <= i < |before| ==> (sent + [current])[i] == before[i];
    }
    assert false;
  }

  // ----- Freshness -----

  function Directives(header: Option<string>): seq<string> {
    if header.None? then [] else Named(Split(header.value, ','))
  }

  function Named(parts: seq<string>): seq<string> {
    if parts == [] then []
    else
      var d := Lower(Trimmed(parts[0]));
      (if d == "" then [] else [d]) + Named(parts[1..])
  }

  predicate StorageAllowed(directives: seq<string>) {
    forall d <- directives :: Cut(d, '=').0 != "no-store" && Cut(d, '=').0 != "no-cache"
  }

  function FirstMaxAge(directives: seq<string>): Option<string> {
    if directives == [] then None
    else if StartsWith(directives[0], "max-age") then Some(directives[0])
    else FirstMaxAge(directives[1..])
  }

  /** `Number` of a longer run of digits is Infinity from here on. */
  const FIRST_INFINITE: int := Bits.Pow2(1024) - Bits.Pow2(970)

  /** The digits of `max-age=<digits>` or of `max-age="<digits>"`. */
  function MaxAgeDigits(directive: string): Option<string> {
    if !StartsWith(directive, "max-age=") then None
    else
      var v := directive[8..];
      if v != "" && AllDigits(v) then Some(v)
      else if |v| >= 3 && v[0] == '"' && v[|v| - 1] == '"' && AllDigits(v[1..|v| - 1]) then Some(v[1..|v| - 1])
      else None
  }

  const NO_FRESHNESS := "CIMD response has no positive cache freshness"

  function MaxAgeTtl(directive: string): Result<int> {
    var digits := MaxAgeDigits(directive);
    if digits.None? || !AllDigits(digits.value) then Err(NO_FRESHNESS)
    else
      var seconds := DecimalValue(digits.value);
      if seconds == 0 || seconds >= FIRST_INFINITE then Err(NO_FRESHNESS)
      else Ok(Min(seconds * 1000, MAX_POSITIVE_TTL_MS))
  }

  function PositiveTtl(response: Response, now: int): Result<int> {
    var directives := Directives(response.cacheControl);
    if !StorageAllowed(directives) then Err("CIMD response forbids positive caching")
    else
      match FirstMaxAge(directives) {
        case Some(directive) => MaxAgeTtl(directive)
        case None =>
          if response.expires.Some? && response.expires.value > now
          then Ok(Min(response.expires.value - now, MAX_POSITIVE_TTL_MS))
          else Err(NO_FRESHNESS)
      }
  }

  // A header is read as a list of directives, in any case and with any space around them.

  lemma {:induction false} NamedOfConcat(a: seq<string>, b: seq<string>)
    ensures Named(a + b) == Named(a) + Named(b)
  {
    if a == [] {
      assert a + b == b;
    } else {
      assert (a + b)[1..] == a[1..] + b;
      NamedOfConcat(a[1..], b);
    }
  }

  /** The directives of a list are those of its pieces. */
  lemma DirectivesOfList(a: string, b: string)
    ensures Directives(Some(a + "," + b)) == Directives(Some(a)) + Directives(Some(b))
  {
    SplitOfConcat(a, ',', b);
    NamedOfConcat(Split(a, ','), Split(b, ','));
  }

  /** And a piece is one directive, in lower case and without the space around it, or none. */
  lemma DirectivesOfPiece(head: string, core: string, tail: string)
    requires AllSpace(head) && IsTrim(core) && AllSpace(tail) && ',' !in core
    ensures Directives(Some(head + core + tail)) == if core == "" then [] else [Lower(core)]
  {
    var piece := head + core + tail;
    TrimmedOf(head, core, tail);
    LowerAt(core);
    SplitOfJoined(piece, ',', "");
    assert Named([piece]) == (if Lower(core) == "" then [] else [Lower(core)]) + Named([]);
  }

  predicate Forbids(directive: string) {
    directive == "no-store" || directive == "no-cache" || "no-store=" <= directive || "no-cache=" <= directive
  }

  lemma NameIs(directive: string, name: string)
    requires '=' !in name
    ensures Cut(directive, '=').0 == name <==> directive == name || name + "=" <= directive
  {
    CutRejoins(directive, '=');
    if directive == name {
      CutOfJoined(name, '=', "");
    } else if name + "=" <= directive {
      assert directive == name + ['='] + directive[|name| + 1..];
      CutOfJoined(name, '=', directive[|name| + 1..]);
    }
  }

  lemma ForbidsByName(directive: string)
    ensures Forbids(directive) <==> Cut(directive, '=').0 in {"no-store", "no-cache"}
  {
    NameIs(directive, "no-store");
    NameIs(directive, "no-cache");
  }

  lemma StorageAllowedExactly(directives: seq<string>)
    ensures StorageAllowed(directives) <==> forall d <- directives :: !Forbids(d)
  {
    forall d <- directives ensures Forbids(d) <==> Cut(d, '=').0 in {"no-store", "no-cache"} { ForbidsByName(d); }
  }

  /** The directive is `max-age` with these digits, quoted or not. */
  ghost predicate GivesDigits(directive: string, digits: string) {
    digits != "" && AllDigits(digits) && directive in {"max-age=" + digits, "max-age=\"" + digits + "\""}
  }

  lemma DigitsAreRead(directive: string, digits: string)
    requires GivesDigits(directive, digits)
    ensures MaxAgeDigits(directive) == Some(digits)
  {
    var name := "max-age=";
    if directive == name + digits {
      assert directive[8..] == digits;
    } else {
      var v := ['"'] + digits + ['"'];
      assert directive == name + v && directive[8..] == v;
      assert v[1..|v| - 1] == digits && v[0] in v && !IsDigit(v[0]);
    }
  }

  lemma OnlyDigitsAreRead(directive: string)
    requires MaxAgeDigits(directive).Some?
    ensures GivesDigits(directive, MaxAgeDigits(directive).value)
  {
    var (v, digits) := (directive[8..], MaxAgeDigits(directive).value);
    assert directive == "max-age=" + v;
    if v != digits {
      assert v == ['"'] + digits + ['"'];
      assert directive == "max-age=\"" + digits + "\"";
    }
  }

  /** Only whole seconds in digits are a lifetime, capped at an hour; no seconds, or too many, are none. */
  lemma MaxAgeExactly(directive: string, ttl: int)
    ensures MaxAgeTtl(directive) == Ok(ttl)
       <==> exists digits :: GivesDigits(directive, digits) && 0 < DecimalValue(digits) < FIRST_INFINITE
                             && ttl == Min(DecimalValue(digits) * 1000, 3_600_000)
    ensures MaxAgeTtl(directive).Err? ==> MaxAgeTtl(directive).message == NO_FRESHNESS
  {
    var found := MaxAgeDigits(directive);
    if found.Some? { OnlyDigitsAreRead(directive); }
    forall digits | GivesDigits(directive, digits) ensures found == Some(digits) {
      DigitsAreRead(directive, digits);
    }
  }

  /** The first directive that begins with `max-age` stands at place `i`. */
  ghost predicate FirstMaxAgeAt(directives: seq<string>, i: nat) {
    && i < |directives| && "max-age" <= directives[i]
    && forall j :: 0 <= j < i ==> !("max-age" <= directives[j])
  }

  lemma {:induction false} FirstMaxAgeFacts(directives: seq<string>)
    ensures match FirstMaxAge(directives)
            case None => forall i :: 0 <= i < |directives| ==> !("max-age" <= directives[i])
            case Some(d) => exists i: nat :: FirstMaxAgeAt(directives, i) && directives[i] == d
  {
    if directives != [] {
      if "max-age" <= directives[0] {
        assert FirstMaxAgeAt(directives, 0);
      } else {
        FirstMaxAgeFacts(directives[1..]);
        assert forall i :: 0 < i < |directives| ==> directives[i] == directives[1..][i - 1];
        if FirstMaxAge(directives[1..]).Some? {
          var i: nat :| FirstMaxAgeAt(directives[1..], i) && directives[1..][i] == FirstMaxAge(directives).value;
          assert FirstMaxAgeAt(directives, i + 1);
        }
      }
    }
  }

  /**
   The lifetime an answer is granted, from the directives of its header: none if one of them forbids
   storing, else by the first that begins with `max-age`, and only without one by `Expires`.
   */
  lemma PositiveTtlExactly(response: Response, now: int)
    ensures var directives := Directives(response.cacheControl);
            && ((exists d <- directives :: Forbids(d)) <==>
                  PositiveTtl(response, now) == Err("CIMD response forbids positive caching"))
            && ((forall d <- directives :: !Forbids(d)) ==>
                  && (forall i: nat :: FirstMaxAgeAt(directives, i) ==>
                                         PositiveTtl(response, now) == MaxAgeTtl(directives[i]))
                  && ((forall i :: 0 <= i < |directives| ==> !("max-age" <= directives[i])) ==>
                        PositiveTtl(response, now)
                        == if response.expires.Some? && response.expires.value > now
                           then Ok(Min(response.expires.value - now, 3_600_000)) else Err(NO_FRESHNESS)))
  {
    var directives := Directives(response.cacheControl);
    StorageAllowedExactly(directives);
    FirstMaxAgeFacts(directives);
    DifferentComplaints();
    if FirstMaxAge(directives).Some? {
      MaxAgeExactly(FirstMaxAge(directives).value, 0);
      var i: nat :| FirstMaxAgeAt(directives, i) && directives[i] == FirstMaxAge(directives).value;
      assert forall j: nat :: FirstMaxAgeAt(directives, j) ==> j == i;
    }
  }

  lemma DifferentComplaints()
    ensures NO_FRESHNESS != "CIMD response forbids positive caching"
  {
    assert NO_FRESHNESS[14] == 'h' && "CIMD response forbids positive caching"[14] == 'f';
  }

  lemma DigitsOfMaxAge(n: nat)
    ensures MaxAgeDigits("max-age=" + Decimal(n)) == Some(Decimal(n))
  {
    DecimalFacts(n);
    assert ("max-age=" + Decimal(n))[8..] == Decimal(n);
  }

  lemma DigitsOfQuotedMaxAge(n: nat)
    ensures MaxAgeDigits("max-age=\"" + Decimal(n) + "\"") == Some(Decimal(n))
  {
    DecimalFacts(n);
    var v := ['"'] + Decimal(n) + ['"'];
    assert ("max-age=\"" + Decimal(n) + "\"")[8..] == v;
    assert v[1..|v| - 1] == Decimal(n);
    assert v[0] in v && !IsDigit(v[0]);
  }

  /** A directive as servers write it means its seconds, capped at an hour; zero is no freshness. */
  lemma MaxAgeOfSeconds(n: nat)
    requires n < FIRST_INFINITE
    ensures MaxAgeTtl("max-age=" + Decimal(n))
         == if n == 0 then Err(NO_FRESHNESS) else Ok(Min(n * 1000, 3_600_000))
    ensures MaxAgeTtl("max-age=\"" + Decimal(n) + "\"") == MaxAgeTtl("max-age=" + Decimal(n))
  {
    DigitsOfMaxAge(n);
    DigitsOfQuotedMaxAge(n);
    DecimalFacts(n);
  }

  /** Text that is a directive as it stands: in lower case, without commas or spaces. */
  predicate IsPlain(d: string) {
    d != "" && forall i :: 0 <= i < |d| ==> LowerChar(d[i]) == d[i] && d[i] != ',' && !IsSpace(d[i])
  }

  lemma PlainDirective(d: string)
    requires IsPlain(d)
    ensures Directives(Some(d)) == [d]
  {
    LowerOfLower(d);
    TrimmedAlready(d);
    SplitOfJoined(d, ',', "");
    assert Named([d]) == [d] + Named([d][1..]);
  }

  lemma MaxAgeIsPlain(n: nat)
    ensures IsPlain("max-age=" + Decimal(n))
  {
    var d := "max-age=" + Decimal(n);
    DecimalFacts(n);
    forall i | 0 <= i < |d| ensures LowerChar(d[i]) == d[i] && d[i] != ',' && !IsSpace(d[i]) {
      if i >= 8 { assert d[i] == Decimal(n)[i - 8] && d[i] in Decimal(n); }
    }
  }

  lemma MaxAgeIsStorable(n: nat)
    ensures StorageAllowed(["max-age=" + Decimal(n)])
  {
    CutOfJoined("max-age", '=', Decimal(n));
    assert "max-age=" + Decimal(n) == "max-age" + ['='] + Decimal(n);
  }

  /**
   A `Cache-Control` header of one max-age directive gives that lifetime, capped at an hour, whatever
   `Expires` says.
   */
  lemma MaxAgeHeader(response: Response, n: nat, now: int)
    requires response.cacheControl == Some("max-age=" + Decimal(n)) && 0 < n < FIRST_INFINITE
    ensures PositiveTtl(response, now) == Ok(Min(n * 1000, 3_600_000))
  {
    var d := "max-age=" + Decimal(n);
    MaxAgeIsPlain(n);
    MaxAgeIsStorable(n);
    PlainDirective(d);
    MaxAgeOfSeconds(n);
    assert d[..7] == "max-age";
  }

  /** A lifetime is granted only for a storable answer, and lies in (0, one hour]. */
  lemma PositiveTtlBounds(response: Response, now: int)
    ensures var ttl := PositiveTtl(response, now);
            ttl.Ok? ==>
              && 0 < ttl.value <= 3_600_000
              && (forall d <- Directives(response.cacheControl) :: !Forbids(d))
              && (FirstMaxAge(Directives(response.cacheControl)).None? ==>
                    response.expires.Some? && now + ttl.value <= response.expires.value)
  {
    StorageAllowedExactly(Directives(response.cacheControl));
  }

  predicate IsJson(contentType: string) {
    var media := Lower(Trimmed(Cut(contentType, ';').0));
    media == "application/json" || (|media| >= 5 && media[|media| - 5..] == "+json")
  }

  predicate EndsIn(s: string, suffix: string) { |s| >= |suffix| && s[|s| - |suffix|..] == suffix }

  /** The media type counts, in any case, with space around it and whatever parameters follow it. */
  lemma JsonMedia(head: string, media: string, tail: string, parameters: string)
    requires AllSpace(head) && IsTrim(media) && AllSpace(tail) && ';' !in media
    ensures IsJson(head + media + tail) <==> Lower(media) == "application/json" || EndsIn(Lower(media), "+json")
    ensures IsJson(head + media + tail + ";" + parameters) <==> IsJson(head + media + tail)
  {
    TrimmedOf(head, media, tail);
    CutOfJoined(head + media + tail, ';', parameters);
    assert |"+json"| == 5;
  }

  function ValidateResponse(clientId: string, response: Response, now: int, policy: Policy): Result<ValidatedDocument> {
    if response.statusCode != 200 then Err("CIMD endpoint did not return HTTP 200")
    else if response.contentType.None? || !IsJson(response.contentType.value) then
      Err("CIMD endpoint returned a non-JSON content type")
    else if response.bodyLength > MAX_RESPONSE_BYTES then Err("CIMD document is too large")
    else if response.document.None? then Err("CIMD document is invalid")
    else
      var document := response.document.value;
      if document.clientId != clientId then Err("CIMD self-binding mismatch")
      else if !policy.redirectUrisOk(document.redirectUris) then
        Err("CIMD document contains an invalid redirect_uri")
      else
        match PositiveTtl(response, now) {
          case Err(message) => Err(message)
          case Ok(ttl) => Ok(ValidatedDocument(clientId, document.clientName, document.redirectUris, ttl))
        }
  }

  /** What an answer must satisfy before its freshness is looked at. */
  ghost function ResponseChecks(clientId: string, response: Response, policy: Policy): seq<Check> {
    var document := response.document;
    [Check(response.statusCode == 200, "CIMD endpoint did not return HTTP 200"),
     Check(response.contentType.Some? && IsJson(response.contentType.value),
           "CIMD endpoint returned a non-JSON content type"),
     Check(response.bodyLength <= 65_536, "CIMD document is too large"),
     Check(document.Some?, "CIMD document is invalid"),
     Check(document.Some? && document.value.clientId == clientId, "CIMD self-binding mismatch"),
     Check(document.Some? && policy.redirectUrisOk(document.value.redirectUris),
           "CIMD document contains an invalid redirect_uri")]
  }

  /**
   A document is accepted exactly if its answer passes all of these checks and may be kept for a while,
   and then it is taken over as it is; the complaint is that of the first check that fails.
   */
  lemma ValidatedExactly(clientId: string, response: Response, now: int, policy: Policy)
    ensures var (checks, ttl) := (ResponseChecks(clientId, response, policy), PositiveTtl(response, now));
            match ValidateResponse(clientId, response, now, policy)
            case Ok(d) =>
              && AllPass(checks) && ttl == Ok(d.ttlMs) && d.clientId == clientId
              && response.document == Some(Document(d.clientId, d.clientName, d.redirectUris))
            case Err(message) => FirstComplaint(checks, message) || (AllPass(checks) && ttl == Err(message))
  {
    var checks := ResponseChecks(clientId, response, policy);
    if !checks[0].passes { assert AllPass(checks[..0]); }
    else if !checks[1].passes { assert AllPass(checks[..1]); }
    else if !checks[2].passes { assert AllPass(checks[..2]); }
    else if !checks[3].passes { assert AllPass(checks[..3]); }
    else if !checks[4].passes { assert AllPass(checks[..4]); }
    else if !checks[5].passes { assert AllPass(checks[..5]); }
  }
}
