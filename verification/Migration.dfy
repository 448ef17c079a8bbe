/**
 The embedding migration: every point of a source collection is read page by page, re-embedded and
 written to a target. The server, the embedder and the abort signal answer however they like.
 */
module Migration {
  import opened Prelude

  type Vector = seq<real>

  /** `text` is the payload's text if that is a string; `rest` is everything else in it. */
  datatype Payload = Payload(text: Option<string>, rest: map<string, string>)

  datatype Point = Point(id: string, payload: Option<Payload>)

  datatype Written = Written(id: string, vector: Vector, payload: Payload)

  /** One answer to a scroll: `more` stands for a next cursor. */
  datatype Page = Page(points: seq<Point>, more: bool)

  /** An upsert that fails may have been applied all the same. */
  datatype Upsert = Applied | FailedUnapplied | FailedApplied

  /**
   The k-th scroll, the k-th embedding call, the upsert of the k-th page and the k-th look at the abort
   signal, and the two final counts; None and true stand for failures.
   */
  datatype Env = Env(scroll: nat -> Option<Page>, embed: string -> Vector, embedFails: nat -> bool,
                     upsert: nat -> Upsert, aborted: nat -> bool, sourceCount: Option<nat>, targetCount: Option<nat>)

  datatype Options = Options(from: string, to: string, batchSize: int, dryRun: bool)

  datatype Outcome =
    | Complete(processed: nat, sourceCount: nat, targetCount: nat)
    | SameCollection
    | InvalidBatchSize
    | MissingText(id: string)
    | TooManyEmptyPages
    | CountMismatch
    | Aborted
    | UpstreamError

  const MAX_EMPTY_PAGES: nat := 3

  // ----- What the pages hold, and what should come of it -----

  function PageAt(e: Env, k: nat): seq<Point> {
    if e.scroll(k).Some? then e.scroll(k).value.points else []
  }

  /** The points of the first `k` pages. */
  function Served(e: Env, k: nat): seq<Point> {
    if k == 0 then [] else Served(e, k - 1) + PageAt(e, k - 1)
  }

  /** The pages are successive pieces of the source, and a page without a next cursor completes it. */
  ghost predicate Serves(e: Env, source: seq<Point>) { forall k: nat :: ServesUpTo(e, source, k) }

  ghost predicate ServesUpTo(e: Env, source: seq<Point>, k: nat) {
    && Served(e, k) <= source
    && (e.scroll(k).Some? && !e.scroll(k).value.more ==> Served(e, k + 1) == source)
  }

  predicate HasText(p: Point) { p.payload.Some? && p.payload.value.text.Some? }

  /** Id and payload as they are, the vector computed anew from the text. */
  function Image(e: Env, p: Point): Written
    requires HasText(p)
  {
    Written(p.id, e.embed(p.payload.value.text.value), p.payload.value)
  }

  /** Point by point the id and the payload as they are and a new vector for the text. */
  ghost predicate CopiedTo(e: Env, ps: seq<Point>, writes: seq<Written>) {
    && AllHaveText(ps) && |writes| == |ps|
    && forall i :: 0 <= i < |ps| ==>
                     && writes[i].id == ps[i].id && Some(writes[i].payload) == ps[i].payload
                     && writes[i].vector == e.embed(TextOf(ps[i]))
  }

  function TextOf(p: Point): string {
    if p.payload.Some? && p.payload.value.text.Some? then p.payload.value.text.value else ""
  }

  function Images(e: Env, ps: seq<Point>): seq<Written>
    requires forall p <- ps :: HasText(p)
  {
    seq(|ps|, i requires 0 <= i < |ps| => Image(e, ps[i]))
  }

  ghost predicate AllHaveText(ps: seq<Point>) { forall p <- ps :: HasText(p) }

  /** What is in the target is the image of the first `k` pages, whole ones. */
  ghost predicate WroteWholePages(e: Env, k: nat, dryRun: bool, writes: seq<Written>) {
    && AllHaveText(Served(e, k))
    && writes == if dryRun then [] else Images(e, Served(e, k))
  }

  lemma ImagesAreCopies(e: Env, ps: seq<Point>)
    requires AllHaveText(ps)
    ensures CopiedTo(e, ps, Images(e, ps))
  {
    forall i | 0 <= i < |ps| ensures HasText(ps[i]) && Images(e, ps)[i] == Image(e, ps[i]) {}
  }

  /** What one upsert leaves in the target, by its own answer. */
  function Lands(answer: Upsert, batch: seq<Written>): seq<Written> {
    match answer case Applied => batch case FailedUnapplied => [] case FailedApplied => batch
  }

  /** That is a copy of the points, or nothing if the upsert failed and was not applied. */
  lemma LandsAsCopies(e: Env, ps: seq<Point>, answer: Upsert)
    requires AllHaveText(ps)
    ensures var landed := Lands(answer, Images(e, ps));
            if answer.FailedUnapplied? then landed == [] else CopiedTo(e, ps, landed)
  {
    ImagesAreCopies(e, ps);
  }

  /** What the upserts of the first `k` pages leave in the target, by their answers alone. */
  ghost function Landed(e: Env, k: nat): seq<Written>
    requires AllHaveText(Served(e, k))
  {
    if k == 0 then []
    else
      TextBefore(e, k);
      Landed(e, k - 1) + if PageAt(e, k - 1) == [] then [] else Lands(e.upsert(k - 1), Images(e, PageAt(e, k - 1)))
  }

  lemma TextBefore(e: Env, k: nat)
    requires k > 0 && AllHaveText(Served(e, k))
    ensures AllHaveText(Served(e, k - 1)) && AllHaveText(PageAt(e, k - 1))
  {
    forall p | p in Served(e, k - 1) || p in PageAt(e, k - 1) ensures HasText(p) { assert p in Served(e, k); }
  }

  /** The target after the upserts of the first `k` pages, if any were made. */
  ghost predicate TargetHolds(e: Env, k: nat, dryRun: bool, writes: seq<Written>) {
    AllHaveText(Served(e, k)) && writes == if dryRun then [] else Landed(e, k)
  }

  /** Every page of the first `k` that had points was acknowledged by the target. */
  ghost predicate Acknowledged(e: Env, k: nat) { forall i: nat :: i < k && PageAt(e, i) != [] ==> e.upsert(i).Applied? }

  /** None of these embedding calls failed. */
  ghost predicate Embedded(e: Env, from: nat, to: nat) { forall i: nat :: from <= i < to ==> !e.embedFails(i) }

  /** None of these looks saw the signal. */
  ghost predicate Unaborted(e: Env, from: nat, to: nat) { forall i: nat :: from <= i < to ==> !e.aborted(i) }

  /** The batch comes as far as its upsert: nothing is aborted and every point is embedded. */
  ghost predicate ReachesUpsert(e: Env, points: seq<Point>, embedded: nat, checks: nat) {
    && AllHaveText(points)
    && Embedded(e, embedded, embedded + |points|) && Unaborted(e, checks, checks + |points| + 1)
  }

  /** The first look that sees the signal is look `n` of these, and every point before it was embedded. */
  ghost predicate AbortsAt(e: Env, embedded: nat, checks: nat, n: nat) {
    e.aborted(checks + n) && Unaborted(e, checks, checks + n) && Embedded(e, embedded, embedded + n)
  }

  /** The first embedding that fails is that of point `n`, after a look that saw nothing. */
  ghost predicate EmbedFailsAt(e: Env, embedded: nat, checks: nat, n: nat) {
    e.embedFails(embedded + n) && Unaborted(e, checks, checks + n + 1) && Embedded(e, embedded, embedded + n)
  }

  /** The first point without text, by its id. */
  ghost predicate FirstMissing(points: seq<Point>, id: string) {
    exists i :: 0 <= i < |points| && !HasText(points[i]) && points[i].id == id && AllHaveText(points[..i])
  }

  ghost predicate SomeAborted(e: Env) { exists k: nat :: e.aborted(k) }

  /** Something outside failed when page `k` was handled. */
  ghost predicate SomeFailure(e: Env, k: nat) {
    e.scroll(k).None? || !e.upsert(k).Applied? || exists j: nat :: e.embedFails(j)
  }

  /** How often the first `k` pages look at the signal: once each, and when writing per point and before the upsert. */
  function Looks(e: Env, k: nat, dryRun: bool): nat {
    if k == 0 then 0
    else Looks(e, k - 1, dryRun) + 1 + if dryRun || PageAt(e, k - 1) == [] then 0 else |PageAt(e, k - 1)| + 1
  }

  /** The first `k` pages went through: acknowledged, embedded and not aborted. */
  ghost predicate WentThrough(e: Env, k: nat, dryRun: bool, firstCheck: nat) {
    && Unaborted(e, firstCheck, firstCheck + Looks(e, k, dryRun))
    && (!dryRun ==> Acknowledged(e, k) && Embedded(e, 0, |Served(e, k)|))
  }

  /** Page `k` comes as far as its upsert. */
  ghost predicate TriesUpsert(e: Env, k: nat, dryRun: bool, firstCheck: nat) {
    var check := firstCheck + Looks(e, k, dryRun);
    && !dryRun && PageAt(e, k) != [] && !e.aborted(check)
    && ReachesUpsert(e, PageAt(e, k), |Served(e, k)|, check + 1)
  }

  /** Acknowledged pages land as they are. */
  lemma {:induction false} AcknowledgedLands(e: Env, k: nat)
    requires AllHaveText(Served(e, k)) && Acknowledged(e, k)
    ensures Landed(e, k) == Images(e, Served(e, k))
  {
    if k > 0 {
      TextBefore(e, k);
      AcknowledgedLands(e, k - 1);
      assert Images(e, Served(e, k)) == Images(e, Served(e, k - 1)) + Images(e, PageAt(e, k - 1));
    }
  }

  /** No failure of any kind from outside. */
  ghost predicate Quiet(e: Env) { (forall k: nat :: QuietAt(e, k)) && e.sourceCount.Some? && e.targetCount.Some? }

  ghost predicate QuietAt(e: Env, k: nat) {
    e.scroll(k).Some? && !e.embedFails(k) && !e.aborted(k) && e.upsert(k).Applied?
  }

  /** How many of the first `k` pages are empty at their end. */
  function TrailingEmpty(e: Env, k: nat): nat {
    if k > 0 && PageAt(e, k - 1) == [] then TrailingEmpty(e, k - 1) + 1 else 0
  }

  /** Page `n` is the one without a next cursor, and every page before it has one. */
  ghost predicate LastPage(e: Env, n: nat) { MoreBefore(e, n) && e.scroll(n).Some? && !e.scroll(n).value.more }

  ghost predicate MoreBefore(e: Env, n: nat) { forall k: nat :: k < n ==> e.scroll(k).Some? && e.scroll(k).value.more }

  ghost predicate FewEmpty(e: Env, n: nat) { forall k: nat :: k <= n ==> TrailingEmpty(e, k) < 3 }

  /** Up to and including page `n` there are three empty pages in a row. */
  ghost predicate GivesUpBy(e: Env, n: nat) { exists k: nat :: k <= n + 1 && TrailingEmpty(e, k) == 3 }

  lemma OneLastPage(e: Env, n: nat, m: nat)
    requires LastPage(e, n) && LastPage(e, m)
    ensures n == m
  {}

  // ----- The migration -----

  method FirstWithoutText(points: seq<Point>) returns (missing: Option<string>)
    ensures missing.None? <==> AllHaveText(points)
    ensures missing.Some? ==> FirstMissing(points, missing.value)
  {
    for i := 0 to |points|
      invariant AllHaveText(points[..i])
    {
      if !HasText(points[i]) { return Some(points[i].id); }
      assert points[..i + 1] == points[..i] + [points[i]];
    }
    assert points[..|points|] == points;
    return None;
  }

  /**
   One page: validate all of it, then embed point by point, then one upsert. What is written is what the
   target's answer says, and only an acknowledged upsert counts as success.
   */
  method MigrateBatch(e: Env, points: seq<Point>, dryRun: bool, page: nat, embedded: nat, checks: nat)
    returns (error: Option<Outcome>, writes: seq<Written>, checks1: nat)
    ensures error.None? <==>
              AllHaveText(points) && (dryRun || (ReachesUpsert(e, points, embedded, checks) && e.upsert(page).Applied?))
    ensures !dryRun && ReachesUpsert(e, points, embedded, checks) ==> writes == Lands(e.upsert(page), Images(e, points))
    ensures dryRun || !ReachesUpsert(e, points, embedded, checks) ==> writes == []
    ensures writes != [] ==> e.upsert(page).Applied? || e.upsert(page).FailedApplied?
    ensures error.None? ==> checks1 == checks + if dryRun then 0 else |points| + 1
    ensures error.Some? && error.value.MissingText? <==> !AllHaveText(points)
    ensures error.Some? ==> error.value in {Aborted, UpstreamError} || error.value.MissingText?
    ensures error.Some? && error.value.MissingText? ==> FirstMissing(points, error.value.id)
    ensures error == Some(Aborted) ==> exists n: nat :: n <= |points| && AbortsAt(e, embedded, checks, n)
    ensures error == Some(UpstreamError) ==>
              || (exists n: nat :: n < |points| && EmbedFailsAt(e, embedded, checks, n))
              || (ReachesUpsert(e, points, embedded, checks) && !e.upsert(page).Applied?)
    ensures Quiet(e) && AllHaveText(points) ==> error.None?
  {
    checks1, writes := checks, [];
    var missing := FirstWithoutText(points);
    if missing.Some? { return Some(MissingText(missing.value)), [], checks1; }
    if dryRun { return None, [], checks1; }
    var batch: seq<Written> := [];
    var i := 0;
    while i < |points|
      invariant 0 <= i <= |points| && checks1 == checks + i
      invariant batch == Images(e, points)[..i]
      invariant Embedded(e, embedded, embedded + i) && Unaborted(e, checks, checks + i)
    {
      assert Quiet(e) ==> QuietAt(e, checks1);
      var aborted := e.aborted(checks1);
      checks1 := checks1 + 1;
      if aborted {
        assert AbortsAt(e, embedded, checks, i);
        return Some(Aborted), [], checks1;
      }
      assert Quiet(e) ==> QuietAt(e, embedded + i);
      if e.embedFails(embedded + i) {
        assert EmbedFailsAt(e, embedded, checks, i);
        return Some(UpstreamError), [], checks1;
      }
      batch := batch + [Image(e, points[i])];
      i := i + 1;
    }
    assert Quiet(e) ==> QuietAt(e, checks1) && QuietAt(e, page);
    var aborted := e.aborted(checks1);
    checks1 := checks1 + 1;
    if aborted {
      assert AbortsAt(e, embedded, checks, |points|);
      return Some(Aborted), [], checks1;
    }
    var answer := e.upsert(page);
    return if answer.Applied? then None else Some(UpstreamError), Lands(answer, batch), checks1;
  }

  lemma NextPage(e: Env, k: nat, dryRun: bool, writes: seq<Written>, more: seq<Written>)
    requires WroteWholePages(e, k, dryRun, writes) && AllHaveText(PageAt(e, k))
    requires more == if dryRun then [] else Images(e, PageAt(e, k))
    ensures WroteWholePages(e, k + 1, dryRun, writes + more)
  {}

  /** A page with its upsert made: the target has what its answer says, and that is all of the page or none. */
  lemma PageWritten(e: Env, k: nat, dryRun: bool, writes: seq<Written>, batch: seq<Written>)
    requires WroteWholePages(e, k, dryRun, writes) && TargetHolds(e, k, dryRun, writes)
    requires PageAt(e, k) != [] && AllHaveText(PageAt(e, k))
    requires batch == if dryRun then [] else Lands(e.upsert(k), Images(e, PageAt(e, k)))
    ensures TargetHolds(e, k + 1, dryRun, writes + batch)
    ensures dryRun || batch != [] ==> WroteWholePages(e, k + 1, dryRun, writes + batch)
    ensures batch == [] ==> WroteWholePages(e, k, dryRun, writes + batch)
  {
    NextLanding(e, k, dryRun, writes);
    if dryRun || batch != [] { NextPage(e, k, dryRun, writes, batch); }
  }

  lemma PageInSource(e: Env, source: seq<Point>, k: nat)
    requires Serves(e, source)
    ensures AllHaveText(source) ==> AllHaveText(PageAt(e, k))
  {
    var before := Served(e, k);
    assert ServesUpTo(e, source, k + 1);
    forall i | 0 <= i < |PageAt(e, k)| ensures PageAt(e, k)[i] in source {
      assert PageAt(e, k)[i] == Served(e, k + 1)[|before| + i] == source[|before| + i];
    }
  }

  lemma NextLanding(e: Env, k: nat, dryRun: bool, writes: seq<Written>)
    requires TargetHolds(e, k, dryRun, writes) && AllHaveText(PageAt(e, k))
    ensures var more := if dryRun || PageAt(e, k) == [] then [] else Lands(e.upsert(k), Images(e, PageAt(e, k)));
            TargetHolds(e, k + 1, dryRun, writes + more)
  {
    assert AllHaveText(Served(e, k + 1));
  }

  lemma PageWentThrough(e: Env, k: nat, dryRun: bool, firstCheck: nat)
    requires WentThrough(e, k, dryRun, firstCheck) && !e.aborted(firstCheck + Looks(e, k, dryRun))
    requires dryRun || PageAt(e, k) == [] || (TriesUpsert(e, k, dryRun, firstCheck) && e.upsert(k).Applied?)
    ensures WentThrough(e, k + 1, dryRun, firstCheck)
  {}

  lemma LessToGo(e: Env, source: seq<Point>, page: nat)
    requires Serves(e, source)
    ensures |Served(e, page)| + |PageAt(e, page)| == |Served(e, page + 1)| <= |source|
  {
    assert ServesUpTo(e, source, page + 1);
  }

  /** What one more page does to the count of empty ones and to the record of cursors. */
  lemma PageDone(e: Env, page: nat)
    requires FewEmpty(e, page) && MoreBefore(e, page) && e.scroll(page).Some?
    ensures TrailingEmpty(e, page + 1) == if e.scroll(page).value.points == [] then TrailingEmpty(e, page) + 1 else 0
    ensures TrailingEmpty(e, page + 1) < MAX_EMPTY_PAGES ==> FewEmpty(e, page + 1)
    ensures e.scroll(page).value.more ==> MoreBefore(e, page + 1)
  {}

  /** Where the loop is after `page` pages that went through. */
  ghost predicate SoFar(e: Env, dryRun: bool, firstCheck: nat, page: nat, processed: nat, writes: seq<Written>,
                        checks: nat)
  {
    && WroteWholePages(e, page, dryRun, writes) && TargetHolds(e, page, dryRun, writes)
    && processed == |Served(e, page)| && checks == firstCheck + Looks(e, page, dryRun)
    && WentThrough(e, page, dryRun, firstCheck) && FewEmpty(e, page)
  }

  /** An empty page serves nothing, and costs one look. */
  lemma NothingServed(e: Env, dryRun: bool, k: nat)
    requires PageAt(e, k) == []
    ensures Served(e, k + 1) == Served(e, k) && Looks(e, k + 1, dryRun) == Looks(e, k, dryRun) + 1
  {
    assert Served(e, k) + [] == Served(e, k);
  }

  lemma NothingLanded(e: Env, k: nat)
    requires PageAt(e, k) == [] && AllHaveText(Served(e, k)) && Served(e, k + 1) == Served(e, k)
    ensures Landed(e, k + 1) == Landed(e, k)
  {
    assert Landed(e, k) + [] == Landed(e, k);
  }

  lemma NothingWritten(e: Env, dryRun: bool, k: nat, writes: seq<Written>)
    requires PageAt(e, k) == [] && WroteWholePages(e, k, dryRun, writes) && TargetHolds(e, k, dryRun, writes)
    ensures WroteWholePages(e, k + 1, dryRun, writes) && TargetHolds(e, k + 1, dryRun, writes)
  {
    NothingServed(e, dryRun, k);
    NothingLanded(e, k);
  }

  lemma EmptyPageDone(e: Env, dryRun: bool, firstCheck: nat, page: nat, processed: nat, writes: seq<Written>,
                      checks: nat)
    requires SoFar(e, dryRun, firstCheck, page, processed, writes, checks) && !e.aborted(checks)
    requires PageAt(e, page) == [] && FewEmpty(e, page + 1)
    ensures SoFar(e, dryRun, firstCheck, page + 1, processed, writes, checks + 1)
  {
    NothingServed(e, dryRun, page);
    NothingWritten(e, dryRun, page, writes);
    PageWentThrough(e, page, dryRun, firstCheck);
  }

  lemma FullPageDone(e: Env, dryRun: bool, firstCheck: nat, page: nat, processed: nat, writes: seq<Written>,
                     checks: nat, writes1: seq<Written>, checks1: nat)
    requires SoFar(e, dryRun, firstCheck, page, processed, writes, checks) && !e.aborted(checks)
    requires WroteWholePages(e, page + 1, dryRun, writes1) && TargetHolds(e, page + 1, dryRun, writes1)
    requires PageAt(e, page) != []
    requires dryRun || (ReachesUpsert(e, PageAt(e, page), processed, checks + 1) && e.upsert(page).Applied?)
    requires checks1 == checks + 1 + if dryRun then 0 else |PageAt(e, page)| + 1
    ensures SoFar(e, dryRun, firstCheck, page + 1, processed + |PageAt(e, page)|, writes1, checks1)
  {
    PageWentThrough(e, page, dryRun, firstCheck);
    assert TrailingEmpty(e, page + 1) == 0;
  }

  /**
   A loop that stops with an error: whole pages are written, the pages before `last` went through, and the
   target holds what the upserts say, with that of page `last` if it was made.
   */
  ghost predicate Stopped(e: Env, dryRun: bool, firstCheck: nat, writes: seq<Written>, pages: nat, last: nat,
                          tried: nat)
  {
    && WroteWholePages(e, pages, dryRun, writes) && TargetHolds(e, tried, dryRun, writes)
    && WentThrough(e, last, dryRun, firstCheck)
    && tried == if TriesUpsert(e, last, dryRun, firstCheck) then last + 1 else last
  }

  /** What each error says about the page at which the loop stopped. */
  ghost predicate Explains(e: Env, error: Outcome, pages: nat, last: nat) {
    match error
    case MissingText(id) => FirstMissing(PageAt(e, pages), id)
    case Aborted => SomeAborted(e)
    case UpstreamError => SomeFailure(e, last)
    case TooManyEmptyPages => TrailingEmpty(e, pages + 1) == 3 && MoreBefore(e, pages)
    case _ => false
  }

  /** A loop that comes to the last page: all of the source went through. */
  ghost predicate Finished(e: Env, dryRun: bool, firstCheck: nat, source: seq<Point>, pages: nat, processed: nat,
                           writes: seq<Written>, checks: nat)
  {
    && SoFar(e, dryRun, firstCheck, pages, processed, writes, checks)
    && Served(e, pages) == source && pages > 0 && LastPage(e, pages - 1)
  }

  lemma StopsBeforeTheBatch(e: Env, dryRun: bool, firstCheck: nat, page: nat, processed: nat, writes: seq<Written>,
                            checks: nat)
    requires SoFar(e, dryRun, firstCheck, page, processed, writes, checks)
    requires e.aborted(checks) || PageAt(e, page) == []
    ensures Stopped(e, dryRun, firstCheck, writes, page, page, page)
  {
    assert !TriesUpsert(e, page, dryRun, firstCheck);
  }

  lemma StopsInTheBatch(e: Env, dryRun: bool, firstCheck: nat, page: nat, processed: nat, writes: seq<Written>,
                        checks: nat, writes1: seq<Written>, pages: nat, tried: nat)
    requires SoFar(e, dryRun, firstCheck, page, processed, writes, checks)
    requires !e.aborted(checks) && PageAt(e, page) != []
    requires WroteWholePages(e, pages, dryRun, writes1) && TargetHolds(e, tried, dryRun, writes1)
    requires tried == if !dryRun && ReachesUpsert(e, PageAt(e, page), processed, checks + 1) then page + 1 else page
    ensures Stopped(e, dryRun, firstCheck, writes1, pages, page, tried)
  {}

  /** A batch that fails leaves whole pages too: its upsert was not made, or left all of it or nothing. */
  lemma BatchStops(e: Env, dryRun: bool, firstCheck: nat, page: nat, processed: nat, writes: seq<Written>,
                   checks: nat, batch: seq<Written>)
    returns (pages: nat, tried: nat)
    requires SoFar(e, dryRun, firstCheck, page, processed, writes, checks)
    requires !e.aborted(checks) && PageAt(e, page) != []
    requires batch == if !dryRun && ReachesUpsert(e, PageAt(e, page), processed, checks + 1)
                      then Lands(e.upsert(page), Images(e, PageAt(e, page))) else []
    ensures Stopped(e, dryRun, firstCheck, writes + batch, pages, page, tried)
    ensures batch == [] ==> pages == page
  {
    pages, tried := if batch == [] then page else page + 1, page;
    if !dryRun && ReachesUpsert(e, PageAt(e, page), processed, checks + 1) {
      tried := page + 1;
      PageWritten(e, page, dryRun, writes, batch);
    }
    StopsInTheBatch(e, dryRun, firstCheck, page, processed, writes, checks, writes + batch, pages, tried);
  }

  /**
   Migrates page `page`, which is not empty, after the ones before it: then it went through as well, or the
   migration stops in it. `tried` counts the pages whose upsert was made.
   */
  method HandleScrollPage(e: Env, ghost source: seq<Point>, dryRun: bool, ghost firstCheck: nat, page: nat,
                          processed: nat, writes: seq<Written>, checks: nat)
    returns (error: Option<Outcome>, writes1: seq<Written>, checks1: nat, ghost pages: nat, ghost tried: nat)
    requires Serves(e, source) && PageAt(e, page) != []
    requires checks > 0 && SoFar(e, dryRun, firstCheck, page, processed, writes, checks - 1) && !e.aborted(checks - 1)
    ensures error.None? ==> SoFar(e, dryRun, firstCheck, page + 1, processed + |PageAt(e, page)|, writes1, checks1)
    ensures error.None? <==>
              && AllHaveText(PageAt(e, page))
              && (dryRun || (ReachesUpsert(e, PageAt(e, page), processed, checks) && e.upsert(page).Applied?))
    ensures error.Some? ==>
              Stopped(e, dryRun, firstCheck, writes1, pages, page, tried) && Explains(e, error.value, pages, page)
    ensures error != Some(TooManyEmptyPages)
    ensures Quiet(e) && AllHaveText(source) ==> error.None?
  {
    PageInSource(e, source, page);
    var batch;
    error, batch, checks1 := MigrateBatch(e, PageAt(e, page), dryRun, page, processed, checks);
    writes1 := writes + batch;
    if error.None? {
      PageWritten(e, page, dryRun, writes, batch);
      FullPageDone(e, dryRun, firstCheck, page, processed, writes, checks - 1, writes1, checks1);
      pages, tried := page + 1, page + 1;
    } else {
      pages, tried := BatchStops(e, dryRun, firstCheck, page, processed, writes, checks - 1, batch);
    }
  }

  lemma NothingYet(e: Env, dryRun: bool, firstCheck: nat)
    ensures SoFar(e, dryRun, firstCheck, 0, 0, [], firstCheck) && MoreBefore(e, 0)
  {}

  lemma Finishes(e: Env, dryRun: bool, firstCheck: nat, source: seq<Point>, page: nat, processed: nat,
                 writes: seq<Written>, checks: nat)
    requires Serves(e, source) && MoreBefore(e, page) && e.scroll(page).Some? && !e.scroll(page).value.more
    requires SoFar(e, dryRun, firstCheck, page + 1, processed, writes, checks)
    ensures Finished(e, dryRun, firstCheck, source, page + 1, processed, writes, checks)
  {
    assert ServesUpTo(e, source, page);
  }

  /** One turn of the scroll loop, up to the cursor. `empty` counts the empty pages in a row. */
  method TakePage(e: Env, ghost source: seq<Point>, dryRun: bool, ghost firstCheck: nat, page: nat, empty: nat,
                  processed: nat, writes: seq<Written>, checks: nat)
    returns (error: Option<Outcome>, empty1: nat, processed1: nat, writes1: seq<Written>, checks1: nat,
             ghost pages: nat, ghost tried: nat)
    requires Serves(e, source) && MoreBefore(e, page) && empty == TrailingEmpty(e, page)
    requires SoFar(e, dryRun, firstCheck, page, processed, writes, checks)
    ensures error.Some? ==>
              Stopped(e, dryRun, firstCheck, writes1, pages, page, tried) && Explains(e, error.value, pages, page)
    ensures error.None? ==> SoFar(e, dryRun, firstCheck, page + 1, processed1, writes1, checks1)
    ensures error.None? ==> e.scroll(page).Some? && empty1 == TrailingEmpty(e, page + 1) < MAX_EMPTY_PAGES
    ensures Quiet(e) && AllHaveText(source) ==> error in {None, Some(TooManyEmptyPages)}
  {
    error, empty1, processed1, writes1, checks1, pages, tried := None, 0, processed, writes, checks + 1, page, page;
    assert Quiet(e) ==> QuietAt(e, checks) && QuietAt(e, page);
    if e.aborted(checks) {
      error := Some(Aborted);
    } else if e.scroll(page).None? {
      error := Some(UpstreamError);
    } else if PageAt(e, page) == [] {
      PageDone(e, page);
      empty1 := empty + 1;
      if empty1 >= MAX_EMPTY_PAGES { error := Some(TooManyEmptyPages); }
    } else {
      PageDone(e, page);
      error, writes1, checks1, pages, tried :=
        HandleScrollPage(e, source, dryRun, firstCheck, page, processed, writes, checks1);
      if error.None? { processed1 := processed + |PageAt(e, page)|; }
      return;
    }
    if error.Some? {
      StopsBeforeTheBatch(e, dryRun, firstCheck, page, processed, writes, checks);
    } else {
      EmptyPageDone(e, dryRun, firstCheck, page, processed, writes, checks);
    }
  }

  /**
   The scroll loop. It ends, since a page that is not empty leaves fewer points and three empty ones in a
   row end it. The third one does so even if it is the last page.
   */
  method IterateAndMigrate(e: Env, o: Options, ghost source: seq<Point>, firstCheck: nat)
    returns (error: Option<Outcome>, processed: nat, writes: seq<Written>, checks: nat, ghost pages: nat,
             ghost last: nat, ghost tried: nat)
    requires Serves(e, source)
    ensures error.Some? ==>
              Stopped(e, o.dryRun, firstCheck, writes, pages, last, tried) && Explains(e, error.value, pages, last)
    ensures error.None? ==> Finished(e, o.dryRun, firstCheck, source, pages, processed, writes, checks)
    ensures error.None? ==> pages == last == tried
    ensures Quiet(e) && AllHaveText(source) ==> error in {None, Some(TooManyEmptyPages)}
  {
    processed, writes, checks, pages, last, tried := 0, [], firstCheck, 0, 0, 0;
    NothingYet(e, o.dryRun, firstCheck);
    var empty := 0;
    var page := 0;
    while true
      invariant page == last && empty == TrailingEmpty(e, page) && MoreBefore(e, page)
      invariant SoFar(e, o.dryRun, firstCheck, page, processed, writes, checks)
      decreases |source| - |Served(e, page)|, MAX_EMPTY_PAGES - empty
    {
      LessToGo(e, source, page);
      error, empty, processed, writes, checks, pages, tried :=
        TakePage(e, source, o.dryRun, firstCheck, page, empty, processed, writes, checks);
      if error.Some? { return error, processed, writes, checks, pages, last, tried; }
      page := page + 1;
      pages, last, tried := page, page, page;
      if !e.scroll(page - 1).value.more {
        Finishes(e, o.dryRun, firstCheck, source, page - 1, processed, writes, checks);
        return None, processed, writes, checks, pages, last, tried;
      }
    }
  }

  /** How an undisturbed migration ends: it gives up on three empty pages in a row, and otherwise goes by the counts. */
  ghost predicate Ends(e: Env, o: Options, n: nat, outcome: Outcome) {
    && (outcome.TooManyEmptyPages? <==> GivesUpBy(e, n))
    && (!GivesUpBy(e, n) ==>
          if !o.dryRun && e.sourceCount != e.targetCount then outcome.CountMismatch? else outcome.Complete?)
  }

  /** Three empty pages in a row are found before the last page or never. */
  lemma GivesUpInTime(e: Env, pages: nat, n: nat)
    requires LastPage(e, n) && TrailingEmpty(e, pages + 1) == MAX_EMPTY_PAGES
    requires MoreBefore(e, pages)
    ensures GivesUpBy(e, n)
  {
    assert pages <= n;
  }

  lemma NeverGivesUp(e: Env, n: nat)
    requires FewEmpty(e, n + 1)
    ensures !GivesUpBy(e, n)
  {}

  /**
   A migration writes nothing in a dry run, and otherwise the images of whole pages from the first on,
   whatever goes wrong. It is complete only if that is every point of the source once, in order.
   */
  method RunMigration(e: Env, o: Options, ghost source: seq<Point>)
    returns (outcome: Outcome, writes: seq<Written>, ghost pages: nat, ghost last: nat, ghost tried: nat)
    requires Serves(e, source)
    ensures WroteWholePages(e, pages, o.dryRun, writes) && TargetHolds(e, tried, o.dryRun, writes)
    ensures tried == last || (tried == last + 1 && TriesUpsert(e, last, o.dryRun, 1))
    ensures outcome.Complete? || outcome.CountMismatch? ==>
              && pages == last == tried && Served(e, pages) == source
              && (!o.dryRun ==> Acknowledged(e, pages) && Embedded(e, 0, |source|) && CopiedTo(e, source, writes))
              && Unaborted(e, 0, 1 + Looks(e, pages, o.dryRun) + 1)
    ensures outcome.Complete? ==> outcome.processed == |source|
                                  && e.sourceCount == Some(outcome.sourceCount)
                                  && (if o.dryRun then outcome.targetCount == 0
                                      else outcome.targetCount == outcome.sourceCount
                                           && e.targetCount == Some(outcome.targetCount))
    ensures outcome.CountMismatch? ==> !o.dryRun && e.sourceCount != e.targetCount
    ensures outcome.SameCollection? <==> o.from == o.to
    ensures outcome.InvalidBatchSize? <==> o.from != o.to && o.batchSize <= 0
    ensures outcome.SameCollection? || outcome.InvalidBatchSize? ==> pages == tried == 0
    ensures outcome.MissingText? ==> FirstMissing(PageAt(e, pages), outcome.id)
    ensures outcome.Aborted? ==> SomeAborted(e)
    ensures outcome.UpstreamError? ==> SomeFailure(e, last) || e.sourceCount.None? || e.targetCount.None?
    ensures outcome.TooManyEmptyPages? ==> TrailingEmpty(e, pages + 1) == 3
    ensures Quiet(e) && AllHaveText(source) && o.from != o.to && o.batchSize > 0 ==>
              forall n: nat :: LastPage(e, n) ==> Ends(e, o, n, outcome)
    ensures Quiet(e) && AllHaveText(source) && o.from != o.to && o.batchSize > 0
            && (forall n: nat :: !LastPage(e, n)) ==>
              outcome.TooManyEmptyPages?
  {
    writes, pages, last, tried := [], 0, 0, 0;
    if o.from == o.to { return SameCollection, writes, pages, last, tried; }
    if o.batchSize <= 0 { return InvalidBatchSize, writes, pages, last, tried; }
    assert Quiet(e) ==> QuietAt(e, 0);
    if e.aborted(0) { return Aborted, writes, pages, last, tried; }
    var error, processed, checks;
    error, processed, writes, checks, pages, last, tried := IterateAndMigrate(e, o, source, 1);
    if error.Some? {
      if error.value.TooManyEmptyPages? {
        forall n: nat | LastPage(e, n) ensures GivesUpBy(e, n) { GivesUpInTime(e, pages, n); }
      }
      return error.value, writes, pages, last, tried;
    }
    if !o.dryRun { assert CopiedTo(e, source, writes) by { ImagesAreCopies(e, source); } }
    NeverGivesUp(e, pages - 1);
    forall n: nat | LastPage(e, n) ensures n == pages - 1 { OneLastPage(e, n, pages - 1); }
    assert Quiet(e) ==> QuietAt(e, checks);
    if e.aborted(checks) { return Aborted, writes, pages, last, tried; }
    if e.sourceCount.None? || (!o.dryRun && e.targetCount.None?) { return UpstreamError, writes, pages, last, tried; }
    if o.dryRun { return Complete(processed, e.sourceCount.value, 0), writes, pages, last, tried; }
    if e.sourceCount != e.targetCount { return CountMismatch, writes, pages, last, tried; }
    return Complete(processed, e.sourceCount.value, e.targetCount.value), writes, pages, last, tried;
  }

  // ----- Undisturbed migrations exist -----

  /** How many of `total` points the first `k` pages of `size` hold. */
  function Upto(total: nat, size: nat, k: nat): (n: nat)
    ensures n <= total
  {
    if k == 0 then 0 else Min(Upto(total, size, k - 1) + size, total)
  }

  /** A server that lists a source in pages of `size`, and sees it copied. */
  function Listing(source: seq<Point>, size: nat, embed: string -> Vector): Env {
    Env((k: nat) => Some(Page(Piece(source, size, k), Upto(|source|, size, k + 1) < |source|)), embed, _ => false,
        _ => Applied, _ => false, Some(|source|), Some(|source|))
  }

  function Piece(source: seq<Point>, size: nat, k: nat): seq<Point> {
    source[Upto(|source|, size, k)..Upto(|source|, size, k + 1)]
  }

  lemma PageOfListing(source: seq<Point>, size: nat, embed: string -> Vector, k: nat)
    ensures PageAt(Listing(source, size, embed), k) == Piece(source, size, k)
  {}

  lemma NextPiece(source: seq<Point>, size: nat, k: nat)
    ensures source[..Upto(|source|, size, k)] + Piece(source, size, k) == source[..Upto(|source|, size, k + 1)]
  {}

  ghost predicate ListsPieces(e: Env, source: seq<Point>, size: nat) {
    forall k: nat :: PageAt(e, k) == Piece(source, size, k)
  }

  lemma {:induction false} ServedInPieces(e: Env, source: seq<Point>, size: nat, k: nat)
    requires ListsPieces(e, source, size)
    ensures Served(e, k) == source[..Upto(|source|, size, k)]
  {
    if k > 0 {
      ServedInPieces(e, source, size, k - 1);
      NextPiece(source, size, k - 1);
    }
  }

  lemma ServedOfListing(source: seq<Point>, size: nat, embed: string -> Vector, k: nat)
    ensures Served(Listing(source, size, embed), k) == source[..Upto(|source|, size, k)]
  {
    var e := Listing(source, size, embed);
    forall i: nat ensures PageAt(e, i) == Piece(source, size, i) { PageOfListing(source, size, embed, i); }
    ServedInPieces(e, source, size, k);
  }

  lemma ListingServes(source: seq<Point>, size: nat, embed: string -> Vector)
    ensures Serves(Listing(source, size, embed), source)
  {
    var e := Listing(source, size, embed);
    forall k: nat ensures ServesUpTo(e, source, k) {
      ServedOfListing(source, size, embed, k);
      ServedOfListing(source, size, embed, k + 1);
    }
  }

  /** The first `n` pages end before the points do. */
  ghost predicate MoreUpto(total: nat, size: nat, n: nat) {
    forall k: nat :: 0 < k <= n ==> Upto(total, size, k) < total
  }

  lemma LastOfListing(total: nat, size: nat) returns (n: nat)
    requires size > 0
    ensures Upto(total, size, n + 1) == total
    ensures MoreUpto(total, size, n)
  {
    n := 0;
    while Upto(total, size, n + 1) < total
      invariant MoreUpto(total, size, n)
      decreases total - Upto(total, size, n + 1)
    {
      n := n + 1;
    }
  }

  /** Only an empty source has an empty page up to its last one. */
  lemma ListingNeverGivesUp(source: seq<Point>, size: nat, embed: string -> Vector, n: nat)
    requires size > 0 && MoreUpto(|source|, size, n)
    ensures !GivesUpBy(Listing(source, size, embed), n)
  {
    var e := Listing(source, size, embed);
    forall k: nat | k <= n + 1 ensures TrailingEmpty(e, k) <= 1 {
      if k > 1 {
        assert Upto(|source|, size, k - 1) < Upto(|source|, size, k);
        assert PageAt(e, k - 1) == Piece(source, size, k - 1) != [];
      } else if k == 1 {
        assert TrailingEmpty(e, 0) == 0;
      }
    }
  }

  /**
   The hypotheses of an undisturbed migration can be met together, for every source and page size: a
   server that lists the source page by page has a last page and no three empty ones.
   */
  lemma EverySourceCanBeMigrated(source: seq<Point>, size: nat, embed: string -> Vector) returns (n: nat)
    requires size > 0
    ensures var e := Listing(source, size, embed);
            && Serves(e, source) && Quiet(e) && LastPage(e, n) && !GivesUpBy(e, n)
            && e.sourceCount == e.targetCount == Some(|source|)
  {
    n := LastOfListing(|source|, size);
    ListingServes(source, size, embed);
    ListingNeverGivesUp(source, size, embed, n);
  }

  /** A server that gives the whole source at once and then goes on offering a next page. */
  function Endless(source: seq<Point>, embed: string -> Vector): Env {
    Listing(source, 1, embed).(scroll := (k: nat) => Some(Page(if k == 0 then source else [], true)))
  }

  lemma {:induction false} ServedOfEndless(source: seq<Point>, embed: string -> Vector, k: nat)
    ensures Served(Endless(source, embed), k) == if k == 0 then [] else source
  {
    if k > 0 { ServedOfEndless(source, embed, k - 1); }
  }

  /** And a server without a last page meets the others too: there an undisturbed migration gives up. */
  lemma EndlessServersExist(source: seq<Point>, embed: string -> Vector)
    ensures var e := Endless(source, embed);
            Serves(e, source) && Quiet(e) && forall n: nat :: !LastPage(e, n)
  {
    forall k: nat ensures ServesUpTo(Endless(source, embed), source, k) { ServedOfEndless(source, embed, k); }
  }
}
