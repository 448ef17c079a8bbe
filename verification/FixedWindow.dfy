/**
 The fixed-window rate limit that all three limiters of the server are instances of:
 one unbounded table of windows, never pruned, counting admitted requests only.
 */
module FixedWindow {
  import opened Prelude

  datatype Window = Window(admitted: nat, resetAt: int)

  datatype Decision = Admit | Reject(retryAfterSeconds: int)

  /** One request by `key`, with the clock in milliseconds. */
  datatype Request = Request(key: string, now: int)

  type Table = map<string, Window>

  /** `Math.ceil(ms / 1000)`. */
  function CeilSeconds(ms: int): int { (ms + 999) / 1000 }

  function Hit(t: Table, r: Request, max: nat, span: nat): (Table, Decision) {
    if r.key !in t || t[r.key].resetAt <= r.now then (t[r.key := Window(1, r.now + span)], Admit)
    else
      var w := t[r.key];
      if w.admitted < max then (t[r.key := w.(admitted := w.admitted + 1)], Admit)
      else (t, Reject(CeilSeconds(w.resetAt - r.now)))
  }

  function Run(t: Table, rs: seq<Request>, max: nat, span: nat): (ds: seq<Decision>)
    ensures |ds| == |rs|
    decreases |rs|
  {
    if rs == [] then []
    else var (t', d) := Hit(t, rs[0], max, span); [d] + Run(t', rs[1..], max, span)
  }

  ghost predicate Monotone(rs: seq<Request>) {
    forall i, j :: 0 <= i < j < |rs| ==> rs[i].now <= rs[j].now
  }

  /** How many requests of `key` with a time in `[from, to)` were admitted. */
  function AdmittedIn(rs: seq<Request>, ds: seq<Decision>, key: string, from: int, to: int): nat
    requires |rs| == |ds|
  {
    if rs == [] then 0
    else
      (if rs[0].key == key && from <= rs[0].now < to && ds[0].Admit? then 1 else 0)
      + AdmittedIn(rs[1..], ds[1..], key, from, to)
  }

  /** Every window in a reachable table has admitted at least its opening request. */
  ghost predicate Sound(t: Table, max: nat) {
    forall k <- t :: 1 <= t[k].admitted <= Max(1, max)
  }

  /** The most that `key` can still be granted inside `[from, from + span)`. */
  ghost function Budget(t: Table, key: string, from: int, span: nat, cap: int): int {
    if key !in t || t[key].resetAt <= from then 2 * cap - 1
    else if t[key].resetAt < from + span then cap - t[key].admitted + cap
    else cap - t[key].admitted
  }

  lemma {:induction false} NothingLater(rs: seq<Request>, ds: seq<Decision>, key: string, from: int, to: int)
    requires |rs| == |ds| && forall i :: 0 <= i < |rs| ==> to <= rs[i].now
    ensures AdmittedIn(rs, ds, key, from, to) == 0
  {
    if rs != [] { NothingLater(rs[1..], ds[1..], key, from, to); }
  }

  lemma {:induction false} WithinBudget(t: Table, rs: seq<Request>, max: nat, span: nat, key: string, from: int)
    requires Sound(t, max) && Monotone(rs)
    ensures AdmittedIn(rs, Run(t, rs, max, span), key, from, from + span) <= Budget(t, key, from, span, Max(1, max))
    decreases |rs|
  {
    if rs != [] {
      var (t', d) := Hit(t, rs[0], max, span);
      var ds := Run(t, rs, max, span);
      assert ds[1..] == Run(t', rs[1..], max, span);
      if from + span <= rs[0].now {
        NothingLater(rs, ds, key, from, from + span);
      } else {
        WithinBudget(t', rs[1..], max, span, key, from);
      }
    }
  }

  /**
   In every run with a clock that does not go back, any half-open stretch of one window
   length sees at most `2 * max - 1` admissions of one key, whatever the stretch.
   */
  lemma AnySpanAdmitsUnderTwiceTheLimit(rs: seq<Request>, max: nat, span: nat, key: string, from: int)
    requires Monotone(rs)
    ensures AdmittedIn(rs, Run(map[], rs, max, span), key, from, from + span) <= 2 * Max(1, max) - 1
  {
    WithinBudget(map[], rs, max, span, key, from);
  }

  function Repeat(r: Request, n: nat): seq<Request> { seq(n, _ => r) }

  function Admits(n: nat): seq<Decision> { seq(n, _ => Admit) }

  /** As long as the window has room, the same request is let in again and again. */
  lemma {:induction false} RepeatsAdmitted(t: Table, r: Request, n: nat, rest: seq<Request>, max: nat, span: nat)
    requires r.key in t && t[r.key].resetAt > r.now && t[r.key].admitted + n <= max
    ensures var t1 := t[r.key := Window(t[r.key].admitted + n, t[r.key].resetAt)];
            Run(t, Repeat(r, n) + rest, max, span) == Admits(n) + Run(t1, rest, max, span)
    decreases n
  {
    var rs := Repeat(r, n) + rest;
    if n == 0 {
      assert rs == rest && t[r.key := t[r.key]] == t;
    } else {
      var t1 := Hit(t, r, max, span).0;
      assert rs[1..] == Repeat(r, n - 1) + rest;
      RepeatsAdmitted(t1, r, n - 1, rest, max, span);
      var last := Window(t[r.key].admitted + n, t[r.key].resetAt);
      assert t1[r.key := last] == t[r.key := last];
      assert [Admit] + Admits(n - 1) == Admits(n);
    }
  }

  lemma {:induction false} AdmittedRepeats(r: Request, n: nat, rest: seq<Request>, ds: seq<Decision>, from: int,
                                           to: int)
    requires |ds| == |rest| && from <= r.now < to
    ensures AdmittedIn(Repeat(r, n) + rest, Admits(n) + ds, r.key, from, to)
         == n + AdmittedIn(rest, ds, r.key, from, to)
    decreases n
  {
    var (rs, es) := (Repeat(r, n) + rest, Admits(n) + ds);
    if n == 0 {
      assert rs == rest && es == ds;
    } else {
      assert rs[1..] == Repeat(r, n - 1) + rest && es[1..] == Admits(n - 1) + ds;
      AdmittedRepeats(r, n - 1, rest, ds, from, to);
    }
  }

  /** One request at the start of a window, the rest of the limit at its very end, the limit again right after. */
  function Burst(key: string, max: nat, span: nat): seq<Request>
    requires max > 0
  {
    var (late, next) := (Request(key, span - 1), Request(key, span));
    [Request(key, 0)] + (Repeat(late, max - 1) + ([next] + (Repeat(next, max - 1) + [])))
  }

  lemma BurstIsAdmitted(key: string, max: nat, span: nat)
    requires max > 0 && span >= 2
    ensures Run(map[], Burst(key, max, span), max, span)
         == [Admit] + (Admits(max - 1) + ([Admit] + (Admits(max - 1) + [])))
  {
    var (late, next) := (Request(key, span - 1), Request(key, span));
    var t1 := map[key := Window(1, span)];
    var t2 := map[key := Window(max, span)];
    var t3 := map[key := Window(1, 2 * span)];
    var second := [next] + (Repeat(next, max - 1) + []);
    assert second[1..] == Repeat(next, max - 1) + [];
    RepeatsAdmitted(t3, next, max - 1, [], max, span);
    assert t2[key := Window(1, 2 * span)] == t3;
    assert Run(t2, second, max, span) == [Admit] + (Admits(max - 1) + []);
    RepeatsAdmitted(t1, late, max - 1, second, max, span);
    assert t1[key := Window(max, span)] == t2;
    assert Burst(key, max, span)[1..] == Repeat(late, max - 1) + second;
    assert Hit(map[], Request(key, 0), max, span) == (t1, Admit);
  }

  lemma BurstIsMonotone(key: string, max: nat, span: nat)
    requires max > 0 && span >= 2
    ensures Monotone(Burst(key, max, span))
  {
    var rs := Burst(key, max, span);
    assert forall i :: 0 <= i < |rs| ==> rs[i].now == if i == 0 then 0 else if i < max then span - 1 else span;
  }

  /** The limit once more, in the window after. */
  lemma SecondBurst(key: string, max: nat, span: nat)
    requires max > 0 && span >= 2
    ensures var next := Request(key, span);
            var (rs, ds) := ([next] + (Repeat(next, max - 1) + []), [Admit] + (Admits(max - 1) + []));
            AdmittedIn(rs, ds, key, span - 1, span - 1 + span) == max
  {
    var next := Request(key, span);
    AdmittedRepeats(next, max - 1, [], [], span - 1, span - 1 + span);
    assert ([next] + (Repeat(next, max - 1) + []))[1..] == Repeat(next, max - 1) + [];
    assert ([Admit] + (Admits(max - 1) + []))[1..] == Admits(max - 1) + [];
  }

  lemma FirstIsTooEarly(first: Request, rs: seq<Request>, ds: seq<Decision>, from: int, to: int)
    requires |rs| == |ds| && first.now < from
    ensures AdmittedIn([first] + rs, [Admit] + ds, first.key, from, to) == AdmittedIn(rs, ds, first.key, from, to)
  {
    assert ([first] + rs)[1..] == rs && ([Admit] + ds)[1..] == ds;
  }

  /** The bound is reached for every limit, and every window of at least two milliseconds. */
  lemma TwiceTheLimitIsReached(key: string, max: nat, span: nat)
    requires max > 0 && span >= 2
    ensures var rs := Burst(key, max, span);
            Monotone(rs) && AdmittedIn(rs, Run(map[], rs, max, span), key, span - 1, span - 1 + span) == 2 * max - 1
  {
    BurstIsMonotone(key, max, span);
    BurstIsAdmitted(key, max, span);
    SecondBurst(key, max, span);
    var (late, next) := (Request(key, span - 1), Request(key, span));
    var (second, ds) := ([next] + (Repeat(next, max - 1) + []), [Admit] + (Admits(max - 1) + []));
    AdmittedRepeats(late, max - 1, second, ds, span - 1, span - 1 + span);
    FirstIsTooEarly(Request(key, 0), Repeat(late, max - 1) + second, Admits(max - 1) + ds, span - 1, span - 1 + span);
  }

  /** A window, from the request that opens it to its reset, admits at most the limit. */
  lemma OneWindowAdmitsTheLimit(t: Table, rs: seq<Request>, max: nat, span: nat)
    requires Sound(t, max) && Monotone(rs) && rs != []
    requires rs[0].key !in t || t[rs[0].key].resetAt <= rs[0].now
    ensures AdmittedIn(rs, Run(t, rs, max, span), rs[0].key, rs[0].now, rs[0].now + span) <= Max(1, max)
  {
    var (t', d) := Hit(t, rs[0], max, span);
    assert Run(t, rs, max, span)[1..] == Run(t', rs[1..], max, span);
    if span == 0 { NothingLater(rs, Run(t, rs, max, span), rs[0].key, rs[0].now, rs[0].now); }
    WithinBudget(t', rs[1..], max, span, rs[0].key, rs[0].now);
  }

  /** A limit of zero does not close the door: it decides exactly like a limit of one. */
  lemma {:induction false} ZeroLimitActsAsOne(t: Table, rs: seq<Request>, span: nat)
    requires Sound(t, 0)
    ensures Run(t, rs, 0, span) == Run(t, rs, 1, span)
    decreases |rs|
  {
    if rs != [] {
      ZeroLimitActsAsOne(Hit(t, rs[0], 0, span).0, rs[1..], span);
    }
  }

  /** The reported delay is the least whole number of seconds after which the key is let in. */
  lemma RetryAfterIsLeast(t: Table, r: Request, max: nat, span: nat, seconds: int)
    requires Sound(t, max) && Hit(t, r, max, span).1.Reject?
    ensures var (t', d) := Hit(t, r, max, span);
            && d.retryAfterSeconds >= 1
            && (Hit(t', Request(r.key, r.now + 1000 * seconds), max, span).1.Admit?
                <==> d.retryAfterSeconds <= seconds)
  {}
}
