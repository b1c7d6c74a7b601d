/** The worker pool that probes release URLs (scripts/release-url-probe.ts).
    Workers share a counter and a failure list and interleave at their awaits. */
module UrlProbe {
  import Sorting

  // ── The pool ──────────────────────────────────────────────────────────

  /** What a busy worker awaits: the HEAD response, closing a rejected HEAD, the
      range response, closing a judged response, or the pause between attempts. */
  datatype Stage = Head | CloseHead | Range | Close | Pause

  datatype Phase = Fresh | Busy(url: nat, attempt: nat, healthy: bool, stage: Stage) | Done

  /** How an await ends: it throws, the server does not allow HEAD (405 or 501),
      a response is judged, or it simply completes. */
  datatype Event = Throws | NotAllowed | Judged(healthy: bool) | Completes

  /** `assessed[u]` records every value given to `healthy` for URL `u`, and
      `requests[u]` counts the requests sent for it. */
  datatype State = State(
    attempts: nat, next: nat, failures: seq<nat>, workers: seq<Phase>,
    assessed: seq<seq<bool>>, requests: seq<nat>)

  function Total(s: State): nat { |s.assessed| }

  function Set(s: State, w: nat, p: Phase): State
    requires w < |s.workers|
  {
    s.(workers := s.workers[w := p])
  }

  function Send(s: State, u: nat): State
    requires u < |s.requests|
  {
    s.(requests := s.requests[u := s.requests[u] + 1])
  }

  /** Takes the next URL, or stops when there is none left. */
  function Claim(s: State, w: nat): State
    requires w < |s.workers| && |s.requests| == Total(s)
  {
    if s.next < Total(s) then Set(Send(s, s.next), w, Busy(s.next, 1, false, Head)).(next := s.next + 1)
    else Set(s, w, Done)
  }

  /** Leaves the attempt loop. */
  function EndUrl(s: State, w: nat): State
    requires w < |s.workers| && s.workers[w].Busy? && |s.requests| == Total(s)
  {
    var p := s.workers[w];
    Claim(if p.healthy then s else s.(failures := s.failures + [p.url]), w)
  }

  /** Reaches the end of an attempt's body. */
  function EndAttempt(s: State, w: nat): State
    requires w < |s.workers| && s.workers[w].Busy? && |s.requests| == Total(s)
  {
    var p := s.workers[w];
    if p.attempt < s.attempts then Set(s, w, p.(stage := Pause)) else EndUrl(s, w)
  }

  function Judge(s: State, w: nat, healthy: bool): State
    requires w < |s.workers| && s.workers[w].Busy? && s.workers[w].url < Total(s)
  {
    var p := s.workers[w];
    Set(s.(assessed := s.assessed[p.url := s.assessed[p.url] + [healthy]]), w, p.(healthy := healthy, stage := Close))
  }

  /** One await of worker `w` ends with `e`; other combinations do not occur. */
  function Next(s: State, w: nat, e: Event): State
    requires w < |s.workers| && |s.requests| == Total(s)
    requires s.workers[w].Busy? ==> s.workers[w].url < Total(s)
  {
    match s.workers[w]
    case Fresh => Claim(s, w)
    case Done => s
    case Busy(u, attempt, healthy, Head) =>
      (match e
       case Throws => EndAttempt(s, w)
       case NotAllowed => Set(s, w, Busy(u, attempt, healthy, CloseHead))
       case Judged(h) => Judge(s, w, h)
       case Completes => s)
    case Busy(u, attempt, healthy, CloseHead) =>
      (match e
       case Throws => EndAttempt(s, w)
       case Completes => Set(Send(s, u), w, Busy(u, attempt, healthy, Range))
       case _ => s)
    case Busy(u, attempt, healthy, Range) =>
      (match e
       case Throws => EndAttempt(s, w)
       case Judged(h) => Judge(s, w, h)
       case _ => s)
    case Busy(u, attempt, healthy, Close) =>
      (match e
       case Throws => EndAttempt(s, w)
       case Completes => if healthy then EndUrl(s, w) else EndAttempt(s, w)
       case _ => s)
    case Busy(u, attempt, healthy, Pause) =>
      (match e
       case Completes => Set(Send(s, u), w, Busy(u, attempt + 1, healthy, Head))
       case _ => s)
  }

  datatype Move = Move(worker: nat, event: Event)

  function Min(a: nat, b: nat): nat { if a < b then a else b }

  function Begin(urls: nat, attempts: nat, concurrency: nat): State {
    State(attempts, 0, [], seq(Min(concurrency, urls), _ => Fresh), seq(urls, _ => []), seq(urls, _ => 0))
  }

  // ── The invariant ─────────────────────────────────────────────────────

  /** The value of `healthy` after the given assignments. */
  predicate LastHealthy(values: seq<bool>) { values != [] && values[|values| - 1] }

  predicate Holds(s: State, w: nat, u: nat) {
    w < |s.workers| && s.workers[w].Busy? && s.workers[w].url == u
  }

  predicate InFlight(s: State, u: nat) { exists w :: 0 <= w < |s.workers| && Holds(s, w, u) }

  function Allowance(p: Phase): nat
    requires p.Busy? && p.attempt >= 1
  {
    2 * p.attempt - if p.stage in {Head, CloseHead} then 1 else 0
  }

  /** How many responses may have been judged for a worker's URL. */
  function Verdicts(p: Phase): nat
    requires p.Busy? && p.attempt >= 1
  {
    p.attempt - if p.stage in {Close, Pause} then 0 else 1
  }

  predicate WorkerOk(s: State, w: nat)
    requires w < |s.workers| && |s.requests| == Total(s)
  {
    var p := s.workers[w];
    && (p.Busy? ==>
          && p.url < s.next <= Total(s) && 1 <= p.attempt <= s.attempts
          && (p.stage.Pause? ==> p.attempt < s.attempts)
          && p.healthy == LastHealthy(s.assessed[p.url])
          && s.requests[p.url] <= Allowance(p) && |s.assessed[p.url]| <= Verdicts(p))
    && (p.Done? ==> s.next == Total(s))
  }

  predicate UrlOk(s: State, u: nat)
    requires u < Total(s) && |s.requests| == Total(s)
  {
    && (u >= s.next ==> s.assessed[u] == [] && s.requests[u] == 0 && !InFlight(s, u) && u !in s.failures)
    && (u < s.next && !InFlight(s, u) ==>
          s.requests[u] <= 2 * s.attempts && |s.assessed[u]| <= s.attempts &&
            (u in s.failures <==> !LastHealthy(s.assessed[u])))
    && (InFlight(s, u) ==> u !in s.failures)
  }

  predicate Inv(s: State) {
    && |s.requests| == Total(s) && s.next <= Total(s) && s.attempts >= 1
    && (forall w :: 0 <= w < |s.workers| ==> WorkerOk(s, w))
    && (forall u :: 0 <= u < Total(s) ==> UrlOk(s, u))
    && (forall v, w :: 0 <= v < w < |s.workers| && s.workers[v].Busy? && s.workers[w].Busy? ==>
                         s.workers[v].url != s.workers[w].url)
    && (forall u :: u in s.failures ==> u < Total(s))
    && (forall i, j :: 0 <= i < j < |s.failures| ==> s.failures[i] != s.failures[j])
  }

  /** Worker `w` still has its URL, and nothing but it and that URL's counts
      changed. */
  predicate SameBut(s: State, s': State, w: nat)
    requires w < |s.workers| && s.workers[w].Busy? && |s.requests| == Total(s)
  {
    && |s'.workers| == |s.workers| && s'.workers == s.workers[w := s'.workers[w]]
    && s'.workers[w].Busy? && s'.workers[w].url == s.workers[w].url
    && s'.attempts == s.attempts && s'.next == s.next && s'.failures == s.failures
    && Total(s') == Total(s) && |s'.requests| == |s.requests|
    && forall u :: 0 <= u < Total(s) && u != s.workers[w].url ==>
         s'.assessed[u] == s.assessed[u] && s'.requests[u] == s.requests[u]
  }

  /** A busy worker goes on with its URL. */
  lemma KeepsUrl(s: State, s': State, w: nat)
    requires Inv(s) && w < |s.workers| && s.workers[w].Busy?
    requires SameBut(s, s', w) && WorkerOk(s', w)
    ensures Inv(s')
  {
    assert WorkerOk(s, w);
    forall v | 0 <= v < |s'.workers| ensures WorkerOk(s', v) {
      assert WorkerOk(s, v);
    }
    forall u | 0 <= u < Total(s') ensures UrlOk(s', u) {
      assert UrlOk(s, u);
      assert Holds(s, w, s.workers[w].url) && Holds(s', w, s.workers[w].url);
      forall v | 0 <= v < |s.workers| ensures Holds(s, v, u) <==> Holds(s', v, u) { }
      assert InFlight(s, u) <==> InFlight(s', u);
    }
  }

  /** A worker that finishes a URL gives it up, failed or not. */
  function Release(s: State, w: nat): State
    requires w < |s.workers| && s.workers[w].Busy?
  {
    var p := s.workers[w];
    Set(if p.healthy then s else s.(failures := s.failures + [p.url]), w, Fresh)
  }

  lemma ReleaseOk(s: State, w: nat)
    requires Inv(s) && w < |s.workers| && s.workers[w].Busy?
    ensures Inv(Release(s, w))
  {
    var p := s.workers[w];
    var s' := Release(s, w);
    assert WorkerOk(s, w) && Holds(s, w, p.url);
    assert UrlOk(s, p.url);
    forall v | 0 <= v < |s'.workers| ensures WorkerOk(s', v) {
      assert WorkerOk(s, v);
    }
    forall u | 0 <= u < Total(s') ensures UrlOk(s', u) {
      assert UrlOk(s, u);
      if u == p.url {
        assert !InFlight(s', u);
      } else {
        forall v | 0 <= v < |s.workers| ensures Holds(s, v, u) <==> Holds(s', v, u) { }
        assert InFlight(s, u) <==> InFlight(s', u);
      }
    }
  }

  lemma ClaimOk(s: State, w: nat)
    requires Inv(s) && w < |s.workers| && s.workers[w].Fresh?
    ensures Inv(Claim(s, w))
  {
    var s' := Claim(s, w);
    if s.next < Total(s) { assert UrlOk(s, s.next); }
    forall v | 0 <= v < |s.workers| && v != w
      ensures s.workers[v].Busy? ==> s.workers[v].url < s.next
    {
      assert WorkerOk(s, v);
    }
    forall v | 0 <= v < |s'.workers| ensures WorkerOk(s', v) {
      assert WorkerOk(s, v);
    }
    forall u | 0 <= u < Total(s') ensures UrlOk(s', u) {
      assert UrlOk(s, u);
      if s.next < Total(s) && u == s.next {
        assert Holds(s', w, u);
      } else {
        forall v | 0 <= v < |s.workers| ensures Holds(s, v, u) <==> Holds(s', v, u) { }
        assert InFlight(s, u) <==> InFlight(s', u);
      }
    }
  }

  lemma EndUrlOk(s: State, w: nat)
    requires Inv(s) && w < |s.workers| && s.workers[w].Busy?
    ensures Inv(EndUrl(s, w))
  {
    ReleaseOk(s, w);
    ClaimOk(Release(s, w), w);
    var p := s.workers[w];
    assert Release(s, w).workers[w := Busy(s.next, 1, false, Head)] == s.workers[w := Busy(s.next, 1, false, Head)];
    assert Release(s, w).workers[w := Done] == s.workers[w := Done];
    assert EndUrl(s, w) == Claim(Release(s, w), w);
  }

  lemma StepKeepsInv(s: State, w: nat, e: Event)
    requires Inv(s) && w < |s.workers|
    ensures (s.workers[w].Busy? ==> s.workers[w].url < Total(s)) && Inv(Next(s, w, e))
  {
    assert WorkerOk(s, w);
    var s', p := Next(s, w, e), s.workers[w];
    if p.Fresh? {
      ClaimOk(s, w);
    } else if p.Busy? && s' != s {
      if s'.workers[w].Busy? && s'.workers[w].url == p.url {
        KeepsUrl(s, s', w) by { KeptWorkerOk(s, w, e); }
      } else {
        EndUrlOk(s, w);
      }
    }
  }

  lemma KeptWorkerOk(s: State, w: nat, e: Event)
    requires Inv(s) && w < |s.workers| && s.workers[w].Busy? && WorkerOk(s, w)
    requires Next(s, w, e) != s && Next(s, w, e).workers[w].Busy? && Next(s, w, e).workers[w].url == s.workers[w].url
    ensures SameBut(s, Next(s, w, e), w) && WorkerOk(Next(s, w, e), w)
  {
    match s.workers[w].stage
    case Head =>
    case CloseHead =>
    case Range =>
    case Close =>
    case Pause =>
  }

  function RunAll(s: State, moves: seq<Move>): State
    requires Inv(s)
    decreases |moves|
  {
    if moves == [] then s
    else if moves[0].worker < |s.workers| then
      StepKeepsInv(s, moves[0].worker, moves[0].event);
      RunAll(Next(s, moves[0].worker, moves[0].event), moves[1..])
    else RunAll(s, moves[1..])
  }

  lemma BeginOk(urls: nat, attempts: nat, concurrency: nat)
    requires attempts >= 1
    ensures Inv(Begin(urls, attempts, concurrency))
  {
  }

  lemma {:induction false} RunKeepsInv(s: State, moves: seq<Move>)
    requires Inv(s)
    ensures Inv(RunAll(s, moves)) && |RunAll(s, moves).workers| == |s.workers|
    ensures Total(RunAll(s, moves)) == Total(s) && RunAll(s, moves).attempts == s.attempts
    decreases |moves|
  {
    if moves != [] {
      if moves[0].worker < |s.workers| {
        StepKeepsInv(s, moves[0].worker, moves[0].event);
        RunKeepsInv(Next(s, moves[0].worker, moves[0].event), moves[1..]);
      } else {
        RunKeepsInv(s, moves[1..]);
      }
    }
  }

  // ── What every interleaving guarantees ────────────────────────────────

  function HeldUrls(workers: seq<Phase>): set<nat> {
    if workers == [] then {}
    else HeldUrls(workers[1..]) + if workers[0].Busy? then {workers[0].url} else {}
  }

  lemma {:induction false} HeldUrlsFew(workers: seq<Phase>)
    ensures |HeldUrls(workers)| <= |workers|
    ensures forall w :: 0 <= w < |workers| && workers[w].Busy? ==> workers[w].url in HeldUrls(workers)
  {
    if workers != [] { HeldUrlsFew(workers[1..]); }
  }

  predicate Finished(s: State) { forall w :: 0 <= w < |s.workers| ==> s.workers[w].Done? }

  /** In every state of every interleaving at most `concurrency` URLs are in
      flight, each with one worker, and no URL cost more than two requests or
      more than one judged response per attempt. Once all workers are done, the
      failure list names, each once, exactly the URLs whose last judged response
      was not healthy. */
  lemma PoolIsExact(urls: nat, attempts: nat, concurrency: nat, moves: seq<Move>)
    requires attempts >= 1 && concurrency >= 1
    ensures Inv(Begin(urls, attempts, concurrency))
    ensures var s := RunAll(Begin(urls, attempts, concurrency), moves);
            && |s.workers| <= concurrency && |s.workers| <= urls && |s.workers| in {concurrency, urls}
            && |HeldUrls(s.workers)| <= concurrency
            && |s.requests| == |s.assessed| == urls
            && (forall v, w :: 0 <= v < w < |s.workers| && s.workers[v].Busy? && s.workers[w].Busy? ==>
                                 s.workers[v].url != s.workers[w].url)
            && (forall u :: 0 <= u < urls ==> s.requests[u] <= 2 * attempts && |s.assessed[u]| <= attempts)
            && (forall i, j :: 0 <= i < j < |s.failures| ==> s.failures[i] != s.failures[j])
            && (Finished(s) ==> forall u: nat :: u in s.failures <==> u < urls && !LastHealthy(s.assessed[u]))
  {
    BeginOk(urls, attempts, concurrency);
    var s := RunAll(Begin(urls, attempts, concurrency), moves);
    RunKeepsInv(Begin(urls, attempts, concurrency), moves);
    HeldUrlsFew(s.workers);
    forall u | 0 <= u < urls ensures s.requests[u] <= 2 * attempts && |s.assessed[u]| <= attempts {
      assert UrlOk(s, u);
      if InFlight(s, u) {
        var w :| 0 <= w < |s.workers| && Holds(s, w, u);
        assert WorkerOk(s, w);
      }
    }
    if Finished(s) {
      if urls > 0 { assert |s.workers| > 0 && WorkerOk(s, 0); }
      forall u | 0 <= u < urls ensures u in s.failures <==> !LastHealthy(s.assessed[u]) {
        assert UrlOk(s, u) && !InFlight(s, u);
      }
    }
  }

  // ── When closing a judged response throws ─────────────────────────────

  /** In this run closing a healthy response never throws with attempts left. */
  predicate Quiet(s: State, moves: seq<Move>)
    requires Inv(s)
    decreases |moves|
  {
    if moves == [] then true
    else if moves[0].worker < |s.workers| then
      StepKeepsInv(s, moves[0].worker, moves[0].event);
      var p := s.workers[moves[0].worker];
      && !(p.Busy? && p.stage == Close && p.healthy && p.attempt < s.attempts && moves[0].event.Throws?)
      && Quiet(Next(s, moves[0].worker, moves[0].event), moves[1..])
    else Quiet(s, moves[1..])
  }

  /** A healthy verdict is the last one, and a worker that got it is closing. */
  predicate VerdictsSettle(s: State) {
    && (forall u, i :: 0 <= u < Total(s) && 0 <= i < |s.assessed[u]| - 1 ==> !s.assessed[u][i])
    && (forall w :: 0 <= w < |s.workers| && s.workers[w].Busy? && s.workers[w].healthy ==> s.workers[w].stage == Close)
  }

  lemma QuietStep(s: State, w: nat, e: Event)
    requires Inv(s) && VerdictsSettle(s) && w < |s.workers|
    requires var p := s.workers[w]; !(p.Busy? && p.stage == Close && p.healthy && p.attempt < s.attempts && e.Throws?)
    ensures (s.workers[w].Busy? ==> s.workers[w].url < Total(s)) && VerdictsSettle(Next(s, w, e))
  {
    assert WorkerOk(s, w);
    var s', p := Next(s, w, e), s.workers[w];
    if p.Busy? && s'.assessed != s.assessed {
      assert !LastHealthy(s.assessed[p.url]);
      assert s'.assessed[p.url][..|s.assessed[p.url]|] == s.assessed[p.url];
    }
  }

  lemma {:induction false} QuietRun(s: State, moves: seq<Move>)
    requires Inv(s) && VerdictsSettle(s) && Quiet(s, moves)
    ensures VerdictsSettle(RunAll(s, moves))
    decreases |moves|
  {
    if moves != [] {
      if moves[0].worker < |s.workers| {
        QuietStep(s, moves[0].worker, moves[0].event);
        StepKeepsInv(s, moves[0].worker, moves[0].event);
        QuietRun(Next(s, moves[0].worker, moves[0].event), moves[1..]);
      } else {
        QuietRun(s, moves[1..]);
      }
    }
  }

  /** When closing a healthy response never throws, except on a last attempt, the
      failures are exactly the URLs for which no attempt was healthy. */
  lemma QuietPoolIsExact(urls: nat, attempts: nat, concurrency: nat, moves: seq<Move>)
    requires attempts >= 1 && concurrency >= 1
    requires Inv(Begin(urls, attempts, concurrency)) && Quiet(Begin(urls, attempts, concurrency), moves)
    ensures var s := RunAll(Begin(urls, attempts, concurrency), moves);
            |s.assessed| == urls &&
            (Finished(s) ==> forall u: nat :: u in s.failures <==> u < urls && true !in s.assessed[u])
  {
    PoolIsExact(urls, attempts, concurrency, moves);
    QuietRun(Begin(urls, attempts, concurrency), moves);
  }

  /** When it does throw, the next attempt's verdict overwrites the healthy one. */
  lemma OverwritesVerdict(s: State, w: nat, u: nat)
    requires Inv(s) && w < |s.workers| && s.attempts >= 2
    requires s.workers[w] == Busy(u, s.attempts - 1, true, Close)
    ensures u < Total(s)
    ensures var s1 := Set(s, w, Busy(u, s.attempts - 1, true, Pause));
            var s2 := Set(Send(s, u), w, Busy(u, s.attempts, true, Head));
            var s3 := Judge(s2, w, false);
            && s1 == Next(s, w, Throws) && s2 == Next(s1, w, Completes) && s3 == Next(s2, w, Judged(false))
            && u in Next(s3, w, Completes).failures
            && true in Next(s3, w, Completes).assessed[u]
  {
    assert WorkerOk(s, w);
    var s1 := Set(s, w, Busy(u, s.attempts - 1, true, Pause));
    var s2 := Set(Send(s, u), w, Busy(u, s.attempts, true, Head));
    assert s1.workers[w := Busy(u, s.attempts, true, Head)] == s2.workers;
    assert s.assessed[u][|s.assessed[u]| - 1];
    assert (s.assessed[u] + [false])[|s.assessed[u]| - 1];
  }

  // ── Every run ends ────────────────────────────────────────────────────

  /** How many awaits a worker may still have on its URL. */
  function Left(p: Phase, attempts: nat): int {
    match p
    case Done => 0
    case Fresh => 1
    case Busy(_, attempt, _, stage) =>
      5 * (attempts - attempt) +
        match stage case Head => 5 case CloseHead => 4 case Range => 3 case Close => 2 case Pause => 1
  }

  function SumLeft(workers: seq<Phase>, attempts: nat): int {
    if workers == [] then 0 else Left(workers[0], attempts) + SumLeft(workers[1..], attempts)
  }

  function Effort(s: State): int { 5 * s.attempts * (Total(s) - s.next) + SumLeft(s.workers, s.attempts) }

  lemma {:induction false} SumLeftUpdate(workers: seq<Phase>, w: nat, p: Phase, attempts: nat)
    requires w < |workers|
    ensures SumLeft(workers[w := p], attempts) ==
            SumLeft(workers, attempts) - Left(workers[w], attempts) + Left(p, attempts)
  {
    if w > 0 {
      SumLeftUpdate(workers[1..], w - 1, p, attempts);
      assert workers[w := p][1..] == workers[1..][w - 1 := p];
    } else {
      assert workers[w := p][1..] == workers[1..];
    }
  }

  lemma {:induction false} SumLeftPositive(s: State, w: nat)
    requires Inv(s) && w <= |s.workers|
    ensures SumLeft(s.workers[w..], s.attempts) >= 0
    decreases |s.workers| - w
  {
    if w < |s.workers| {
      assert WorkerOk(s, w);
      SumLeftPositive(s, w + 1);
    }
  }

  lemma LeftDrops(s: State, w: nat, e: Event)
    requires Inv(s) && w < |s.workers| && WorkerOk(s, w)
    ensures var s' := Next(s, w, e);
            s' != s ==>
              && s'.workers == s.workers[w := s'.workers[w]] && s'.attempts == s.attempts && Total(s') == Total(s)
              && ((s'.next == s.next && Left(s'.workers[w], s.attempts) < Left(s.workers[w], s.attempts))
                  || (s'.next == s.next + 1 && Left(s'.workers[w], s.attempts) < Left(s.workers[w],
                     s.attempts) + 5 * s.attempts))
  {
  }

  lemma EffortDrops(s: State, s': State, w: nat)
    requires w < |s.workers| == |s'.workers| && s'.workers == s.workers[w := s'.workers[w]]
    requires s'.attempts == s.attempts && Total(s') == Total(s)
    requires s'.next == s.next || s'.next == s.next + 1
    requires Left(s'.workers[w], s.attempts) <
             Left(s.workers[w], s.attempts) + if s'.next == s.next then 0 else 5 * s.attempts
    ensures Effort(s') < Effort(s)
  {
    SumLeftUpdate(s.workers, w, s'.workers[w], s.attempts);
    OneFewer(5 * s.attempts, Total(s), s.next);
  }

  lemma EffortPositive(s: State)
    requires Inv(s)
    ensures Effort(s) >= 0
  {
    SumLeftPositive(s, 0);
    assert s.workers[0..] == s.workers;
    NeverNegative(5 * s.attempts, Total(s) - s.next);
  }

  lemma NeverNegative(k: nat, n: nat)
    ensures k * n >= 0
  {
  }

  lemma OneFewer(k: nat, n: nat, next: nat)
    ensures k * (n - (next + 1)) == k * (n - next) - k
  {
  }

  /** Every await that ends brings the pool strictly nearer its end, so a pool
      finishes after at most 5 · attempts awaits per URL and one per worker. */
  lemma EveryStepProgresses(s: State, w: nat, e: Event)
    requires Inv(s) && w < |s.workers|
    ensures s.workers[w].Busy? ==> s.workers[w].url < Total(s)
    ensures Effort(s) >= 0
    ensures Next(s, w, e) != s ==> Effort(Next(s, w, e)) < Effort(s)
  {
    assert WorkerOk(s, w);
    EffortPositive(s);
    LeftDrops(s, w, e);
    if Next(s, w, e) != s { EffortDrops(s, Next(s, w, e), w); }
  }

  /** A pool that is not finished has an await whose end changes it. */
  lemma UnfinishedMoves(s: State) returns (w: nat, e: Event)
    requires Inv(s) && !Finished(s)
    ensures w < |s.workers| && (s.workers[w].Busy? ==> s.workers[w].url < Total(s)) && Next(s, w, e) != s
  {
    var v :| 0 <= v < |s.workers| && !s.workers[v].Done?;
    w, e := v, if s.workers[v].Busy? && s.workers[v].stage.Pause? then Completes else Throws;
    assert WorkerOk(s, w);
    assert Next(s, w, e).workers[w] != s.workers[w];
  }

  /** The moves of a run that change something. */
  function Changes(s: State, moves: seq<Move>): set<int>
    requires Inv(s)
  {
    set i | 0 <= i < |moves| && ChangesAt(s, moves, i)
  }

  predicate ChangesAt(s: State, moves: seq<Move>, i: nat)
    requires Inv(s) && i < |moves|
  {
    RunAll(s, moves[..i]) != RunAll(s, moves[..i + 1])
  }

  /** No run changes the pool more often than the measure allows. */
  lemma {:induction false} FewChanges(s: State, moves: seq<Move>)
    requires Inv(s)
    ensures |Changes(s, moves)| <= Effort(s) - Effort(RunAll(s, moves)) <= Effort(s)
    decreases |moves|
  {
    RunKeepsInv(s, moves);
    EffortPositive(RunAll(s, moves));
    if moves != [] {
      var n := |moves| - 1;
      var before, move := moves[..n], moves[n];
      assert moves == before + [move] && moves[..n + 1] == moves;
      FewChanges(s, before);
      RunConcat(s, before, [move]);
      LastMove(RunAll(s, before), move);
      OneMoreChange(s, moves);
    }
  }

  lemma OneMoreChange(s: State, moves: seq<Move>)
    requires Inv(s) && moves != []
    ensures var before := moves[..|moves| - 1];
            |Changes(s, moves)| <= |Changes(s, before)| + if RunAll(s, before) == RunAll(s, moves) then 0 else 1
  {
    var n := |moves| - 1;
    var before := moves[..n];
    assert moves[..n + 1] == moves;
    forall i: nat | i < n ensures ChangesAt(s, before, i) <==> ChangesAt(s, moves, i) {
      assert before[..i] == moves[..i] && before[..i + 1] == moves[..i + 1];
    }
    if RunAll(s, before) == RunAll(s, moves) {
      assert n !in Changes(s, moves);
      Sorting.SubsetSize(Changes(s, moves), Changes(s, before));
    } else {
      Sorting.SubsetSize(Changes(s, moves), Changes(s, before) + {n});
    }
  }

  lemma LastMove(s: State, move: Move)
    requires Inv(s)
    ensures Effort(RunAll(s, [move])) <= Effort(s)
    ensures RunAll(s, [move]) != s ==> Effort(RunAll(s, [move])) < Effort(s)
  {
    assert [move][1..] == [];
    if move.worker < |s.workers| {
      RunOne(s, move.worker, move.event);
      EveryStepProgresses(s, move.worker, move.event);
    }
  }

  /** So a pool can always be run to its end. */
  lemma {:induction false} RunsToEnd(s: State) returns (moves: seq<Move>)
    requires Inv(s)
    ensures Finished(RunAll(s, moves))
    decreases Effort(s)
  {
    moves := [];
    if !Finished(s) {
      var w, e := UnfinishedMoves(s);
      StepKeepsInv(s, w, e);
      EveryStepProgresses(s, w, e);
      EffortPositive(Next(s, w, e));
      var rest := RunsToEnd(Next(s, w, e));
      moves := [Move(w, e)] + rest;
      assert moves[1..] == rest;
    }
  }

  // ── When the failure list is exact ────────────────────────────────────

  lemma {:induction false} RunConcat(s: State, a: seq<Move>, b: seq<Move>)
    requires Inv(s)
    ensures Inv(RunAll(s, a)) && RunAll(s, a + b) == RunAll(RunAll(s, a), b)
    decreases |a|
  {
    if a == [] {
      assert a + b == b;
    } else {
      assert (a + b)[1..] == a[1..] + b && (a + b)[0] == a[0];
      if a[0].worker < |s.workers| {
        StepKeepsInv(s, a[0].worker, a[0].event);
        RunConcat(Next(s, a[0].worker, a[0].event), a[1..], b);
      } else {
        RunConcat(s, a[1..], b);
      }
    }
  }

  lemma RunOne(s: State, w: nat, e: Event)
    requires Inv(s) && w < |s.workers|
    ensures (s.workers[w].Busy? ==> s.workers[w].url < Total(s)) && RunAll(s, [Move(w, e)]) == Next(s, w, e)
    ensures Inv(Next(s, w, e))
  {
    StepKeepsInv(s, w, e);
    assert [Move(w, e)][1..] == [];
  }

  /** Failures and verdicts are never taken back. */
  predicate Grew(s: State, s': State) {
    && Total(s') == Total(s)
    && (forall u :: u in s.failures ==> u in s'.failures)
    && (forall u :: 0 <= u < Total(s) ==> s.assessed[u] <= s'.assessed[u])
  }

  lemma StepGrows(s: State, w: nat, e: Event)
    requires Inv(s) && w < |s.workers| && (s.workers[w].Busy? ==> s.workers[w].url < Total(s))
    ensures Grew(s, Next(s, w, e))
  {
  }

  lemma {:induction false} RunGrows(s: State, moves: seq<Move>)
    requires Inv(s)
    ensures Grew(s, RunAll(s, moves))
    decreases |moves|
  {
    if moves != [] {
      var w := moves[0].worker;
      if w < |s.workers| {
        StepKeepsInv(s, w, moves[0].event);
        StepGrows(s, w, moves[0].event);
        RunGrows(Next(s, w, moves[0].event), moves[1..]);
      } else {
        RunGrows(s, moves[1..]);
      }
    }
  }

  /** Worker `w` fails the HEAD requests of URL `u` up to its last attempt but one. */
  lemma {:induction false} FailsHeads(s: State, w: nat, u: nat, attempt: nat) returns (moves: seq<Move>)
    requires Inv(s) && w < |s.workers| && s.workers[w] == Busy(u, attempt, false, Head) && attempt < s.attempts
    ensures var s' := RunAll(s, moves);
            s'.attempts == s.attempts && |s'.workers| == |s.workers| &&
              s'.workers[w] == Busy(u, s.attempts - 1, false, Head)
    decreases s.attempts - attempt
  {
    moves := [];
    if attempt < s.attempts - 1 {
      RunOne(s, w, Throws);
      var s1 := Next(s, w, Throws);
      RunOne(s1, w, Completes);
      var s2 := Next(s1, w, Completes);
      var rest := FailsHeads(s2, w, u, attempt + 1);
      RunConcat(s, [Move(w, Throws)], [Move(w, Completes)]);
      RunConcat(s, [Move(w, Throws)] + [Move(w, Completes)], rest);
      moves := [Move(w, Throws)] + [Move(w, Completes)] + rest;
    }
  }

  /** From there it judges the URL healthy, fails to close, and judges it unhealthy. */
  lemma JudgesTwice(s: State, w: nat, u: nat) returns (moves: seq<Move>)
    requires Inv(s) && w < |s.workers| && s.attempts >= 2 && s.workers[w] == Busy(u, s.attempts - 1, false, Head)
    ensures u < Total(s) && Total(RunAll(s, moves)) == Total(s)
    ensures u in RunAll(s, moves).failures && true in RunAll(s, moves).assessed[u]
  {
    assert WorkerOk(s, w);
    RunOne(s, w, Judged(true));
    var s0 := Next(s, w, Judged(true));
    OverwritesVerdict(s0, w, u);
    RunOne(s0, w, Throws);
    var s1 := Next(s0, w, Throws);
    RunOne(s1, w, Completes);
    var s2 := Next(s1, w, Completes);
    RunOne(s2, w, Judged(false));
    var s3 := Next(s2, w, Judged(false));
    RunOne(s3, w, Completes);
    moves := [Move(w, Judged(true))] + [Move(w, Throws)] + [Move(w, Completes)] + [Move(w, Judged(false))] +
      [Move(w, Completes)];
    RunConcat(s, [Move(w, Judged(true))], [Move(w, Throws)]);
    RunConcat(s, [Move(w, Judged(true))] + [Move(w, Throws)], [Move(w, Completes)]);
    RunConcat(s, [Move(w, Judged(true))] + [Move(w, Throws)] + [Move(w, Completes)], [Move(w, Judged(false))]);
    RunConcat(s, [Move(w, Judged(true))] + [Move(w, Throws)] + [Move(w, Completes)] + [Move(w, Judged(false))],
      [Move(w, Completes)]);
    RunGrows(s, moves);
  }

  /** A failing case: with at least two attempts, some run of the whole pool ends
      with the first URL among the failures although an attempt was healthy. */
  lemma HealthyVerdictIsOverwritten(urls: nat, attempts: nat, concurrency: nat) returns (moves: seq<Move>)
    requires urls >= 1 && attempts >= 2 && concurrency >= 1
    ensures Inv(Begin(urls, attempts, concurrency))
    ensures var s := RunAll(Begin(urls, attempts, concurrency), moves);
            Finished(s) && Total(s) == urls && 0 in s.failures && true in s.assessed[0]
  {
    var s := Begin(urls, attempts, concurrency);
    BeginOk(urls, attempts, concurrency);
    RunOne(s, 0, Completes);
    var s1 := Next(s, 0, Completes);
    var a := FailsHeads(s1, 0, 0, 1);
    RunConcat(s1, a, []);
    var s2 := RunAll(s1, a);
    RunGrows(s1, a);
    var b := JudgesTwice(s2, 0, 0);
    RunConcat(s2, b, []);
    var s3 := RunAll(s2, b);
    var c := RunsToEnd(s3);
    RunGrows(s3, c);
    RunConcat(s, [Move(0, Completes)], a);
    RunConcat(s, [Move(0, Completes)] + a, b);
    RunConcat(s, [Move(0, Completes)] + a + b, c);
    moves := [Move(0, Completes)] + a + b + c;
    assert s3.assessed[0] <= RunAll(s3, c).assessed[0];
    var i :| 0 <= i < |s3.assessed[0]| && s3.assessed[0][i];
    assert RunAll(s3, c).assessed[0][i];
  }

  /** When the pool is done, the failures are the URLs no attempt found healthy. */
  ghost predicate EndsExact(urls: nat, attempts: nat, concurrency: nat, moves: seq<Move>)
    requires attempts >= 1
  {
    BeginOk(urls, attempts, concurrency);
    var s := RunAll(Begin(urls, attempts, concurrency), moves);
    Finished(s) ==> forall u: nat :: u in s.failures <==> u < |s.assessed| && true !in s.assessed[u]
  }

  /** In every run the failure list is exact, exactly when there is one attempt or
      nothing to probe. */
  lemma FailuresExactIff(urls: nat, attempts: nat, concurrency: nat)
    requires attempts >= 1 && concurrency >= 1
    ensures (forall moves :: EndsExact(urls, attempts, concurrency, moves)) <==> attempts == 1 || urls == 0
  {
    BeginOk(urls, attempts, concurrency);
    if attempts == 1 || urls == 0 {
      forall moves ensures EndsExact(urls, attempts, concurrency, moves) {
        PoolIsExact(urls, attempts, concurrency, moves);
        var s := RunAll(Begin(urls, attempts, concurrency), moves);
        forall u: nat | u < urls ensures LastHealthy(s.assessed[u]) <==> true in s.assessed[u] { }
      }
    } else {
      var moves := HealthyVerdictIsOverwritten(urls, attempts, concurrency);
      assert !EndsExact(urls, attempts, concurrency, moves);
    }
  }

  // ── What one attempt does ─────────────────────────────────────────────

  predicate Others(moves: seq<Move>, w: nat) { forall i :: 0 <= i < |moves| ==> moves[i].worker != w }

  /** What is known of URL `u` and of the worker that has it. */
  predicate SameOfUrl(s: State, s': State, w: nat, u: nat) {
    && u < Total(s) == |s.requests| && u < Total(s') == |s'.requests|
    && w < |s.workers| == |s'.workers| && s'.workers[w] == s.workers[w] && s'.attempts == s.attempts
    && s'.requests[u] == s.requests[u] && s'.assessed[u] == s.assessed[u] && (u in s'.failures <==> u in s.failures)
  }

  /** Other workers' awaits do not touch the URL that worker `w` has. */
  lemma {:induction false} OthersLeave(s: State, moves: seq<Move>, w: nat, u: nat)
    requires Inv(s) && Holds(s, w, u) && Others(moves, w)
    ensures Inv(RunAll(s, moves)) && SameOfUrl(s, RunAll(s, moves), w, u)
    decreases |moves|
  {
    assert WorkerOk(s, w);
    if moves != [] {
      forall i | 0 <= i < |moves[1..]| ensures moves[1..][i] == moves[i + 1] { }
      assert Others(moves[1..], w) && moves[0].worker != w;
      if moves[0].worker < |s.workers| {
        StepKeepsInv(s, moves[0].worker, moves[0].event);
        OtherStep(s, moves[0].worker, moves[0].event, w, u);
        OthersLeave(Next(s, moves[0].worker, moves[0].event), moves[1..], w, u);
      } else {
        OthersLeave(s, moves[1..], w, u);
      }
    }
  }

  lemma OtherStep(s: State, v: nat, e: Event, w: nat, u: nat)
    requires Inv(s) && Holds(s, w, u) && v < |s.workers| && v != w
    ensures (s.workers[v].Busy? ==> s.workers[v].url < Total(s)) && SameOfUrl(s, Next(s, v, e), w, u)
  {
    assert WorkerOk(s, w) && WorkerOk(s, v);
    assert u < s.next && (s.workers[v].Busy? ==> s.workers[v].url != u);
    match s.workers[v]
    case Fresh =>
    case Done =>
    case Busy(_, _, _, stage) =>
      match stage
      case Head =>
      case CloseHead =>
      case Range =>
      case Close =>
      case Pause =>
  }

  /** An await of worker `w`, and what the others do up to its next one. */
  lemma StepThenOthers(s: State, w: nat, e: Event, others: seq<Move>)
    requires Inv(s) && w < |s.workers|
    ensures (s.workers[w].Busy? ==> s.workers[w].url < Total(s)) && Inv(Next(s, w, e))
    ensures RunAll(s, [Move(w, e)] + others) == RunAll(Next(s, w, e), others)
  {
    StepKeepsInv(s, w, e);
    RunOne(s, w, e);
    RunConcat(s, [Move(w, e)], others);
  }

  /** A server that does not allow HEAD is asked for a range, once, as soon as its
      answer is closed; no verdict is made of that answer. */
  lemma RefusedHeadAsksRange(s: State, w: nat, u: nat, attempt: nat, healthy: bool, others: seq<Move>)
    requires Inv(s) && w < |s.workers| && s.workers[w] == Busy(u, attempt, healthy, Head) && Others(others, w)
    ensures u < Total(s) == |s.requests|
    ensures var s' := RunAll(s, [Move(w, NotAllowed)] + others + [Move(w, Completes)]);
            && w < |s'.workers| && s'.workers[w] == Busy(u, attempt, healthy, Range)
            && u < Total(s') == |s'.requests|
            && s'.requests[u] == s.requests[u] + 1 && s'.assessed[u] == s.assessed[u]
  {
    assert WorkerOk(s, w);
    StepThenOthers(s, w, NotAllowed, others);
    var s1 := RunAll(Next(s, w, NotAllowed), others);
    OthersLeave(Next(s, w, NotAllowed), others, w, u);
    RunConcat(s, [Move(w, NotAllowed)] + others, [Move(w, Completes)]);
    RunOne(s1, w, Completes);
  }

  /** A judged response, to HEAD or to a range request, counts: a healthy one ends
      the URL without failure once it is closed; an unhealthy one leads to a pause
      when attempts are left, and else to a failure. */
  lemma VerdictCounts(
      s: State, w: nat, u: nat, attempt: nat, before: bool, stage: Stage, healthy: bool, others: seq<Move>)
    requires Inv(s) && w < |s.workers| && s.workers[w] == Busy(u, attempt, before, stage) && stage in {Head, Range}
    requires Others(others, w)
    ensures u < Total(s) && u !in s.failures
    ensures var s' := RunAll(s, [Move(w, Judged(healthy))] + others + [Move(w, Completes)]);
            && w < |s'.workers| && u < Total(s') && s'.assessed[u] == s.assessed[u] + [healthy]
            && Settled(s', w, u, attempt, s.attempts, healthy)
  {
    assert WorkerOk(s, w) && Holds(s, w, u) && UrlOk(s, u);
    var e := Judged(healthy);
    StepThenOthers(s, w, e, others);
    var s1 := RunAll(Next(s, w, e), others);
    OthersLeave(Next(s, w, e), others, w, u);
    RunConcat(s, [Move(w, e)] + others, [Move(w, Completes)]);
    ClosedVerdict(s1, w, u, attempt, healthy);
    RunOne(s1, w, Completes);
  }

  /** What becomes of a URL whose last verdict was closed. */
  predicate Settled(s: State, w: nat, u: nat, attempt: nat, attempts: nat, healthy: bool) {
    && (healthy ==> !Holds(s, w, u) && u !in s.failures)
    && (!healthy && attempt < attempts ==> w < |s.workers| && s.workers[w] == Busy(u, attempt, false, Pause))
    && (!healthy && attempt == attempts ==> !Holds(s, w, u) && u in s.failures)
  }

  lemma ClosedVerdict(s: State, w: nat, u: nat, attempt: nat, healthy: bool)
    requires Inv(s) && w < |s.workers| && s.workers[w] == Busy(u, attempt, healthy, Close) && u !in s.failures
    ensures u < Total(s)
    ensures var s' := Next(s, w, Completes);
            && s'.assessed == s.assessed && |s'.workers| == |s.workers|
            && Settled(s', w, u, attempt, s.attempts, healthy)
  {
    assert WorkerOk(s, w);
  }

  /** An await that throws ends its attempt: a pause follows when attempts are
      left, and else the last verdict decides. */
  lemma ThrowEndsAttempt(s: State, w: nat, u: nat, attempt: nat, healthy: bool, stage: Stage)
    requires Inv(s) && w < |s.workers| && s.workers[w] == Busy(u, attempt, healthy, stage) && stage != Pause
    ensures u < Total(s) && 1 <= attempt <= s.attempts
    ensures var s' := Next(s, w, Throws);
            && s'.assessed == s.assessed
            && (attempt < s.attempts ==> s'.workers[w] == Busy(u, attempt, healthy, Pause) && s'.requests == s.requests)
            && (attempt == s.attempts ==> !Holds(s', w, u) && (u in s'.failures <==> !healthy))
  {
    assert WorkerOk(s, w) && Holds(s, w, u) && UrlOk(s, u);
  }

  /** After a pause the URL is asked again with HEAD, in the next attempt. */
  lemma PauseRetries(s: State, w: nat, u: nat, attempt: nat, healthy: bool, others: seq<Move>)
    requires Inv(s) && w < |s.workers| && s.workers[w] == Busy(u, attempt, healthy, Pause) && Others(others, w)
    ensures u < Total(s) == |s.requests|
    ensures var s' := RunAll(s, others + [Move(w, Completes)]);
            && w < |s'.workers| && s'.workers[w] == Busy(u, attempt + 1, healthy, Head) && attempt < s'.attempts
            && u < Total(s') == |s'.requests|
            && s'.requests[u] == s.requests[u] + 1 && s'.assessed[u] == s.assessed[u]
  {
    assert WorkerOk(s, w);
    OthersLeave(s, others, w, u);
    RunConcat(s, others, [Move(w, Completes)]);
    assert WorkerOk(RunAll(s, others), w);
    RunOne(RunAll(s, others), w, Completes);
  }
}
