/** The request chain that content waited for (`criticalChain` in
    scripts/perf/click-trace.ts). Requests are told apart by position, as the
    script does by identity. */
module CriticalChain {
  import opened Text
  import opened Sorting

  datatype Req = Req(name: string, kind: string, start: real, end: real, cached: bool, failed: bool)

  predicate Eligible(r: Req, contentMs: real) {
    r.end <= contentMs + 1.0 && r.kind != "font" && r.kind != "image" && !r.cached && !r.failed
  }

  /** The positions of the eligible requests, in order. */
  function EligibleFrom(requests: seq<Req>, contentMs: real, from: nat): seq<nat>
    decreases |requests| - from
  {
    if from >= |requests| then []
    else (if Eligible(requests[from], contentMs) then [from] else []) + EligibleFrom(requests, contentMs, from + 1)
  }

  /** The positions of the eligible requests of a click. */
  function EligiblePool(requests: seq<Req>, contentMs: real): (pool: seq<nat>)
    ensures forall i: nat :: i in pool <==> i < |requests| && Eligible(requests[i], contentMs)
    ensures Ascending(pool)
  {
    EligibleMembers(requests, contentMs, 0);
    EligibleFrom(requests, contentMs, 0)
  }

  lemma {:induction false} EligibleMembers(requests: seq<Req>, contentMs: real, from: nat)
    ensures forall i: nat :: i in EligibleFrom(requests, contentMs, from) <==>
                        from <= i < |requests| && Eligible(requests[i], contentMs)
    ensures Ascending(EligibleFrom(requests, contentMs, from))
    decreases |requests| - from
  {
    if from < |requests| {
      EligibleMembers(requests, contentMs, from + 1);
      var rest := EligibleFrom(requests, contentMs, from + 1);
      forall j | 0 <= j < |rest| ensures from < rest[j] { assert rest[j] in rest; }
    }
  }

  predicate Ascending(pool: seq<nat>) { forall i, j :: 0 <= i < j < |pool| ==> pool[i] < pool[j] }

  /** `best` ends latest among the positions of `pool` that pass, and comes first
      among those that end when it does. */
  predicate IsLatest(requests: seq<Req>, pool: seq<nat>, passes: nat -> bool, best: Option<nat>) {
    match best
    case None => forall i :: i in pool ==> !passes(i)
    case Some(b) =>
      && b in pool && b < |requests| && passes(b)
      && forall i :: i in pool && passes(i) ==>
           i < |requests| && (requests[i].end < requests[b].end || (requests[i].end == requests[b].end && b <= i))
  }

  /** The `reduce` that keeps the latest-ending request that passes. */
  method Latest(requests: seq<Req>, pool: seq<nat>, passes: nat -> bool) returns (best: Option<nat>)
    requires Ascending(pool) && forall i :: i in pool ==> i < |requests|
    ensures IsLatest(requests, pool, passes, best)
  {
    best := None;
    for n := 0 to |pool|
      invariant IsLatest(requests, pool[..n], passes, best)
    {
      var i := pool[n];
      assert i in pool && pool[..n + 1] == pool[..n] + [i];
      if passes(i) && (best.None? || requests[i].end > requests[best.value].end) { best := Some(i); }
    }
    assert pool[..|pool|] == pool;
  }

  predicate Gated(requests: seq<Req>, gate: Option<string -> bool>, i: nat) {
    gate.None? || (i < |requests| && gate.value(requests[i].name))
  }

  /** `i` ended within `maxGap` before `current` started, give or take 1 ms. */
  predicate Near(requests: seq<Req>, maxGap: real, current: nat, i: nat)
    requires current < |requests|
  {
    i < |requests| && requests[current].start - maxGap <= requests[i].end <= requests[current].start + 1.0
  }

  /** A link that may precede `chain`: near its first request and not in it. */
  predicate MayPrecede(requests: seq<Req>, maxGap: real, chain: seq<nat>, i: nat) {
    chain != [] && chain[0] < |requests| && Near(requests, maxGap, chain[0], i) && i !in chain
  }

  /** Every link is a latest-ending request of those that may precede the rest. */
  predicate Linked(requests: seq<Req>, pool: seq<nat>, maxGap: real, chain: seq<nat>) {
    forall k :: 0 <= k < |chain| - 1 ==>
      IsLatest(requests, pool, (i: nat) => MayPrecede(requests, maxGap, chain[k + 1..], i), Some(chain[k]))
  }

  lemma {:induction false} LinkedPrepend(requests: seq<Req>, pool: seq<nat>, maxGap: real, chain: seq<nat>, i: nat)
    requires Linked(requests, pool, maxGap, chain)
    requires chain != [] ==>
               IsLatest(requests, pool, (j: nat) => MayPrecede(requests, maxGap, chain, j), Some(i))
    ensures Linked(requests, pool, maxGap, [i] + chain)
  {
    var longer := [i] + chain;
    forall k | 0 <= k < |longer| - 1
      ensures IsLatest(requests, pool, (j: nat) => MayPrecede(requests, maxGap, longer[k + 1..], j), Some(longer[k]))
    {
      if k == 0 {
        assert longer[1..] == chain;
      } else {
        assert longer[k + 1..] == chain[k..] && longer[k] == chain[k - 1];
        assert IsLatest(requests, pool, (j: nat) => MayPrecede(requests, maxGap, chain[k - 1 + 1..], j),
               Some(chain[k - 1]));
      }
    }
  }

  /** The chain: distinct eligible requests; it ends in a latest-ending gated
      one, and is empty when there is none; every link is a latest-ending one of
      those that may precede; and nothing more may precede its first request. */
  method FindChain(requests: seq<Req>, contentMs: real, gate: Option<string -> bool>, maxGap: real)
    returns (chain: seq<nat>)
    ensures Distinct(chain) && forall i :: i in chain ==> i < |requests| && Eligible(requests[i], contentMs)
    ensures IsLatest(requests, EligiblePool(requests, contentMs), (i: nat) => Gated(requests, gate, i),
                     if chain == [] then None else Some(chain[|chain| - 1]))
    ensures Linked(requests, EligiblePool(requests, contentMs), maxGap, chain)
    ensures forall i: nat :: i < |requests| && Eligible(requests[i], contentMs) ==>
            !MayPrecede(requests, maxGap, chain, i)
  {
    var pool := EligiblePool(requests, contentMs);
    var current: Option<nat> := Latest(requests, pool, (i: nat) => Gated(requests, gate, i));
    ghost var last: Option<nat> := current;
    chain := [];
    while current.Some?
      invariant Distinct(chain) && forall i :: i in chain ==> i in pool
      invariant chain == [] ==> current == last
      invariant chain != [] ==> last == Some(chain[|chain| - 1]) && chain[0] < |requests|
      invariant chain != [] ==> IsLatest(requests, pool, (i: nat) => MayPrecede(requests, maxGap, chain, i), current)
      invariant Linked(requests, pool, maxGap, chain)
      invariant current.Some? ==> current.value in pool && current.value !in chain && current.value < |requests|
      decreases Members(pool) - Members(chain), current.Some?
    {
      LinkedPrepend(requests, pool, maxGap, chain, current.value);
      ghost var shorter := chain;
      chain := [current.value] + chain;
      assert Members(pool) - Members(chain) < Members(pool) - Members(shorter) by {
        assert current.value in Members(pool) - Members(shorter);
        assert current.value in chain;
      }
      current := Latest(requests, pool, (i: nat) => MayPrecede(requests, maxGap, chain, i));
    }
  }

  /** A request that content may have waited for. */
  predicate Candidate(requests: seq<Req>, contentMs: real, i: nat) {
    && i < |requests| && requests[i].end - contentMs <= 1.0
    && requests[i].kind !in {"font", "image"} && !(requests[i].cached || requests[i].failed)
  }

  /** `i` ends no later than `j`, or when it does, and then `j` is the earlier one. */
  predicate EndsBy(requests: seq<Req>, i: nat, j: nat)
    requires i < |requests| && j < |requests|
  {
    requests[i].end < requests[j].end || (requests[i].end == requests[j].end && j <= i)
  }

  /** In terms of the requests: the chain is empty exactly when no candidate passes
      the gate, and else its last request is the latest-ending of those that do. */
  lemma LastIsLatest(requests: seq<Req>, contentMs: real, gate: Option<string -> bool>, chain: seq<nat>)
    requires IsLatest(requests, EligiblePool(requests, contentMs), (i: nat) => Gated(requests, gate, i),
                      if chain == [] then None else Some(chain[|chain| - 1]))
    ensures chain == [] <==>
            forall i: nat :: Candidate(requests, contentMs, i) ==> gate.Some? && !gate.value(requests[i].name)
    ensures chain != [] ==>
              var last := chain[|chain| - 1];
              && Candidate(requests, contentMs, last) && (gate.None? || gate.value(requests[last].name))
              && forall i: nat :: Candidate(requests, contentMs, i) && (gate.None? || gate.value(requests[i].name)) ==>
                   EndsBy(requests, i, last)
  {
    var pool := EligiblePool(requests, contentMs);
    forall i: nat ensures i in pool <==> Candidate(requests, contentMs, i) { }
  }

  /** `i` ended at most `maxGap` before `next` started, and at most 1 ms after. */
  predicate Before(requests: seq<Req>, maxGap: real, i: nat, next: nat)
    requires i < |requests| && next < |requests|
  {
    requests[next].start - requests[i].end <= maxGap && requests[i].end - requests[next].start <= 1.0
  }

  /** Every request before the last is the latest-ending candidate before the next
      that is not in the chain after it. */
  lemma LinkIsLatest(requests: seq<Req>, contentMs: real, maxGap: real, chain: seq<nat>, k: nat)
    requires Linked(requests, EligiblePool(requests, contentMs), maxGap, chain) && 0 < k < |chain|
    ensures Candidate(requests, contentMs, chain[k - 1]) && chain[k] < |requests|
    ensures chain[k - 1] !in chain[k..] && Before(requests, maxGap, chain[k - 1], chain[k])
    ensures forall i: nat | Candidate(requests, contentMs, i) && i !in chain[k..] ::
              Before(requests, maxGap, i, chain[k]) ==> EndsBy(requests, i, chain[k - 1])
  {
    var pool, rest := EligiblePool(requests, contentMs), chain[k - 1 + 1..];
    assert rest == chain[k..] && rest[0] == chain[k];
    var passes := (j: nat) => MayPrecede(requests, maxGap, rest, j);
    assert IsLatest(requests, pool, passes, Some(chain[k - 1]));
    assert passes(chain[k - 1]);
    forall i: nat | Candidate(requests, contentMs, i) && i !in chain[k..] && Before(requests, maxGap, i, chain[k])
      ensures EndsBy(requests, i, chain[k - 1])
    {
      assert i in pool && passes(i);
    }
  }

  /** And before the first request there is no further one. */
  lemma ChainIsComplete(requests: seq<Req>, contentMs: real, maxGap: real, chain: seq<nat>)
    requires chain != [] && chain[0] < |requests|
    requires forall i: nat :: i < |requests| && Eligible(requests[i], contentMs) ==>
             !MayPrecede(requests, maxGap, chain, i)
    ensures forall i: nat | Candidate(requests, contentMs, i) && i !in chain :: !Before(requests, maxGap, i, chain[0])
  {
  }
}
