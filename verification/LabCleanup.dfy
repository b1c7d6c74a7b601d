/** When a Desktop lab run is removed (`cleanupDesktopRuns` in
    scripts/lab/desktop.ts): never while its Desktop or its port is alive, and
    else exactly when no agent's file is active. */
module LabCleanup {
  import opened LabAgents

  // ── What a cleanup in one step does ───────────────────────────────────

  /** The launcher of a matching reservation is alive, or the agent of a matching
      marker is. */
  predicate HasLiveFile(a: Agent) {
    (a.reservation && a.reservationMatches && a.launcherAlive) || (a.marker && a.markerMatches && a.childAlive)
  }

  /** A cleanup in one step removes a standing directory exactly when its Desktop
      is dead, its port is closed and no agent has a file of a live process that
      matches; stale files do not keep it. A directory that stays is left alone. */
  lemma CleanupRule(s: State)
    requires !s.removed
    ensures Next(s, CleanAtOnce).removed <==>
            !s.desktopAlive && !s.portAlive && forall i :: 0 <= i < |s.agents| ==> !HasLiveFile(s.agents[i])
    ensures !Next(s, CleanAtOnce).removed ==> Next(s, CleanAtOnce) == s
    ensures Next(s, CleanAtOnce).removed ==> IsRemoved(s, Next(s, CleanAtOnce))
  {
  }

  /** `s'` is `s` without its directory and the files in it; no process is ended. */
  predicate IsRemoved(s: State, s': State) {
    && s'.removed && |s'.agents| == |s.agents|
    && s'.desktopAlive == s.desktopAlive && s'.portAlive == s.portAlive
    && forall i :: 0 <= i < |s.agents| ==> s'.agents[i] == s.agents[i].(reservation := false, marker := false)
  }

  // ── Never a running Desktop ───────────────────────────────────────────

  predicate Stopped(events: seq<Event>) { DesktopStops in events && PortCloses in events }

  /** A listing by cleaner `c`, when the Desktop had stopped and its port was closed. */
  predicate ListedStopped(events: seq<Event>, c: nat) {
    exists n :: 0 <= n < |events| && events[n] == List(c) && Stopped(events[..n])
  }

  /** What a run has come to on the Desktop's side. */
  predicate DesktopGuarded(s: State, events: seq<Event>) {
    && (!s.desktopAlive ==> DesktopStops in events)
    && (!s.portAlive ==> PortCloses in events)
    && (s.removed ==> Stopped(events))
    && (forall c :: 0 <= c < |s.cleaners| && !s.cleaners[c].Idle? ==> ListedStopped(events, c))
  }

  lemma ListedStays(events: seq<Event>, e: Event, c: nat)
    requires ListedStopped(events, c)
    ensures ListedStopped(events + [e], c)
  {
    var n :| 0 <= n < |events| && events[n] == List(c) && Stopped(events[..n]);
    assert (events + [e])[n] == List(c) && (events + [e])[..n] == events[..n];
  }

  lemma StoppedBefore(events: seq<Event>, c: nat)
    requires ListedStopped(events, c)
    ensures Stopped(events)
  {
    var n :| 0 <= n < |events| && events[n] == List(c) && Stopped(events[..n]);
    assert events == events[..n] + events[n..];
  }

  lemma {:induction false} StepGuarded(s: State, events: seq<Event>, e: Event)
    requires DesktopGuarded(s, events)
    ensures DesktopGuarded(Next(s, e), events + [e])
  {
    var s' := Next(s, e);
    assert e in events + [e] && forall d :: d in events ==> d in events + [e];
    if s'.removed && !s.removed && e.Remove? { StoppedBefore(events, e.cleaner); }
    forall c | 0 <= c < |s'.cleaners| && !s'.cleaners[c].Idle? ensures ListedStopped(events + [e], c) {
      if s.cleaners[c].Idle? {
        assert e == List(c) && (events + [e])[|events|] == e && (events + [e])[..|events|] == events;
      } else {
        ListedStays(events, e, c);
      }
    }
  }

  lemma {:induction false} RunGuarded(agents: nat, cleaners: nat, events: seq<Event>)
    ensures DesktopGuarded(RunAll(Begin(agents, cleaners), events), events)
    decreases |events|
  {
    if events != [] {
      var before, e := events[..|events| - 1], events[|events| - 1];
      assert events == before + [e];
      RunGuarded(agents, cleaners, before);
      RunOneMore(Begin(agents, cleaners), before, e);
      StepGuarded(RunAll(Begin(agents, cleaners), before), before, e);
    }
  }

  /** In every interleaving the directory is gone only after the Desktop stopped
      and its port was closed. */
  lemma RunningDesktopIsKept(agents: nat, cleaners: nat, events: seq<Event>)
    requires RunAll(Begin(agents, cleaners), events).removed
    ensures Stopped(events)
  {
    RunGuarded(agents, cleaners, events);
  }

  /** And a pass in several steps that is about to remove it, or still checks, had
      listed it when both had already happened. */
  lemma PassListsStopped(agents: nat, cleaners: nat, events: seq<Event>, c: nat)
    requires var s := RunAll(Begin(agents, cleaners), events);
             c < |s.cleaners| && !s.cleaners[c].Idle?
    ensures ListedStopped(events, c)
  {
    RunGuarded(agents, cleaners, events);
  }

  // ── An undisturbed pass ───────────────────────────────────────────────

  /** Cleaner `c` checks files in this order, and then that nothing is left. */
  function Checks(c: nat, order: seq<File>): seq<Event> {
    if order == [] then [Check(c, Reservation(0))] else [Check(c, order[0])] + Checks(c, order[1..])
  }

  lemma {:induction false} ChecksPass(s: State, c: nat, order: seq<File>)
    requires c < |s.cleaners| && !s.cleaners[c].Scanning?
    ensures RunAll(s, Checks(c, order)) == s
  {
    if order == [] {
      assert [Check(c, Reservation(0))][1..] == [];
    } else {
      assert Checks(c, order)[1..] == Checks(c, order[1..]);
      ChecksPass(s, c, order[1..]);
    }
  }

  function WithCleaner(s: State, c: nat, p: Cleaner): State
    requires c < |s.cleaners|
  {
    s.(cleaners := s.cleaners[c := p])
  }

  /** A listed file is active. */
  predicate AnyListed(s: State, todo: set<File>) { exists f :: f in todo && Active(s, f) }

  lemma OneCheck(s: State, c: nat, f: File)
    requires c < |s.cleaners| && s.cleaners[c].Scanning? && (f in s.cleaners[c].todo ==> Present(s, f))
    ensures var p := s.cleaners[c];
            Next(s, Check(c, f)) ==
            if p.todo == {} then WithCleaner(s, c, Cleared(p.guarded, false))
            else if f !in p.todo then s
            else WithCleaner(s, c, if Active(s, f) then Idle else Scanning(p.todo - {f}, p.guarded))
  {
  }

  /** Undisturbed, the checks clear the directory exactly when no listed file is
      active, in whatever order they are made. */
  lemma {:induction false} ChecksDecide(s: State, c: nat, order: seq<File>)
    requires c < |s.cleaners| && s.cleaners[c].Scanning?
    requires forall f :: f in s.cleaners[c].todo ==> f in order && Present(s, f)
    ensures var p := s.cleaners[c];
            RunAll(s, Checks(c, order)) ==
            WithCleaner(s, c, if AnyListed(s, p.todo) then Idle else Cleared(p.guarded, false))
    decreases |order|
  {
    if order == [] {
      assert [Check(c, Reservation(0))][1..] == [];
    } else {
      assert Checks(c, order)[0] == Check(c, order[0]) && Checks(c, order)[1..] == Checks(c, order[1..]);
      var p, next := s.cleaners[c], Next(s, Check(c, order[0]));
      OneCheck(s, c, order[0]);
      if next.cleaners[c].Scanning? {
        assert forall f :: (Active(next, f) <==> Active(s, f)) && (Present(next, f) <==> Present(s, f));
        ChecksDecide(next, c, order[1..]);
        assert AnyListed(next, next.cleaners[c].todo) <==> AnyListed(s, p.todo);
        assert WithCleaner(next, c, Idle) == WithCleaner(s, c, Idle);
        assert WithCleaner(next, c, Cleared(p.guarded, false)) == WithCleaner(s, c, Cleared(p.guarded, false));
      } else {
        ChecksPass(next, c, order[1..]);
      }
    }
  }

  lemma ListedActive(s: State)
    ensures AnyListed(s, Reservations(s) + Markers(s)) <==> AnyActive(s)
  {
    forall i | 0 <= i < |s.agents| && (ReservationActive(s.agents[i]) || MarkerActive(s.agents[i]))
      ensures AnyListed(s, Reservations(s) + Markers(s))
    {
      if ReservationActive(s.agents[i]) {
        assert Reservation(i) in Reservations(s) + Markers(s) && Active(s, Reservation(i));
      } else {
        assert Marker(i) in Reservations(s) + Markers(s) && Active(s, Marker(i));
      }
    }
  }

  lemma {:induction false} RunAllConcat(s: State, a: seq<Event>, b: seq<Event>)
    ensures RunAll(s, a + b) == RunAll(RunAll(s, a), b)
    decreases |a|
  {
    if a == [] {
      assert a + b == b;
    } else {
      assert (a + b)[0] == a[0] && (a + b)[1..] == a[1..] + b;
      RunAllConcat(Next(s, a[0]), a[1..], b);
    }
  }

  /** A pass in several steps between which nothing else happens does exactly what
      a cleanup in one step does, in whatever order it checks the files. */
  lemma UndisturbedPassIsOneStep(s: State, c: nat, order: seq<File>)
    requires c < |s.cleaners| && s.cleaners[c].Idle?
    requires forall f :: f in Reservations(s) + Markers(s) ==> f in order
    ensures RunAll(s, [List(c)] + Checks(c, order) + [Remove(c)]) == Next(s, CleanAtOnce)
  {
    var listed := Next(s, List(c));
    RunOneMore(s, [], List(c));
    assert [] + [List(c)] == [List(c)];
    RunAllConcat(s, [List(c)], Checks(c, order));
    RunOneMore(s, [List(c)] + Checks(c, order), Remove(c));
    if listed.cleaners[c].Scanning? {
      ListedActive(s);
      assert forall f :: Active(listed, f) <==> Active(s, f);
      assert forall f :: f in listed.cleaners[c].todo ==> Present(s, f);
      ChecksDecide(listed, c, order);
    } else {
      ChecksPass(listed, c, order);
    }
  }

  // ── Launchers end and leave nothing ───────────────────────────────────

  /** Steps a launcher still makes; it waits while its agent runs. */
  function StepsLeft(p: Phase): nat {
    match p
    case Selected => 8
    case Reserved => 7
    case Pairing => 6
    case Spawned => 5
    case Marked => 4
    case Doubled => 3
    case HandedOver => 2
    case Killing => 2
    case Finishing => 1
    case Gone => 0
  }

  /** A launcher that lives gets further with every step of its own, unless it has
      ended or waits for its agent, after handing over or before giving it up. */
  lemma LauncherGetsOn(s: State, i: nat, ok: bool, matches: bool)
    requires i < |s.agents| && s.agents[i].launcherAlive
    ensures var a, a' := s.agents[i], Next(s, Advance(i, ok, matches)).agents[i];
            if a.phase == Gone || (a.phase in {HandedOver, Killing} && a.childAlive) then a' == a
            else StepsLeft(a'.phase) < StepsLeft(a.phase)
  {
  }

  /** An ended launcher has left no file and no agent running; and an agent runs
      only once it was started. */
  predicate LeftNothing(a: Agent) {
    && (a.phase == Gone ==> !a.reservation && !a.marker && !a.childAlive)
    && (a.childAlive ==> a.phase in {Spawned, Marked, Doubled, HandedOver, Killing})
    && (a.phase in {Selected, Reserved, Pairing, Spawned, Killing} ==> !a.marker)
    && (a.phase in {Selected, HandedOver} ==> !a.reservation)
  }

  lemma {:induction false} RunLeavesNothing(agents: nat, cleaners: nat, events: seq<Event>)
    ensures forall i :: 0 <= i < |RunAll(Begin(agents, cleaners), events).agents| ==>
              LeftNothing(RunAll(Begin(agents, cleaners), events).agents[i])
    decreases |events|
  {
    if events != [] {
      var before, e := events[..|events| - 1], events[|events| - 1];
      assert events == before + [e];
      RunLeavesNothing(agents, cleaners, before);
      RunOneMore(Begin(agents, cleaners), before, e);
      StepLeavesNothing(RunAll(Begin(agents, cleaners), before), e);
    }
  }

  lemma LaunchLeavesNothing(a: Agent, removed: bool, ok: bool, matches: bool)
    requires LeftNothing(a)
    ensures LeftNothing(Launch(a, removed, ok, matches))
  {
    match a.phase
    case Reserved =>
    case Spawned =>
    case Marked =>
    case _ =>
  }

  lemma {:induction false} StepLeavesNothing(s: State, e: Event)
    requires forall i :: 0 <= i < |s.agents| ==> LeftNothing(s.agents[i])
    ensures forall i :: 0 <= i < |Next(s, e).agents| ==> LeftNothing(Next(s, e).agents[i])
  {
    if e.Advance? && e.agent < |s.agents| { LaunchLeavesNothing(s.agents[e.agent], s.removed, e.ok, e.matches); }
  }

  /** In every interleaving, with or without cleanups: a launcher that has ended
      left neither its reservation nor its marker, and no agent running. */
  lemma EndedLauncherLeavesNothing(agents: nat, cleaners: nat, events: seq<Event>, i: nat)
    requires i < |RunAll(Begin(agents, cleaners), events).agents|
    requires RunAll(Begin(agents, cleaners), events).agents[i].phase == Gone
    ensures var a := RunAll(Begin(agents, cleaners), events).agents[i];
            !a.reservation && !a.marker && !a.childAlive
  {
    RunLeavesNothing(agents, cleaners, events);
  }

  /** `n` steps of launcher `i` in which everything works. */
  function Works(i: nat, n: nat): seq<Event> {
    if n == 0 then [] else [Advance(i, true, true)] + Works(i, n - 1)
  }

  /** An agent after `n` such steps. */
  function Launched(a: Agent, removed: bool, n: nat): Agent
    decreases n
  {
    if n == 0 then a else Launched(Launch(a, removed, true, true), removed, n - 1)
  }

  lemma LaunchKeepsLauncher(a: Agent, removed: bool, ok: bool, matches: bool)
    ensures Launch(a, removed, ok, matches).launcherAlive == a.launcherAlive
  {
    match a.phase
    case Selected =>
    case Reserved =>
    case Spawned =>
    case _ =>
  }

  lemma {:induction false} WorksLaunch(s: State, i: nat, n: nat)
    requires i < |s.agents| && s.agents[i].launcherAlive
    ensures var s' := RunAll(s, Works(i, n));
            s'.removed == s.removed && i < |s'.agents| && s'.agents[i] == Launched(s.agents[i], s.removed, n)
    decreases n
  {
    if n > 0 {
      assert Works(i, n)[0] == Advance(i, true, true) && Works(i, n)[1..] == Works(i, n - 1);
      LaunchKeepsLauncher(s.agents[i], s.removed, true, true);
      WorksLaunch(Next(s, Advance(i, true, true)), i, n - 1);
    }
  }

  lemma LaunchedMore(a: Agent, removed: bool, n: nat)
    ensures Launched(a, removed, n + 1) == Launched(Launch(a, removed, true, true), removed, n)
  {
  }

  lemma NewcomerLaunched(removed: bool)
    ensures Launched(NEWCOMER, removed, 6) == Agent(HandedOver, true, true, false, true, true, true, removed)
  {
    var a1 := Launch(NEWCOMER, removed, true, true);
    var a2 := Launch(a1, removed, true, true);
    var a3 := Launch(a2, removed, true, true);
    LaunchedMore(NEWCOMER, removed, 5);
    LaunchedMore(a1, removed, 4);
    LaunchedMore(a2, removed, 3);
    assert a3 == Agent(Spawned, true, true, true, true, false, false, removed);
    var a4 := Launch(a3, removed, true, true);
    var a5 := Launch(a4, removed, true, true);
    LaunchedMore(a3, removed, 2);
    LaunchedMore(a4, removed, 1);
    LaunchedMore(a5, removed, 0);
  }

  lemma ExitedLaunched(a: Agent, removed: bool)
    requires a.phase == HandedOver && !a.childAlive
    ensures Launched(a, removed, 2).phase == Gone
    ensures !Launched(a, removed, 2).reservation && !Launched(a, removed, 2).marker
  {
    LaunchedMore(a, removed, 1);
    LaunchedMore(Launch(a, removed, true, true), removed, 0);
  }

  /** A launch that works runs its agent under the agent's own marker, without the
      reservation; and when the agent exits, two more steps leave no file. */
  lemma LaunchHandsOver(s: State, i: nat)
    requires i < |s.agents| && s.agents[i] == NEWCOMER
    ensures var running := RunAll(s, Works(i, 6));
            && i < |running.agents|
            && running.agents[i] == Agent(HandedOver, true, true, false, true, true, true, s.removed)
            && MarkerActive(running.agents[i])
    ensures var ended := RunAll(Next(RunAll(s, Works(i, 6)), ChildExits(i)), Works(i, 2));
            && i < |ended.agents| && ended.agents[i].phase == Gone
            && !ended.agents[i].reservation && !ended.agents[i].marker
  {
    WorksLaunch(s, i, 6);
    NewcomerLaunched(s.removed);
    var exited := Next(RunAll(s, Works(i, 6)), ChildExits(i));
    WorksLaunch(exited, i, 2);
    ExitedLaunched(exited.agents[i], exited.removed);
  }

  predicate Ended(a: Agent) { a.phase == Gone && !a.reservation && !a.marker && !a.childAlive }

  /** A launch that fails before its agent is started ends without a file: at once
      when the reservation does not match, in a step more when pairing fails. */
  lemma FailedStartEnds(a: Agent, removed: bool, ok: bool, matches: bool)
    requires LeftNothing(a)
    ensures a.phase == Reserved && !a.reservationMatches ==> Ended(Launch(a, removed, ok, matches))
    ensures a.phase == Pairing && !ok ==> Ended(Launch(Launch(a, removed, ok, matches), removed, ok, matches))
  {
    if a.phase == Pairing && !ok { assert Launch(a, removed, ok, matches) == a.(phase := Finishing); }
  }

  /** An agent that cannot be found, or that its marker does not match, is stopped,
      without a marker; and when it exited, no file is left either. */
  lemma UnverifiedAgentIsStopped(a: Agent, removed: bool, ok: bool, matches: bool)
    requires LeftNothing(a)
    requires (a.phase == Spawned && !ok) || (a.phase == Marked && !(a.childAlive && a.markerMatches))
    ensures Launch(a, removed, ok, matches) == a.(phase := Killing, marker := false)
  {
  }

  lemma StoppedAgentEnds(a: Agent, removed: bool, ok: bool, matches: bool)
    requires a.phase == Killing && !a.childAlive
    ensures Ended(Launch(Launch(a, removed, ok, matches), removed, ok, matches))
  {
    assert Launch(a, removed, ok, matches) == a.(phase := Finishing);
  }
}
