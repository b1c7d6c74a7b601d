/** Cleanup of a Desktop lab run against the agents that use it
    (scripts/lab/desktop-agent.ts, scripts/lab/desktop.ts). Launchers, their agent
    processes and cleaners are separate processes that meet in one run directory. */
module LabAgents {

  // ── One run directory ─────────────────────────────────────────────────

  /** Where a launcher stands. `Doubled` holds both files, `Killing` waits for an
      agent it could not verify, `Finishing` is the `finally` block. */
  datatype Phase =
    Selected | Reserved | Pairing | Spawned | Marked | Doubled | HandedOver | Killing | Finishing | Gone

  /** A launcher, its agent process and its two marker files. A marker matches
      when `ps` shows the executable written in it. `late` tells that the
      reservation was written after the directory had been removed. */
  datatype Agent = Agent(
    phase: Phase, launcherAlive: bool, childAlive: bool,
    reservation: bool, reservationMatches: bool,
    marker: bool, markerMatches: bool, late: bool)

  datatype File = Reservation(agent: nat) | Marker(agent: nat)

  /** A cleanup pass: the listed files still to check, and which agents were
      guarded when the directory was listed; `vanished` tells that a listed file
      was gone when it was checked. */
  datatype Cleaner = Idle | Scanning(todo: set<File>, guarded: set<nat>) | Cleared(guarded: set<nat>, vanished: bool)

  datatype State = State(removed: bool, desktopAlive: bool, portAlive: bool, agents: seq<Agent>, cleaners: seq<Cleaner>)

  datatype Event =
    | Advance(agent: nat, ok: bool, matches: bool)
    | Crash(agent: nat)
    | ChildExits(agent: nat)
    | DesktopStops
    | PortCloses
    | CleanAtOnce
    | List(cleaner: nat)
    | Check(cleaner: nat, file: File)
    | Remove(cleaner: nat)

  /** `desktopAgentSessionIsActive` on the two files of an agent. */
  predicate ReservationActive(a: Agent) { a.reservation && a.launcherAlive && a.reservationMatches }

  predicate MarkerActive(a: Agent) { a.marker && a.childAlive && a.markerMatches }

  predicate Present(s: State, f: File) {
    f.agent < |s.agents| && if f.Reservation? then s.agents[f.agent].reservation else s.agents[f.agent].marker
  }

  predicate Active(s: State, f: File) {
    f.agent < |s.agents| &&
      if f.Reservation? then ReservationActive(s.agents[f.agent]) else MarkerActive(s.agents[f.agent])
  }

  function Reservations(s: State): set<File> {
    set i | 0 <= i < |s.agents| && s.agents[i].reservation :: Reservation(i)
  }

  function Markers(s: State): set<File> {
    set i | 0 <= i < |s.agents| && s.agents[i].marker :: Marker(i)
  }

  function SetAgent(s: State, i: nat, a: Agent): State
    requires i < |s.agents|
  {
    s.(agents := s.agents[i := a])
  }

  /** The launcher's next step. Writing a file makes the directories it needs, so
      it succeeds in a removed one too. `ok` tells whether pairing and starting the
      agent work, and then whether its executable is found. */
  function Launch(a: Agent, removed: bool, ok: bool, matches: bool): Agent {
    match a.phase
    case Selected => a.(phase := Reserved, reservation := true, reservationMatches := matches, late := removed)
    case Reserved =>
      if a.reservationMatches then a.(phase := Pairing) else a.(phase := Gone, reservation := false)
    case Pairing => if ok then a.(phase := Spawned, childAlive := true) else a.(phase := Finishing)
    case Spawned =>
      if !ok then a.(phase := Killing)
      else a.(phase := Marked, marker := true, markerMatches := matches)
    case Marked =>
      if a.childAlive && a.markerMatches then a.(phase := Doubled) else a.(phase := Killing, marker := false)
    case Doubled => a.(phase := HandedOver, reservation := false)
    case HandedOver => if a.childAlive then a else a.(phase := Finishing)
    case Killing => if a.childAlive then a else a.(phase := Finishing)
    case Finishing => a.(phase := Gone, reservation := false, marker := false)
    case Gone => a
  }

  /** `rmSync(root)`: the directory goes, and every file in it. */
  function Delete(s: State): State {
    s.(removed := true,
       agents := seq(|s.agents|, i requires 0 <= i < |s.agents| => s.agents[i].(reservation := false, marker := false)))
  }

  predicate AnyActive(s: State) {
    exists i :: 0 <= i < |s.agents| && (ReservationActive(s.agents[i]) || MarkerActive(s.agents[i]))
  }

  predicate Guarded(a: Agent) {
    a.launcherAlive &&
    (a.phase in {Pairing, Spawned, Marked, Doubled} || (a.phase in {HandedOver, Killing} && a.childAlive))
  }

  function GuardedAgents(s: State): set<nat> { set i | 0 <= i < |s.agents| && Guarded(s.agents[i]) }

  /** A pass that has listed the files present. */
  function Listing(s: State): Cleaner { Scanning(Reservations(s) + Markers(s), GuardedAgents(s)) }

  /** One step. A removed directory that a launcher made again has no manifest, so
      no pass begins there; one that had begun goes on. */
  function Next(s: State, e: Event): State {
    match e
    case Advance(i, ok, matches) =>
      if i < |s.agents| && s.agents[i].launcherAlive
      then SetAgent(s, i, Launch(s.agents[i], s.removed, ok, matches))
      else s
    case Crash(i) => if i < |s.agents| then SetAgent(s, i, s.agents[i].(launcherAlive := false)) else s
    case ChildExits(i) => if i < |s.agents| then SetAgent(s, i, s.agents[i].(childAlive := false)) else s
    case DesktopStops => s.(desktopAlive := false)
    case PortCloses => s.(portAlive := false)
    case CleanAtOnce => if s.removed || s.desktopAlive || s.portAlive || AnyActive(s) then s else Delete(s)
    case List(c) =>
      if c < |s.cleaners| && s.cleaners[c].Idle? && !s.removed && !s.desktopAlive && !s.portAlive then
        s.(cleaners := s.cleaners[c := Listing(s)])
      else s
    case Check(c, f) =>
      if c < |s.cleaners| && s.cleaners[c].Scanning? then
        var p := s.cleaners[c];
        if p.todo == {} then s.(cleaners := s.cleaners[c := Cleared(p.guarded, false)])
        else if f !in p.todo then s
        else if !Present(s, f) then s.(cleaners := s.cleaners[c := Cleared(p.guarded, true)])
        else if Active(s, f) then s.(cleaners := s.cleaners[c := Idle])
        else s.(cleaners := s.cleaners[c := Scanning(p.todo - {f}, p.guarded)])
      else s
    case Remove(c) =>
      if c < |s.cleaners| && s.cleaners[c].Cleared? then Delete(s.(cleaners := s.cleaners[c := Idle])) else s
  }

  function RunAll(s: State, events: seq<Event>): State
    decreases |events|
  {
    if events == [] then s else RunAll(Next(s, events[0]), events[1..])
  }

  const NEWCOMER := Agent(Selected, true, false, false, false, false, false, false)

  function Begin(agents: nat, cleaners: nat): State {
    State(false, true, true, seq(agents, _ => NEWCOMER), seq(cleaners, _ => Idle))
  }

  // ── The invariant ─────────────────────────────────────────────────────

  /** While the directory stands, a launcher's files are the ones its phase
      needs, and a process it spawned is one it still accounts for. */
  predicate AgentOk(a: Agent) {
    && (a.phase == Reserved ==> a.reservation)
    && (a.phase in {Pairing, Spawned, Marked, Doubled, Killing} ==> a.reservation && a.reservationMatches)
    && (a.phase in {Marked, Doubled, HandedOver} ==> a.marker)
    && (a.phase in {Doubled, HandedOver} ==> a.markerMatches)
    && (a.phase in {Selected, Reserved, Pairing, Spawned, Killing} ==> !a.marker)
    && (a.phase == HandedOver ==> !a.reservation)
    && (a.childAlive ==> a.phase in {Spawned, Marked, Doubled, HandedOver, Killing})
  }

  /** Agents guarded when a scan began stay past their reservation. */
  predicate Known(s: State, guarded: set<nat>) {
    forall i :: i in guarded ==> i < |s.agents| && s.agents[i].phase !in {Selected, Reserved}
  }

  /** A scan that has met no vanished file has, for each agent guarded since the
      listing, still a file to check that will be found active. */
  predicate CleanerOk(s: State, c: Cleaner) {
    match c
    case Idle => true
    case Scanning(todo, guarded) =>
      Known(s, guarded) &&
      forall i :: i in guarded && Guarded(s.agents[i]) ==>
                    Reservation(i) in todo || (Marker(i) in todo && s.agents[i].phase == HandedOver)
    case Cleared(guarded, vanished) =>
      Known(s, guarded) && (!vanished ==> forall i :: i in guarded ==> !Guarded(s.agents[i]))
  }

  predicate Inv(s: State) {
    !s.removed ==>
      && (forall i :: 0 <= i < |s.agents| ==> AgentOk(s.agents[i]))
      && (forall c :: 0 <= c < |s.cleaners| ==> CleanerOk(s, s.cleaners[c]))
  }

  lemma BeginOk(agents: nat, cleaners: nat)
    ensures Inv(Begin(agents, cleaners))
  {
  }

  /** A step of one agent that leaves other agents and cleaners alone. */
  lemma AgentStepOk(s: State, i: nat, a: Agent)
    requires Inv(s) && !s.removed && i < |s.agents| && AgentOk(a)
    requires a.phase in {Selected, Reserved} ==> s.agents[i].phase in {Selected, Reserved}
    requires Guarded(a) && s.agents[i].phase !in {Selected, Reserved} ==>
               Guarded(s.agents[i]) && (s.agents[i].phase == HandedOver ==> a.phase == HandedOver)
    ensures Inv(SetAgent(s, i, a))
  {
    var s' := SetAgent(s, i, a);
    forall c | 0 <= c < |s'.cleaners| ensures CleanerOk(s', s'.cleaners[c]) {
      assert CleanerOk(s, s.cleaners[c]);
    }
  }

  lemma LaunchOk(a: Agent, ok: bool, matches: bool)
    requires AgentOk(a) && a.launcherAlive
    ensures var a' := Launch(a, false, ok, matches);
            && AgentOk(a')
            && (a'.phase in {Selected, Reserved} ==> a.phase in {Selected, Reserved})
            && (Guarded(a') && a.phase !in {Selected, Reserved} ==>
                  Guarded(a) && (a.phase == HandedOver ==> a'.phase == HandedOver))
  {
  }

  /** Only one cleaner changes. */
  lemma CleanerStepOk(s: State, c: nat, p: Cleaner)
    requires Inv(s) && !s.removed && c < |s.cleaners| && CleanerOk(s, p)
    ensures Inv(s.(cleaners := s.cleaners[c := p]))
  {
    var s' := s.(cleaners := s.cleaners[c := p]);
    assert CleanerOk(s', p);
    forall d | 0 <= d < |s'.cleaners| ensures CleanerOk(s', s'.cleaners[d]) {
      assert d != c ==> CleanerOk(s, s.cleaners[d]);
    }
  }

  lemma ListOk(s: State)
    requires Inv(s) && !s.removed
    ensures CleanerOk(s, Listing(s))
  {
    forall i | i in GuardedAgents(s)
      ensures Reservation(i) in Reservations(s) || (Marker(i) in Markers(s) && s.agents[i].phase == HandedOver)
    {
      assert AgentOk(s.agents[i]);
    }
  }

  lemma CheckOk(s: State, c: nat, f: File)
    requires Inv(s) && !s.removed && c < |s.cleaners| && s.cleaners[c].Scanning?
    ensures Next(s, Check(c, f)) == s || CleanerOk(s, Next(s, Check(c, f)).cleaners[c])
  {
    var p := s.cleaners[c];
    assert CleanerOk(s, p);
    if f in p.todo && Present(s, f) && !Active(s, f) {
      forall i | i in p.guarded && Guarded(s.agents[i])
        ensures Reservation(i) in p.todo - {f} || (Marker(i) in p.todo - {f} && s.agents[i].phase == HandedOver)
      {
        assert AgentOk(s.agents[i]);
      }
    }
  }

  lemma {:induction false} StepKeepsInv(s: State, e: Event)
    requires Inv(s)
    ensures Inv(Next(s, e))
  {
    if !s.removed && Next(s, e) != s && !Next(s, e).removed {
      match e
      case Advance(i, ok, matches) =>
        assert AgentOk(s.agents[i]);
        LaunchOk(s.agents[i], ok, matches);
        AgentStepOk(s, i, Launch(s.agents[i], false, ok, matches));
      case Crash(i) =>
        assert AgentOk(s.agents[i]);
        AgentStepOk(s, i, s.agents[i].(launcherAlive := false));
      case ChildExits(i) =>
        assert AgentOk(s.agents[i]);
        AgentStepOk(s, i, s.agents[i].(childAlive := false));
      case List(c) =>
        ListOk(s);
        CleanerStepOk(s, c, Listing(s));
      case Check(c, f) =>
        CheckOk(s, c, f);
        CleanerStepOk(s, c, Next(s, e).cleaners[c]);
      case DesktopStops => OnlyDesktop(s, Next(s, e));
      case PortCloses => OnlyDesktop(s, Next(s, e));
      case _ =>
    }
  }

  lemma OnlyDesktop(s: State, s': State)
    requires Inv(s) && s'.agents == s.agents && s'.cleaners == s.cleaners && s'.removed == s.removed
    ensures Inv(s')
  {
    if !s.removed {
      forall c | 0 <= c < |s.cleaners| ensures CleanerOk(s', s'.cleaners[c]) { assert CleanerOk(s, s.cleaners[c]); }
    }
  }

  lemma {:induction false} RunKeepsInv(s: State, events: seq<Event>)
    requires Inv(s)
    ensures Inv(RunAll(s, events))
    decreases |events|
  {
    if events != [] {
      StepKeepsInv(s, events[0]);
      RunKeepsInv(Next(s, events[0]), events[1..]);
    }
  }

  lemma {:induction false} RunOneMore(s: State, events: seq<Event>, e: Event)
    ensures RunAll(s, events + [e]) == Next(RunAll(s, events), e)
    decreases |events|
  {
    if events == [] {
      assert [] + [e] == [e] && [e][1..] == [];
    } else {
      assert (events + [e])[1..] == events[1..] + [e];
      RunOneMore(Next(s, events[0]), events[1..], e);
    }
  }

  lemma StepKeepsSizes(s: State, e: Event)
    ensures |Next(s, e).agents| == |s.agents| && |Next(s, e).cleaners| == |s.cleaners|
  {
  }

  lemma {:induction false} RunKeepsSizes(s: State, events: seq<Event>)
    ensures |RunAll(s, events).agents| == |s.agents| && |RunAll(s, events).cleaners| == |s.cleaners|
    decreases |events|
  {
    if events != [] {
      StepKeepsSizes(s, events[0]);
      RunKeepsSizes(Next(s, events[0]), events[1..]);
    }
  }

  // ── With cleanup in one step ──────────────────────────────────────────

  /** An agent runs on after its launcher died, past the writing of its marker. */
  predicate OrphanMarked(a: Agent) {
    !a.launcherAlive && a.childAlive && (a.phase in {Doubled, HandedOver} || (a.phase == Marked && a.markerMatches))
  }

  /** What cleanup has to leave alone: a launcher that verified its reservation
      and whose agent has not exited, or an agent whose launcher died after
      writing a matching marker. */
  predicate InUse(a: Agent) { Guarded(a) || OrphanMarked(a) }

  /** In every reachable state in which the directory stands, an agent in use has
      an active file, so a cleanup in one step leaves the directory alone. */
  lemma InUseIsProtected(agents: nat, cleaners: nat, events: seq<Event>, i: nat)
    requires var s := RunAll(Begin(agents, cleaners), events);
             !s.removed && i < |s.agents| && InUse(s.agents[i])
    ensures var s := RunAll(Begin(agents, cleaners), events);
            && (ReservationActive(s.agents[i]) || MarkerActive(s.agents[i]))
            && Next(s, CleanAtOnce) == s
  {
    var s := RunAll(Begin(agents, cleaners), events);
    BeginOk(agents, cleaners);
    RunKeepsInv(Begin(agents, cleaners), events);
    assert AgentOk(s.agents[i]);
  }

  /** Cleanup passes in this run look and delete in one step, or there are none. */
  predicate AtOnce(cleaners: nat, events: seq<Event>) {
    forall i :: 0 <= i < |events| ==> events[i].Remove? ==> events[i].cleaner >= cleaners
  }

  /** The launcher has not verified its reservation yet, and may still do so. */
  predicate MayStart(a: Agent) {
    a.launcherAlive && (a.phase == Selected || (a.phase == Reserved && a.reservationMatches))
  }

  /** Without a verified reservation to come, a step does not get an agent in use. */
  lemma LaunchStaysOut(a: Agent, removed: bool, ok: bool, matches: bool)
    requires a.launcherAlive && !InUse(a) && !MayStart(a)
    ensures !InUse(Launch(a, removed, ok, matches)) && !MayStart(Launch(a, removed, ok, matches))
  {
    match a.phase
    case Reserved =>
    case HandedOver =>
    case Killing =>
    case _ =>
  }

  /** Not in use, nor about to be. */
  predicate Unused(a: Agent) { !InUse(a) && (a.phase == Reserved && a.launcherAlive ==> !a.reservationMatches) }

  predicate RemovedUnused(s: State) {
    s.removed ==> forall i :: 0 <= i < |s.agents| ==> s.agents[i].late || Unused(s.agents[i])
  }

  lemma {:induction false} RunAtOnce(s: State, events: seq<Event>)
    requires Inv(s) && RemovedUnused(s) && AtOnce(|s.cleaners|, events)
    ensures RemovedUnused(RunAll(s, events))
    decreases |events|
  {
    if events != [] {
      StepKeepsInv(s, events[0]);
      DeletesUnused(s, events[0]);
      RunAtOnce(Next(s, events[0]), events[1..]);
    }
  }

  lemma UnusedStays(a: Agent, ok: bool, matches: bool)
    requires (a.late || Unused(a)) && a.launcherAlive
    ensures Launch(a, true, ok, matches).late || Unused(Launch(a, true, ok, matches))
  {
    if a.phase != Selected && !a.late { LaunchStaysOut(a, true, ok, matches); }
  }

  lemma UnusedAgentStays(s: State, i: nat, a: Agent)
    requires RemovedUnused(s) && i < |s.agents| && (s.removed ==> a.late || Unused(a))
    ensures RemovedUnused(SetAgent(s, i, a))
  {
  }

  lemma QuietDirectoryUnused(s: State)
    requires Inv(s) && !s.removed && !AnyActive(s)
    ensures RemovedUnused(Delete(s))
  {
    forall i | 0 <= i < |s.agents| ensures Unused(Delete(s).agents[i]) { assert AgentOk(s.agents[i]); }
  }

  lemma DeletesUnused(s: State, e: Event)
    requires Inv(s) && RemovedUnused(s) && (e.Remove? ==> e.cleaner >= |s.cleaners|)
    ensures RemovedUnused(Next(s, e))
  {
    match e
    case Advance(i, ok, matches) =>
      if i < |s.agents| && s.agents[i].launcherAlive {
        if s.removed { UnusedStays(s.agents[i], ok, matches); }
        UnusedAgentStays(s, i, Launch(s.agents[i], s.removed, ok, matches));
      }
    case Crash(i) => if i < |s.agents| { UnusedAgentStays(s, i, s.agents[i].(launcherAlive := false)); }
    case ChildExits(i) => if i < |s.agents| { UnusedAgentStays(s, i, s.agents[i].(childAlive := false)); }
    case CleanAtOnce => if !s.removed && !AnyActive(s) { QuietDirectoryUnused(s); }
    case _ =>
  }

  /** From the moment a launcher's reservation is verified until its agent has
      exited, for any number of agents and any interleaving, one-step cleanup
      never has removed the run directory; not even when the launcher died, if it
      had written a matching marker by then. The one exception is a reservation
      that was written after the removal. */
  lemma OneStepCleanupIsSafe(agents: nat, cleaners: nat, events: seq<Event>, i: nat)
    requires AtOnce(cleaners, events) && i < |RunAll(Begin(agents, cleaners), events).agents|
    ensures var s := RunAll(Begin(agents, cleaners), events);
            InUse(s.agents[i]) && !s.agents[i].late ==> !s.removed
  {
    BeginOk(agents, cleaners);
    RunAtOnce(Begin(agents, cleaners), events);
  }

  // ── Reservations written after the removal ────────────────────────────

  predicate OutOfUse(s: State, i: nat) { i < |s.agents| && !InUse(s.agents[i]) && !MayStart(s.agents[i]) }

  lemma StepStaysOut(s: State, e: Event, i: nat)
    requires OutOfUse(s, i)
    ensures OutOfUse(Next(s, e), i)
  {
    if e.Advance? && e.agent == i && s.agents[i].launcherAlive {
      LaunchStaysOut(s.agents[i], s.removed, e.ok, e.matches);
    }
  }

  lemma {:induction false} StaysOut(s: State, events: seq<Event>, i: nat)
    requires OutOfUse(s, i)
    ensures OutOfUse(RunAll(s, events), i)
    decreases |events|
  {
    if events != [] {
      StepStaysOut(s, events[0], i);
      StaysOut(Next(s, events[0]), events[1..], i);
    }
  }

  /** When a one-step cleanup removes the directory, an agent gets in use there
      later, in some continuation, exactly when its launcher is alive and has not
      written its reservation yet. */
  lemma {:induction false} LateUseIff(agents: nat, cleaners: nat, events: seq<Event>, i: nat)
    requires var s := RunAll(Begin(agents, cleaners), events);
             !s.removed && Next(s, CleanAtOnce).removed && i < |s.agents|
    ensures var s := RunAll(Begin(agents, cleaners), events);
            (exists more :: UsedAfter(Next(s, CleanAtOnce), more, i)) <==>
            s.agents[i].launcherAlive && s.agents[i].phase == Selected
  {
    var s := RunAll(Begin(agents, cleaners), events);
    var gone, go := Next(s, CleanAtOnce), Advance(i, true, true);
    BeginOk(agents, cleaners);
    RunKeepsInv(Begin(agents, cleaners), events);
    assert AgentOk(s.agents[i]);
    if InUse(s.agents[i]) { InUseIsProtected(agents, cleaners, events, i); }
    if MayStart(gone.agents[i]) {
      RunOneMore(gone, [], go);
      RunOneMore(gone, [] + [go], go);
      assert UsedAfter(gone, [] + [go] + [go], i);
    }
    forall more | UsedAfter(gone, more, i) ensures MayStart(s.agents[i]) {
      if !MayStart(gone.agents[i]) { StaysOut(gone, more, i); }
    }
  }

  predicate UsedAfter(s: State, more: seq<Event>, i: nat) {
    i < |RunAll(s, more).agents| && InUse(RunAll(s, more).agents[i])
  }

  /** After these events the directory of an agent in use is gone. */
  predicate LosesAgent(agents: nat, cleaners: nat, events: seq<Event>) {
    var s := RunAll(Begin(agents, cleaners), events);
    s.removed && exists i :: 0 <= i < |s.agents| && InUse(s.agents[i])
  }

  /** A failing case: a one-step cleanup removes the directory before a launcher
      writes its reservation, which then makes the directory again and verifies. */
  lemma LateWriteLosesAgent(agents: nat, cleaners: nat) returns (events: seq<Event>)
    requires agents >= 1
    ensures AtOnce(cleaners, events) && LosesAgent(agents, cleaners, events)
  {
    var s, go := Begin(agents, cleaners), Advance(0, true, true);
    var quiet := [DesktopStops] + [PortCloses];
    RunOneMore(s, [], DesktopStops);
    assert [] + [DesktopStops] == [DesktopStops];
    RunOneMore(s, [DesktopStops], PortCloses);
    RunOneMore(s, quiet, CleanAtOnce);
    RunOneMore(s, quiet + [CleanAtOnce], go);
    RunOneMore(s, quiet + [CleanAtOnce] + [go], go);
    events := quiet + [CleanAtOnce] + [go] + [go];
    assert InUse(RunAll(s, events).agents[0]);
  }

  /** So with one-step cleanup some run loses an agent exactly when there is one. */
  lemma {:induction false} OneStepLosesAgentIff(agents: nat, cleaners: nat)
    ensures (exists events :: AtOnce(cleaners, events) && LosesAgent(agents, cleaners, events)) <==> agents >= 1
  {
    if agents >= 1 { var events := LateWriteLosesAgent(agents, cleaners); }
    forall events | LosesAgent(agents, cleaners, events) ensures agents >= 1 {
      RunKeepsSizes(Begin(agents, cleaners), events);
    }
  }

  // ── When a launcher dies ──────────────────────────────────────────────

  /** An agent whose launcher died keeps the directory exactly when the launcher
      had written a matching marker: it is lost when the launcher died before
      writing it, or while stopping an agent it could not verify. */
  lemma OrphanIsProtectedIff(agents: nat, cleaners: nat, events: seq<Event>, i: nat)
    requires var s := RunAll(Begin(agents, cleaners), events);
             !s.removed && i < |s.agents| && !s.agents[i].launcherAlive && s.agents[i].childAlive
    ensures var a := RunAll(Begin(agents, cleaners), events).agents[i];
            (ReservationActive(a) || MarkerActive(a)) <==> OrphanMarked(a)
  {
    var s := RunAll(Begin(agents, cleaners), events);
    BeginOk(agents, cleaners);
    RunKeepsInv(Begin(agents, cleaners), events);
    assert AgentOk(s.agents[i]);
  }

  // ── With the scan split into its steps ────────────────────────────────

  /** When listing and checking are separate steps, a pass that is about to
      delete the directory of an agent in use met a file that had vanished since
      the listing, or the agent was not yet guarded when it listed, or the
      launcher has died. */
  lemma WrongDeletionIsExplained(agents: nat, cleaners: nat, events: seq<Event>, c: nat, i: nat)
    requires var s := RunAll(Begin(agents, cleaners), events);
             && !s.removed && c < |s.cleaners| && s.cleaners[c].Cleared?
             && i < |s.agents| && InUse(s.agents[i])
    ensures var s := RunAll(Begin(agents, cleaners), events);
            s.cleaners[c].vanished || i !in s.cleaners[c].guarded || !s.agents[i].launcherAlive
  {
    var s := RunAll(Begin(agents, cleaners), events);
    BeginOk(agents, cleaners);
    RunKeepsInv(Begin(agents, cleaners), events);
    assert CleanerOk(s, s.cleaners[c]);
  }

  /** The pass that cleaner `c` has decided on deletes the directory of agent `i`. */
  predicate AboutToDelete(s: State, c: nat, i: nat) {
    && !s.removed && c < |s.cleaners| && s.cleaners[c].Cleared?
    && i < |s.agents| && InUse(s.agents[i]) && !s.agents[i].late
    && Next(s, Remove(c)).removed && InUse(Next(s, Remove(c)).agents[i])
  }

  /** A run in which the Desktop and its port are gone and cleaner 0 lists the
      directory after the given events. */
  lemma ListAfter(s: State, before: seq<Event>) returns (events: seq<Event>)
    requires |RunAll(s, before).cleaners| > 0 && RunAll(s, before).cleaners[0].Idle? && !RunAll(s, before).removed
    ensures var now := RunAll(s, before).(desktopAlive := false, portAlive := false);
            RunAll(s, events) == now.(cleaners := now.cleaners[0 := Listing(now)])
  {
    RunOneMore(s, before, DesktopStops);
    RunOneMore(s, before + [DesktopStops], PortCloses);
    events := before + [DesktopStops] + [PortCloses] + [List(0)];
    RunOneMore(s, before + [DesktopStops] + [PortCloses], List(0));
  }

  /** The first way does happen: launcher 1 cannot verify its reservation and
      takes it back between the listing and its check; the check fails on the
      missing file, and the pass answers that no agent is active, although agent 0
      is guarded all along. */
  lemma VanishedFileDeletes(agents: nat, cleaners: nat) returns (events: seq<Event>)
    requires agents >= 2 && cleaners >= 1
    ensures var s := RunAll(Begin(agents, cleaners), events);
            && AboutToDelete(s, 0, 0) && s.agents[0].launcherAlive
            && s.cleaners[0].vanished && 0 in s.cleaners[0].guarded
  {
    var s0 := Begin(agents, cleaners);
    var before := [Advance(0, true, true)] + [Advance(0, true, true)] + [Advance(1, true, false)];
    RunOneMore(s0, [], Advance(0, true, true));
    RunOneMore(s0, [Advance(0, true, true)], Advance(0, true, true));
    RunOneMore(s0, [Advance(0, true, true)] + [Advance(0, true, true)], Advance(1, true, false));
    assert [] + [Advance(0, true, true)] == [Advance(0, true, true)];
    var listed := ListAfter(s0, before);
    var s := RunAll(s0, listed);
    assert 0 in s.cleaners[0].guarded && Reservation(1) in s.cleaners[0].todo;
    events := listed + [Advance(1, true, true)] + [Check(0, Reservation(1))];
    RunOneMore(s0, listed, Advance(1, true, true));
    RunOneMore(s0, listed + [Advance(1, true, true)], Check(0, Reservation(1)));
  }

  /** So does the second: a launcher verifies its reservation after the decision. */
  lemma LateReservationDeletes(agents: nat, cleaners: nat) returns (events: seq<Event>)
    requires agents >= 1 && cleaners >= 1
    ensures var s := RunAll(Begin(agents, cleaners), events);
            && AboutToDelete(s, 0, 0) && s.agents[0].launcherAlive
            && !s.cleaners[0].vanished && 0 !in s.cleaners[0].guarded
  {
    var s0 := Begin(agents, cleaners);
    var listed := ListAfter(s0, []);
    var s := RunAll(s0, listed);
    assert s.cleaners[0].todo == {} && s.cleaners[0].guarded == {};
    var steps := [Check(0, Reservation(0)), Advance(0, true, true), Advance(0, true, true)];
    RunOneMore(s0, listed, steps[0]);
    RunOneMore(s0, listed + [steps[0]], steps[1]);
    RunOneMore(s0, listed + [steps[0]] + [steps[1]], steps[2]);
    events := listed + [steps[0]] + [steps[1]] + [steps[2]];
  }

  /** A run after which agent 0 is spawned and cleaner 0 has listed its
      reservation. */
  lemma ListSpawned(agents: nat, cleaners: nat) returns (events: seq<Event>)
    requires agents >= 1 && cleaners >= 1
    ensures var s := RunAll(Begin(agents, cleaners), events);
            && !s.removed && |s.agents| == agents && |s.cleaners| == cleaners
            && s.agents[0] == Agent(Spawned, true, true, true, true, false, false, false)
            && s.cleaners[0].Scanning? && s.cleaners[0].todo == {Reservation(0)} && 0 in s.cleaners[0].guarded
  {
    var s0 := Begin(agents, cleaners);
    var go := Advance(0, true, true);
    RunOneMore(s0, [], go);
    assert [] + [go] == [go];
    RunOneMore(s0, [go], go);
    RunOneMore(s0, [go] + [go], go);
    events := ListAfter(s0, [go] + [go] + [go]);
    var s := RunAll(s0, events);
    assert forall i :: 1 <= i < |s.agents| ==> s.agents[i] == NEWCOMER;
  }

  /** And the third: the launcher writes a matching marker after the listing and
      dies, so its listed reservation is found inactive and the marker unlisted. */
  lemma LauncherDeathDeletes(agents: nat, cleaners: nat) returns (events: seq<Event>)
    requires agents >= 1 && cleaners >= 1
    ensures var s := RunAll(Begin(agents, cleaners), events);
            && AboutToDelete(s, 0, 0) && !s.agents[0].launcherAlive
            && !s.cleaners[0].vanished && 0 in s.cleaners[0].guarded
  {
    var s0 := Begin(agents, cleaners);
    var listed := ListSpawned(agents, cleaners);
    var go, check := Advance(0, true, true), Check(0, Reservation(0));
    RunOneMore(s0, listed, go);
    RunOneMore(s0, listed + [go], Crash(0));
    RunOneMore(s0, listed + [go] + [Crash(0)], check);
    RunOneMore(s0, listed + [go] + [Crash(0)] + [check], check);
    events := listed + [go] + [Crash(0)] + [check] + [check];
  }

  /** After these events the directory is gone of an agent in use that had written
      its reservation there. */
  predicate LosesSettled(agents: nat, cleaners: nat, events: seq<Event>) {
    var s := RunAll(Begin(agents, cleaners), events);
    s.removed && exists i :: 0 <= i < |s.agents| && InUse(s.agents[i]) && !s.agents[i].late
  }

  /** What the split scan adds: some run loses an agent that had its reservation in
      the directory exactly when there are an agent and a cleaner. */
  lemma {:induction false} SplitScanLosesAgentIff(agents: nat, cleaners: nat)
    ensures (exists events :: LosesSettled(agents, cleaners, events)) <==> agents >= 1 && cleaners >= 1
  {
    var s0 := Begin(agents, cleaners);
    if agents >= 1 && cleaners >= 1 {
      var events := LateReservationDeletes(agents, cleaners);
      RunOneMore(s0, events, Remove(0));
      RunKeepsSizes(s0, events);
      assert LosesSettled(agents, cleaners, events + [Remove(0)]);
    }
    forall events | LosesSettled(agents, cleaners, events) ensures agents >= 1 && cleaners >= 1 {
      RunKeepsSizes(s0, events);
      var s := RunAll(s0, events);
      var i :| 0 <= i < |s.agents| && InUse(s.agents[i]) && !s.agents[i].late;
      if cleaners == 0 { OneStepCleanupIsSafe(agents, cleaners, events, i); }
    }
  }
}
