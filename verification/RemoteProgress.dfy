/** What concurrent writers of channels.json are sure to reach
    (`updateRemote` in scripts/release-channels.ts): that every call ends, what a
    call left alone does, and what follows a rejected write. */
module RemoteProgress {
  import opened Text
  import opened Channels
  import opened RemoteUpdate

  // ── Failures of the network ───────────────────────────────────────────

  /** A request of writer `w` was lost, or its answer was, or that was an error. */
  predicate Disturbed(moves: seq<Move>, w: nat) {
    exists i :: 0 <= i < |moves| && moves[i].writer == w &&
      (moves[i].event.RequestLost? || moves[i].event.AnswerLost? || moves[i].event.ErrorAnswer?)
  }

  lemma {:induction false} NetworkFailureIsReal(s: State, moves: seq<Move>, w: nat)
    requires w < |s.writers| && s.writers[w].phase != Threw(Network) && !Disturbed(moves, w)
    ensures w < |RunAll(s, moves).writers| && RunAll(s, moves).writers[w].phase != Threw(Network)
    decreases |moves|
  {
    if moves != [] {
      var u, e := moves[0].writer, moves[0].event;
      forall i | 0 <= i < |moves[1..]| ensures moves[1..][i] == moves[i + 1] { }
      assert !Disturbed(moves[1..], w);
      NetworkFailureIsReal(if u < |s.writers| then Next(s, u, e) else s, moves[1..], w);
    }
  }

  /** A call throws a failure of the network only if one of its own requests was
      lost, or the answer, or that was an error. */
  lemma NetworkFailuresAreReal(initial: Remote, commands: seq<Command>, moves: seq<Move>, w: nat)
    requires w < |commands| && !Disturbed(moves, w)
    ensures var s := RunAll(Begin(initial, commands), moves);
            w < |s.writers| && s.writers[w].phase != Threw(Network)
  {
    NetworkFailureIsReal(Begin(initial, commands), moves, w);
  }

  /** A request of a running call ends it with a failure of the network exactly when
      the request or its answer is lost, or the answer is an error; but an error
      about the branch reads as "there is none". */
  lemma NetworkFailureIff(s: State, w: nat, e: Event)
    requires w < |s.writers| && !s.writers[w].phase.Idle? && !Ended(s.writers[w].phase) && !e.Start?
    ensures Next(s, w, e).writers[w].phase == Threw(Network) <==>
            e.RequestLost? || e.AnswerLost? || (e.ErrorAnswer? && !s.writers[w].phase.Missing?)
  {
  }

  // ── Every call ends ───────────────────────────────────────────────────

  predicate Ended(p: Phase) { p.Returned? || p.Threw? }

  /** Requests that a call still makes at most. */
  function Effort(p: Phase): int {
    match p
    case Idle => 15
    case Reading(attempt) => 3 * (6 - attempt)
    case Missing(attempt, _) => 3 * (6 - attempt) - 1
    case Writing(attempt, _, _, _) => 3 * (6 - attempt) - 2
    case _ => 0
  }

  /** The moves in which something happens to a request of writer `w`. */
  function Requests(moves: seq<Move>, w: nat): set<int> {
    set i | 0 <= i < |moves| && moves[i].writer == w && !moves[i].event.Start?
  }

  /** An ended call makes no more requests, and one that has not makes another. */
  lemma EffortLeft(s: State, w: nat)
    requires Inv(s) && w < |s.writers| && !s.writers[w].phase.Idle?
    ensures 0 <= Effort(s.writers[w].phase) <= 15
    ensures Ended(s.writers[w].phase) <==> Effort(s.writers[w].phase) == 0
  {
    assert WriterOk(s, w);
  }

  lemma EffortFalls(s: State, w: nat, e: Event)
    requires Inv(s) && w < |s.writers| && !s.writers[w].phase.Idle? && !Ended(s.writers[w].phase) && !e.Start?
    ensures Effort(Next(s, w, e).writers[w].phase) < Effort(s.writers[w].phase)
    ensures !Next(s, w, e).writers[w].phase.Idle?
  {
    assert WriterOk(s, w);
  }

  lemma OneRequest(s: State, move: Move, w: nat)
    requires Inv(s) && w < |s.writers| && !s.writers[w].phase.Idle?
    ensures var s' := RunAll(s, [move]);
            && w < |s'.writers| && !s'.writers[w].phase.Idle?
            && (Ended(s.writers[w].phase) ==> Ended(s'.writers[w].phase))
            && (Ended(s'.writers[w].phase) ||
                0 < Effort(s'.writers[w].phase) <=
                Effort(s.writers[w].phase) - if move.writer == w && !move.event.Start? then 1 else 0)
  {
    assert [move][1..] == [];
    EffortLeft(s, w);
    if move.writer < |s.writers| {
      StepKeepsInv(s, move.writer, move.event);
      if move.writer == w && !Ended(s.writers[w].phase) && !move.event.Start? { EffortFalls(s, w, move.event); }
      EffortLeft(Next(s, move.writer, move.event), w);
    }
  }

  lemma {:induction false} RequestsBounded(s: State, moves: seq<Move>, w: nat)
    requires Inv(s) && w < |s.writers| && !s.writers[w].phase.Idle?
    ensures var s' := RunAll(s, moves);
            && w < |s'.writers| && !s'.writers[w].phase.Idle?
            && (Ended(s'.writers[w].phase) ||
                0 < Effort(s'.writers[w].phase) <= Effort(s.writers[w].phase) - |Requests(moves, w)|)
    decreases |moves|
  {
    EffortLeft(s, w);
    if moves != [] {
      var n := |moves| - 1;
      var before, move := moves[..n], moves[n];
      var now := RunAll(s, before);
      RequestsBounded(s, before, w);
      RunKeepsInv(s, before);
      RunKeepsCommands(s, before);
      assert moves == before + [move];
      RunAllConcat(s, before, [move]);
      OneRequest(now, move, w);
      assert Requests(moves, w) ==
             Requests(before, w) + if move.writer == w && !move.event.Start? then {n} else {};
    }
  }

  lemma {:induction false} EndedStays(s: State, moves: seq<Move>, w: nat)
    requires w < |s.writers| && Ended(s.writers[w].phase)
    ensures w < |RunAll(s, moves).writers| && RunAll(s, moves).writers[w] == s.writers[w]
    decreases |moves|
  {
    if moves != [] {
      EndedStays(if moves[0].writer < |s.writers| then Next(s, moves[0].writer, moves[0].event) else s, moves[1..], w);
    }
  }

  /** In every interleaving a call that has begun ends with its fifteenth request
      at the latest, whatever the others do. */
  lemma EveryCallEnds(initial: Remote, commands: seq<Command>, before: seq<Move>, moves: seq<Move>, w: nat)
    requires w < |RunAll(Begin(initial, commands), before).writers|
    requires !RunAll(Begin(initial, commands), before).writers[w].phase.Idle? && |Requests(moves, w)| >= 15
    ensures var s := RunAll(RunAll(Begin(initial, commands), before), moves);
            w < |s.writers| && Ended(s.writers[w].phase)
  {
    var s := RunAll(Begin(initial, commands), before);
    BeginOk(initial, commands);
    RunKeepsInv(Begin(initial, commands), before);
    EffortLeft(s, w);
    RequestsBounded(s, moves, w);
  }

  // ── What a call does ──────────────────────────────────────────────────

  /** The file changes exactly when a write reaches GitHub while the file is as
      it was read, or, for one that creates the branch, while there is none; its
      answer may still be lost. It then holds what the command makes of what was
      read. */
  lemma FileChangesIff(s: State, w: nat, e: Event)
    requires Inv(s) && w < |s.writers|
    ensures var p, s' := s.writers[w].phase, Next(s, w, e);
            if p.Writing? && (e.Answer? || e.AnswerLost?)
               && (if p.branchExists then s.remote == Branch(p.read) else s.remote == NoBranch) then
              && s'.remote.Branch? && s'.remote.file.Some?
              && Apply(Parse(p.read), s.writers[w].command) == Ok(Change(s'.remote.file.value, true))
              && s'.history == s.history + [Commit(w, s'.remote.file.value)]
              && (e.Answer? ==> s'.writers[w].phase == Returned(s'.remote.file.value))
            else s'.remote == s.remote && s'.history == s.history
  {
    assert WriterOk(s, w);
  }

  /** Writer `w`'s next requests are answered, and no other writer moves. */
  function Answered(w: nat, n: nat): seq<Move> {
    if n == 0 then [] else [Move(w, Answer)] + Answered(w, n - 1)
  }

  lemma {:induction false} AnswersToEnded(s: State, w: nat, n: nat)
    requires w < |s.writers| && Ended(s.writers[w].phase)
    ensures RunAll(s, Answered(w, n)) == s
  {
    if n > 0 {
      assert Answered(w, n)[1..] == Answered(w, n - 1);
      AnswersToEnded(s, w, n - 1);
    }
  }

  lemma AnswerFirst(s: State, w: nat, n: nat)
    requires w < |s.writers| && n > 0
    ensures RunAll(s, Answered(w, n)) == RunAll(Next(s, w, Answer), Answered(w, n - 1))
  {
    assert Answered(w, n)[0] == Move(w, Answer) && Answered(w, n)[1..] == Answered(w, n - 1);
  }

  /** Writer `w` ended with its command's effect on the file as it was in `s`: the
      new manifest is the file when there is something to change and it has a
      stable release; otherwise the file stays. */
  predicate UpdatedSince(s: State, s': State, w: nat)
    requires w < |s.writers|
  {
    && |s'.writers| == |s.writers|
    && match Apply(Parse(FileOf(s.remote)), s.writers[w].command)
       case Ok(Change(m, true)) =>
         if Stable in m.channels then
           && s'.writers[w].phase == Returned(m)
           && s'.remote == Branch(Some(m)) && s'.history == s.history + [Commit(w, m)]
         else s'.writers[w].phase == Threw(Unwritable) && s'.remote == s.remote && s'.history == s.history
       case Ok(Change(m, false)) =>
         s'.writers[w].phase == Returned(m) && s'.remote == s.remote && s'.history == s.history
       case Err(_) =>
         s'.writers[w].phase == Threw(Refused) && s'.remote == s.remote && s'.history == s.history
  }

  /** A call that reads while no other writer moves, and is answered, makes its
      command's update within three requests. */
  lemma ReaderAloneUpdates(s: State, w: nat, n: nat)
    requires w < |s.writers| && s.writers[w].phase.Reading? && n >= 3
    ensures UpdatedSince(s, RunAll(s, Answered(w, n)), w)
  {
    var s1 := Next(s, w, Answer);
    AnswerFirst(s, w, n);
    if FileOf(s.remote).Some? {
      DecidedAlone(s, s1, w, n - 1);
    } else {
      AnswerFirst(s1, w, n - 1);
      DecidedAlone(s, Next(s1, w, Answer), w, n - 2);
    }
  }

  /** The rest of such a call, from its decision on. */
  lemma DecidedAlone(s: State, decided: State, w: nat, n: nat)
    requires w < |s.writers| && n >= 1
    requires exists attempt: nat, at: nat ::
               decided == SetPhase(s, w, Decide(s.writers[w].command, attempt, at, FileOf(s.remote), s.remote.Branch?))
    ensures UpdatedSince(s, RunAll(decided, Answered(w, n)), w)
  {
    if Ended(decided.writers[w].phase) {
      AnswersToEnded(decided, w, n);
    } else {
      AnswerFirst(decided, w, n);
      AnswersToEnded(Next(decided, w, Answer), w, n - 1);
    }
  }

  /** In whatever state the others are: a call that starts and is then alone
      makes its command's update. */
  lemma CallAloneUpdates(initial: Remote, commands: seq<Command>, before: seq<Move>, w: nat, n: nat)
    requires w < |RunAll(Begin(initial, commands), before).writers| && n >= 3
    requires RunAll(Begin(initial, commands), before).writers[w].phase.Idle?
    ensures UpdatedSince(RunAll(Begin(initial, commands), before),
              RunAll(Begin(initial, commands), before + [Move(w, Start)] + Answered(w, n)), w)
  {
    var s := RunAll(Begin(initial, commands), before);
    var s1 := Next(s, w, Start);
    RunOne(s, w, Start);
    RunAllConcat(Begin(initial, commands), before, [Move(w, Start)]);
    RunAllConcat(Begin(initial, commands), before + [Move(w, Start)], Answered(w, n));
    ReaderAloneUpdates(s1, w, n);
  }

  predicate Others(moves: seq<Move>, w: nat) { forall i :: 0 <= i < |moves| ==> moves[i].writer != w }

  lemma {:induction false} OthersLeave(s: State, moves: seq<Move>, w: nat)
    requires w < |s.writers| && Others(moves, w)
    ensures w < |RunAll(s, moves).writers| && RunAll(s, moves).writers[w] == s.writers[w]
    decreases |moves|
  {
    if moves != [] {
      forall i | 0 <= i < |moves[1..]| ensures moves[1..][i] == moves[i + 1] { }
      assert Others(moves[1..], w);
      OthersLeave(if moves[0].writer < |s.writers| then Next(s, moves[0].writer, moves[0].event) else s, moves[1..], w);
    }
  }

  /** A write that GitHub rejects because the file changed is followed by another
      read, which acts on the file as it is then, whatever the others did in
      between; after the fifth attempt the call gives up instead. */
  lemma RejectedWriteReadsAgain(s: State, w: nat, others: seq<Move>, n: nat)
    requires Inv(s) && w < |s.writers| && s.writers[w].phase.Writing? && s.writers[w].phase.branchExists
    requires s.remote != Branch(s.writers[w].phase.read) && Others(others, w) && n >= 3
    ensures var again := RunAll(Next(s, w, Answer), others);
            && w < |again.writers|
            && (s.writers[w].phase.attempt < 5 ==> UpdatedSince(again, RunAll(again, Answered(w, n)), w))
            && (s.writers[w].phase.attempt == 5 ==> again.writers[w].phase == Threw(GaveUp))
            && s.writers[w].phase.attempt <= 5
    ensures Next(s, w, Answer).remote == s.remote && Next(s, w, Answer).history == s.history
  {
    assert WriterOk(s, w);
    OthersLeave(Next(s, w, Answer), others, w);
    if s.writers[w].phase.attempt < 5 { ReaderAloneUpdates(RunAll(Next(s, w, Answer), others), w, n); }
  }
}
