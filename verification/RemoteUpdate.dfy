/** Concurrent writers of channels.json (scripts/release-channels.ts): any number
    of `updateRemote` calls, interleaved at their requests to GitHub. */
module RemoteUpdate {
  import opened Text
  import opened BuildVersions
  import opened Channels

  // ── The protocol ──────────────────────────────────────────────────────

  /** The release-channels branch and the file on it. */
  datatype Remote = NoBranch | Branch(file: Option<Manifest>)

  datatype Failure = Refused | Unwritable | Network | BranchAppeared | GaveUp

  /** Where a writer is. `at` counts the commits before the read it acts on. */
  datatype Phase =
    | Idle
    | Reading(attempt: nat)
    | Missing(attempt: nat, at: nat)
    | Writing(attempt: nat, at: nat, read: Option<Manifest>, branchExists: bool)
    | Returned(manifest: Manifest)
    | Threw(why: Failure)

  /** One call; `began` counts the commits before it started. */
  datatype Writer = Writer(command: Command, phase: Phase, began: nat)

  datatype Commit = Commit(writer: nat, content: Manifest)

  datatype State = State(initial: Remote, remote: Remote, history: seq<Commit>, writers: seq<Writer>)

  /** What happens next to one writer: its next request is answered, gets an
      error answer (not 404, 409 or 422) without effect, is lost before or after
      it took effect, or the call starts. */
  datatype Event = Start | Answer | ErrorAnswer | AnswerLost | RequestLost

  /** `parseManifest`. */
  function Parse(file: Option<Manifest>): Manifest {
    match file case None => EMPTY case Some(m) => m
  }

  function FileOf(r: Remote): Option<Manifest> {
    match r case NoBranch => None case Branch(file) => file
  }

  /** The change is computed as soon as the read is complete. */
  function Decide(c: Command, attempt: nat, at: nat, read: Option<Manifest>, branchExists: bool): Phase {
    match Apply(Parse(read), c)
    case Err(_) => Threw(Refused)
    case Ok(change) =>
      if !change.changed then Returned(change.manifest)
      else if !Writable(change.manifest) then Threw(Unwritable)
      else Writing(attempt, at, read, branchExists)
  }

  /** GitHub takes a write that creates the branch when there is none, and a
      write to the file when it still is as read (the blob sha matches). */
  predicate Accepts(r: Remote, p: Phase)
    requires p.Writing?
  {
    if p.branchExists then r == Branch(p.read) else r == NoBranch
  }

  function SetPhase(s: State, w: nat, p: Phase): State
    requires w < |s.writers|
  {
    s.(writers := s.writers[w := s.writers[w].(phase := p)])
  }

  /** One event of one writer. Any error answer about the branch reads as "there
      is none". */
  function Next(s: State, w: nat, e: Event): State
    requires w < |s.writers|
  {
    var c, p := s.writers[w].command, s.writers[w].phase;
    match p
    case Idle =>
      if e.Start? then s.(writers := s.writers[w := Writer(c, Reading(1), |s.history|)]) else s
    case Reading(attempt) =>
      if e.RequestLost? || e.AnswerLost? || e.ErrorAnswer? then SetPhase(s, w, Threw(Network))
      else if e.Start? then s
      else if FileOf(s.remote).Some? then SetPhase(s, w, Decide(c, attempt, |s.history|, FileOf(s.remote), true))
      else SetPhase(s, w, Missing(attempt, |s.history|))
    case Missing(attempt, at) =>
      if e.RequestLost? || e.AnswerLost? then SetPhase(s, w, Threw(Network))
      else if e.Start? then s
      else SetPhase(s, w, Decide(c, attempt, at, None, e.Answer? && s.remote.Branch?))
    case Writing(attempt, at, read, branchExists) =>
      if e.RequestLost? || e.ErrorAnswer? then SetPhase(s, w, Threw(Network))
      else if e.Start? then s
      else if Accepts(s.remote, p) && Apply(Parse(read), c).Ok? then
        var text := Apply(Parse(read), c).value.manifest;
        var written := s.(remote := Branch(Some(text)), history := s.history + [Commit(w, text)]);
        SetPhase(written, w, if e.Answer? then Returned(text) else Threw(Network))
      else if e.AnswerLost? then SetPhase(s, w, Threw(Network))
      else if !branchExists then SetPhase(s, w, Threw(BranchAppeared))
      else if attempt < 5 then SetPhase(s, w, Reading(attempt + 1))
      else SetPhase(s, w, Threw(GaveUp))
    case _ => s
  }

  /** Any interleaving: which writer moves, and what happens to it. */
  datatype Move = Move(writer: nat, event: Event)

  function RunAll(s: State, moves: seq<Move>): State
    decreases |moves|
  {
    if moves == [] then s
    else if moves[0].writer < |s.writers| then RunAll(Next(s, moves[0].writer, moves[0].event), moves[1..])
    else RunAll(s, moves[1..])
  }

  function Begin(initial: Remote, commands: seq<Command>): State {
    State(initial, initial, [], seq(|commands|, i requires 0 <= i < |commands| => Writer(commands[i], Idle, 0)))
  }

  // ── The invariant ─────────────────────────────────────────────────────

  /** The file after the first `k` commits. */
  function FileAt(s: State, k: nat): Option<Manifest>
    requires k <= |s.history|
  {
    if k == 0 then FileOf(s.initial) else Some(s.history[k - 1].content)
  }

  /** Commit `i` is its writer's command applied to the file it replaced. */
  predicate CommitOk(s: State, i: nat)
    requires i < |s.history|
  {
    var w := s.history[i].writer;
    && w < |s.writers| && s.writers[w].began <= i
    && Apply(Parse(FileAt(s, i)), s.writers[w].command) == Ok(Change(s.history[i].content, true))
    && Writable(s.history[i].content)
  }

  predicate HistoryOk(s: State) {
    && s.remote == (if s.history == [] then s.initial else Branch(FileAt(s, |s.history|)))
    && (forall i :: 0 <= i < |s.history| ==> CommitOk(s, i))
    && (forall i, j :: 0 <= i < j < |s.history| ==> s.history[i].writer != s.history[j].writer)
  }

  predicate Committed(s: State, w: nat) { exists i :: 0 <= i < |s.history| && s.history[i].writer == w }

  /** At some moment since the call began, the command applied to the file gave `r`. */
  predicate Saw(s: State, w: nat, r: Result<Change>)
    requires w < |s.writers|
  {
    exists k :: s.writers[w].began <= k <= |s.history| && Apply(Parse(FileAt(s, k)), s.writers[w].command) == r
  }

  predicate SawUnwritable(s: State, w: nat)
    requires w < |s.writers|
  {
    exists k :: s.writers[w].began <= k <= |s.history|
      && Apply(Parse(FileAt(s, k)), s.writers[w].command).Ok?
      && !Writable(Apply(Parse(FileAt(s, k)), s.writers[w].command).value.manifest)
  }

  predicate SawRefused(s: State, w: nat)
    requires w < |s.writers|
  {
    exists k :: s.writers[w].began <= k <= |s.history| && Apply(Parse(FileAt(s, k)), s.writers[w].command).Err?
  }

  /** The command can write the first manifest. */
  predicate Creates(c: Command) {
    Apply(EMPTY, c).Ok? && Apply(EMPTY, c).value.changed && Writable(Apply(EMPTY, c).value.manifest)
  }

  predicate WriterOk(s: State, w: nat)
    requires w < |s.writers|
  {
    var writer := s.writers[w];
    var n := |s.history|;
    match writer.phase
    case Idle => !Committed(s, w) && writer.began == 0
    case Reading(attempt) => !Committed(s, w) && 1 <= attempt <= 5 && writer.began + attempt - 1 <= n
    case Missing(attempt, at) =>
      && !Committed(s, w) && 1 <= attempt <= 5
      && writer.began + attempt - 1 <= at <= n && FileAt(s, at) == None
    case Writing(attempt, at, read, branchExists) =>
      && !Committed(s, w) && 1 <= attempt <= 5
      && writer.began + attempt - 1 <= at <= n && FileAt(s, at) == read
      && (!branchExists ==> read == None)
      && (branchExists ==> s.remote.Branch?)
      && Apply(Parse(read), writer.command).Ok?
      && Apply(Parse(read), writer.command).value.changed
      && Writable(Apply(Parse(read), writer.command).value.manifest)
    case Returned(m) =>
      if Committed(s, w) then exists i :: 0 <= i < n && s.history[i] == Commit(w, m)
      else Saw(s, w, Ok(Change(m, false)))
    case Threw(Network) => true
    case Threw(Refused) => !Committed(s, w) && SawRefused(s, w)
    case Threw(Unwritable) => !Committed(s, w) && SawUnwritable(s, w)
    case Threw(BranchAppeared) =>
      !Committed(s, w) && FileOf(s.initial) == None && s.remote.Branch? && Creates(writer.command)
    case Threw(GaveUp) => !Committed(s, w) && writer.began + 5 <= n
  }

  predicate Inv(s: State) { HistoryOk(s) && forall w :: 0 <= w < |s.writers| ==> WriterOk(s, w) }

  /** Later commits of other writers do not disturb what holds of a writer. */
  lemma OthersStay(s: State, s': State, w: nat)
    requires w < |s.writers| == |s'.writers| && s'.writers[w] == s.writers[w]
    requires WriterOk(s, w) && s'.initial == s.initial && (s.remote.Branch? ==> s'.remote.Branch?)
    requires s.history <= s'.history
    requires forall i :: |s.history| <= i < |s'.history| ==> s'.history[i].writer != w
    ensures WriterOk(s', w)
  {
    assert Committed(s', w) <==> Committed(s, w);
    forall k | 0 <= k <= |s.history| ensures FileAt(s', k) == FileAt(s, k) { }
  }

  lemma HistoryStays(s: State, s': State)
    requires HistoryOk(s) && s'.history == s.history && s'.remote == s.remote && s'.initial == s.initial
    requires |s'.writers| == |s.writers|
    requires forall w :: 0 <= w < |s.writers| ==> s'.writers[w].command == s.writers[w].command
    requires forall i :: 0 <= i < |s.history| ==>
               s.history[i].writer < |s.writers| &&
                 s'.writers[s.history[i].writer].began == s.writers[s.history[i].writer].began
    ensures HistoryOk(s')
  {
    forall i | 0 <= i < |s'.history| ensures CommitOk(s', i) { assert CommitOk(s, i); }
  }

  lemma HistoryGrows(s: State, w: nat, text: Manifest, p: Phase)
    requires Inv(s) && w < |s.writers| && s.writers[w].phase.Writing?
    requires Accepts(s.remote, s.writers[w].phase)
    requires Apply(Parse(s.writers[w].phase.read), s.writers[w].command) == Ok(Change(text, true)) && Writable(text)
    ensures var s' := SetPhase(s.(remote := Branch(Some(text)), history := s.history + [Commit(w, text)]), w, p);
            HistoryOk(s')
  {
    var s' := SetPhase(s.(remote := Branch(Some(text)), history := s.history + [Commit(w, text)]), w, p);
    assert WriterOk(s, w);
    forall i | 0 <= i < |s'.history| ensures CommitOk(s', i) {
      assert FileAt(s', i) == FileAt(s, i);
      if i < |s.history| { assert CommitOk(s, i); }
    }
  }

  /** A step of one writer that commits nothing. */
  lemma QuietStep(s: State, w: nat, writer: Writer)
    requires Inv(s) && w < |s.writers| && writer.command == s.writers[w].command
    requires writer.began == s.writers[w].began || !Committed(s, w)
    requires var s' := s.(writers := s.writers[w := writer]); WriterOk(s', w)
    ensures Inv(s.(writers := s.writers[w := writer]))
  {
    var s' := s.(writers := s.writers[w := writer]);
    forall i | 0 <= i < |s.history|
      ensures s.history[i].writer < |s.writers| &&
              s'.writers[s.history[i].writer].began == s.writers[s.history[i].writer].began
    {
      assert CommitOk(s, i);
    }
    HistoryStays(s, s');
    forall u | 0 <= u < |s'.writers| ensures WriterOk(s', u) {
      if u != w { OthersStay(s, s', u); }
    }
  }

  /** What is decided on a read of the file as it stood after `at` commits. */
  lemma DecisionOk(s: State, w: nat, attempt: nat, at: nat, read: Option<Manifest>, branchExists: bool)
    requires w < |s.writers| && !Committed(s, w)
    requires 1 <= attempt <= 5 && s.writers[w].began + attempt - 1 <= at <= |s.history| && FileAt(s, at) == read
    requires !branchExists ==> read == None
    requires branchExists ==> s.remote.Branch?
    ensures WriterOk(SetPhase(s, w, Decide(s.writers[w].command, attempt, at, read, branchExists)), w)
  {
    var p := Decide(s.writers[w].command, attempt, at, read, branchExists);
    var s' := SetPhase(s, w, p);
    assert FileAt(s', at) == read;
    assert !Committed(s', w);
    match p
    case Returned(m) => assert Saw(s', w, Ok(Change(m, false)));
    case Threw(why) => assert why == Refused ==> SawRefused(s', w);
    case _ =>
  }

  lemma CommitStep(s: State, w: nat, p: Phase)
    requires Inv(s) && w < |s.writers| && s.writers[w].phase.Writing?
    requires Accepts(s.remote, s.writers[w].phase)
    requires Apply(Parse(s.writers[w].phase.read), s.writers[w].command).Ok?
    requires var text := Apply(Parse(s.writers[w].phase.read), s.writers[w].command).value.manifest;
             p == Returned(text) || p == Threw(Network)
    ensures var text := Apply(Parse(s.writers[w].phase.read), s.writers[w].command).value.manifest;
            Inv(SetPhase(s.(remote := Branch(Some(text)), history := s.history + [Commit(w, text)]), w, p))
  {
    var text := Apply(Parse(s.writers[w].phase.read), s.writers[w].command).value.manifest;
    var s' := SetPhase(s.(remote := Branch(Some(text)), history := s.history + [Commit(w, text)]), w, p);
    assert WriterOk(s, w);
    HistoryGrows(s, w, text, p);
    assert s'.history[|s.history|] == Commit(w, text);
    forall u | 0 <= u < |s'.writers| ensures WriterOk(s', u) {
      if u != w { OthersStay(s, s', u); }
    }
  }

  lemma StepKeepsInv(s: State, w: nat, e: Event)
    requires Inv(s) && w < |s.writers|
    ensures Inv(Next(s, w, e))
  {
    var c, p := s.writers[w].command, s.writers[w].phase;
    var s' := Next(s, w, e);
    assert WriterOk(s, w);
    if s' == s { return; }
    match p
    case Idle =>
      assert !Committed(s', w);
      QuietStep(s, w, s'.writers[w]);
    case Reading(attempt) =>
      assert FileAt(s, |s.history|) == FileOf(s.remote);
      if e.Answer? && FileOf(s.remote).Some? {
        DecisionOk(s, w, attempt, |s.history|, FileOf(s.remote), true);
      } else {
        assert !Committed(s', w) && FileAt(s', |s.history|) == FileAt(s, |s.history|);
      }
      QuietStep(s, w, s'.writers[w]);
    case Missing(attempt, at) =>
      if e.Answer? || e.ErrorAnswer? { DecisionOk(s, w, attempt, at, None, e.Answer? && s.remote.Branch?); }
      QuietStep(s, w, s'.writers[w]);
    case Writing(attempt, at, read, branchExists) =>
      if (e.Answer? || e.AnswerLost?) && Accepts(s.remote, p) {
        CommitStep(s, w, if e.Answer? then Returned(Apply(Parse(read), c).value.manifest) else Threw(Network));
      } else {
        assert Committed(s', w) <==> Committed(s, w);
        if e.Answer? && branchExists { RejectedMeansChanged(s, w); }
        if e.Answer? && !branchExists { assert at == 0 && s.remote.Branch?; }
        QuietStep(s, w, s'.writers[w]);
      }
    case _ =>
  }

  /** GitHub rejects a write only after another writer committed since the read. */
  lemma RejectedMeansChanged(s: State, w: nat)
    requires Inv(s) && w < |s.writers| && s.writers[w].phase.Writing?
    requires s.writers[w].phase.branchExists && !Accepts(s.remote, s.writers[w].phase)
    ensures s.writers[w].phase.at < |s.history|
  {
    assert WriterOk(s, w);
  }

  lemma BeginOk(initial: Remote, commands: seq<Command>)
    ensures Inv(Begin(initial, commands))
  {
  }

  lemma {:induction false} RunKeepsInv(s: State, moves: seq<Move>)
    requires Inv(s)
    ensures Inv(RunAll(s, moves))
    decreases |moves|
  {
    if moves != [] {
      if moves[0].writer < |s.writers| {
        StepKeepsInv(s, moves[0].writer, moves[0].event);
        RunKeepsInv(Next(s, moves[0].writer, moves[0].event), moves[1..]);
      } else {
        RunKeepsInv(s, moves[1..]);
      }
    }
  }

  lemma {:induction false} RunKeepsCommands(s: State, moves: seq<Move>)
    ensures |RunAll(s, moves).writers| == |s.writers| && RunAll(s, moves).initial == s.initial
    ensures forall w :: 0 <= w < |s.writers| ==> RunAll(s, moves).writers[w].command == s.writers[w].command
    decreases |moves|
  {
    if moves != [] {
      if moves[0].writer < |s.writers| {
        var next := Next(s, moves[0].writer, moves[0].event);
        assert forall w :: 0 <= w < |s.writers| ==> next.writers[w].command == s.writers[w].command;
        RunKeepsCommands(next, moves[1..]);
      } else {
        RunKeepsCommands(s, moves[1..]);
      }
    }
  }

  // ── What every interleaving guarantees ────────────────────────────────

  /** The commands of the writers that committed, in commit order. */
  function Serial(s: State, n: nat): seq<Command>
    requires n <= |s.history| && forall i :: 0 <= i < |s.history| ==> s.history[i].writer < |s.writers|
  {
    if n == 0 then [] else Serial(s, n - 1) + [s.writers[s.history[n - 1].writer].command]
  }

  lemma {:induction false} RunConcat(m: Manifest, cs: seq<Command>, c: Command)
    ensures Run(m, cs + [c]) == Step(Run(m, cs), c)
    decreases |cs|
  {
    if cs == [] {
      assert [] + [c] == [c] && [c][1..] == [];
    } else {
      assert (cs + [c])[1..] == cs[1..] + [c] && (cs + [c])[0] == cs[0];
      RunConcat(Step(m, cs[0]), cs[1..], c);
    }
  }

  lemma {:induction false} HistoryIsSerial(s: State, n: nat)
    requires HistoryOk(s) && n <= |s.history|
    requires forall i :: 0 <= i < |s.history| ==> s.history[i].writer < |s.writers|
    ensures Parse(FileAt(s, n)) == Run(Parse(FileOf(s.initial)), Serial(s, n))
  {
    if n > 0 {
      HistoryIsSerial(s, n - 1);
      assert CommitOk(s, n - 1);
      RunConcat(Parse(FileOf(s.initial)), Serial(s, n - 1), s.writers[s.history[n - 1].writer].command);
    }
  }

  /** No update is lost: in every state of every interleaving the file is what
      running the committed writers' commands one after another gives. Each
      writer commits at most once, and after its call began. */
  lemma NoUpdateIsLost(initial: Remote, commands: seq<Command>, moves: seq<Move>)
    ensures var s := RunAll(Begin(initial, commands), moves);
            && |s.writers| == |commands|
            && (forall i :: 0 <= i < |s.history| ==>
                  s.history[i].writer < |commands| &&
                    s.writers[s.history[i].writer].command == commands[s.history[i].writer]
                  && s.writers[s.history[i].writer].began <= i)
            && Parse(FileOf(s.remote)) == Run(Parse(FileOf(initial)), Serial(s, |s.history|))
            && (forall i, j :: 0 <= i < j < |s.history| ==> s.history[i].writer != s.history[j].writer)
  {
    var s := RunAll(Begin(initial, commands), moves);
    BeginOk(initial, commands);
    RunKeepsInv(Begin(initial, commands), moves);
    RunKeepsCommands(Begin(initial, commands), moves);
    forall i | 0 <= i < |s.history|
      ensures s.history[i].writer < |s.writers| && s.writers[s.history[i].writer].began <= i
    {
      assert CommitOk(s, i);
    }
    HistoryIsSerial(s, |s.history|);
    assert FileAt(s, |s.history|) == FileOf(s.remote);
  }

  /** Every content the file ever has is well formed and accepted by updaters,
      and each one moves forward from every one before it. */
  lemma {:induction false} EveryContentIsSafe(initial: Remote, commands: seq<Command>, moves: seq<Move>, i: nat, j: nat)
    requires WellFormed(Parse(FileOf(initial)))
    requires i <= j <= |RunAll(Begin(initial, commands), moves).history|
    ensures var s := RunAll(Begin(initial, commands), moves);
            && WellFormed(Parse(FileAt(s, j)))
            && (j > 0 ==> Writable(Parse(FileAt(s, j))))
            && MovesForward(Parse(FileAt(s, i)), Parse(FileAt(s, j)))
    decreases j
  {
    var s := RunAll(Begin(initial, commands), moves);
    BeginOk(initial, commands);
    RunKeepsInv(Begin(initial, commands), moves);
    RunKeepsCommands(Begin(initial, commands), moves);
    if j > 0 {
      assert CommitOk(s, j - 1);
      var before, c := Parse(FileAt(s, j - 1)), s.writers[s.history[j - 1].writer].command;
      if i < j {
        EveryContentIsSafe(initial, commands, moves, i, j - 1);
        StepMovesForward(before, c);
        MovesForwardTransitive(Parse(FileAt(s, i)), before, Parse(FileAt(s, j)));
      } else {
        EveryContentIsSafe(initial, commands, moves, j - 1, j - 1);
        RunMovesForward(Parse(FileAt(s, j)), []);
      }
      StepKeepsWellFormed(before, c);
    } else {
      RunMovesForward(Parse(FileAt(s, j)), []);
    }
  }

  /** A call that returns got the result of its command on the file at one
      moment during the call: at its own commit, or, when the command changes
      nothing there, at a moment the file had that content. */
  lemma ReturnsAreAtomic(initial: Remote, commands: seq<Command>, moves: seq<Move>, w: nat)
    requires w < |commands|
    ensures var s := RunAll(Begin(initial, commands), moves);
            |s.writers| == |commands| &&
            forall m :: s.writers[w].phase == Returned(m) ==>
              if Committed(s, w) then
                exists i :: s.writers[w].began <= i < |s.history| && s.history[i] == Commit(w, m)
                            && Apply(Parse(FileAt(s, i)), commands[w]) == Ok(Change(m, true))
              else
                exists k :: s.writers[w].began <= k <= |s.history|
                            && Apply(Parse(FileAt(s, k)), commands[w]) == Ok(Change(m, false))
  {
    var s := RunAll(Begin(initial, commands), moves);
    BeginOk(initial, commands);
    RunKeepsInv(Begin(initial, commands), moves);
    RunKeepsCommands(Begin(initial, commands), moves);
    assert WriterOk(s, w);
    forall m | s.writers[w].phase == Returned(m) && Committed(s, w)
      ensures exists i :: s.writers[w].began <= i < |s.history| && s.history[i] == Commit(w, m)
                          && Apply(Parse(FileAt(s, i)), commands[w]) == Ok(Change(m, true))
    {
      var i :| 0 <= i < |s.history| && s.history[i] == Commit(w, m);
      assert CommitOk(s, i);
    }
  }

  /** A call that throws for a reason of its own left the file alone, and the
      reason is true: its command was refused, or gave a manifest updaters would
      reject, at a moment during the call; there was no file, the command could
      create it, but the branch exists, created by another writer unless GitHub
      failed to answer whether it does; or at least five commits of others came in
      while it tried. Only a lost request or answer or an error of GitHub leaves
      open whether the command took effect. */
  lemma FailuresAreHonest(initial: Remote, commands: seq<Command>, moves: seq<Move>, w: nat)
    requires w < |commands|
    ensures var s := RunAll(Begin(initial, commands), moves);
            |s.writers| == |commands| && s.writers[w].command == commands[w] &&
            (s.writers[w].phase.Threw? && s.writers[w].phase.why != Network ==>
               !Committed(s, w)
               && (s.writers[w].phase.why == Refused ==> SawRefused(s, w))
               && (s.writers[w].phase.why == Unwritable ==> SawUnwritable(s, w))
               && (s.writers[w].phase.why == BranchAppeared ==>
                     FileOf(initial) == None && s.remote.Branch? && Creates(commands[w])
                     && (NoErrors(moves) ==> initial == NoBranch && s.history != []))
               && (s.writers[w].phase.why == GaveUp ==> |s.history| >= s.writers[w].began + 5))
  {
    var s := RunAll(Begin(initial, commands), moves);
    BeginOk(initial, commands);
    RunKeepsInv(Begin(initial, commands), moves);
    RunKeepsCommands(Begin(initial, commands), moves);
    assert WriterOk(s, w);
    if NoErrors(moves) { RunKeepsAnswers(Begin(initial, commands), moves); }
  }

  // ── The race to create the branch ─────────────────────────────────────

  /** No answer of GitHub is an error in this run. */
  predicate NoErrors(moves: seq<Move>) { forall i :: 0 <= i < |moves| ==> !moves[i].event.ErrorAnswer? }

  /** Who found no branch was right. */
  predicate AnswersTrue(s: State) {
    forall w :: 0 <= w < |s.writers| ==>
      && (s.writers[w].phase.Writing? && !s.writers[w].phase.branchExists ==> s.initial == NoBranch)
      && (s.writers[w].phase == Threw(BranchAppeared) ==> s.initial == NoBranch)
  }

  lemma {:induction false} RunKeepsAnswers(s: State, moves: seq<Move>)
    requires Inv(s) && AnswersTrue(s) && NoErrors(moves)
    ensures AnswersTrue(RunAll(s, moves))
    decreases |moves|
  {
    if moves != [] {
      var w := moves[0].writer;
      if w < |s.writers| {
        StepKeepsInv(s, w, moves[0].event);
        assert WriterOk(s, w);
        RunKeepsAnswers(Next(s, w, moves[0].event), moves[1..]);
      } else {
        RunKeepsAnswers(s, moves[1..]);
      }
    }
  }

  lemma {:induction false} RunAllConcat(s: State, a: seq<Move>, b: seq<Move>)
    ensures RunAll(s, a + b) == RunAll(RunAll(s, a), b)
    decreases |a|
  {
    if a == [] {
      assert a + b == b;
    } else {
      assert (a + b)[1..] == a[1..] + b && (a + b)[0] == a[0];
      RunAllConcat(if a[0].writer < |s.writers| then Next(s, a[0].writer, a[0].event) else s, a[1..], b);
    }
  }

  lemma RunOne(s: State, w: nat, e: Event)
    requires w < |s.writers|
    ensures RunAll(s, [Move(w, e)]) == Next(s, w, e)
  {
    assert [Move(w, e)][1..] == [];
  }

  /** A writer that starts while there is no file, and is told whether there is a
      branch or gets an error answer to that. */
  lemma FindsNoFile(s: State, w: nat, answer: Event) returns (moves: seq<Move>)
    requires w < |s.writers| && s.writers[w].phase.Idle? && FileOf(s.remote) == None && Creates(s.writers[w].command)
    requires answer.Answer? || answer.ErrorAnswer?
    ensures var p := Writing(1, |s.history|, None, answer.Answer? && s.remote.Branch?);
            RunAll(s, moves) == s.(writers := s.writers[w := Writer(s.writers[w].command, p, |s.history|)])
    ensures answer.Answer? ==> NoErrors(moves)
  {
    var s1 := Next(s, w, Start);
    var s2 := Next(s1, w, Answer);
    RunOne(s, w, Start);
    RunOne(s1, w, Answer);
    RunOne(s2, w, answer);
    RunAllConcat(s, [Move(w, Start)], [Move(w, Answer)]);
    RunAllConcat(s, [Move(w, Start)] + [Move(w, Answer)], [Move(w, answer)]);
    moves := [Move(w, Start)] + [Move(w, Answer)] + [Move(w, answer)];
  }

  /** A writer throws because the branch appeared. */
  predicate LosesRace(initial: Remote, commands: seq<Command>, moves: seq<Move>) {
    var s := RunAll(Begin(initial, commands), moves);
    exists w :: 0 <= w < |s.writers| && s.writers[w].phase == Threw(BranchAppeared)
  }

  /** Two commands that can write the first manifest. */
  predicate TwoCreate(commands: seq<Command>) {
    exists i, j :: 0 <= i < j < |commands| && Creates(commands[i]) && Creates(commands[j])
  }

  /** A failing case: each of two first writers finds no branch, one creates it,
      and the other throws instead of retrying. */
  lemma CreationRaceFails(commands: seq<Command>, first: nat, second: nat) returns (moves: seq<Move>)
    requires first < |commands| && second < |commands| && first != second
    requires Creates(commands[first]) && Creates(commands[second])
    ensures NoErrors(moves)
    ensures var s := RunAll(Begin(NoBranch, commands), moves);
            && |s.writers| == |commands|
            && s.writers[first].phase.Returned? && s.writers[second].phase == Threw(BranchAppeared)
  {
    var s := Begin(NoBranch, commands);
    var a := FindsNoFile(s, first, Answer);
    var s1 := RunAll(s, a);
    var b := FindsNoFile(s1, second, Answer);
    var s2 := RunAll(s1, b);
    RunAllConcat(s, a, b);
    var s3 := Next(s2, first, Answer);
    RunOne(s2, first, Answer);
    RunOne(s3, second, Answer);
    RunAllConcat(s, a + b, [Move(first, Answer)]);
    RunAllConcat(s, a + b + [Move(first, Answer)], [Move(second, Answer)]);
    moves := a + b + [Move(first, Answer)] + [Move(second, Answer)];
  }

  /** When the branch exists without the file, an error answer about it is enough. */
  lemma ErrorAnswerFails(commands: seq<Command>, w: nat) returns (moves: seq<Move>)
    requires w < |commands| && Creates(commands[w])
    ensures LosesRace(Branch(None), commands, moves)
  {
    var s := Begin(Branch(None), commands);
    var a := FindsNoFile(s, w, ErrorAnswer);
    var s1 := RunAll(s, a);
    RunOne(s1, w, Answer);
    RunAllConcat(s, a, [Move(w, Answer)]);
    moves := a + [Move(w, Answer)];
    assert RunAll(s, moves).writers[w].phase == Threw(BranchAppeared);
  }

  /** A writer that lost the race, and who won it when there was no branch. */
  lemma RaceLost(initial: Remote, commands: seq<Command>, moves: seq<Move>)
    requires LosesRace(initial, commands, moves)
    ensures FileOf(initial) == None && exists i :: 0 <= i < |commands| && Creates(commands[i])
    ensures initial == NoBranch ==> TwoCreate(commands)
    ensures NoErrors(moves) ==> initial == NoBranch
  {
    var s := RunAll(Begin(initial, commands), moves);
    BeginOk(initial, commands);
    RunKeepsInv(Begin(initial, commands), moves);
    RunKeepsCommands(Begin(initial, commands), moves);
    var w :| 0 <= w < |s.writers| && s.writers[w].phase == Threw(BranchAppeared);
    assert WriterOk(s, w) && Creates(commands[w]);
    if NoErrors(moves) { RunKeepsAnswers(Begin(initial, commands), moves); }
    if initial == NoBranch {
      assert CommitOk(s, 0) && FileAt(s, 0) == None;
      var u := s.history[0].writer;
      assert u != w && Creates(commands[u]);
      if u < w { assert TwoCreate(commands); } else { assert Creates(commands[w]) && Creates(commands[u]); }
    }
  }

  /** As long as GitHub answers without errors, some interleaving makes a writer
      throw because the branch appeared exactly when there was none and at least
      two of the commands can write the first manifest. */
  lemma BranchRaceLostIff(initial: Remote, commands: seq<Command>)
    ensures (exists moves :: NoErrors(moves) && LosesRace(initial, commands, moves)) <==>
            initial == NoBranch && TwoCreate(commands)
  {
    forall moves | NoErrors(moves) && LosesRace(initial, commands, moves)
      ensures initial == NoBranch && TwoCreate(commands)
    {
      RaceLost(initial, commands, moves);
    }
    if initial == NoBranch && TwoCreate(commands) {
      var i, j :| 0 <= i < j < |commands| && Creates(commands[i]) && Creates(commands[j]);
      var moves := CreationRaceFails(commands, i, j);
      assert LosesRace(initial, commands, moves);
    }
  }

  /** With errors, a branch without the file and one such command are enough. */
  lemma BranchAppearedIff(initial: Remote, commands: seq<Command>)
    ensures (exists moves :: LosesRace(initial, commands, moves)) <==>
            if initial == NoBranch then TwoCreate(commands)
            else FileOf(initial) == None && exists i :: 0 <= i < |commands| && Creates(commands[i])
  {
    forall moves | LosesRace(initial, commands, moves)
      ensures FileOf(initial) == None && exists i :: 0 <= i < |commands| && Creates(commands[i])
      ensures initial == NoBranch ==> TwoCreate(commands)
    {
      RaceLost(initial, commands, moves);
    }
    if initial == NoBranch {
      BranchRaceLostIff(initial, commands);
    } else if FileOf(initial) == None && exists i :: 0 <= i < |commands| && Creates(commands[i]) {
      var i :| 0 <= i < |commands| && Creates(commands[i]);
      var moves := ErrorAnswerFails(commands, i);
    }
  }

  /** Only publishing a stable release writes a first manifest. */
  lemma CreatesIff(c: Command)
    ensures Creates(c) <==>
            c.Publish? && c.channel == Stable && c.version.Some? && c.version.value.IsRelease() &&
              IsFullCommit(c.commit)
  {
  }

  // ── The loop itself ───────────────────────────────────────────────────

  /** channels.json on its branch, and the commands written to it in order. */
  class ChannelsFile {
    var remote: Remote
    ghost var applied: seq<Command>
    ghost const start: Manifest

    ghost predicate Valid() reads this {
      && Parse(FileOf(remote)) == Run(start, applied)
      && (applied != [] ==> FileOf(remote).Some?)
    }

    constructor (initial: Remote)
      ensures Valid() && remote == initial && applied == [] && start == Parse(FileOf(initial))
    {
      remote, applied, start := initial, [], Parse(FileOf(initial));
    }

    /** One write that GitHub takes. */
    method Write(c: Command, manifest: Manifest)
      requires Valid() && Apply(Run(start, applied), c).Ok? && Apply(Run(start, applied), c).value.manifest == manifest
      modifies this
      ensures Valid() && applied == old(applied) + [c] && remote == Branch(Some(manifest))
    {
      RunConcat(start, applied, c);
      remote, applied := Branch(Some(manifest)), applied + [c];
    }

    /** Other writers' writes between two requests of ours. */
    method Interfere(rivals: seq<Command>)
      requires Valid()
      modifies this
      ensures Valid() && old(applied) <= applied
      ensures applied == old(applied) ==> remote == old(remote)
      ensures old(remote).Branch? ==> remote.Branch?
    {
      for i := 0 to |rivals|
        invariant Valid() && old(applied) <= applied
        invariant applied == old(applied) ==> remote == old(remote)
        invariant old(remote).Branch? ==> remote.Branch?
      {
        var result := Apply(Parse(FileOf(remote)), rivals[i]);
        if result.Ok? && result.value.changed && Writable(result.value.manifest) {
          Write(rivals[i], result.value.manifest);
        }
      }
    }
  }

  /** `updateRemote` for one command, with `rivals(n)` written by others before
      its n-th request, and `fails(n)` telling that GitHub answers that request
      with an error when it asks for the branch. A result is the command's effect
      on the file after the first `k` writes; the command is written at most once,
      exactly when the result says so; giving up means five writes of others came
      in. It throws because the branch appeared only when there was no file at
      first; and, unless GitHub failed, no branch either until another writer
      created it meanwhile. It makes at most fifteen requests. */
  method UpdateRemote(f: ChannelsFile, c: Command, rivals: nat -> seq<Command>, fails: nat -> bool)
    returns (outcome: Phase, request: nat, ghost wrote: bool, ghost k: nat)
    requires f.Valid()
    modifies f
    ensures f.Valid() && old(f.applied) <= f.applied
    ensures |old(f.applied)| <= k <= |f.applied|
    ensures wrote ==> outcome.Returned? && k < |f.applied| && f.applied[k] == c
    ensures outcome.Returned? ==>
              Apply(Run(f.start, f.applied[..k]), c) == Ok(Change(outcome.manifest, wrote))
    ensures outcome.Returned? || outcome.Threw?
    ensures outcome.Threw? && outcome.why == Refused ==> Apply(Run(f.start, f.applied[..k]), c).Err?
    ensures outcome.Threw? && outcome.why == Unwritable ==>
              Apply(Run(f.start, f.applied[..k]), c).Ok? &&
                !Writable(Apply(Run(f.start, f.applied[..k]), c).value.manifest)
    ensures outcome.Threw? && outcome.why == GaveUp ==> |f.applied| >= |old(f.applied)| + 5 && request >= 10
    ensures 1 <= request <= 15
    ensures outcome.Threw? && outcome.why == BranchAppeared ==>
              && FileOf(old(f.remote)) == None && f.remote.Branch? && Creates(c)
              && ((forall n :: !fails(n)) ==> old(f.remote) == NoBranch && old(f.applied) < f.applied)
    ensures outcome.Threw? ==> outcome.why in {Refused, Unwritable, BranchAppeared, GaveUp}
  {
    request, wrote, k := 0, false, |f.applied|;
    for attempt := 1 to 6
      invariant f.Valid() && old(f.applied) <= f.applied && !wrote
      invariant |f.applied| >= |old(f.applied)| + attempt - 1
      invariant f.applied == old(f.applied) ==> f.remote == old(f.remote)
      invariant old(f.remote).Branch? ==> f.remote.Branch?
      invariant |old(f.applied)| <= k <= |f.applied|
      invariant 2 * (attempt - 1) <= request <= 3 * (attempt - 1)
    {
      f.Interfere(rivals(request));
      k := |f.applied|;
      ghost var seen := f.applied;
      assert f.applied[..k] == f.applied;
      var read := FileOf(f.remote);
      var branchExists := f.remote.Branch?;
      request := request + 1;
      if read.None? {
        assert f.applied == [] && FileOf(old(f.remote)) == None;
        f.Interfere(rivals(request));
        branchExists := !fails(request) && f.remote.Branch?;
        request := request + 1;
      }
      assert f.applied[..k] == seen;
      var result := Apply(Parse(read), c);
      if result.Err? { return Threw(Refused), request, false, k; }
      if !result.value.changed { return Returned(result.value.manifest), request, false, k; }
      if !Writable(result.value.manifest) { return Threw(Unwritable), request, false, k; }
      f.Interfere(rivals(request));
      request := request + 1;
      if !branchExists {
        if f.remote != NoBranch { return Threw(BranchAppeared), request, false, k; }
        k := |f.applied|;
        f.Write(c, result.value.manifest);
        assert f.applied[..k] == old(f.applied);
        return Returned(result.value.manifest), request, true, k;
      }
      if f.remote == Branch(read) {
        k := |f.applied|;
        ghost var before := f.applied;
        f.Write(c, result.value.manifest);
        assert f.applied[..k] == before;
        return Returned(result.value.manifest), request, true, k;
      }
    }
    return Threw(GaveUp), request, false, k;
  }
}
