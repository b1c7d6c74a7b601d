/** The release-channel manifest and the commands that change it
    (scripts/release-channels.ts). Versions are held parsed; see `Versions`. */
module Channels {
  import opened Text
  import opened Versions
  import opened Precedence
  import opened BuildVersions

  datatype Channel = Stable | Beta

  /** A signed Desktop build published with a beta prerelease. */
  datatype DesktopBuild = DesktopBuild(version: Version, tag: Version, commit: string, publishedAt: string)

  datatype ChannelRecord = ChannelRecord(
    version: Version, tag: Version, commit: string, publishedAt: string,
    held: bool, desktop: Option<DesktopBuild>)

  datatype Manifest = Manifest(channels: map<Channel, ChannelRecord>)

  /** The new manifest, and whether it differs from the old one. */
  datatype Change = Change(manifest: Manifest, changed: bool)

  const EMPTY := Manifest(map[])

  // ── Commands ──────────────────────────────────────────────────────────

  /** What a command line asks for. A version argument is kept as `ParseVersion`
      reads it: none when it is not a version. */
  datatype Command =
    | Publish(channel: Channel, version: Option<Version>, commit: string, publishedAt: string)
    | PublishDesktop(version: Option<Version>, commit: string, publishedAt: string)
    | SetHeld(channel: Channel, held: bool)

  function Current(m: Manifest, channel: Channel): Option<ChannelRecord> {
    if channel in m.channels then Some(m.channels[channel]) else None
  }

  function PublishChannel(m: Manifest, channel: Channel, version: Version, commit: string, at: string): Result<Change> {
    if channel == Stable && !version.IsRelease() then Err("Stable takes a release version")
    else if !IsFullCommit(commit) then Err("publish needs the full source commit")
    else
      var current := Current(m, channel);
      if channel == Beta && current.Some? && Compare(current.value.version, version) >= 0 then Ok(Change(m, false))
      else
        var held := channel == Beta && current.Some? && current.value.held;
        var desktop := if channel == Beta && current.Some? then current.value.desktop else None;
        var record := ChannelRecord(version, version.Tag(), commit, at, held, desktop);
        Ok(Change(Manifest(m.channels[channel := record]), true))
  }

  function RecordDesktop(m: Manifest, version: Version, commit: string, at: string): Result<Change> {
    if !IsFullCommit(commit) then Err("publish-desktop needs the full source commit")
    else if !IsDevBuildOf(version, commit) then Err("A Desktop beta is a dev build of its full source commit")
    else if Beta !in m.channels then Err("The beta channel has no build yet")
    else
      var beta := m.channels[Beta];
      var order := Compare(version, beta.version);
      if order > 0 || (order == 0 && (version != beta.version || commit != beta.commit)) then
        Err("Beta has not offered this version of this commit")
      else if beta.desktop.Some? && Compare(beta.desktop.value.version, version) >= 0 then Ok(Change(m, false))
      else
        var desktop := DesktopBuild(version, version.Tag(), commit, at);
        Ok(Change(Manifest(m.channels[Beta := beta.(desktop := Some(desktop))]), true))
  }

  function HoldChannel(m: Manifest, channel: Channel, held: bool): Result<Change> {
    if channel !in m.channels then Err("The channel has no release yet")
    else if m.channels[channel].held == held then Ok(Change(m, false))
    else Ok(Change(Manifest(m.channels[channel := m.channels[channel].(held := held)]), true))
  }

  function Apply(m: Manifest, c: Command): Result<Change> {
    match c
    case Publish(channel, version, commit, at) =>
      if version.None? then Err("Not a version") else PublishChannel(m, channel, version.value, commit, at)
    case PublishDesktop(version, commit, at) =>
      if version.None? then Err("Not a version") else RecordDesktop(m, version.value, commit, at)
    case SetHeld(channel, held) => HoldChannel(m, channel, held)
  }

  /** A command that throws leaves the manifest as it was. */
  function Step(m: Manifest, c: Command): Manifest {
    match Apply(m, c) case Ok(change) => change.manifest case Err(_) => m
  }

  function Run(m: Manifest, cs: seq<Command>): Manifest
    decreases |cs|
  {
    if cs == [] then m else Run(Step(m, cs[0]), cs[1..])
  }

  datatype Decision = Due(version: Version, tag: Version, commit: string) | NotDue

  function DesktopBuildDue(m: Manifest, now: int, lastAttempt: Option<int>, minInterval: int, force: bool): Decision {
    if Beta !in m.channels then NotDue
    else
      var beta := m.channels[Beta];
      if beta.held then NotDue
      else if beta.desktop.Some? && Compare(beta.desktop.value.version, beta.version) >= 0 then NotDue
      else if !force && lastAttempt.Some? && now - lastAttempt.value < minInterval then NotDue
      else Due(beta.version, beta.tag, beta.commit)
  }

  // ── What updaters are offered ─────────────────────────────────────────

  datatype ChannelTarget = ChannelTarget(version: Option<Version>, held: bool)

  /** `resolveChannelTarget`: none when updaters would reject the manifest. */
  function ResolveChannelTarget(m: Manifest, channel: Channel): Option<ChannelTarget> {
    if Stable !in m.channels then None
    else
      var stable := m.channels[Stable];
      var beta := Current(m, Beta);
      var followed := if channel == Beta && beta.Some? then beta.value else stable;
      var offersBeta := channel == Beta && beta.Some? && !beta.value.held;
      var version :=
        if offersBeta && !stable.held then
          Some(if Compare(stable.version, beta.value.version) > 0 then stable.version else beta.value.version)
        else if offersBeta then Some(beta.value.version)
        else if !stable.held then Some(stable.version)
        else None;
      Some(ChannelTarget(version, followed.held))
  }

  /** `serializeManifest` refuses a manifest updaters would reject. */
  predicate Writable(m: Manifest) { ResolveChannelTarget(m, Stable).Some? }

  /** The records an install on `channel` may move to. */
  predicate Offers(m: Manifest, channel: Channel, entry: Channel) {
    entry in m.channels && !m.channels[entry].held && (entry == Stable || channel == Beta)
  }

  /** An install is offered the newest version no hold covers: never a held one,
      and nothing exactly when every record it follows is held. Whether it is told
      of a hold depends on its own channel's record, stable's when there is none. */
  lemma OffersNewestUnheld(m: Manifest, channel: Channel)
    requires Writable(m)
    ensures ResolveChannelTarget(m, channel).Some?
    ensures var t := ResolveChannelTarget(m, channel).value;
            && (t.version.Some? ==>
                  && (exists e :: Offers(m, channel, e) && m.channels[e].version == t.version.value)
                  && (forall e :: Offers(m, channel, e) ==> Compare(m.channels[e].version, t.version.value) <= 0))
            && (t.version.None? <==> forall e :: !Offers(m, channel, e))
            && (channel in m.channels ==> t.held == m.channels[channel].held)
            && (channel !in m.channels ==> t.held == m.channels[Stable].held)
  {
    var t := ResolveChannelTarget(m, channel).value;
    if Stable in m.channels && Beta in m.channels {
      CompareAntisymmetric(m.channels[Stable].version, m.channels[Beta].version);
      CompareAntisymmetric(m.channels[Beta].version, m.channels[Beta].version);
    }
    CompareAntisymmetric(m.channels[Stable].version, m.channels[Stable].version);
    assert Offers(m, channel, Stable) <==> !m.channels[Stable].held;
    assert Offers(m, channel, Beta) <==> channel == Beta && Beta in m.channels && !m.channels[Beta].held;
  }

  // ── The invariant of every reachable manifest ─────────────────────────

  predicate DesktopFits(d: DesktopBuild, beta: ChannelRecord) {
    && d.tag == d.version.Tag() && IsFullCommit(d.commit) && IsDevBuildOf(d.version, d.commit)
    && Compare(d.version, beta.version) <= 0
    && (Compare(d.version, beta.version) == 0 ==> d.version == beta.version && d.commit == beta.commit)
  }

  predicate RecordFits(r: ChannelRecord) { r.tag == r.version.Tag() && IsFullCommit(r.commit) }

  /** Records carry the tag of their version and a full commit; stable is a
      release without a Desktop build; beta's Desktop build is a dev build of its
      commit, never newer than beta, and of beta's build when it ties with it. */
  predicate WellFormed(m: Manifest) {
    && (Stable in m.channels ==>
          RecordFits(m.channels[Stable]) && m.channels[Stable].version.IsRelease() && m.channels[Stable].desktop.None?)
    && (Beta in m.channels ==>
          RecordFits(m.channels[Beta])
          && (m.channels[Beta].desktop.Some? ==> DesktopFits(m.channels[Beta].desktop.value, m.channels[Beta])))
  }

  lemma StepKeepsWellFormed(m: Manifest, c: Command)
    requires WellFormed(m)
    ensures WellFormed(Step(m, c))
  {
    if c.Publish? && c.channel == Beta && c.version.Some? && Beta in m.channels && m.channels[Beta].desktop.Some? {
      var d, b := m.channels[Beta].desktop.value.version, m.channels[Beta].version;
      if Compare(b, c.version.value) < 0 { CompareTransitive(d, b, c.version.value); }
    }
  }

  lemma {:induction false} RunKeepsWellFormed(m: Manifest, cs: seq<Command>)
    requires WellFormed(m)
    ensures WellFormed(Run(m, cs))
    decreases |cs|
  {
    if cs != [] {
      StepKeepsWellFormed(m, cs[0]);
      RunKeepsWellFormed(Step(m, cs[0]), cs[1..]);
    }
  }

  // ── Nothing moves backwards ───────────────────────────────────────────

  predicate DesktopMovesForward(d: Option<DesktopBuild>, d': Option<DesktopBuild>) {
    d.Some? ==>
      && d'.Some? && Compare(d.value.version, d'.value.version) <= 0
      && (Compare(d.value.version, d'.value.version) == 0 ==> d == d')
  }

  /** `b'` is the build of `b` or a strictly newer one, and likewise for their
      Desktop builds. */
  predicate BetaMovesForward(b: ChannelRecord, b': ChannelRecord) {
    && Compare(b.version, b'.version) <= 0
    && (Compare(b.version, b'.version) == 0 ==>
          b'.version == b.version && b'.tag == b.tag && b'.commit == b.commit && b'.publishedAt == b.publishedAt)
    && DesktopMovesForward(b.desktop, b'.desktop)
  }

  predicate MovesForward(m: Manifest, m': Manifest) {
    && m.channels.Keys <= m'.channels.Keys
    && (Beta in m.channels ==> BetaMovesForward(m.channels[Beta], m'.channels[Beta]))
  }

  lemma StepMovesForward(m: Manifest, c: Command)
    ensures MovesForward(m, Step(m, c))
  {
    if Beta in m.channels {
      var b, b' := m.channels[Beta], Step(m, c).channels[Beta];
      CompareAntisymmetric(b.version, b.version);
      if b.desktop.Some? { CompareAntisymmetric(b.desktop.value.version, b.desktop.value.version); }
    }
  }

  lemma MovesForwardTransitive(a: Manifest, b: Manifest, c: Manifest)
    requires MovesForward(a, b) && MovesForward(b, c)
    ensures MovesForward(a, c)
  {
    if Beta in a.channels {
      var x, y, z := a.channels[Beta], b.channels[Beta], c.channels[Beta];
      CompareTransitive(x.version, y.version, z.version);
      if x.desktop.Some? {
        CompareTransitive(x.desktop.value.version, y.desktop.value.version, z.desktop.value.version);
      }
    }
  }

  /** Along any run no channel disappears, beta and its Desktop build never get
      an older build, and never swap to another build of the same precedence. */
  lemma {:induction false} RunMovesForward(m: Manifest, cs: seq<Command>)
    ensures MovesForward(m, Run(m, cs))
    decreases |cs|
  {
    if cs == [] {
      StepMovesForward(m, Publish(Beta, None, "", ""));
    } else {
      StepMovesForward(m, cs[0]);
      RunMovesForward(Step(m, cs[0]), cs[1..]);
      MovesForwardTransitive(m, Step(m, cs[0]), Run(m, cs));
    }
  }

  // ── Stable is what was last published to it ───────────────────────────

  /** A stable publication that is accepted. */
  predicate PublishesStable(c: Command) {
    c.Publish? && c.channel == Stable && c.version.Some? && c.version.value.IsRelease() && IsFullCommit(c.commit)
  }

  /** The build that a record names. */
  predicate Names(r: ChannelRecord, version: Version, commit: string, at: string) {
    r.version == version && r.tag == version.Tag() && r.commit == commit && r.publishedAt == at
  }

  /** The last accepted stable publication of a run, if any. */
  predicate LastStable(cs: seq<Command>, k: int) {
    && -1 <= k < |cs| && (k >= 0 ==> PublishesStable(cs[k]))
    && forall i :: k < i < |cs| ==> !PublishesStable(cs[i])
  }

  /** Stable as it was, but for its hold. */
  predicate SameStable(m: Manifest, m': Manifest) {
    && (Stable in m'.channels <==> Stable in m.channels)
    && (Stable in m.channels ==> m'.channels[Stable].(held := false) == m.channels[Stable].(held := false))
  }

  /** Over any run stable names exactly the build of the last stable publication
      that was accepted, without a Desktop build, or what it named before when
      there was none: no other command, and none that fails, changes it. */
  lemma {:induction false} StableIsTheLastPublished(m: Manifest, cs: seq<Command>, k: int)
    requires LastStable(cs, k)
    ensures k >= 0 ==>
              && Stable in Run(m, cs).channels
              && Names(Run(m, cs).channels[Stable], cs[k].version.value, cs[k].commit, cs[k].publishedAt)
              && Run(m, cs).channels[Stable].desktop.None?
    ensures k == -1 ==> SameStable(m, Run(m, cs))
    decreases |cs|
  {
    if cs != [] {
      var next := Step(m, cs[0]);
      forall i | 0 <= i < |cs[1..]| ensures cs[1..][i] == cs[i + 1] { }
      if k == 0 {
        assert LastStable(cs[1..], -1);
        StableIsTheLastPublished(next, cs[1..], -1);
      } else {
        if k == -1 { assert !PublishesStable(cs[0]) && SameStable(m, next); }
        var rest := if k == -1 then -1 else k - 1;
        assert LastStable(cs[1..], rest);
        StableIsTheLastPublished(next, cs[1..], rest);
      }
    }
  }

  /** The channel that a command is about. */
  function Target(c: Command): Channel {
    match c
    case Publish(channel, _, _, _) => channel
    case PublishDesktop(_, _, _) => Beta
    case SetHeld(channel, _) => channel
  }

  /** A command leaves the record of the other channel as it was, whole. A result
      that reports no change is the manifest as it was; one that reports a change
      differs, unless it publishes the stable build there already is. */
  lemma OtherChannelStays(m: Manifest, c: Command, other: Channel)
    requires other != Target(c)
    ensures Current(Step(m, c), other) == Current(m, other)
    ensures forall change :: Apply(m, c) == Ok(change) ==>
              && (!change.changed ==> change.manifest == m)
              && (change.changed ==> change.manifest != m || PublishesStable(c))
  {
    if c.Publish? && c.channel == Beta && Beta in m.channels {
      CompareAntisymmetric(m.channels[Beta].version, m.channels[Beta].version);
    }
    if Beta in m.channels && m.channels[Beta].desktop.Some? {
      var d := m.channels[Beta].desktop.value.version;
      CompareAntisymmetric(d, d);
    }
  }

  // ── Holds ─────────────────────────────────────────────────────────────

  /** What one command asks of `channel`'s hold: `hold` and `release` set it, a
      stable publish that is accepted clears stable's. */
  predicate HeldAfter(channel: Channel, c: Command, held: bool) {
    match c
    case SetHeld(ch, h) => if ch == channel then h else held
    case Publish(_, _, _, _) => held && !(channel == Stable && PublishesStable(c))
    case PublishDesktop(_, _, _) => held
  }

  predicate HeldAfterAll(channel: Channel, cs: seq<Command>, held: bool) {
    if cs == [] then held else HeldAfterAll(channel, cs[1..], HeldAfter(channel, cs[0], held))
  }

  /** Over any run a channel's hold is what the last command about it asked for:
      new betas and Desktop builds never change a hold. */
  lemma {:induction false} HoldIsTheLastWord(m: Manifest, channel: Channel, cs: seq<Command>)
    requires channel in m.channels
    ensures channel in Run(m, cs).channels
    ensures Run(m, cs).channels[channel].held == HeldAfterAll(channel, cs, m.channels[channel].held)
    decreases |cs|
  {
    if cs != [] {
      var next := Step(m, cs[0]);
      assert channel in next.channels &&
             next.channels[channel].held == HeldAfter(channel, cs[0], m.channels[channel].held);
      HoldIsTheLastWord(next, channel, cs[1..]);
    }
  }

  // ── A Desktop decision survives interference ──────────────────────────

  /** After a decision that a Desktop build of (version, commit) is due, whatever
      commands run before the build is published, publishing it is accepted
      exactly when the beta was a dev build of its commit; and then beta names a
      Desktop build of at least that precedence. */
  lemma DueSurvives(
      m: Manifest, now: int, last: Option<int>, minInterval: int, force: bool, cs: seq<Command>, at: string)
    requires WellFormed(m) && DesktopBuildDue(m, now, last, minInterval, force).Due?
    ensures var due := DesktopBuildDue(m, now, last, minInterval, force);
            var r := Apply(Run(m, cs), PublishDesktop(Some(due.version), due.commit, at));
            && (r.Ok? <==> IsDevBuildOf(due.version, due.commit))
            && (r.Ok? ==>
                  && Beta in r.value.manifest.channels
                  && r.value.manifest.channels[Beta].desktop.Some?
                  && Compare(due.version, r.value.manifest.channels[Beta].desktop.value.version) <= 0)
  {
    var due := DesktopBuildDue(m, now, last, minInterval, force);
    RunMovesForward(m, cs);
    var beta := Run(m, cs).channels[Beta];
    CompareAntisymmetric(due.version, due.version);
    if beta.desktop.Some? { CompareAntisymmetric(due.version, beta.desktop.value.version); }
  }

  /** Without interference the publication changes the manifest, records exactly
      the decided build, and no further build is due for this beta. */
  lemma DueIsSettled(m: Manifest, now: int, last: Option<int>, minInterval: int, force: bool, at: string)
    requires WellFormed(m) && DesktopBuildDue(m, now, last, minInterval, force).Due?
    requires IsDevBuildOf(m.channels[Beta].version, m.channels[Beta].commit)
    ensures var due := DesktopBuildDue(m, now, last, minInterval, force);
            var r := Apply(m, PublishDesktop(Some(due.version), due.commit, at));
            && r.Ok? && r.value.changed
            && r.value.manifest.channels ==
               m.channels[Beta := m.channels[Beta].(
                 desktop := Some(DesktopBuild(due.version, due.tag, due.commit, at)))]
            && forall n, l, i, f :: DesktopBuildDue(r.value.manifest, n, l, i, f).NotDue?
  {
    CompareAntisymmetric(m.channels[Beta].version, m.channels[Beta].version);
  }

  /** A build is due exactly when beta names one, is not held and has no Desktop
      build as new, and there was no attempt within the interval, or it is forced;
      then it is beta's own build. */
  lemma DueIff(m: Manifest, now: int, last: Option<int>, minInterval: int, force: bool)
    ensures var due := DesktopBuildDue(m, now, last, minInterval, force);
            && (due.Due? <==>
                  && Beta in m.channels && !m.channels[Beta].held
                  && (forall d :: m.channels[Beta].desktop == Some(d) ==>
                        Compare(d.version, m.channels[Beta].version) < 0)
                  && (force || forall at :: last == Some(at) ==> now >= at + minInterval))
            && (due.Due? ==>
                  && due.version == m.channels[Beta].version && due.tag == m.channels[Beta].tag
                  && due.commit == m.channels[Beta].commit)
  {
  }

  /** Once due, a build of beta is due at any later time, until beta is held or
      gets a Desktop build. */
  lemma DueStays(m: Manifest, now: int, later: int, last: Option<int>, minInterval: int, force: bool, cs: seq<Command>)
    requires DesktopBuildDue(m, now, last, minInterval, force).Due? && now <= later
    requires !HeldAfterAll(Beta, cs, false) && forall i :: 0 <= i < |cs| ==> !cs[i].PublishDesktop?
    ensures DesktopBuildDue(Run(m, cs), later, last, minInterval, force).Due?
  {
    HoldIsTheLastWord(m, Beta, cs);
    DesktopStays(m, cs);
    RunMovesForward(m, cs);
    var before, after := m.channels[Beta], Run(m, cs).channels[Beta];
    if before.desktop.Some? { CompareTransitive(before.desktop.value.version, before.version, after.version); }
  }

  lemma {:induction false} DesktopStays(m: Manifest, cs: seq<Command>)
    requires Beta in m.channels && forall i :: 0 <= i < |cs| ==> !cs[i].PublishDesktop?
    ensures Beta in Run(m, cs).channels && Run(m, cs).channels[Beta].desktop == m.channels[Beta].desktop
    decreases |cs|
  {
    if cs != [] {
      forall i | 0 <= i < |cs[1..]| ensures !cs[1..][i].PublishDesktop? { assert cs[1..][i] == cs[i + 1]; }
      assert !cs[0].PublishDesktop?;
      DesktopStays(Step(m, cs[0]), cs[1..]);
    }
  }

  // ── Publication is confluent ──────────────────────────────────────────

  /** A beta build waiting to be published. */
  datatype Candidate = Candidate(version: Version, commit: string, publishedAt: string)

  predicate AllFullCommits(builds: seq<Candidate>) {
    forall i :: 0 <= i < |builds| ==> IsFullCommit(builds[i].commit)
  }

  function PublishAll(m: Manifest, builds: seq<Candidate>): Manifest
    decreases |builds|
  {
    if builds == [] then m
    else PublishAll(Step(m, Publish(Beta, Some(builds[0].version), builds[0].commit, builds[0].publishedAt)),
      builds[1..])
  }

  predicate IsBuild(r: ChannelRecord, b: Candidate) {
    r.version == b.version && r.tag == b.version.Tag() && r.commit == b.commit && r.publishedAt == b.publishedAt
  }

  function AsCandidate(r: ChannelRecord): Candidate { Candidate(r.version, r.commit, r.publishedAt) }

  /** Publishing builds leaves beta at a build none of them is newer than: one
      of them or the one it had. Hold, Desktop build and stable stay. */
  lemma {:induction false} PublishAllReachesNewest(m: Manifest, builds: seq<Candidate>)
    requires AllFullCommits(builds) && (Beta in m.channels ==> RecordFits(m.channels[Beta]))
    ensures var m' := PublishAll(m, builds);
            && (Beta in m'.channels <==> Beta in m.channels || builds != [])
            && m'.channels - {Beta} == m.channels - {Beta}
            && (Beta in m'.channels ==>
                  && (forall b :: b in builds ==> Compare(b.version, m'.channels[Beta].version) <= 0)
                  && (Beta in m.channels ==> Compare(m.channels[Beta].version, m'.channels[Beta].version) <= 0)
                  && ((Beta in m.channels && m'.channels[Beta] == m.channels[Beta])
                      || exists b :: b in builds && IsBuild(m'.channels[Beta], b))
                  && m'.channels[Beta].held == (Beta in m.channels && m.channels[Beta].held)
                  && m'.channels[Beta].desktop == if Beta in m.channels then m.channels[Beta].desktop else None)
    decreases |builds|
  {
    if builds == [] {
      if Beta in m.channels { CompareAntisymmetric(m.channels[Beta].version, m.channels[Beta].version); }
    } else {
      var b := builds[0];
      var next := Step(m, Publish(Beta, Some(b.version), b.commit, b.publishedAt));
      var m' := PublishAll(m, builds);
      if Beta in m.channels {
        CompareAntisymmetric(m.channels[Beta].version, b.version);
        CompareAntisymmetric(m.channels[Beta].version, m.channels[Beta].version);
      }
      CompareAntisymmetric(b.version, b.version);
      PublishAllReachesNewest(next, builds[1..]);
      CompareTransitive(b.version, next.channels[Beta].version, m'.channels[Beta].version);
      if Beta in m.channels {
        CompareTransitive(m.channels[Beta].version, next.channels[Beta].version, m'.channels[Beta].version);
      }
      assert builds == [b] + builds[1..];
      if m'.channels[Beta] == next.channels[Beta] && next != m { assert IsBuild(m'.channels[Beta], b); }
    }
  }

  function Elements(builds: seq<Candidate>): set<Candidate> { set b | b in builds }

  /** The builds a publication chooses from: the ones published and the one
      beta already has. */
  function Pool(m: Manifest, builds: seq<Candidate>): set<Candidate> {
    Elements(builds) + if Beta in m.channels then {AsCandidate(m.channels[Beta])} else {}
  }

  /** Nothing in the pool is newer than `b`. */
  predicate NewestIn(b: Candidate, pool: set<Candidate>) {
    b in pool && forall c :: c in pool ==> Compare(c.version, b.version) <= 0
  }

  /** Builds of one precedence are one build. */
  predicate TiesAgree(builds: set<Candidate>) {
    forall a, b :: a in builds && b in builds && Compare(a.version, b.version) == 0 ==> a == b
  }

  lemma PublishAllPicksNewest(m: Manifest, builds: seq<Candidate>)
    requires AllFullCommits(builds) && (Beta in m.channels ==> RecordFits(m.channels[Beta]))
    requires Pool(m, builds) != {}
    ensures Beta in PublishAll(m, builds).channels
    ensures var beta := PublishAll(m, builds).channels[Beta];
            && NewestIn(AsCandidate(beta), Pool(m, builds)) && RecordFits(beta)
            && beta.held == (Beta in m.channels && m.channels[Beta].held)
            && beta.desktop == if Beta in m.channels then m.channels[Beta].desktop else None
    ensures PublishAll(m, builds).channels - {Beta} == m.channels - {Beta}
  {
    PublishAllReachesNewest(m, builds);
    var beta := PublishAll(m, builds).channels[Beta];
    if !(Beta in m.channels && beta == m.channels[Beta]) {
      var b :| b in builds && IsBuild(beta, b);
      assert AsCandidate(beta) == b;
    }
  }

  lemma NewestIsUnique(p: Candidate, q: Candidate, pool: set<Candidate>)
    requires NewestIn(p, pool) && NewestIn(q, pool)
    ensures p.version.Tag() == q.version.Tag()
    ensures TiesAgree(pool) ==> p == q
  {
    CompareAntisymmetric(p.version, q.version);
  }

  /** In whatever order a set of builds is published, and however often, beta
      ends under the same release tag; and the manifest is the same one when
      builds that tie are the same build. */
  lemma {:induction false} PublicationIsConfluent(m: Manifest, first: seq<Candidate>, second: seq<Candidate>)
    requires AllFullCommits(first) && AllFullCommits(second) && Elements(first) == Elements(second)
    requires Beta in m.channels ==> RecordFits(m.channels[Beta])
    requires Pool(m, first) != {}
    ensures var x, y := PublishAll(m, first), PublishAll(m, second);
            && Beta in x.channels && Beta in y.channels
            && x.channels[Beta].version.Tag() == y.channels[Beta].version.Tag()
            && (TiesAgree(Pool(m, first)) ==> x == y)
  {
    var x, y := PublishAll(m, first), PublishAll(m, second);
    PublishAllPicksNewest(m, first);
    PublishAllPicksNewest(m, second);
    NewestIsUnique(AsCandidate(x.channels[Beta]), AsCandidate(y.channels[Beta]), Pool(m, first));
    if TiesAgree(Pool(m, first)) {
      SameManifest(x, y);
    }
  }

  lemma SameManifest(x: Manifest, y: Manifest)
    requires Beta in x.channels && Beta in y.channels && x.channels[Beta] == y.channels[Beta]
    requires x.channels - {Beta} == y.channels - {Beta}
    ensures x == y
  {
    assert x.channels == (x.channels - {Beta})[Beta := x.channels[Beta]];
    assert y.channels == (y.channels - {Beta})[Beta := y.channels[Beta]];
  }

  // ── The newest commit of main wins ────────────────────────────────────

  /** Builds of successive commits of main. */
  ghost predicate MainHistory(history: seq<Build>) {
    && (forall i :: 0 <= i < |history| ==> DevVersion(history[i]).Ok?)
    && (forall i, j :: 0 <= i < j < |history| ==> LaterOnMain(history[i], history[j]))
  }

  /** A command publishes the build of a commit to beta. */
  predicate Publishes(c: Command, b: Build) {
    DevVersion(b).Ok? && c.Publish? && c.channel == Beta && c.version == Some(Dev(b)) && c.commit == b.commit
  }

  predicate PublishesSome(c: Command, history: seq<Build>) {
    exists i :: 0 <= i < |history| && Publishes(c, history[i])
  }

  /** Only builds of main are published to beta. */
  predicate BetaFromMain(history: seq<Build>, cs: seq<Command>) {
    forall k :: 0 <= k < |cs| && cs[k].Publish? && cs[k].channel == Beta ==> PublishesSome(cs[k], history)
  }

  predicate Published(history: seq<Build>, cs: seq<Command>, i: int) {
    0 <= i < |history| && exists k :: 0 <= k < |cs| && Publishes(cs[k], history[i])
  }

  /** Beta names the build at `best`, or nothing when that is -1. */
  predicate BetaIs(m: Manifest, history: seq<Build>, best: int) {
    if best == -1 then Beta !in m.channels
    else
      && 0 <= best < |history| && DevVersion(history[best]).Ok? && Beta in m.channels
      && m.channels[Beta].version == Dev(history[best]) && m.channels[Beta].commit == history[best].commit
      && m.channels[Beta].tag == Dev(history[best]).Tag()
  }

  lemma OnlyBuild(history: seq<Build>, c: Command, i: nat, j: nat)
    requires MainHistory(history) && i < |history| && j < |history| && Publishes(c, history[i]) &&
             Publishes(c, history[j])
    ensures i == j
  {
    if i < j { OlderCommitIsOlder(history, i, j); }
    if j < i { OlderCommitIsOlder(history, j, i); }
    CompareAntisymmetric(Dev(history[i]), Dev(history[i]));
  }

  lemma OthersKeepBeta(m: Manifest, history: seq<Build>, c: Command, best: int)
    requires BetaIs(m, history, best) && !(c.Publish? && c.channel == Beta)
    ensures BetaIs(Step(m, c), history, best)
  {
  }

  /** One command moves beta to the build it publishes when that is a later one. */
  lemma StepTakesNewer(m: Manifest, history: seq<Build>, c: Command, best: int) returns (next: int)
    requires MainHistory(history) && BetaIs(m, history, best)
    requires c.Publish? && c.channel == Beta ==> PublishesSome(c, history)
    ensures BetaIs(Step(m, c), history, next) && next >= best
    ensures next == best || (0 <= next < |history| && Publishes(c, history[next]))
    ensures forall i :: 0 <= i < |history| && Publishes(c, history[i]) ==> i <= next
  {
    next := best;
    if c.Publish? && c.channel == Beta {
      var i :| 0 <= i < |history| && Publishes(c, history[i]);
      forall j | 0 <= j < |history| && Publishes(c, history[j]) ensures j == i { OnlyBuild(history, c, i, j); }
      if best < i {
        if best >= 0 { OlderCommitIsOlder(history, best, i); }
        next := i;
      } else {
        OlderCommitIsOlder(history, i, best);
        CompareAntisymmetric(Dev(history[best]), Dev(history[i]));
      }
    } else {
      OthersKeepBeta(m, history, c, best);
    }
  }

  lemma PublishedFirst(history: seq<Build>, cs: seq<Command>, i: int)
    requires cs != []
    ensures Published(history, cs, i) <==>
            (0 <= i < |history| && Publishes(cs[0], history[i])) || Published(history, cs[1..], i)
  {
    if Published(history, cs, i) {
      var k :| 0 <= k < |cs| && Publishes(cs[k], history[i]);
      if k > 0 { assert cs[1..][k - 1] == cs[k]; }
    }
    if Published(history, cs[1..], i) {
      var k :| 0 <= k < |cs[1..]| && Publishes(cs[1..][k], history[i]);
      assert cs[k + 1] == cs[1..][k];
    }
  }

  lemma RestFromMain(history: seq<Build>, cs: seq<Command>)
    requires cs != [] && BetaFromMain(history, cs)
    ensures BetaFromMain(history, cs[1..]) &&
            (cs[0].Publish? && cs[0].channel == Beta ==> PublishesSome(cs[0], history))
  {
    forall k | 0 <= k < |cs[1..]| && cs[1..][k].Publish? && cs[1..][k].channel == Beta
      ensures PublishesSome(cs[1..][k], history)
    {
      assert cs[1..][k] == cs[k + 1];
    }
  }

  lemma {:induction false} RunTakesNewest(
      m: Manifest, history: seq<Build>, cs: seq<Command>, best: int) returns (newest: int)
    requires MainHistory(history) && BetaFromMain(history, cs) && BetaIs(m, history, best)
    ensures BetaIs(Run(m, cs), history, newest) && newest >= best
    ensures newest == best || Published(history, cs, newest)
    ensures forall i :: Published(history, cs, i) ==> i <= newest
    decreases |cs|
  {
    newest := best;
    if cs != [] {
      RestFromMain(history, cs);
      var next := StepTakesNewer(m, history, cs[0], best);
      newest := RunTakesNewest(Step(m, cs[0]), history, cs[1..], next);
      PublishedFirst(history, cs, newest);
      forall i | Published(history, cs, i) ensures i <= newest { PublishedFirst(history, cs, i); }
    }
  }

  /** However builds of main are published, in any order and as often as it may
      be, with any holds, releases and Desktop builds in between, beta ends at the
      build of the newest commit among them. */
  lemma NewestCommitWins(m: Manifest, history: seq<Build>, cs: seq<Command>, newest: nat)
    requires Beta !in m.channels && MainHistory(history) && BetaFromMain(history, cs)
    requires Published(history, cs, newest) && forall i :: Published(history, cs, i) ==> i <= newest
    ensures BetaIs(Run(m, cs), history, newest)
  {
    var last := RunTakesNewest(m, history, cs, -1);
  }

  lemma OlderCommitIsOlder(history: seq<Build>, i: nat, j: nat)
    requires MainHistory(history) && i <= j < |history|
    ensures i == j || Compare(Dev(history[i]), Dev(history[j])) < 0
  {
    if i < j { LaterBuildIsNewer(history[i], history[j]); }
  }
}
