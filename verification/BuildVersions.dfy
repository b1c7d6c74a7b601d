/** The version stamped into a build (scripts/release-version.ts). */
module BuildVersions {
  import opened Text
  import opened Versions
  import opened Precedence

  // ── The patterns ──────────────────────────────────────────────────────

  /** The pattern `^(\d+)\.(\d+)\.(\d+)$` on a text already split at its dots. */
  predicate ThreeNumbers(parts: seq<string>) {
    && |parts| == 3
    && parts[0] != "" && Digits(parts[0])
    && parts[1] != "" && Digits(parts[1])
    && parts[2] != "" && Digits(parts[2])
  }

  predicate IsReleaseVersion(version: string) { ThreeNumbers(Split(version, '.')) }

  /** The pattern `^[0-9a-f]{40}$`. */
  predicate IsFullCommit(commit: string) { |commit| == 40 && AllHex(commit) }

  /** `X.Y.Z-dev.N+<7 hex digits>` whose hex digits start `commit`. */
  predicate IsDevVersionOf(version: string, commit: string) {
    var (front, hash) := Cut(version, '+');
    var (core, rest) := Cut(front, '-');
    && hash.Some? && |hash.value| == 7 && AllHex(hash.value) && hash.value <= commit
    && IsReleaseVersion(core)
    && rest.Some? && Cut(rest.value, '.').0 == "dev"
    && Cut(rest.value, '.').1.Some? && IsNumber(Cut(rest.value, '.').1.value)
  }

  predicate IsNumber(s: string) { s != "" && Digits(s) }

  // ── Building a version ────────────────────────────────────────────────

  /** What a build knows: the source's package version, whether that version's
      release tag exists, the commit count and the commit. */
  datatype Build = Build(packageVersion: string, released: bool, count: int, commit: string)

  function DevVersion(b: Build): Result<string> {
    var parts := Split(b.packageVersion, '.');
    if !ThreeNumbers(parts) then Err("package.json version must be X.Y.Z")
    else if !IsFullCommit(b.commit) then Err("A dev version needs the full source commit")
    else if b.count < 1 then Err("A dev version needs the source commit count")
    else
      var base :=
        if b.released then FromNat(ToNat(parts[0])) + "." + FromNat(ToNat(parts[1])) + "." +
          FromNat(ToNat(parts[2]) + 1)
        else b.packageVersion;
      Ok(base + "-dev." + FromNat(b.count) + "+" + b.commit[..7])
  }

  /** The release a build leads up to: its package version, or the next patch. */
  function Target(b: Build): Version
    requires IsReleaseVersion(b.packageVersion)
  {
    var parts := Split(b.packageVersion, '.');
    Version(ToNat(parts[0]), ToNat(parts[1]), ToNat(parts[2]) + if b.released then 1 else 0, [], [])
  }

  /** The version a build is meant to have. */
  function Dev(b: Build): Version
    requires DevVersion(b).Ok?
  {
    Target(b).(prerelease := [Word("dev"), Num(b.count)], build := [b.commit[..7]])
  }

  /** The package version is written without leading zeros. */
  predicate Plain(version: string) {
    var parts := Split(version, '.');
    |parts| == 3 && IsNumeral(parts[0]) && IsNumeral(parts[1]) && IsNumeral(parts[2])
  }

  // ── The text of a dev version ─────────────────────────────────────────

  lemma {:induction false} HexIsWord(s: string)
    requires AllHex(s)
    ensures AllWordChars(s)
  {
    if s != "" { HexIsWord(s[1..]); }
  }

  lemma {:induction false} HexHead(s: string, n: nat)
    requires AllHex(s) && n <= |s|
    ensures AllHex(s[..n])
  {
    if n > 0 {
      HexHead(s[1..], n - 1);
      assert s[..n][1..] == s[1..][..n - 1];
    }
  }

  lemma DevIsValid(b: Build)
    requires DevVersion(b).Ok?
    ensures Dev(b).Valid()
  {
    HexHead(b.commit, 7);
    HexIsWord(b.commit[..7]);
    assert "dev"[1..] == "ev" && "ev"[1..] == "v" && "v"[1..] == "";
    assert AllWordChars("v") && AllWordChars("ev") && AllWordChars("dev");
    assert IsWord("dev");
    assert Dev(b).prerelease[1..] == [Num(b.count)] && [Num(b.count)][1..] == [];
    assert ValidIdentifiers([Num(b.count)]);
    assert Dev(b).build[1..] == [];
  }

  lemma DevSuffix(n: nat)
    ensures IdentifierTexts([Word("dev"), Num(n)]) == ["dev", FromNat(n)]
    ensures Join(["dev", FromNat(n)], '.') == "dev." + FromNat(n)
  {
    assert [Word("dev"), Num(n)][1..] == [Num(n)];
    assert IdentifierTexts([Num(n)]) == [FromNat(n)];
    assert ["dev", FromNat(n)][1..] == [FromNat(n)];
  }

  lemma Pastes(base: string, n: string, hash: string)
    ensures base + "-dev." + n + "+" + hash == Paste(Paste(base, '-', Some("dev." + n)), '+', Some(hash))
  {
    assert base + "-dev." + n == base + ['-'] + ("dev." + n);
  }

  lemma PlainText(b: Build)
    requires DevVersion(b).Ok? && !b.released && Plain(b.packageVersion)
    ensures CoreText(Dev(b)) == b.packageVersion
  {
    var parts := Split(b.packageVersion, '.');
    NumeralPrintsBack(parts[0]);
    NumeralPrintsBack(parts[1]);
    NumeralPrintsBack(parts[2]);
    JoinSplit(b.packageVersion, '.');
    JoinThree(parts);
  }

  lemma DevText(b: Build)
    requires DevVersion(b).Ok? && (b.released || Plain(b.packageVersion))
    ensures DevVersion(b).value == VersionText(Dev(b))
  {
    if !b.released { PlainText(b); }
    DevSuffix(b.count);
    Pastes(CoreText(Dev(b)), FromNat(b.count), b.commit[..7]);
  }

  lemma ReleaseText(version: string)
    requires IsReleaseVersion(version)
    ensures version != "" && IsDigit(version[0])
    ensures Without(version, '-') && Without(version, '+')
  {
    var parts := Split(version, '.');
    JoinSplit(version, '.');
    JoinThree(parts);
    DigitParts(parts[0], parts[1], parts[2], '-');
    DigitParts(parts[0], parts[1], parts[2], '+');
    assert parts == [parts[0], parts[1], parts[2]];
    JoinWithout(parts, '.', '-');
    JoinWithout(parts, '.', '+');
  }

  /** A version is a release exactly when its text matches the release pattern. */
  lemma ReleaseOnText(v: Version)
    requires v.Valid()
    ensures v.IsRelease() <==> IsReleaseVersion(VersionText(v))
  {
    CoreSplits(v);
    TagWithoutPlus(v);
    FromNatReadsBack(v.major);
    FromNatReadsBack(v.minor);
    FromNatReadsBack(v.patch);
    CutPaste(TagText(v), '+', Suffix(v.build));
    CutPaste(CoreText(v), '-', Suffix(IdentifierTexts(v.prerelease)));
    if IsReleaseVersion(VersionText(v)) {
      ReleaseText(VersionText(v));
      CutPaste(VersionText(v), '+', None);
      assert v.build == [] && VersionText(v) == TagText(v);
      CutPaste(TagText(v), '-', None);
      assert IdentifierTexts(v.prerelease) == [];
    }
  }

  /** A version matches the release pattern exactly when it is three numbers with
      dots between. */
  lemma ThreeNumbersOnText(version: string)
    ensures IsReleaseVersion(version) <==>
            exists x, y, z :: IsNumber(x) && IsNumber(y) && IsNumber(z) && version == x + "." + y + "." + z
  {
    if IsReleaseVersion(version) {
      var parts := Split(version, '.');
      JoinSplit(version, '.');
      JoinThree(parts);
      assert IsNumber(parts[0]) && IsNumber(parts[1]) && IsNumber(parts[2]);
    }
    if x, y, z :| IsNumber(x) && IsNumber(y) && IsNumber(z) && version == x + "." + y + "." + z {
      DigitParts(x, y, z, '.');
      JoinThree([x, y, z]);
      SplitJoin([x, y, z], '.');
    }
  }

  lemma {:induction false} HexOnText(s: string)
    ensures AllHex(s) <==> forall i :: 0 <= i < |s| ==> s[i] in "0123456789abcdef"
  {
    if s != "" {
      HexOnText(s[1..]);
      assert forall i :: 0 < i < |s| ==> s[i] == s[1..][i - 1];
      HexDigit(s[0]);
    }
  }

  lemma HexDigit(c: char)
    ensures IsHex(c) <==> c in "0123456789abcdef"
  {
    var digits := "0123456789abcdef";
    if '0' <= c <= '9' { assert digits[c as int - '0' as int] == c; }
    if 'a' <= c <= 'f' { assert digits[10 + (c as int - 'a' as int)] == c; }
  }

  /** A build has a version exactly when its package version is three numbers, its
      commit is forty hex digits and there is a commit to count. */
  lemma DevVersionIff(b: Build)
    ensures DevVersion(b).Ok? <==>
            && (exists x, y, z :: IsNumber(x) && IsNumber(y) && IsNumber(z) &&
                  b.packageVersion == x + "." + y + "." + z)
            && |b.commit| == 40 && (forall i :: 0 <= i < 40 ==> b.commit[i] in "0123456789abcdef")
            && b.count > 0
  {
    ThreeNumbersOnText(b.packageVersion);
    HexOnText(b.commit);
  }

  /** How the text of an unreleased build comes apart. */
  lemma UnreleasedText(b: Build)
    requires DevVersion(b).Ok? && !b.released
    ensures var v := DevVersion(b).value;
            && Tight(v) && Cut(v, '+').1 == Some(b.commit[..7])
            && Cut(Cut(v, '+').0, '-') == (b.packageVersion, Some("dev." + FromNat(b.count)))
  {
    var v, pv, n, hash := DevVersion(b).value, b.packageVersion, FromNat(b.count), b.commit[..7];
    ReleaseText(pv);
    FromNatReadsBack(b.count);
    HexHead(b.commit, 7);
    HexIsWord(hash);
    LastWordChar(hash);
    Pastes(pv, n, hash);
    var front := Paste(pv, '-', Some("dev." + n));
    DigitsWithout(n, '+');
    WithoutConcat("dev.", n, '+') by { DevDotWithoutPlus(); }
    WithoutConcat(pv, "-", '+');
    WithoutConcat(pv + "-", "dev." + n, '+');
    CutPaste(front, '+', Some(hash));
    CutPaste(pv, '-', Some("dev." + n));
    assert v[|v| - 1] == hash[6];
  }

  lemma DevDotWithoutPlus()
    ensures Without("dev.", '+')
  {
    assert "dev."[1..] == "ev." && "ev."[1..] == "v." && "v."[1..] == "." && "."[1..] == "";
    assert Without(".", '+') && Without("v.", '+') && Without("ev.", '+');
  }

  /** `devVersion` accepts package versions with leading zeros, the updaters'
      parser does not: the version of a build parses exactly when its package
      version is released or is written without leading zeros, and then it reads
      as target, `dev`, commit count and short commit. */
  lemma DevVersionParses(b: Build)
    requires DevVersion(b).Ok?
    ensures ParseVersion(DevVersion(b).value) ==
            if b.released || Plain(b.packageVersion) then Some(Dev(b)) else None
  {
    if b.released || Plain(b.packageVersion) {
      DevIsValid(b);
      DevText(b);
      ParseText(Dev(b));
    } else {
      UnreleasedText(b);
      TightKeeps(DevVersion(b).value);
    }
  }

  // ── Recognizing a dev version ─────────────────────────────────────────

  /** The parsed form of `IsDevVersionOf`. */
  predicate IsDevBuildOf(v: Version, commit: string) {
    && |v.prerelease| == 2 && v.prerelease[0] == Word("dev") && v.prerelease[1].Num?
    && |v.build| == 1 && |v.build[0]| == 7 && AllHex(v.build[0]) && v.build[0] <= commit
  }

  lemma {:induction false} HexWithout(s: string, c: char)
    requires AllHex(s) && !IsHex(c)
    ensures Without(s, c)
  {
    if s != "" { HexWithout(s[1..], c); }
  }

  lemma {:induction false} ConcatWithDot(s: string, t: string)
    ensures !Without(s + ['.'] + t, '.')
  {
    if s == "" {
      assert (s + ['.'] + t)[0] == '.';
    } else {
      assert (s + ['.'] + t)[1..] == s[1..] + ['.'] + t;
      ConcatWithDot(s[1..], t);
    }
  }

  /** A suffix of hex digits has one part. */
  lemma OnePart(parts: seq<string>)
    requires parts != [] && Without(Join(parts, '.'), '.')
    ensures parts == [Join(parts, '.')]
  {
    if |parts| > 1 { ConcatWithDot(parts[0], Join(parts[1..], '.')); }
  }

  /** Cutting a text at its first dot gives its first part. */
  lemma CutIsFirstPart(parts: seq<string>)
    requires parts != [] && AllWithout(parts, '.')
    ensures Cut(Join(parts, '.'), '.') == (parts[0], if |parts| == 1 then None else Some(Join(parts[1..], '.')))
  {
    CutPaste(parts[0], '.', if |parts| == 1 then None else Some(Join(parts[1..], '.')));
  }

  lemma {:induction false} DevPrerelease(ids: seq<Identifier>)
    requires ValidIdentifiers(ids) && ids != []
    ensures var rest := Join(IdentifierTexts(ids), '.');
            (&& Cut(rest, '.').0 == "dev" && Cut(rest, '.').1.Some? && IsNumber(Cut(rest, '.').1.value))
            <==> (|ids| == 2 && ids[0] == Word("dev") && ids[1].Num?)
  {
    var texts := IdentifierTexts(ids);
    ParsePrintedIdentifiers(ids);
    BuildWithout(texts, '.');
    CutIsFirstPart(texts);
    if ids[0].Num? { FromNatReadsBack(ids[0].n); }
    if |ids| > 1 {
      assert texts[1..] == IdentifierTexts(ids[1..]);
      var rest := Join(texts[1..], '.');
      if IsNumber(rest) {
        DigitsWithout(rest, '.');
        OnePart(texts[1..]);
        assert rest == IdentifierText(ids[1]);
      }
      if |ids| == 2 && ids[1].Num? { FromNatReadsBack(ids[1].n); }
    }
  }

  /** On the text of a version, the dev pattern says what its parsed form shows. */
  lemma DevPatternOnText(v: Version, commit: string)
    requires v.Valid()
    ensures IsDevVersionOf(VersionText(v), commit) <==> IsDevBuildOf(v, commit)
  {
    CoreSplits(v);
    TagWithoutPlus(v);
    FromNatReadsBack(v.major);
    FromNatReadsBack(v.minor);
    FromNatReadsBack(v.patch);
    assert IsReleaseVersion(CoreText(v));
    CutPaste(TagText(v), '+', Suffix(v.build));
    CutPaste(CoreText(v), '-', Suffix(IdentifierTexts(v.prerelease)));
    if v.prerelease != [] { DevPrerelease(v.prerelease); }
    if v.build != [] {
      var hash := Join(v.build, '.');
      if AllHex(hash) {
        HexWithout(hash, '.');
        OnePart(v.build);
      }
    }
  }

  /** The version of a build names its commit and is never taken for a release. */
  lemma DevVersionNamesItsCommit(b: Build)
    requires DevVersion(b).Ok?
    ensures IsDevVersionOf(DevVersion(b).value, b.commit)
    ensures !IsReleaseVersion(DevVersion(b).value)
  {
    var v := DevVersion(b).value;
    HexHead(b.commit, 7);
    if b.released {
      DevText(b);
      DevIsValid(b);
      DevPatternOnText(Dev(b), b.commit);
      CutPaste(TagText(Dev(b)), '+', Suffix(Dev(b).build)) by { TagWithoutPlus(Dev(b)); }
    } else {
      UnreleasedText(b);
      DevSuffix(b.count);
      FromNatReadsBack(b.count);
      DigitsWithout(FromNat(b.count), '.');
      DevWithoutDot();
      CutPaste("dev", '.', Some(FromNat(b.count)));
    }
    assert Cut(v, '+').1.Some?;
    if IsReleaseVersion(v) {
      ReleaseText(v);
      CutPaste(v, '+', None);
    }
  }

  lemma DevWithoutDot()
    ensures Without("dev", '.')
  {
    assert "dev"[1..] == "ev" && "ev"[1..] == "v" && "v"[1..] == "";
    assert Without("v", '.') && Without("ev", '.');
  }

  // ── Order ─────────────────────────────────────────────────────────────

  /** A build sits strictly below the release it leads up to, above exactly the
      releases before that one, and, once its package version is released, above
      that release. */
  lemma DevBetweenReleases(b: Build, release: Version)
    requires DevVersion(b).Ok? && release.IsRelease()
    ensures Compare(Dev(b), Target(b)) < 0
    ensures Compare(release, Dev(b)) < 0 <==> Compare(release, Target(b)) < 0
    ensures Compare(release, Dev(b)) != 0
    ensures b.released ==> Compare(Target(b.(released := false)), Dev(b)) < 0
  {
  }

  /** Two builds are ordered by target first and commit count second. */
  lemma DevOrder(a: Build, b: Build)
    requires DevVersion(a).Ok? && DevVersion(b).Ok?
    ensures Compare(Dev(a), Dev(b)) < 0 <==>
            CorePrecedes(Target(a), Target(b)) || (SameCore(Target(a), Target(b)) && a.count < b.count)
  {
    var l, r := Dev(a).prerelease, Dev(b).prerelease;
    assert l[1..] == [Num(a.count)] && r[1..] == [Num(b.count)];
    assert CompareIdentifiers(l[1..], r[1..]) == CompareNat(a.count, b.count) by {
      assert l[1..][1..] == [] && r[1..][1..] == [];
    }
  }

  /** `b` is built from a later commit of the same history than `a`: more
      commits, a package version that has not fallen, no release tag removed. */
  ghost predicate LaterOnMain(a: Build, b: Build)
    requires DevVersion(a).Ok? && DevVersion(b).Ok?
  {
    var p, q := Target(a.(released := false)), Target(b.(released := false));
    && a.count < b.count
    && !CorePrecedes(q, p)
    && (p == q && a.released ==> b.released)
  }

  /** Later commits get strictly higher versions, across releases. */
  lemma LaterBuildIsNewer(a: Build, b: Build)
    requires DevVersion(a).Ok? && DevVersion(b).Ok? && LaterOnMain(a, b)
    ensures Compare(Dev(a), Dev(b)) < 0
  {
    DevOrder(a, b);
  }

  /** The rule that tags stay is needed: for one package version, a later build
      is newer exactly when the tag of an earlier build was not removed. */
  lemma RemovedTagGoesBack(a: Build, b: Build)
    requires DevVersion(a).Ok? && DevVersion(b).Ok?
    requires a.packageVersion == b.packageVersion && a.count < b.count
    ensures Compare(Dev(a), Dev(b)) < 0 <==> (a.released ==> b.released)
  {
    DevOrder(a, b);
  }
}
