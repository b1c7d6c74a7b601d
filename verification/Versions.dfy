/** Versions and their precedence (packages/server/src/release-channels.ts).
    A version is kept parsed; `ParseText` and `ParseSound` show that a parsed
    version and its canonical text determine each other. */
module Versions {
  import opened Text

  /** One dot-separated prerelease identifier. */
  datatype Identifier = Num(n: nat) | Word(text: string)

  datatype Version = Version(
    major: nat, minor: nat, patch: nat,
    prerelease: seq<Identifier>,
    build: seq<string>)
  {
    predicate Valid() { ValidIdentifiers(prerelease) && ValidBuild(build) }

    predicate IsRelease() { prerelease == [] && build == [] }

    /** The version a release tag carries: the same without build metadata. */
    function Tag(): Version { this.(build := []) }
  }

  /** A part matching `\d*[A-Za-z-][0-9A-Za-z-]*`. */
  predicate IsWord(s: string) { s != "" && AllWordChars(s) && !Digits(s) }

  /** A part matching `[0-9A-Za-z-]+`. */
  predicate IsBuildPart(s: string) { s != "" && AllWordChars(s) }

  predicate ValidIdentifier(i: Identifier) { i.Word? ==> IsWord(i.text) }

  predicate ValidIdentifiers(ids: seq<Identifier>) {
    ids == [] || (ValidIdentifier(ids[0]) && ValidIdentifiers(ids[1..]))
  }

  predicate ValidBuild(parts: seq<string>) {
    parts == [] || (IsBuildPart(parts[0]) && ValidBuild(parts[1..]))
  }

  // ── Printing ──────────────────────────────────────────────────────────

  function IdentifierText(i: Identifier): string {
    match i case Num(n) => FromNat(n) case Word(t) => t
  }

  function IdentifierTexts(ids: seq<Identifier>): seq<string> {
    if ids == [] then [] else [IdentifierText(ids[0])] + IdentifierTexts(ids[1..])
  }

  function CoreText(v: Version): string {
    FromNat(v.major) + "." + FromNat(v.minor) + "." + FromNat(v.patch)
  }

  function Suffix(parts: seq<string>): Option<string> {
    if parts == [] then None else Some(Join(parts, '.'))
  }

  /** The canonical text without build metadata. */
  function TagText(v: Version): string {
    Paste(CoreText(v), '-', Suffix(IdentifierTexts(v.prerelease)))
  }

  /** The canonical text of a version. */
  function VersionText(v: Version): string { Paste(TagText(v), '+', Suffix(v.build)) }

  // ── Parsing ───────────────────────────────────────────────────────────

  function StripV(s: string): string {
    if s != "" && (s[0] == 'v' || s[0] == 'V') then s[1..] else s
  }

  function ParseIdentifier(s: string): Option<Identifier> {
    if IsNumeral(s) then Some(Num(ToNat(s)))
    else if IsWord(s) then Some(Word(s))
    else None
  }

  function ParseIdentifiers(parts: seq<string>): Option<seq<Identifier>> {
    if parts == [] then Some([])
    else
      match (ParseIdentifier(parts[0]), ParseIdentifiers(parts[1..]))
      case (Some(i), Some(rest)) => Some([i] + rest)
      case _ => None
  }

  function ParsePrerelease(suffix: Option<string>): Option<seq<Identifier>> {
    match suffix
    case None => Some([])
    case Some(text) => ParseIdentifiers(Split(text, '.'))
  }

  function ParseBuild(suffix: Option<string>): Option<seq<string>> {
    match suffix
    case None => Some([])
    case Some(text) => if ValidBuild(Split(text, '.')) then Some(Split(text, '.')) else None
  }

  /** The version pattern: the build starts at the first `+`, the prerelease at
      the first `-` before it, and the core is three numerals. */
  function ParseBody(s: string): Option<Version> {
    var (front, buildText) := Cut(s, '+');
    var (coreText, prereleaseText) := Cut(front, '-');
    var core := Split(coreText, '.');
    match (ParsePrerelease(prereleaseText), ParseBuild(buildText))
    case (Some(prerelease), Some(build)) =>
      if |core| == 3 && IsNumeral(core[0]) && IsNumeral(core[1]) && IsNumeral(core[2])
      then Some(Version(ToNat(core[0]), ToNat(core[1]), ToNat(core[2]), prerelease, build))
      else None
    case _ => None
  }

  function ParseVersion(input: string): Option<Version> { ParseBody(StripV(Trim(input))) }

  /** `normalizeVersion`: the canonical text, or none when it is not a version. */
  function NormalizeVersion(input: string): Option<string> {
    match ParseVersion(input) case None => None case Some(v) => Some(VersionText(v))
  }

  /** `releaseTagForVersion`: `v` plus the text without build metadata. */
  function ReleaseTagForVersion(input: string): Option<string> {
    match ParseVersion(input) case None => None case Some(v) => Some("v" + TagText(v))
  }

  // ── Round trips ───────────────────────────────────────────────────────

  lemma {:induction false} DigitsAreWordChars(s: string)
    requires Digits(s)
    ensures AllWordChars(s)
  {
    if s != "" { DigitsAreWordChars(s[1..]); }
  }

  lemma {:induction false} ParsePrintedIdentifiers(ids: seq<Identifier>)
    requires ValidIdentifiers(ids)
    ensures ParseIdentifiers(IdentifierTexts(ids)) == Some(ids)
    ensures ValidBuild(IdentifierTexts(ids))
  {
    if ids != [] {
      ParsePrintedIdentifiers(ids[1..]);
      if ids[0].Num? {
        FromNatReadsBack(ids[0].n);
        DigitsAreWordChars(FromNat(ids[0].n));
      }
      assert IdentifierTexts(ids)[1..] == IdentifierTexts(ids[1..]);
      assert ids == [ids[0]] + ids[1..];
    }
  }

  lemma {:induction false} BuildWithout(parts: seq<string>, c: char)
    requires ValidBuild(parts) && !IsWordChar(c)
    ensures AllWithout(parts, c)
  {
    if parts != [] {
      WordWithout(parts[0], c);
      BuildWithout(parts[1..], c);
    }
  }

  lemma JoinThree(parts: seq<string>)
    requires |parts| == 3
    ensures Join(parts, '.') == parts[0] + "." + parts[1] + "." + parts[2]
  {
    var a, b, c := parts[0], parts[1], parts[2];
    assert parts[1..] == [b, c] && [b, c][1..] == [c];
    assert Join([b, c], '.') == b + ['.'] + Join([c], '.');
    assert a + "." + b + "." + c == a + ['.'] + (b + ['.'] + c);
  }

  lemma CoreSplits(v: Version)
    ensures Split(CoreText(v), '.') == [FromNat(v.major), FromNat(v.minor), FromNat(v.patch)]
    ensures Without(CoreText(v), '-') && Without(CoreText(v), '+')
  {
    var a, b, c := FromNat(v.major), FromNat(v.minor), FromNat(v.patch);
    var parts := [a, b, c];
    FromNatReadsBack(v.major);
    FromNatReadsBack(v.minor);
    FromNatReadsBack(v.patch);
    DigitParts(a, b, c, '.');
    DigitParts(a, b, c, '-');
    DigitParts(a, b, c, '+');
    JoinThree(parts);
    SplitJoin(parts, '.');
    JoinWithout(parts, '.', '-');
    JoinWithout(parts, '.', '+');
  }

  lemma DigitParts(a: string, b: string, c: string, d: char)
    requires Digits(a) && Digits(b) && Digits(c) && !IsDigit(d)
    ensures AllWithout([a, b, c], d)
  {
    DigitsWithout(a, d);
    DigitsWithout(b, d);
    DigitsWithout(c, d);
    assert [a, b, c][1..] == [b, c] && [b, c][1..] == [c] && [c][1..] == [];
    assert AllWithout([c], d);
    assert AllWithout([b, c], d);
  }

  lemma TagWithoutPlus(v: Version)
    requires ValidIdentifiers(v.prerelease)
    ensures Without(TagText(v), '+')
    ensures Suffix(IdentifierTexts(v.prerelease)).Some? ==>
              Split(Join(IdentifierTexts(v.prerelease), '.'), '.') == IdentifierTexts(v.prerelease)
  {
    var parts := IdentifierTexts(v.prerelease);
    CoreSplits(v);
    ParsePrintedIdentifiers(v.prerelease);
    if parts != [] {
      BuildWithout(parts, '+');
      BuildWithout(parts, '.');
      SplitJoin(parts, '.');
      JoinWithout(parts, '.', '+');
      WithoutConcat(CoreText(v), ['-'], '+');
      WithoutConcat(CoreText(v) + ['-'], Join(parts, '.'), '+');
    }
  }

  lemma ParseBodyText(v: Version)
    requires v.Valid()
    ensures ParseBody(VersionText(v)) == Some(v)
  {
    CoreSplits(v);
    TagWithoutPlus(v);
    ParsePrintedIdentifiers(v.prerelease);
    FromNatReadsBack(v.major);
    FromNatReadsBack(v.minor);
    FromNatReadsBack(v.patch);
    CutPaste(TagText(v), '+', Suffix(v.build));
    CutPaste(CoreText(v), '-', Suffix(IdentifierTexts(v.prerelease)));
    if v.build != [] {
      BuildWithout(v.build, '.');
      SplitJoin(v.build, '.');
    }
  }

  // ── Trimming ──────────────────────────────────────────────────────────

  /** A text that starts with a digit and ends in a word character. */
  predicate Tight(s: string) { s != "" && IsDigit(s[0]) && IsWordChar(s[|s| - 1]) }

  lemma TightKeeps(s: string)
    requires Tight(s)
    ensures StripV(Trim(s)) == s && StripV(Trim("v" + s)) == s
  {
    assert ("v" + s)[1..] == s;
    assert ("v" + s)[|s|] == s[|s| - 1];
  }

  lemma {:induction false} JoinEndsInWord(parts: seq<string>)
    requires parts != [] && ValidBuild(parts)
    ensures var s := Join(parts, '.'); s != "" && IsWordChar(s[|s| - 1])
  {
    LastWordChar(parts[0]);
    if |parts| > 1 { JoinEndsInWord(parts[1..]); }
  }

  lemma PasteTight(head: string, c: char, parts: seq<string>)
    requires Tight(head) && ValidBuild(parts)
    ensures Tight(Paste(head, c, Suffix(parts)))
  {
    if parts != [] { JoinEndsInWord(parts); }
  }

  lemma TextIsTight(v: Version)
    requires v.Valid()
    ensures Tight(TagText(v)) && Tight(VersionText(v))
  {
    FromNatReadsBack(v.major);
    FromNatReadsBack(v.patch);
    DigitsInit(FromNat(v.patch));
    ParsePrintedIdentifiers(v.prerelease);
    PasteTight(CoreText(v), '-', IdentifierTexts(v.prerelease));
    PasteTight(TagText(v), '+', v.build);
  }

  /** The canonical text of a version parses back to it, with or without `v`. */
  lemma ParseText(v: Version)
    requires v.Valid()
    ensures ParseVersion(VersionText(v)) == Some(v)
    ensures ParseVersion("v" + VersionText(v)) == Some(v)
  {
    TextIsTight(v);
    TightKeeps(VersionText(v));
    ParseBodyText(v);
  }

  // ── Soundness of parsing ──────────────────────────────────────────────

  lemma {:induction false} ParsedIdentifiers(parts: seq<string>)
    requires ParseIdentifiers(parts).Some?
    ensures ValidIdentifiers(ParseIdentifiers(parts).value)
    ensures IdentifierTexts(ParseIdentifiers(parts).value) == parts
  {
    if parts != [] {
      ParsedIdentifiers(parts[1..]);
      var ids := ParseIdentifiers(parts).value;
      assert ids[1..] == ParseIdentifiers(parts[1..]).value;
      if IsNumeral(parts[0]) { NumeralPrintsBack(parts[0]); }
      assert parts == [parts[0]] + parts[1..];
    }
  }

  lemma CoreParsed(coreText: string, v: Version)
    requires var core := Split(coreText, '.');
             && |core| == 3 && IsNumeral(core[0]) && IsNumeral(core[1]) && IsNumeral(core[2])
             && v.major == ToNat(core[0]) && v.minor == ToNat(core[1]) && v.patch == ToNat(core[2])
    ensures CoreText(v) == coreText
  {
    var core := Split(coreText, '.');
    NumeralPrintsBack(core[0]);
    NumeralPrintsBack(core[1]);
    NumeralPrintsBack(core[2]);
    JoinSplit(coreText, '.');
    JoinThree(core);
  }

  /** What parses is the canonical text of the version it parses to. */
  lemma ParseBodySound(s: string)
    requires ParseBody(s).Some?
    ensures ParseBody(s).value.Valid() && VersionText(ParseBody(s).value) == s
  {
    var v := ParseBody(s).value;
    var (front, buildText) := Cut(s, '+');
    var (coreText, prereleaseText) := Cut(front, '-');
    PasteCut(s, '+');
    PasteCut(front, '-');
    CoreParsed(coreText, v);
    if prereleaseText.Some? {
      ParsedIdentifiers(Split(prereleaseText.value, '.'));
      JoinSplit(prereleaseText.value, '.');
    }
    if buildText.Some? { JoinSplit(buildText.value, '.'); }
    assert TagText(v) == front;
  }

  /** Normalizing only trims white space and drops a leading `v`; it is
      idempotent, and a release tag parses to the version without its build. */
  lemma ParseSound(input: string)
    requires ParseVersion(input).Some?
    ensures var v := ParseVersion(input).value;
            && v.Valid() && NormalizeVersion(input) == Some(StripV(Trim(input)))
            && NormalizeVersion(VersionText(v)) == NormalizeVersion(input)
            && ReleaseTagForVersion(input) == Some("v" + VersionText(v.Tag()))
            && ParseVersion(ReleaseTagForVersion(input).value) == Some(v.Tag())
  {
    ParseBodySound(StripV(Trim(input)));
    var v := ParseVersion(input).value;
    ParseText(v);
    ParseText(v.Tag());
  }

  /** The canonical text determines the version, and the tag text determines it
      up to build metadata. */
  lemma TextsDetermine(a: Version, b: Version)
    requires a.Valid() && b.Valid()
    ensures VersionText(a) == VersionText(b) <==> a == b
    ensures TagText(a) == TagText(b) <==> a.Tag() == b.Tag()
  {
    ParseBodyText(a);
    ParseBodyText(b);
    ParseBodyText(a.Tag());
    ParseBodyText(b.Tag());
  }
}
