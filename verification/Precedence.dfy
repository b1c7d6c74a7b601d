/** `compareVersions` (packages/server/src/release-channels.ts) is the precedence
    of Semantic Versioning 2.0.0, section 11: a total preorder whose classes are
    exactly the release tags. */
module Precedence {
  import opened Text
  import opened Versions

  // ── The comparison, as coded ──────────────────────────────────────────

  function CompareNat(l: nat, r: nat): int {
    if l == r then 0 else if l < r then -1 else 1
  }

  /** JavaScript's `<` on ASCII strings, as -1, 0 or 1. */
  function CompareText(l: string, r: string): int {
    if l == "" || r == "" then CompareNat(|l|, |r|)
    else if l[0] == r[0] then CompareText(l[1..], r[1..])
    else if l[0] < r[0] then -1 else 1
  }

  function CompareIdentifier(l: Identifier, r: Identifier): int {
    match (l, r)
    case (Num(a), Num(b)) => CompareNat(a, b)
    case (Num(_), Word(_)) => -1
    case (Word(_), Num(_)) => 1
    case (Word(a), Word(b)) => CompareText(a, b)
  }

  /** The loop of `comparePrerelease`, from a common prefix on. */
  function CompareIdentifiers(left: seq<Identifier>, right: seq<Identifier>): int {
    if left == [] then (if right == [] then 0 else -1)
    else if right == [] then 1
    else if left[0] == right[0] then CompareIdentifiers(left[1..], right[1..])
    else CompareIdentifier(left[0], right[0])
  }

  function ComparePrerelease(left: seq<Identifier>, right: seq<Identifier>): int {
    if left == [] || right == [] then
      if |left| == |right| then 0 else if left != [] then -1 else 1
    else CompareIdentifiers(left, right)
  }

  function Compare(l: Version, r: Version): int {
    if l.major != r.major then CompareNat(l.major, r.major)
    else if l.minor != r.minor then CompareNat(l.minor, r.minor)
    else if l.patch != r.patch then CompareNat(l.patch, r.patch)
    else ComparePrerelease(l.prerelease, r.prerelease)
  }

  /** `compareVersions` on strings: 0 when either is not a version. */
  function CompareVersions(a: string, b: string): int {
    match (ParseVersion(a), ParseVersion(b))
    case (Some(l), Some(r)) => Compare(l, r)
    case _ => 0
  }

  // ── Section 11, stated by first difference ────────────────────────────

  /** `i` is where `l` and `r` first differ; one of them may end there. */
  ghost predicate FirstDifference<T>(l: seq<T>, r: seq<T>, i: nat) {
    && i <= |l| && i <= |r| && l[..i] == r[..i]
    && (i == |l| ==> i < |r|)
    && (i < |l| && i < |r| ==> l[i] != r[i])
  }

  /** ASCII sort order. */
  ghost predicate TextPrecedes(l: string, r: string) {
    exists i: nat :: FirstDifference(l, r, i) && (i == |l| || (i < |r| && l[i] < r[i]))
  }

  /** Numbers by value, below words; words in ASCII order. */
  ghost predicate IdentifierPrecedes(l: Identifier, r: Identifier) {
    match (l, r)
    case (Num(a), Num(b)) => a < b
    case (Num(_), Word(_)) => true
    case (Word(_), Num(_)) => false
    case (Word(a), Word(b)) => TextPrecedes(a, b)
  }

  /** The first differing identifier decides; a longer list wins a tie. */
  ghost predicate IdentifiersPrecede(l: seq<Identifier>, r: seq<Identifier>) {
    exists i: nat :: FirstDifference(l, r, i) && (i == |l| || (i < |r| && IdentifierPrecedes(l[i], r[i])))
  }

  ghost predicate CorePrecedes(l: Version, r: Version) {
    || l.major < r.major
    || (l.major == r.major && l.minor < r.minor)
    || (l.major == r.major && l.minor == r.minor && l.patch < r.patch)
  }

  predicate SameCore(l: Version, r: Version) {
    l.major == r.major && l.minor == r.minor && l.patch == r.patch
  }

  ghost predicate Precedes(l: Version, r: Version) {
    || CorePrecedes(l, r)
    || (SameCore(l, r) && l.prerelease != [] && (r.prerelease == [] || IdentifiersPrecede(l.prerelease, r.prerelease)))
  }

  // ── Text ──────────────────────────────────────────────────────────────

  lemma {:induction false} TextAntisymmetric(l: string, r: string)
    ensures CompareText(l, r) == -CompareText(r, l)
    ensures CompareText(l, r) == 0 <==> l == r
  {
    if l != "" && r != "" && l[0] == r[0] {
      TextAntisymmetric(l[1..], r[1..]);
      assert l == [l[0]] + l[1..] && r == [r[0]] + r[1..];
    }
  }

  lemma {:induction false} TextTransitive(a: string, b: string, c: string)
    requires CompareText(a, b) < 0 && CompareText(b, c) < 0
    ensures CompareText(a, c) < 0
  {
    if a != "" && b != "" && c != "" && a[0] == b[0] == c[0] {
      TextTransitive(a[1..], b[1..], c[1..]);
    }
  }

  /** Dropping an equal first element moves the first difference by one. */
  lemma DifferenceShifts<T>(l: seq<T>, r: seq<T>, i: nat)
    requires l != [] && r != [] && l[0] == r[0]
    ensures FirstDifference(l, r, i + 1) <==> FirstDifference(l[1..], r[1..], i)
    ensures !FirstDifference(l, r, 0)
  {
    if i + 1 <= |l| && i + 1 <= |r| {
      assert l[..i + 1] == [l[0]] + l[1..][..i] && r[..i + 1] == [r[0]] + r[1..][..i];
      assert l[..i + 1][1..] == l[1..][..i] && r[..i + 1][1..] == r[1..][..i];
    }
  }

  lemma DifferenceAtStart<T>(l: seq<T>, r: seq<T>)
    requires l != [] && r != [] && l[0] != r[0]
    ensures forall i: nat :: FirstDifference(l, r, i) <==> i == 0
  {
    assert FirstDifference(l, r, 0);
    assert forall i: nat :: i > 0 && i <= |l| ==> l[..i][0] == l[0];
  }

  lemma {:induction false} TextMeetsSection11(l: string, r: string)
    ensures CompareText(l, r) < 0 <==> TextPrecedes(l, r)
  {
    if l == "" || r == "" {
      assert l == "" && r != "" ==> FirstDifference(l, r, 0);
    } else if l[0] != r[0] {
      DifferenceAtStart(l, r);
    } else {
      var l', r' := l[1..], r[1..];
      TextMeetsSection11(l', r');
      forall i: nat { DifferenceShifts(l, r, i); }
      if i: nat :| FirstDifference(l, r, i) && (i == |l| || (i < |r| && l[i] < r[i])) {
        assert FirstDifference(l', r', i - 1);
      }
      if i: nat :| FirstDifference(l', r', i) && (i == |l'| || (i < |r'| && l'[i] < r'[i])) {
        assert FirstDifference(l, r, i + 1);
      }
    }
  }

  // ── Identifiers ───────────────────────────────────────────────────────

  lemma IdentifierOrder(a: Identifier, b: Identifier)
    ensures CompareIdentifier(a, b) == -CompareIdentifier(b, a)
    ensures CompareIdentifier(a, b) == 0 <==> a == b
    ensures CompareIdentifier(a, b) < 0 <==> IdentifierPrecedes(a, b)
  {
    if a.Word? && b.Word? {
      TextAntisymmetric(a.text, b.text);
      TextMeetsSection11(a.text, b.text);
    }
  }

  lemma IdentifierTransitive(a: Identifier, b: Identifier, c: Identifier)
    requires CompareIdentifier(a, b) < 0 && CompareIdentifier(b, c) < 0
    ensures CompareIdentifier(a, c) < 0
  {
    if a.Word? && b.Word? && c.Word? { TextTransitive(a.text, b.text, c.text); }
  }

  lemma {:induction false} IdentifiersAntisymmetric(l: seq<Identifier>, r: seq<Identifier>)
    ensures CompareIdentifiers(l, r) == -CompareIdentifiers(r, l)
    ensures CompareIdentifiers(l, r) == 0 <==> l == r
  {
    if l != [] && r != [] {
      IdentifierOrder(l[0], r[0]);
      if l[0] == r[0] {
        IdentifiersAntisymmetric(l[1..], r[1..]);
        assert l == [l[0]] + l[1..] && r == [r[0]] + r[1..];
      }
    }
  }

  lemma {:induction false} IdentifiersTransitive(a: seq<Identifier>, b: seq<Identifier>, c: seq<Identifier>)
    requires CompareIdentifiers(a, b) < 0 && CompareIdentifiers(b, c) < 0
    ensures CompareIdentifiers(a, c) < 0
  {
    if a != [] && b != [] && c != [] {
      IdentifierOrder(a[0], b[0]);
      IdentifierOrder(b[0], c[0]);
      IdentifierOrder(a[0], c[0]);
      if a[0] == b[0] == c[0] {
        IdentifiersTransitive(a[1..], b[1..], c[1..]);
      } else if a[0] != b[0] && b[0] != c[0] {
        IdentifierTransitive(a[0], b[0], c[0]);
      }
    }
  }

  lemma {:induction false} IdentifiersMeetSection11(l: seq<Identifier>, r: seq<Identifier>)
    ensures CompareIdentifiers(l, r) < 0 <==> IdentifiersPrecede(l, r)
  {
    if l == [] || r == [] {
      assert l == [] && r != [] ==> FirstDifference(l, r, 0);
    } else if l[0] != r[0] {
      IdentifierOrder(l[0], r[0]);
      DifferenceAtStart(l, r);
    } else {
      var l', r' := l[1..], r[1..];
      IdentifiersMeetSection11(l', r');
      forall i: nat { DifferenceShifts(l, r, i); }
      if i: nat :| FirstDifference(l, r, i) && (i == |l| || (i < |r| && IdentifierPrecedes(l[i], r[i]))) {
        assert FirstDifference(l', r', i - 1);
      }
      if i: nat :| FirstDifference(l', r', i) && (i == |l'| || (i < |r'| && IdentifierPrecedes(l'[i], r'[i]))) {
        assert FirstDifference(l, r, i + 1);
      }
    }
  }

  // ── Versions ──────────────────────────────────────────────────────────

  /** The comparison is negative exactly when section 11 puts the first version
      before the second. */
  lemma CompareMeetsSection11(l: Version, r: Version)
    ensures Compare(l, r) < 0 <==> Precedes(l, r)
  {
    IdentifiersMeetSection11(l.prerelease, r.prerelease);
  }

  /** Swapping the arguments swaps the sign, and versions tie exactly when they
      are published under the same release tag. */
  lemma CompareAntisymmetric(l: Version, r: Version)
    ensures Compare(l, r) == -Compare(r, l)
    ensures Compare(l, r) == 0 <==> l.Tag() == r.Tag()
  {
    IdentifiersAntisymmetric(l.prerelease, r.prerelease);
  }

  /** Transitivity, strict as soon as one step is strict. */
  lemma CompareTransitive(a: Version, b: Version, c: Version)
    requires Compare(a, b) <= 0 && Compare(b, c) <= 0
    ensures Compare(a, c) <= 0
    ensures Compare(a, b) < 0 || Compare(b, c) < 0 ==> Compare(a, c) < 0
  {
    CompareAntisymmetric(a, b);
    CompareAntisymmetric(b, c);
    CompareAntisymmetric(a, c);
    if CompareIdentifiers(a.prerelease, b.prerelease) < 0 && CompareIdentifiers(b.prerelease, c.prerelease) < 0 {
      IdentifiersTransitive(a.prerelease, b.prerelease, c.prerelease);
    }
  }

  /** On strings, the sign is the one of section 11; strings of which one is not a
      version compare as equal. */
  lemma StringsMeetSection11(a: string, b: string)
    ensures ParseVersion(a).Some? && ParseVersion(b).Some? ==>
              && (CompareVersions(a, b) < 0 <==> Precedes(ParseVersion(a).value, ParseVersion(b).value))
              && (CompareVersions(a, b) > 0 <==> Precedes(ParseVersion(b).value, ParseVersion(a).value))
    ensures ParseVersion(a).None? || ParseVersion(b).None? ==> CompareVersions(a, b) == 0
  {
    if ParseVersion(a).Some? && ParseVersion(b).Some? {
      CompareMeetsSection11(ParseVersion(a).value, ParseVersion(b).value);
      CompareMeetsSection11(ParseVersion(b).value, ParseVersion(a).value);
      CompareAntisymmetric(ParseVersion(a).value, ParseVersion(b).value);
    }
  }

  /** On strings: two versions tie exactly when `releaseTagForVersion` gives
      them one tag, so no two builds of different precedence share a tag and no
      two builds of one precedence have different tags. */
  lemma TieIsSameTagText(a: string, b: string, l: Version, r: Version)
    requires ParseVersion(a) == Some(l) && ParseVersion(b) == Some(r)
    ensures CompareVersions(a, b) == 0 <==> ReleaseTagForVersion(a) == ReleaseTagForVersion(b)
  {
    CompareAntisymmetric(l, r);
    ParseSound(a);
    ParseSound(b);
    TextsDetermine(l, r);
    assert ("v" + TagText(l))[1..] == TagText(l) && ("v" + TagText(r))[1..] == TagText(r);
  }
}
