/** Pruning betas on the tags themselves (`DEV_TAG` and `betaTagsToPrune` in
    scripts/release-channels.ts). */
module PruneTags {
  import opened Text
  import opened Versions
  import opened Precedence
  import opened BuildVersions
  import opened Sorting
  import opened Prune
  import opened PruneAgain

  // ── Which dev tags parse ──────────────────────────────────────────────

  /** The count of a dev tag. */
  function TagCount(name: string): string
    requires IsDevTag(name)
  {
    Cut(Cut(name[1..], '-').1.value, '.').1.value
  }

  lemma DevRestParses(rest: string)
    requires Cut(rest, '.').0 == "dev" && Cut(rest, '.').1.Some? && IsNumber(Cut(rest, '.').1.value)
    ensures ParsePrerelease(Some(rest)).Some? <==> IsNumeral(Cut(rest, '.').1.value)
  {
    var count := Cut(rest, '.').1.value;
    PasteCut(rest, '.');
    DevWithoutDot();
    DigitsWithout(count, '.');
    var parts := ["dev", count];
    assert parts[1..] == [count] && [count][1..] == [];
    assert AllWithout([count], '.');
    assert Join(parts, '.') == rest;
    SplitJoin(parts, '.');
    assert ParseIdentifiers([count]).Some? <==> IsNumeral(count);
    DevIsWord();
  }

  lemma DevIsWord()
    ensures IsWord("dev")
  {
    assert "dev"[1..] == "ev" && "ev"[1..] == "v" && "v"[1..] == "";
    assert AllWordChars("v") && AllWordChars("ev");
  }

  /** A dev tag parses exactly when none of its four numbers has a leading zero;
      the pattern does not ask for that. */
  lemma DevTagParsesIff(name: string)
    requires IsDevTag(name)
    ensures ParseVersion(name).Some? <==> Plain(Cut(name[1..], '-').0) && IsNumeral(TagCount(name))
  {
    DevTagIsTight(name);
    ReleaseTextOf(name);
    CutOnce(name[1..], '+');
    DevRestParses(Cut(name[1..], '-').1.value);
  }

  // ── On the tags themselves ────────────────────────────────────────────

  /** A prerelease as GitHub lists it. */
  datatype Prerelease = Prerelease(name: string, desktop: bool)

  function ReadOne(p: Prerelease): BetaRelease { BetaRelease(ReadTag(p.name), IsDevTag(p.name), p.desktop) }

  function ReadList(list: seq<Prerelease>): seq<BetaRelease> {
    seq(|list|, i requires 0 <= i < |list| => ReadOne(list[i]))
  }

  predicate DistinctTags(list: seq<Prerelease>) {
    forall i, j :: 0 <= i < j < |list| ==> list[i].name != list[j].name
  }

  /** A dev tag one of whose four numbers has a leading zero. */
  predicate LeadingZero(name: string) {
    IsDevTag(name) && !(Plain(Cut(name[1..], '-').0) && IsNumeral(TagCount(name)))
  }

  predicate NoLeadingZeros(list: seq<Prerelease>) { forall i :: 0 <= i < |list| ==> !LeadingZero(list[i].name) }

  lemma ReadListTagged(list: seq<Prerelease>)
    requires DistinctTags(list)
    ensures Tagged(ReadList(list)) && (AllParse(ReadList(list)) <==> NoLeadingZeros(list))
  {
    var releases := ReadList(list);
    forall i | 0 <= i < |list| && IsDevTag(list[i].name)
      ensures releases[i].tag.version.Some? <==> !LeadingZero(list[i].name)
      ensures releases[i].tag.version.Some? ==> Published(releases[i].tag)
    {
      DevTagParsesIff(list[i].name);
      DevTagsThatParse(list[i].name);
    }
    if AllParse(releases) {
      forall i | 0 <= i < |list|
        ensures !LeadingZero(list[i].name)
      {
        assert releases[i].dev == IsDevTag(list[i].name);
      }
    }
  }

  /** Of distinct tags, exactly the obsolete ones are deleted, whatever is kept,
      exactly when no dev tag has a leading zero or there is at most one. */
  lemma TagsPrunedExactlyIff(sort: Ordering, list: seq<Prerelease>)
    requires IsSort(sort)
    requires DistinctTags(list)
    ensures Exact(sort, ReadList(list)) <==> NoLeadingZeros(list) || Devs(ReadList(list)) <= 1
  {
    ReadListTagged(list);
    PruneIsExactIff(sort, ReadList(list));
  }

  /** And a second pass deletes nothing, whatever is kept and however they are
      listed, exactly when no dev tag has a leading zero or at most one has none. */
  lemma TagsPrunedOnceIff(sort: Ordering, list: seq<Prerelease>)
    requires IsSort(sort)
    requires DistinctTags(list)
    ensures IdempotentInAnyOrder(sort, ReadList(list)) <==> NoLeadingZeros(list) || |Parsed(ReadList(list))| <= 1
  {
    ReadListTagged(list);
    PruneIsIdempotentIff(sort, ReadList(list));
  }

  /** The dev tag of a release with a count, however that is written. */
  function DevName(core: Version, count: string): string {
    "v" + Paste(CoreText(core), '-', Some(Paste("dev", '.', Some(count))))
  }

  lemma DevNameCuts(core: Version, count: string)
    requires IsNumber(count)
    ensures IsDevTag(DevName(core, count)) && TagCount(DevName(core, count)) == count
  {
    CoreSplits(core);
    FromNatReadsBack(core.major);
    FromNatReadsBack(core.minor);
    FromNatReadsBack(core.patch);
    DevWithoutDot();
    CutPaste("dev", '.', Some(count));
    CutPaste(CoreText(core), '-', Some(Paste("dev", '.', Some(count))));
    assert DevName(core, count)[1..] == Paste(CoreText(core), '-', Some(Paste("dev", '.', Some(count))));
  }

  function DevOf(core: Version, n: nat): Version { core.(prerelease := [Word("dev"), Num(n)], build := []) }

  lemma DevNameReads(core: Version, n: nat)
    ensures IsDevTag(DevName(core, FromNat(n))) && TagCount(DevName(core, FromNat(n))) == FromNat(n)
    ensures ParseVersion(DevName(core, FromNat(n))) == Some(DevOf(core, n))
  {
    var v := DevOf(core, n);
    DevIsWord();
    assert v.prerelease[1..] == [Num(n)] && [Num(n)][1..] == [];
    assert ValidIdentifiers([Num(n)]);
    DevSuffix(n);
    assert Paste("dev", '.', Some(FromNat(n))) == "dev." + FromNat(n);
    ParseText(v);
    FromNatReadsBack(n);
    DevNameCuts(core, FromNat(n));
  }

  lemma ZeroNameDoesNotRead(core: Version, n: nat)
    ensures IsDevTag(DevName(core, "0" + FromNat(n))) && TagCount(DevName(core, "0" + FromNat(n))) == "0" + FromNat(n)
    ensures ParseVersion(DevName(core, "0" + FromNat(n))) == None
  {
    var zero := "0" + FromNat(n);
    FromNatReadsBack(n);
    assert zero[1..] == FromNat(n) && Digits(zero);
    DevNameCuts(core, zero);
    DevTagParsesIff(DevName(core, zero));
  }

  lemma DevCountOrder(core: Version, older: nat, newer: nat)
    requires older < newer
    ensures Compare(DevOf(core, older), DevOf(core, newer)) < 0
  {
    var v, w := DevOf(core, older), DevOf(core, newer);
    assert v.prerelease[1..] == [Num(older)] && w.prerelease[1..] == [Num(newer)];
    assert CompareIdentifiers([Num(older)], [Num(newer)]) < 0;
  }

  /** The beta of a release with a count, as it is read. */
  function DevBeta(core: Version, count: string): BetaRelease { ReadOne(Prerelease(DevName(core, count), false)) }

  lemma ReadDev(core: Version, n: nat)
    ensures DevBeta(core, FromNat(n)) ==
            BetaRelease(TagName(DevName(core, FromNat(n)), Some(DevOf(core, n))), true, false)
    ensures DevBeta(core, "0" + FromNat(n)) == BetaRelease(TagName(DevName(core, "0" + FromNat(n)), None), true, false)
  {
    DevNameReads(core, n);
    ZeroNameDoesNotRead(core, n);
  }

  /** The sort leaves a list alone of which every two elements are in order. */
  ghost predicate KeepsSorted(sort: Ordering) {
    forall s: seq<BetaRelease> :: SortedBy(s, NEWEST_FIRST) ==> sort(s) == s
  }

  /** A failing case for every release and any two counts: listed as the tag with a
      leading zero, the newer and the older one, all are in order two by two; and
      the newest beta is deleted when one is to be kept. */
  lemma LeadingZeroDeletesNewest(sort: Ordering, core: Version, older: nat, newer: nat)
    requires IsSort(sort) && KeepsSorted(sort) && older < newer
    ensures var x, odd, y := DevBeta(core, FromNat(older)), DevBeta(core, "0" + FromNat(older)),
            DevBeta(core, FromNat(newer));
            && CompareTags(x.tag, y.tag) < 0
            && y in Pruned(sort, [odd, y, x], 1, {}, 0) && !Obsolete([odd, y, x], 1, {}, 0, y)
  {
    ReadDev(core, older);
    ReadDev(core, newer);
    DevCountOrder(core, older, newer);
    CompareAntisymmetric(DevOf(core, older), DevOf(core, newer));
    OddFirst(sort, DevBeta(core, FromNat(older)), DevBeta(core, "0" + FromNat(older)), DevBeta(core, FromNat(newer)));
  }

  lemma OddFirst(sort: Ordering, x: BetaRelease, odd: BetaRelease, y: BetaRelease)
    requires IsSort(sort) && KeepsSorted(sort)
    requires x.dev && odd.dev && y.dev && odd.tag.version.None? && CompareTags(x.tag, y.tag) < 0 &&
             CompareTags(y.tag, x.tag) > 0
    ensures y in Pruned(sort, [odd, y, x], 1, {}, 0) && !Obsolete([odd, y, x], 1, {}, 0, y)
  {
    var list := [odd] + ([y] + ([x] + []));
    assert list == [odd, y, x];
    ThreeDevs(x, odd, y);
    NothingNewer(x, odd, y);
    assert SortedBy(list, NEWEST_FIRST);
    assert Drop(DevReleases(sort, list), 1) == [y] + ([x] + []);
    PrunedMember(sort, list, 1, {}, 0, y);
  }

  lemma ThreeDevs(x: BetaRelease, odd: BetaRelease, y: BetaRelease)
    requires x.dev && odd.dev && y.dev
    ensures Filter([odd] + ([y] + ([x] + [])), IS_DEV) == [odd] + ([y] + ([x] + []))
  {
    FilterFirst(odd, [y] + ([x] + []), IS_DEV);
    FilterFirst(y, [x] + [], IS_DEV);
    FilterFirst(x, [], IS_DEV);
  }

  lemma NothingNewer(x: BetaRelease, odd: BetaRelease, y: BetaRelease)
    requires odd.tag.version.None? && CompareTags(x.tag, y.tag) < 0
    ensures Newer([odd, y, x], y) == {}
  {
    SelfTie(y.tag);
  }
}
