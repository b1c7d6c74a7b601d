/** Which beta tags `prune-beta` deletes (scripts/release-channels.ts). */
module Prune {
  import opened Text
  import opened Versions
  import opened Precedence
  import opened BuildVersions
  import opened Sorting

  /** A release tag and the version it parses as, if it does. */
  datatype TagName = TagName(name: string, version: Option<Version>)

  function ReadTag(name: string): TagName { TagName(name, ParseVersion(name)) }

  /** A beta prerelease: its tag, whether the tag matches the dev pattern, and
      whether it carries a signed Desktop build. */
  datatype BetaRelease = BetaRelease(tag: TagName, dev: bool, desktop: bool)

  /** The pattern `^v\d+\.\d+\.\d+-dev\.\d+$`. */
  predicate IsDevTag(name: string) {
    && name != "" && name[0] == 'v'
    && var (core, rest) := Cut(name[1..], '-');
       && IsReleaseVersion(core)
       && rest.Some? && Cut(rest.value, '.').0 == "dev"
       && Cut(rest.value, '.').1.Some? && IsNumber(Cut(rest.value, '.').1.value)
  }

  /** `compareVersions` on tags: 0 when either does not parse. */
  function CompareTags(a: TagName, b: TagName): int {
    if a.version.Some? && b.version.Some? then Compare(a.version.value, b.version.value) else 0
  }

  const NEWEST_FIRST := (l: BetaRelease, r: BetaRelease) => CompareTags(r.tag, l.tag) <= 0

  // ── Sorting ───────────────────────────────────────────────────────────

  /** `compareVersions` orders a set of tags consistently. */
  ghost predicate Consistent(tags: set<TagName>) {
    forall a, b, c :: a in tags && b in tags && c in tags && CompareTags(a, b) <= 0 && CompareTags(b, c) <= 0 ==>
                        CompareTags(a, c) <= 0
  }

  /** The dev pattern admits leading zeros, which do not parse, and such a tag
      ties with every other: sorting has a consistent order exactly when all
      tags parse or all that parse tie. */
  lemma ConsistentWhenParsed(tags: set<TagName>)
    ensures Consistent(tags) <==>
            || (forall t :: t in tags ==> t.version.Some?)
            || (forall a, b :: a in tags && b in tags ==> CompareTags(a, b) == 0)
  {
    if forall t :: t in tags ==> t.version.Some? {
      forall a, b, c | a in tags && b in tags && c in tags && CompareTags(a, b) <= 0 && CompareTags(b, c) <= 0
        ensures CompareTags(a, c) <= 0
      {
        CompareTransitive(a.version.value, b.version.value, c.version.value);
      }
    } else if Consistent(tags) {
      var odd :| odd in tags && odd.version.None?;
      forall a, b | a in tags && b in tags ensures CompareTags(a, b) == 0 {
        assert CompareTags(a, odd) == 0 && CompareTags(odd, b) == 0 && CompareTags(b, odd) == 0 &&
               CompareTags(odd, a) == 0;
        NotBothNewer(a, b);
        NotBothNewer(b, a);
        assert CompareTags(a, b) <= 0 && CompareTags(b, a) <= 0;
        if a.version.Some? && b.version.Some? { CompareAntisymmetric(a.version.value, b.version.value); }
      }
    }
  }

  lemma NotBothNewer(a: TagName, b: TagName)
    ensures CompareTags(a, b) > 0 ==> CompareTags(b, a) < 0
  {
    if a.version.Some? && b.version.Some? { CompareAntisymmetric(a.version.value, b.version.value); }
  }

  type Ordering = seq<BetaRelease> -> seq<BetaRelease>

  function Tags(s: seq<BetaRelease>): set<TagName> { set r | r in s :: r.tag }

  /** What the language promises of `sort`: it rearranges, and when the comparison
      is consistent it is stable and sorts. When it is not, the order is left to
      the engine. */
  ghost predicate IsSort(sort: Ordering) {
    && (forall s: seq<BetaRelease> :: multiset(sort(s)) == multiset(s))
    && (forall s: seq<BetaRelease> :: Consistent(Tags(s)) ==> sort(s) == Sort(s, NEWEST_FIRST))
  }

  lemma InsertionIsSort()
    ensures IsSort((s: seq<BetaRelease>) => Sort(s, NEWEST_FIRST))
  {
    forall s: seq<BetaRelease> ensures multiset(Sort(s, NEWEST_FIRST)) == multiset(s) { SortKeeps(s, NEWEST_FIRST); }
  }

  lemma SortSize(sort: Ordering, s: seq<BetaRelease>)
    requires IsSort(sort)
    ensures |sort(s)| == |s|
  {
    assert |sort(s)| == |multiset(sort(s))| == |multiset(s)| == |s|;
  }

  /** Tags that all parse, or all tie, are sorted. */
  lemma SortsConsistent(sort: Ordering, s: seq<BetaRelease>)
    requires IsSort(sort)
    requires (forall r :: r in s ==> r.tag.version.Some?) ||
             (forall a, b :: a in s && b in s ==> CompareTags(a.tag, b.tag) == 0)
    ensures sort(s) == Sort(s, NEWEST_FIRST)
  {
    ConsistentWhenParsed(Tags(s));
  }

  function Take<T>(s: seq<T>, n: nat): seq<T> { if n <= |s| then s[..n] else s }

  function Drop<T>(s: seq<T>, n: nat): seq<T> { if n <= |s| then s[n..] else [] }

  const IS_DEV := (r: BetaRelease) => r.dev

  const HAS_DESKTOP := (r: BetaRelease) => r.desktop

  function Names(s: seq<BetaRelease>): set<string> { set r | r in s :: r.tag.name }

  function DevReleases(sort: Ordering, releases: seq<BetaRelease>): seq<BetaRelease> {
    sort(Filter(releases, IS_DEV))
  }

  function RecentDesktop(sort: Ordering, releases: seq<BetaRelease>, keepDesktop: nat): seq<BetaRelease> {
    Take(Filter(DevReleases(sort, releases), HAS_DESKTOP), keepDesktop)
  }

  /** The releases whose tags are deleted, newest first. */
  function Pruned(
      sort: Ordering, releases: seq<BetaRelease>, keep: nat, kept: set<string>, keepDesktop: nat): seq<BetaRelease> {
    var recent := Names(RecentDesktop(sort, releases, keepDesktop));
    Filter(Drop(DevReleases(sort, releases), keep), (r: BetaRelease) => r.tag.name !in kept && r.tag.name !in recent)
  }

  // ── Which tags can be ordered ─────────────────────────────────────────

  /** The tag is the one its version is published under. */
  predicate Published(tag: TagName) {
    && tag.version.Some? && tag.version.value.build == []
    && tag.name == "v" + VersionText(tag.version.value)
  }

  lemma NoPlusNoBuild(v: Version)
    requires v.Valid() && Without(VersionText(v), '+')
    ensures v.build == []
  {
    TagWithoutPlus(v);
    CutPaste(TagText(v), '+', Suffix(v.build));
    CutOnce(VersionText(v), '+');
  }

  /** A dev tag is the tag of its version exactly when it parses. */
  lemma DevTagsThatParse(name: string)
    requires IsDevTag(name)
    ensures Published(ReadTag(name)) <==> ParseVersion(name).Some?
  {
    DevTagIsTight(name);
    ReleaseTextOf(name);
    if ParseVersion(name).Some? { ParsedTagIsPublished(name); }
  }

  lemma ParsedTagIsPublished(name: string)
    requires name != "" && name[0] == 'v' && StripV(Trim(name)) == name[1..] && Without(name[1..], '+')
    requires ParseVersion(name).Some?
    ensures Published(ReadTag(name))
  {
    ParseBodySound(name[1..]);
    NoPlusNoBuild(ParseVersion(name).value);
  }

  lemma ReleaseTextOf(name: string)
    requires IsDevTag(name)
    ensures Without(name[1..], '+') && Tight(name[1..])
  {
    var (core, rest) := Cut(name[1..], '-');
    var (dev, count) := Cut(rest.value, '.');
    PasteCut(name[1..], '-');
    PasteCut(rest.value, '.');
    ReleaseText(core);
    DigitsWithout(count.value, '+');
    DigitsAreWordChars(count.value);
    LastWordChar(count.value);
    DevDotWithoutPlus();
    assert rest.value == "dev." + count.value;
    WithoutConcat("dev.", count.value, '+');
    WithoutConcat(core, "-", '+');
    WithoutConcat(core + "-", rest.value, '+');
    assert name[1..] == core + "-" + rest.value;
  }

  lemma {:induction false} DevTagIsTight(name: string)
    requires IsDevTag(name)
    ensures StripV(Trim(name)) == name[1..]
  {
    ReleaseTextOf(name);
    TightKeeps(name[1..]);
    assert name == "v" + name[1..];
  }

  lemma CutOnce(s: string, c: char)
    requires Without(s, c)
    ensures Cut(s, c) == (s, None)
  {
    CutPaste(s, c, None);
  }

  /** No tag twice, and each dev tag that parses is the tag of its version. */
  predicate Tagged(releases: seq<BetaRelease>) {
    && (forall i :: 0 <= i < |releases| && releases[i].dev && releases[i].tag.version.Some? ==>
          Published(releases[i].tag))
    && (forall i, j :: 0 <= i < j < |releases| ==> releases[i].tag.name != releases[j].tag.name)
  }

  predicate AllParse(releases: seq<BetaRelease>) {
    forall i :: 0 <= i < |releases| && releases[i].dev ==> releases[i].tag.version.Some?
  }

  /** The tags sort: they are distinct and every dev tag parses. */
  predicate Orderable(releases: seq<BetaRelease>) { Tagged(releases) && AllParse(releases) }

  // ── Ranks, without sorting ────────────────────────────────────────────

  /** The dev releases strictly newer than `r`. */
  function Newer(releases: seq<BetaRelease>, r: BetaRelease): set<BetaRelease> {
    set x | x in releases && x.dev && CompareTags(x.tag, r.tag) > 0
  }

  function NewerDesktop(releases: seq<BetaRelease>, r: BetaRelease): set<BetaRelease> {
    set x | x in releases && x.dev && x.desktop && CompareTags(x.tag, r.tag) > 0
  }

  /** What pruning is meant to delete. */
  predicate Obsolete(releases: seq<BetaRelease>, keep: nat, kept: set<string>, keepDesktop: nat, r: BetaRelease) {
    && r in releases && r.dev
    && |Newer(releases, r)| >= keep
    && r.tag.name !in kept
    && !(r.desktop && |NewerDesktop(releases, r)| < keepDesktop)
  }

  // ── The sorted list ───────────────────────────────────────────────────

  const PUBLISHED := (r: BetaRelease) => Published(r.tag)

  lemma {:induction false} PublishedPreorder()
    ensures Preorder(NEWEST_FIRST, PUBLISHED)
  {
    forall a, b | PUBLISHED(a) && PUBLISHED(b) ensures NEWEST_FIRST(a, b) || NEWEST_FIRST(b, a) {
      CompareAntisymmetric(a.tag.version.value, b.tag.version.value);
    }
    forall a, b, c | PUBLISHED(a) && PUBLISHED(b) && PUBLISHED(c) && NEWEST_FIRST(a, b) && NEWEST_FIRST(b, c)
      ensures NEWEST_FIRST(a, c)
    {
      CompareTransitive(c.tag.version.value, b.tag.version.value, a.tag.version.value);
    }
  }

  /** Newest first, strictly: no two elements tie. */
  predicate Descending(s: seq<BetaRelease>) {
    forall i, j :: 0 <= i < j < |s| ==> CompareTags(s[i].tag, s[j].tag) > 0
  }

  lemma TieIsSameName(a: TagName, b: TagName)
    requires Published(a) && Published(b) && CompareTags(a, b) == 0
    ensures a == b
  {
    CompareAntisymmetric(a.version.value, b.version.value);
    assert a.version.value.Tag() == a.version.value;
    assert b.version.value.Tag() == b.version.value;
  }

  lemma DistinctNames(releases: seq<BetaRelease>, a: BetaRelease, b: BetaRelease)
    requires Tagged(releases) && a in releases && b in releases && a.tag.name == b.tag.name
    ensures a == b
  {
  }

  lemma DevMember(sort: Ordering, releases: seq<BetaRelease>, r: BetaRelease)
    requires IsSort(sort)
    ensures r in DevReleases(sort, releases) <==> r in releases && r.dev
  {
    var dev := Filter(releases, IS_DEV);
    FilterMember(releases, IS_DEV, r);
    SameMembers(DevReleases(sort, releases), dev);
  }

  /** The dev releases, newest first, without ties. */
  lemma DevDescends(sort: Ordering, releases: seq<BetaRelease>)
    requires IsSort(sort)
    requires Orderable(releases)
    ensures Descending(DevReleases(sort, releases))
  {
    var dev, s := Filter(releases, IS_DEV), DevReleases(sort, releases);
    PublishedPreorder();
    forall i | 0 <= i < |dev| ensures PUBLISHED(dev[i]) {
      FilterMember(releases, IS_DEV, dev[i]);
      assert dev[i] in dev;
    }
    SortSorts(dev, NEWEST_FIRST, PUBLISHED);
    SortsConsistent(sort, dev);
    FilterDistinct(releases, IS_DEV);
    PermutedDistinct(dev, s);
    forall i, j | 0 <= i < j < |s| ensures CompareTags(s[i].tag, s[j].tag) > 0 {
      assert NEWEST_FIRST(s[i], s[j]) && PUBLISHED(s[i]) && PUBLISHED(s[j]) && s[i] != s[j];
      CompareAntisymmetric(s[i].tag.version.value, s[j].tag.version.value);
      if CompareTags(s[i].tag, s[j].tag) == 0 {
        TieIsSameName(s[i].tag, s[j].tag);
        DevMember(sort, releases, s[i]);
        DevMember(sort, releases, s[j]);
        assert s[i] in s && s[j] in s;
        DistinctNames(releases, s[i], s[j]);
      }
    }
  }

  /** In a strictly descending list the elements newer than the one at `i` are
      the `i` elements before it. */
  lemma RankIsIndex(s: seq<BetaRelease>, i: nat)
    requires Descending(s) && i < |s|
    ensures |set x | x in s && CompareTags(x.tag, s[i].tag) > 0| == i
  {
    var newer := set x | x in s && CompareTags(x.tag, s[i].tag) > 0;
    forall x ensures x in newer <==> x in s[..i] {
      if x in newer {
        var k :| 0 <= k < |s| && s[k] == x;
        if i <= k { NotBothNewer(s[i].tag, s[k].tag); }
        assert s[..i][k] == x;
      }
    }
    DescendingDistinct(s);
    DistinctSize(s[..i]);
    assert newer == Members(s[..i]);
  }

  lemma DescendingDistinct(s: seq<BetaRelease>)
    requires Descending(s)
    ensures Distinct(s)
  {
    forall i, j | 0 <= i < j < |s| ensures s[i] != s[j] { NotBothNewer(s[i].tag, s[j].tag); }
  }

  lemma TakeByIndex(s: seq<BetaRelease>, n: nat, i: nat)
    requires Distinct(s) && i < |s|
    ensures s[i] in Take(s, n) <==> i < n
    ensures s[i] in Drop(s, n) <==> i >= n
  {
    if s[i] in Take(s, n) {
      var k :| 0 <= k < |Take(s, n)| && Take(s, n)[k] == s[i];
      assert s[k] == s[i];
    }
    if s[i] in Drop(s, n) {
      var k :| 0 <= k < |Drop(s, n)| && Drop(s, n)[k] == s[i];
      assert s[k + n] == s[i];
    }
    if i < n { assert Take(s, n)[i] == s[i]; } else { assert Drop(s, n)[i - n] == s[i]; }
  }

  /** Membership in the first `n` of a strictly descending list, by rank. */
  lemma TakeByRank(s: seq<BetaRelease>, n: nat, r: BetaRelease)
    requires Descending(s) && r in s
    ensures var rank := |set x | x in s && CompareTags(x.tag, r.tag) > 0|;
            && (r in Take(s, n) <==> rank < n)
            && (r in Drop(s, n) <==> rank >= n)
  {
    var i :| 0 <= i < |s| && s[i] == r;
    DescendingDistinct(s);
    RankIsIndex(s, i);
    TakeByIndex(s, n, i);
  }

  // ── Pruning is exact, bounded and idempotent ──────────────────────────

  lemma NewerAmongSorted(sort: Ordering, releases: seq<BetaRelease>, r: BetaRelease)
    requires IsSort(sort)
    ensures Newer(releases, r) == set x | x in DevReleases(sort, releases) && CompareTags(x.tag, r.tag) > 0
    ensures NewerDesktop(releases, r) ==
            set x | x in Filter(DevReleases(sort, releases), HAS_DESKTOP) && CompareTags(x.tag, r.tag) > 0
  {
    forall x ensures x in DevReleases(sort, releases) <==> x in releases && x.dev
             ensures x in Filter(DevReleases(sort, releases), HAS_DESKTOP) <==> x in releases && x.dev && x.desktop {
      DevMember(sort, releases, x);
      FilterMember(DevReleases(sort, releases), HAS_DESKTOP, x);
    }
  }

  lemma FilterDescends(s: seq<BetaRelease>, keep: BetaRelease -> bool)
    requires Descending(s)
    ensures Descending(Filter(s, keep))
  {
    var newer := (a: BetaRelease, b: BetaRelease) => CompareTags(a.tag, b.tag) > 0;
    assert SortedBy(s, newer);
    FilterSorted(s, keep, newer);
    var t := Filter(s, keep);
    forall i, j | 0 <= i < j < |t| ensures CompareTags(t[i].tag, t[j].tag) > 0 { assert newer(t[i], t[j]); }
  }

  lemma RecentByRank(sort: Ordering, releases: seq<BetaRelease>, keepDesktop: nat, r: BetaRelease)
    requires IsSort(sort)
    requires Orderable(releases) && r in releases && r.dev
    ensures r.tag.name in Names(RecentDesktop(sort, releases, keepDesktop)) <==>
            r.desktop && |NewerDesktop(releases, r)| < keepDesktop
  {
    var s := DevReleases(sort, releases);
    var t := Filter(s, HAS_DESKTOP);
    DevDescends(sort, releases);
    FilterDescends(s, HAS_DESKTOP);
    DevMember(sort, releases, r);
    FilterMember(s, HAS_DESKTOP, r);
    NewerAmongSorted(sort, releases, r);
    if r.desktop { TakeByRank(t, keepDesktop, r); }
    if r.tag.name in Names(Take(t, keepDesktop)) {
      var x :| x in Take(t, keepDesktop) && x.tag.name == r.tag.name;
      TakenIsMember(t, keepDesktop, x);
      FilterMember(s, HAS_DESKTOP, x);
      DevMember(sort, releases, x);
      DistinctNames(releases, x, r);
    }
  }

  lemma TakenIsMember(s: seq<BetaRelease>, n: nat, x: BetaRelease)
    ensures x in Take(s, n) ==> x in s
    ensures x in Drop(s, n) ==> x in s
  {
  }

  /** Exactly the obsolete releases are deleted: dev releases with at least
      `keep` newer ones, that the manifest does not name, and that are not among
      the newest `keepDesktop` with a Desktop build. */
  lemma PruneIsExact(
      sort: Ordering, releases: seq<BetaRelease>, keep: nat, kept: set<string>, keepDesktop: nat, r: BetaRelease)
    requires IsSort(sort)
    requires Orderable(releases)
    ensures r in Pruned(sort, releases, keep, kept, keepDesktop) <==> Obsolete(releases, keep, kept, keepDesktop, r)
  {
    var s := DevReleases(sort, releases);
    PrunedMember(sort, releases, keep, kept, keepDesktop, r);
    DevMember(sort, releases, r);
    TakenIsMember(s, keep, r);
    if r in releases && r.dev {
      DevDescends(sort, releases);
      TakeByRank(s, keep, r);
      NewerAmongSorted(sort, releases, r);
      RecentByRank(sort, releases, keepDesktop, r);
    }
  }

  lemma PrunedMember(
      sort: Ordering, releases: seq<BetaRelease>, keep: nat, kept: set<string>, keepDesktop: nat, r: BetaRelease)
    ensures r in Pruned(sort, releases, keep, kept, keepDesktop) <==>
            r in Drop(DevReleases(sort, releases), keep) && r.tag.name !in kept
            && r.tag.name !in Names(RecentDesktop(sort, releases, keepDesktop))
  {
    var recent := Names(RecentDesktop(sort, releases, keepDesktop));
    FilterMember(Drop(DevReleases(sort, releases), keep),
      (x: BetaRelease) => x.tag.name !in kept && x.tag.name !in recent, r);
  }

  /** The releases left after deleting. */
  function Survivors(
      sort: Ordering, releases: seq<BetaRelease>, keep: nat, kept: set<string>, keepDesktop: nat): seq<BetaRelease> {
    var gone := Pruned(sort, releases, keep, kept, keepDesktop);
    Filter(releases, (r: BetaRelease) => r !in gone)
  }

  lemma SurvivesIff(
      sort: Ordering, releases: seq<BetaRelease>, keep: nat, kept: set<string>, keepDesktop: nat, r: BetaRelease)
    requires IsSort(sort)
    requires Orderable(releases)
    ensures r in Survivors(sort, releases, keep, kept, keepDesktop) <==>
            r in releases && !Obsolete(releases, keep, kept, keepDesktop, r)
  {
    var gone := Pruned(sort, releases, keep, kept, keepDesktop);
    FilterMember(releases, (x: BetaRelease) => x !in gone, r);
    PruneIsExact(sort, releases, keep, kept, keepDesktop, r);
  }

  lemma NamesWithin(s: seq<BetaRelease>, n: nat)
    ensures |Names(Take(s, n))| <= n
  {
    NamesSize(Take(s, n));
  }

  lemma {:induction false} NamesSize(s: seq<BetaRelease>)
    ensures |Names(s)| <= |s|
  {
    if s != [] {
      NamesSize(s[1..]);
      assert s == [s[0]] + s[1..];
      assert Names(s) == {s[0].tag.name} + Names(s[1..]);
    }
  }

  function DevNames(s: seq<BetaRelease>): set<string> { set r | r in s && r.dev :: r.tag.name }

  /** At most `keep` + `keepDesktop` + |kept| dev tags survive, whatever the tags. */
  lemma PruneIsBounded(sort: Ordering, releases: seq<BetaRelease>, keep: nat, kept: set<string>, keepDesktop: nat)
    requires IsSort(sort)
    ensures |DevNames(Survivors(sort, releases, keep, kept, keepDesktop))| <= keep + keepDesktop + |kept|
  {
    var left, gone := Survivors(sort, releases, keep, kept, keepDesktop),
      Pruned(sort, releases, keep, kept, keepDesktop);
    var s := DevReleases(sort, releases);
    var newest, recent := Names(Take(s, keep)), Names(RecentDesktop(sort, releases, keepDesktop));
    forall name | name in DevNames(left) ensures name in newest + recent + kept {
      var r :| r in left && r.dev && r.tag.name == name;
      FilterMember(releases, (x: BetaRelease) => x !in gone, r);
      DevMember(sort, releases, r);
      TakeOrDrop(s, keep, r);
      PrunedMember(sort, releases, keep, kept, keepDesktop, r);
    }
    SubsetSize(DevNames(left), newest + recent + kept);
    NamesWithin(s, keep);
    NamesWithin(Filter(s, HAS_DESKTOP), keepDesktop);
  }

  lemma TakeOrDrop(s: seq<BetaRelease>, n: nat, r: BetaRelease)
    requires r in s
    ensures r in Take(s, n) || r in Drop(s, n)
  {
    if n <= |s| { assert s == s[..n] + s[n..]; }
  }

  /** Pruning what is left deletes nothing. */
  lemma PruneIsIdempotent(sort: Ordering, releases: seq<BetaRelease>, keep: nat, kept: set<string>, keepDesktop: nat)
    requires IsSort(sort)
    requires Orderable(releases)
    ensures Pruned(sort, Survivors(sort, releases, keep, kept, keepDesktop), keep, kept, keepDesktop) == []
  {
    var left := Survivors(sort, releases, keep, kept, keepDesktop);
    SurvivorsOrderable(sort, releases, keep, kept, keepDesktop);
    var again := Pruned(sort, left, keep, kept, keepDesktop);
    if again != [] {
      var r := again[0];
      assert r in again;
      PruneIsExact(sort, left, keep, kept, keepDesktop, r);
      SurvivesIff(sort, releases, keep, kept, keepDesktop, r);
      forall x | x in left ensures x in releases { SurvivesIff(sort, releases, keep, kept, keepDesktop, x); }
      SubsetSize(Newer(left, r), Newer(releases, r));
      SubsetSize(NewerDesktop(left, r), NewerDesktop(releases, r));
    }
  }

  lemma SurvivorsOrderable(sort: Ordering, releases: seq<BetaRelease>, keep: nat, kept: set<string>, keepDesktop: nat)
    requires IsSort(sort)
    requires Orderable(releases)
    ensures Orderable(Survivors(sort, releases, keep, kept, keepDesktop))
  {
    var gone := Pruned(sort, releases, keep, kept, keepDesktop);
    var left := Survivors(sort, releases, keep, kept, keepDesktop);
    var apart := (a: BetaRelease, b: BetaRelease) => a.tag.name != b.tag.name;
    FilterSorted(releases, (r: BetaRelease) => r !in gone, apart);
    forall i, j | 0 <= i < j < |left| ensures left[i].tag.name != left[j].tag.name { assert apart(left[i], left[j]); }
    forall i | 0 <= i < |left| && left[i].dev ensures Published(left[i].tag) {
      assert left[i] in left;
      SurvivesIff(sort, releases, keep, kept, keepDesktop, left[i]);
    }
  }

  // ── When pruning is exact ─────────────────────────────────────────────

  /** Whatever is to be kept, exactly the obsolete releases are deleted. */
  ghost predicate Exact(sort: Ordering, releases: seq<BetaRelease>) {
    forall keep, kept, keepDesktop, r ::
      r in Pruned(sort, releases, keep, kept, keepDesktop) <==> Obsolete(releases, keep, kept, keepDesktop, r)
  }

  function Devs(releases: seq<BetaRelease>): nat { |Filter(releases, IS_DEV)| }

  lemma {:induction false} FewMembers(s: seq<BetaRelease>)
    ensures |Members(s)| <= |s|
  {
    if s != [] {
      FewMembers(s[1..]);
      assert s == [s[0]] + s[1..];
      assert Members(s) == {s[0]} + Members(s[1..]);
    }
  }

  /** With an unparsed dev tag no dev release has all others but one above it. */
  lemma FewNewer(sort: Ordering, releases: seq<BetaRelease>, odd: BetaRelease, r: BetaRelease)
    requires IsSort(sort)
    requires odd in releases && odd.dev && odd.tag.version.None? && r in releases && r.dev && Devs(releases) >= 2
    ensures |Newer(releases, r)| < Devs(releases) - 1
  {
    var s := DevReleases(sort, releases);
    SortSize(sort, Filter(releases, IS_DEV));
    FewMembers(s);
    DevMember(sort, releases, odd);
    DevMember(sort, releases, r);
    NotBothNewer(r.tag, r.tag);
    forall x | x in Newer(releases, r) ensures x in Members(s) - {odd, r} { DevMember(sort, releases, x); }
    SubsetSize(Newer(releases, r), Members(s) - {odd, r});
    if r == odd { assert Newer(releases, r) == {}; }
  }

  /** With an unparsed dev tag beside others, keeping all but one dev release
      deletes one that is not obsolete. */
  lemma OddTagSpoilsPruning(sort: Ordering, releases: seq<BetaRelease>, odd: BetaRelease) returns (r: BetaRelease)
    requires IsSort(sort)
    requires odd in releases && odd.dev && odd.tag.version.None? && Devs(releases) >= 2
    ensures r in Pruned(sort, releases, Devs(releases) - 1, {}, 0) && !Obsolete(releases, Devs(releases) - 1, {}, 0, r)
  {
    var s, n := DevReleases(sort, releases), Devs(releases);
    SortSize(sort, Filter(releases, IS_DEV));
    r := s[n - 1];
    assert Drop(s, n - 1)[0] == r;
    PrunedMember(sort, releases, n - 1, {}, 0, r);
    DevMember(sort, releases, r);
    FewNewer(sort, releases, odd, r);
  }

  lemma OnlyDev(sort: Ordering, releases: seq<BetaRelease>, r: BetaRelease)
    requires IsSort(sort) && Devs(releases) <= 1 && r in DevReleases(sort, releases)
    ensures DevReleases(sort, releases) == [r] && Newer(releases, r) == {} && NewerDesktop(releases, r) == {}
  {
    SortSize(sort, Filter(releases, IS_DEV));
    NotBothNewer(r.tag, r.tag);
    forall x ensures x !in Newer(releases, r) { DevMember(sort, releases, x); }
    assert NewerDesktop(releases, r) <= Newer(releases, r);
  }

  lemma OnlyDevIsExact(
      sort: Ordering, releases: seq<BetaRelease>, keep: nat, kept: set<string>, keepDesktop: nat, r: BetaRelease)
    requires IsSort(sort) && Devs(releases) <= 1
    ensures r in Pruned(sort, releases, keep, kept, keepDesktop) <==> Obsolete(releases, keep, kept, keepDesktop, r)
  {
    var s := DevReleases(sort, releases);
    PrunedMember(sort, releases, keep, kept, keepDesktop, r);
    DevMember(sort, releases, r);
    if r in s {
      OnlyDev(sort, releases, r);
      assert s[1..] == [];
      assert Filter(s, HAS_DESKTOP) == if r.desktop then [r] else [];
    } else {
      TakenIsMember(s, keep, r);
    }
  }

  /** Pruning is exact, whatever is kept, exactly when every dev tag parses or
      there is at most one. */
  lemma PruneIsExactIff(sort: Ordering, releases: seq<BetaRelease>)
    requires IsSort(sort)
    requires Tagged(releases)
    ensures Exact(sort, releases) <==> AllParse(releases) || Devs(releases) <= 1
  {
    if AllParse(releases) {
      forall keep, kept, keepDesktop, r
        ensures r in Pruned(sort, releases, keep, kept, keepDesktop) <==> Obsolete(releases, keep, kept, keepDesktop, r)
      {
        PruneIsExact(sort, releases, keep, kept, keepDesktop, r);
      }
    } else if Devs(releases) <= 1 {
      forall keep, kept, keepDesktop, r
        ensures r in Pruned(sort, releases, keep, kept, keepDesktop) <==> Obsolete(releases, keep, kept, keepDesktop, r)
      {
        OnlyDevIsExact(sort, releases, keep, kept, keepDesktop, r);
      }
    } else {
      var i :| 0 <= i < |releases| && releases[i].dev && releases[i].tag.version.None?;
      var r := OddTagSpoilsPruning(sort, releases, releases[i]);
    }
  }
}
