/** Whether pruning betas a second time deletes more (`betaTagsToPrune` in
    scripts/release-channels.ts). */
module PruneAgain {
  import opened Sorting
  import opened Precedence
  import opened Prune

  // ── When pruning is idempotent ────────────────────────────────────────

  ghost predicate Idempotent(sort: Ordering, releases: seq<BetaRelease>) {
    forall keep, kept, keepDesktop ::
      Pruned(sort, Survivors(sort, releases, keep, kept, keepDesktop), keep, kept, keepDesktop) == []
  }

  /** In whatever order the releases are listed. */
  ghost predicate IdempotentInAnyOrder(sort: Ordering, releases: seq<BetaRelease>) {
    forall other :: multiset(other) == multiset(releases) ==> Idempotent(sort, other)
  }

  /** A filtered list has its elements earlier than the whole list. */
  lemma {:induction false} TakeFilter(s: seq<BetaRelease>, keep: BetaRelease -> bool, n: nat, r: BetaRelease)
    requires r in Take(s, n) && keep(r)
    ensures r in Take(Filter(s, keep), n)
    decreases |s|
  {
    var rest := Filter(s[1..], keep);
    assert s == [s[0]] + s[1..];
    TakeAfter(s[0], s[1..], n, r);
    assert Filter(s, keep) == if keep(s[0]) then [s[0]] + rest else rest;
    if r != s[0] || !keep(s[0]) { TakeFilter(s[1..], keep, n - 1, r); }
    if keep(s[0]) { TakeAfter(s[0], rest, n, r); } else { TakeMore(rest, n - 1, r); }
  }

  lemma {:induction false} DropFilter(s: seq<BetaRelease>, keep: BetaRelease -> bool, n: nat, r: BetaRelease)
    requires r in Drop(Filter(s, keep), n)
    ensures r in Drop(s, n)
    decreases |s|
  {
    FilterMember(s, keep, r);
    if n == 0 {
      assert Drop(s, 0) == s && Drop(Filter(s, keep), 0) == Filter(s, keep);
    } else {
      assert s == [s[0]] + s[1..];
      var rest := Filter(s[1..], keep);
      TakeAfter(s[0], s[1..], n, r);
      assert Filter(s, keep) == if keep(s[0]) then [s[0]] + rest else rest;
      if keep(s[0]) {
        TakeAfter(s[0], rest, n, r);
        DropFilter(s[1..], keep, n - 1, r);
      } else {
        DropFilter(s[1..], keep, n, r);
        TakeMore(s[1..], n - 1, r);
      }
    }
  }

  lemma TakeAfter(x: BetaRelease, s: seq<BetaRelease>, n: nat, r: BetaRelease)
    requires n > 0
    ensures r in Take([x] + s, n) <==> r == x || r in Take(s, n - 1)
    ensures r in Drop([x] + s, n) <==> r in Drop(s, n - 1)
  {
    assert Drop([x] + s, n) == Drop(s, n - 1);
    assert Take([x] + s, n) == [x] + Take(s, n - 1);
  }

  lemma TakeMore(s: seq<BetaRelease>, n: nat, r: BetaRelease)
    ensures r in Take(s, n) ==> r in Take(s, n + 1)
    ensures r in Drop(s, n + 1) ==> r in Drop(s, n)
  {
    if n < |s| {
      assert s[..n + 1] == s[..n] + [s[n]];
      assert s[n..] == [s[n]] + s[n + 1..];
    }
  }

  lemma FilterFirst(x: BetaRelease, s: seq<BetaRelease>, f: BetaRelease -> bool)
    ensures Filter([x] + s, f) == (if f(x) then [x] else []) + Filter(s, f)
  {
    assert ([x] + s)[1..] == s;
  }

  lemma {:induction false} FiltersCommute(s: seq<BetaRelease>, f: BetaRelease -> bool, g: BetaRelease -> bool)
    ensures Filter(Filter(s, f), g) == Filter(Filter(s, g), f)
  {
    if s != [] {
      var inF, inG := Filter(s[1..], f), Filter(s[1..], g);
      FiltersCommute(s[1..], f, g);
      assert Filter(s, f) == if f(s[0]) then [s[0]] + inF else inF;
      assert Filter(s, g) == if g(s[0]) then [s[0]] + inG else inG;
      FilterFirst(s[0], inF, g);
      FilterFirst(s[0], inG, f);
    }
  }

  /** When deleting keeps the sorted order, pruning again deletes nothing. */
  lemma IdempotentWhenStable(
      sort: Ordering, releases: seq<BetaRelease>, keep: nat, kept: set<string>, keepDesktop: nat,
      lives: BetaRelease -> bool)
    requires IsSort(sort)
    requires forall r :: lives(r) <==> r !in Pruned(sort, releases, keep, kept, keepDesktop)
    requires DevReleases(sort, Survivors(sort, releases, keep, kept, keepDesktop)) ==
             Filter(DevReleases(sort, releases), lives)
    ensures Pruned(sort, Survivors(sort, releases, keep, kept, keepDesktop), keep, kept, keepDesktop) == []
  {
    var s := DevReleases(sort, releases);
    var left := Survivors(sort, releases, keep, kept, keepDesktop);
    var again := Pruned(sort, left, keep, kept, keepDesktop);
    if again != [] {
      var r := again[0];
      assert r in again;
      PrunedMember(sort, left, keep, kept, keepDesktop, r);
      DropFilter(s, lives, keep, r);
      TakenIsMember(Filter(s, lives), keep, r);
      FilterMember(s, lives, r);
      PrunedMember(sort, releases, keep, kept, keepDesktop, r);
      var x :| x in RecentDesktop(sort, releases, keepDesktop) && x.tag.name == r.tag.name;
      PrunedMember(sort, releases, keep, kept, keepDesktop, x);
      assert lives(x);
      TakeFilter(Filter(s, HAS_DESKTOP), lives, keepDesktop, x);
      FiltersCommute(s, HAS_DESKTOP, lives);
    }
  }

  lemma {:induction false} SortTies(s: seq<BetaRelease>)
    requires forall i, j :: 0 <= i < |s| && 0 <= j < |s| ==> CompareTags(s[i].tag, s[j].tag) == 0
    ensures Sort(s, NEWEST_FIRST) == s
  {
    if s != [] {
      SortTies(s[1..]);
      assert s == [s[0]] + s[1..];
      if |s| > 1 { assert NEWEST_FIRST(s[0], s[1]); }
    }
  }

  predicate Tie(releases: seq<BetaRelease>) {
    forall a, b :: a in releases && b in releases && a.dev && b.dev ==> CompareTags(a.tag, b.tag) == 0
  }

  lemma TiedSort(sort: Ordering, releases: seq<BetaRelease>)
    requires IsSort(sort)
    requires Tie(releases)
    ensures DevReleases(sort, releases) == Filter(releases, IS_DEV)
  {
    var dev := Filter(releases, IS_DEV);
    forall i, j | 0 <= i < |dev| && 0 <= j < |dev| ensures CompareTags(dev[i].tag, dev[j].tag) == 0 {
      FilterMember(releases, IS_DEV, dev[i]);
      FilterMember(releases, IS_DEV, dev[j]);
      assert dev[i] in dev && dev[j] in dev;
    }
    SortTies(dev);
  }

  lemma TiedIsIdempotent(sort: Ordering, releases: seq<BetaRelease>, keep: nat, kept: set<string>, keepDesktop: nat)
    requires IsSort(sort)
    requires Tie(releases)
    ensures Pruned(sort, Survivors(sort, releases, keep, kept, keepDesktop), keep, kept, keepDesktop) == []
  {
    var gone := Pruned(sort, releases, keep, kept, keepDesktop);
    var lives := (r: BetaRelease) => r !in gone;
    var left := Survivors(sort, releases, keep, kept, keepDesktop);
    SameFilter(releases, lives, (r: BetaRelease) => r !in gone);
    forall r ensures r in left ==> r in releases { FilterMember(releases, lives, r); }
    TiedSort(sort, releases);
    TiedSort(sort, left);
    FiltersCommute(releases, lives, IS_DEV);
    IdempotentWhenStable(sort, releases, keep, kept, keepDesktop, lives);
  }

  lemma TaggedDistinct(releases: seq<BetaRelease>)
    requires Tagged(releases)
    ensures Distinct(releases)
  {
  }

  lemma TaggedPermutes(releases: seq<BetaRelease>, other: seq<BetaRelease>)
    requires Tagged(releases) && multiset(other) == multiset(releases)
    ensures Tagged(other) && (AllParse(releases) ==> AllParse(other))
  {
    SameMembers(releases, other);
    TaggedDistinct(releases);
    PermutedDistinct(releases, other);
    forall i, j | 0 <= i < j < |other| ensures other[i].tag.name != other[j].tag.name {
      assert other[i] in releases && other[j] in releases && other[i] != other[j];
    }
    forall i | 0 <= i < |other| && other[i].dev
      ensures other[i].tag.version.Some? ==> Published(other[i].tag)
      ensures AllParse(releases) ==> other[i].tag.version.Some?
    {
      assert other[i] in releases;
    }
  }

  /** Three releases listed before others. */
  function Before(x: BetaRelease, odd: BetaRelease, y: BetaRelease, rest: seq<BetaRelease>): seq<BetaRelease> {
    [x] + ([odd] + ([y] + rest))
  }

  function Others(releases: seq<BetaRelease>, x: BetaRelease, odd: BetaRelease, y: BetaRelease): seq<BetaRelease> {
    Filter(releases, (r: BetaRelease) => r !in {x, odd, y})
  }

  lemma BeforeOthersPermutes(releases: seq<BetaRelease>, x: BetaRelease, odd: BetaRelease, y: BetaRelease)
    requires Tagged(releases) && x in releases && odd in releases && y in releases && x != y && odd != x && odd != y
    ensures multiset(Before(x, odd, y, Others(releases, x, odd, y))) == multiset(releases)
  {
    var others := (r: BetaRelease) => r !in {x, odd, y};
    SameFilter(releases, others, (r: BetaRelease) => r !in {x, odd, y});
    TaggedDistinct(releases);
    var all := Before(x, odd, y, Others(releases, x, odd, y));
    assert multiset(all) == multiset{x, odd, y} + multiset(Others(releases, x, odd, y));
    forall r ensures multiset(all)[r] == multiset(releases)[r] {
      FilterCounts(releases, others, r);
      DistinctCountsOnce(releases, r);
      assert r in releases <==> multiset(releases)[r] > 0;
    }
  }

  lemma SelfTie(a: TagName)
    ensures CompareTags(a, a) == 0
  {
    if a.version.Some? { CompareAntisymmetric(a.version.value, a.version.value); }
  }

  /** In the first pass that keeps one release and one that the manifest names,
      all other dev releases go. */
  lemma FirstPass(
      sort: Ordering, all: seq<BetaRelease>, a: BetaRelease, b: BetaRelease, kept: set<string>, r: BetaRelease)
    requires IsSort(sort) && Tagged(all) && kept == {b.tag.name} && b in all && b.dev
    requires DevReleases(sort, all) != [] && DevReleases(sort, all)[0] == a
    ensures r in Pruned(sort, all, 1, kept, 0) <==> r in all && r.dev && r != a && r != b
  {
    var dev, s := Filter(all, IS_DEV), DevReleases(sort, all);
    TaggedDistinct(all);
    FilterDistinct(all, IS_DEV);
    PermutedDistinct(dev, s);
    DevMember(sort, all, r);
    PrunedMember(sort, all, 1, kept, 0, r);
    assert s == [a] + Drop(s, 1);
    assert a !in Drop(s, 1) by { assert forall i :: 0 < i < |s| ==> s[i] != s[0]; }
    if r in all && r.tag.name == b.tag.name { DistinctNames(all, r, b); }
  }

  lemma {:induction false} TwoFilters(
      s: seq<BetaRelease>, lives: BetaRelease -> bool, both: BetaRelease -> bool)
    requires forall r :: r in s ==> (both(r) <==> lives(r) && r.dev)
    ensures Filter(Filter(s, lives), IS_DEV) == Filter(s, both)
  {
    if s != [] {
      var rest := Filter(s[1..], lives);
      TwoFilters(s[1..], lives, both);
      assert Filter(s, lives) == if lives(s[0]) then [s[0]] + rest else rest;
      FilterFirst(s[0], rest, IS_DEV);
    }
  }

  lemma {:induction false} FilterNone(s: seq<BetaRelease>, keep: BetaRelease -> bool)
    requires forall r :: r in s ==> !keep(r)
    ensures Filter(s, keep) == []
  {
    if s != [] { FilterNone(s[1..], keep); }
  }

  lemma {:induction false} FilterOne(s: seq<BetaRelease>, keep: BetaRelease -> bool, a: BetaRelease)
    requires Distinct(s) && a in s && forall r :: r in s ==> (keep(r) <==> r == a)
    ensures Filter(s, keep) == [a]
  {
    if s[0] == a { FilterNone(s[1..], keep); } else { FilterOne(s[1..], keep, a); }
  }

  /** The two that are left, in the order of the list. */
  function LeftTwo(x: BetaRelease, odd: BetaRelease, y: BetaRelease, a: BetaRelease): (BetaRelease, BetaRelease) {
    if a == x then (x, y) else if a == odd then (x, odd) else (odd, a)
  }

  /** Which of the others the manifest names. */
  function Named(x: BetaRelease, odd: BetaRelease, y: BetaRelease, a: BetaRelease): BetaRelease {
    if a == x then y else if a == odd then x else odd
  }

  lemma BeforeDistinct(x: BetaRelease, odd: BetaRelease, y: BetaRelease, rest: seq<BetaRelease>)
    requires Distinct(Before(x, odd, y, rest))
    ensures x != odd && x != y && odd != y && x !in rest && odd !in rest && y !in rest && Distinct(rest)
  {
    var all := Before(x, odd, y, rest);
    assert all[0] == x && all[1] == odd && all[2] == y;
    assert forall i :: 0 <= i < |rest| ==> all[i + 3] == rest[i];
  }

  function OneIf(x: BetaRelease, keep: bool): seq<BetaRelease> { if keep then [x] else [] }

  lemma FilterBefore(
      x: BetaRelease, odd: BetaRelease, y: BetaRelease, rest: seq<BetaRelease>, keep: BetaRelease -> bool)
    ensures Filter(Before(x, odd, y, rest), keep) ==
            OneIf(x, keep(x)) + (OneIf(odd, keep(odd)) + (OneIf(y, keep(y)) + Filter(rest, keep)))
  {
    FilterFirst(x, [odd] + ([y] + rest), keep);
    FilterFirst(odd, [y] + rest, keep);
    FilterFirst(y, rest, keep);
  }

  lemma FilterLeftTwo(
      x: BetaRelease, odd: BetaRelease, y: BetaRelease, rest: seq<BetaRelease>, a: BetaRelease,
        both: BetaRelease -> bool)
    requires Distinct(Before(x, odd, y, rest)) && (a in {x, odd, y} || a in rest)
    requires forall r :: both(r) <==> r == a || r == Named(x, odd, y, a)
    ensures Filter(Before(x, odd, y, rest), both) == [LeftTwo(x, odd, y, a).0] + [LeftTwo(x, odd, y, a).1]
  {
    BeforeDistinct(x, odd, y, rest);
    FilterBefore(x, odd, y, rest, both);
    if a in {x, odd, y} { FilterNone(rest, both); } else { FilterOne(rest, both, a); }
  }

  /** Any sort gets two elements right. */
  lemma SortTwo(sort: Ordering, u: BetaRelease, v: BetaRelease)
    requires IsSort(sort)
    requires CompareTags(u.tag, v.tag) == 0 || (u.tag.version.Some? && v.tag.version.Some?)
    ensures sort([u] + [v]) == if NEWEST_FIRST(u, v) then [u] + [v] else [v] + [u]
  {
    SelfTie(u.tag);
    SelfTie(v.tag);
    if u.tag.version.Some? && v.tag.version.Some? { CompareAntisymmetric(u.tag.version.value, v.tag.version.value); }
    SortsConsistent(sort, [u] + [v]);
    assert ([u] + [v])[1..] == [v] && [v][1..] == [];
    assert Sort([v], NEWEST_FIRST) == [v];
    assert Insert(u, [], NEWEST_FIRST) == [u];
    assert Insert(u, [v], NEWEST_FIRST) == if NEWEST_FIRST(u, v) then [u] + [v] else [v] + [u];
  }

  /** The second pass puts the release that the first one kept last, and deletes it. */
  lemma SecondPass(
      sort: Ordering, left: seq<BetaRelease>, u: BetaRelease, v: BetaRelease, a: BetaRelease, b: BetaRelease,
        kept: set<string>)
    requires IsSort(sort) && Filter(left, IS_DEV) == [u] + [v] && kept == {b.tag.name} && a.tag.name != b.tag.name
    requires (u == a && v == b && CompareTags(b.tag, a.tag) > 0) ||
             (u == b && v == a && CompareTags(a.tag, b.tag) == 0 && CompareTags(b.tag, a.tag) == 0)
    ensures a in Pruned(sort, left, 1, kept, 0)
  {
    SortTwo(sort, u, v);
    assert DevReleases(sort, left) == [b] + [a];
    assert Drop(DevReleases(sort, left), 1) == [a];
    PrunedMember(sort, left, 1, kept, 0, a);
  }

  /** What the first pass leaves of the dev releases. */
  lemma FirstPassLeaves(
      sort: Ordering, x: BetaRelease, odd: BetaRelease, y: BetaRelease, rest: seq<BetaRelease>, a: BetaRelease,
        b: BetaRelease)
    requires IsSort(sort) && Tagged(Before(x, odd, y, rest)) && x.dev && odd.dev && y.dev
    requires DevReleases(sort, Before(x, odd, y, rest)) != [] && DevReleases(sort, Before(x, odd, y, rest))[0] == a
    requires b == Named(x, odd, y, a)
    ensures Filter(Survivors(sort, Before(x, odd, y, rest), 1, {b.tag.name}, 0), IS_DEV) ==
            [LeftTwo(x, odd, y, a).0] + [LeftTwo(x, odd, y, a).1]
  {
    var all, kept := Before(x, odd, y, rest), {b.tag.name};
    var gone := Pruned(sort, all, 1, kept, 0);
    var lives, both := (r: BetaRelease) => r !in gone, (r: BetaRelease) => r == a || r == b;
    TaggedDistinct(all);
    assert a in DevReleases(sort, all);
    DevMember(sort, all, a);
    BeforeMember(x, odd, y, rest, a);
    BeforeMember(x, odd, y, rest, b);
    forall r | r in all ensures both(r) <==> lives(r) && r.dev { FirstPass(sort, all, a, b, kept, r); }
    SameFilter(all, lives, (r: BetaRelease) => r !in gone);
    TwoFilters(all, lives, both);
    FilterLeftTwo(x, odd, y, rest, a, both);
  }

  lemma BeforeMember(x: BetaRelease, odd: BetaRelease, y: BetaRelease, rest: seq<BetaRelease>, r: BetaRelease)
    ensures r in Before(x, odd, y, rest) <==> r in {x, odd, y} || r in rest
  {
  }

  /** Whatever the sort makes of an older release, an unparsed tag and a newer
      release listed in that order, a second pass deletes the one it puts first. */
  lemma TwoPasses(sort: Ordering, x: BetaRelease, odd: BetaRelease, y: BetaRelease, rest: seq<BetaRelease>)
    requires IsSort(sort) && Tagged(Before(x, odd, y, rest)) && x.dev && odd.dev && y.dev
    requires odd.tag.version.None? && CompareTags(y.tag, x.tag) > 0
    ensures !Idempotent(sort, Before(x, odd, y, rest))
  {
    var all := Before(x, odd, y, rest);
    BeforeMember(x, odd, y, rest, x);
    DevMember(sort, all, x);
    var a := DevReleases(sort, all)[0];
    assert a in DevReleases(sort, all);
    DevMember(sort, all, a);
    var b := Named(x, odd, y, a);
    BeforeMember(x, odd, y, rest, b);
    TaggedDistinct(all);
    BeforeDistinct(x, odd, y, rest);
    NamesApart(all, a, b);
    FirstPassLeaves(sort, x, odd, y, rest, a, b);
    var left := Survivors(sort, all, 1, {b.tag.name}, 0);
    SecondPass(sort, left, LeftTwo(x, odd, y, a).0, LeftTwo(x, odd, y, a).1, a, b, {b.tag.name});
    assert Pruned(sort, left, 1, {b.tag.name}, 0) != [];
  }

  lemma NamesApart(all: seq<BetaRelease>, a: BetaRelease, b: BetaRelease)
    requires Tagged(all) && a in all && b in all && a != b
    ensures a.tag.name != b.tag.name
  {
    if a.tag.name == b.tag.name { DistinctNames(all, a, b); }
  }

  function Parsed(releases: seq<BetaRelease>): seq<BetaRelease> {
    Filter(releases, (r: BetaRelease) => r.dev && r.tag.version.Some?)
  }

  lemma ParsedMember(releases: seq<BetaRelease>, r: BetaRelease)
    ensures r in Parsed(releases) <==> r in releases && r.dev && r.tag.version.Some?
  {
    FilterMember(releases, (x: BetaRelease) => x.dev && x.tag.version.Some?, r);
  }

  /** Two dev tags that parse, the second one newer. */
  lemma TwoParsed(releases: seq<BetaRelease>) returns (x: BetaRelease, y: BetaRelease)
    requires Tagged(releases) && |Parsed(releases)| >= 2
    ensures x in releases && y in releases && x.dev && y.dev && CompareTags(y.tag, x.tag) > 0
  {
    var p, q := Parsed(releases)[0], Parsed(releases)[1];
    ParsedMember(releases, p);
    ParsedMember(releases, q);
    TaggedDistinct(releases);
    FilterDistinct(releases, (r: BetaRelease) => r.dev && r.tag.version.Some?);
    CompareAntisymmetric(p.tag.version.value, q.tag.version.value);
    if CompareTags(p.tag, q.tag) == 0 {
      TieIsSameName(p.tag, q.tag);
      DistinctNames(releases, p, q);
    }
    x, y := if CompareTags(p.tag, q.tag) < 0 then p else q, if CompareTags(p.tag, q.tag) < 0 then q else p;
  }

  /** With an unparsed dev tag beside two that parse, some order of the list
      makes the second pass delete more, whatever the engine's sort. */
  lemma OddTagSpoilsIdempotence(
      sort: Ordering, releases: seq<BetaRelease>, odd: BetaRelease) returns (other: seq<BetaRelease>)
    requires IsSort(sort)
    requires Tagged(releases) && odd in releases && odd.dev && odd.tag.version.None? && |Parsed(releases)| >= 2
    ensures multiset(other) == multiset(releases) && !Idempotent(sort, other)
  {
    var x, y := TwoParsed(releases);
    SelfTie(x.tag);
    other := Before(x, odd, y, Others(releases, x, odd, y));
    BeforeOthersPermutes(releases, x, odd, y);
    TaggedPermutes(releases, other);
    TwoPasses(sort, x, odd, y, Others(releases, x, odd, y));
  }

  lemma FewParsedTie(releases: seq<BetaRelease>)
    requires |Parsed(releases)| <= 1
    ensures Tie(releases)
  {
    forall a, b | a in releases && b in releases && a.dev && b.dev ensures CompareTags(a.tag, b.tag) == 0 {
      ParsedMember(releases, a);
      ParsedMember(releases, b);
      NotBothNewer(a.tag, a.tag);
      if a.tag.version.Some? && b.tag.version.Some? {
        assert a == b;
        CompareAntisymmetric(a.tag.version.value, a.tag.version.value);
      }
    }
  }

  /** Pruning is idempotent, whatever is kept and however the releases are
      listed, exactly when every dev tag parses or at most one does. */
  lemma PruneIsIdempotentIff(sort: Ordering, releases: seq<BetaRelease>)
    requires IsSort(sort)
    requires Tagged(releases)
    ensures IdempotentInAnyOrder(sort, releases) <==> AllParse(releases) || |Parsed(releases)| <= 1
  {
    if AllParse(releases) || |Parsed(releases)| <= 1 {
      forall other: seq<BetaRelease> | multiset(other) == multiset(releases) ensures Idempotent(sort, other) {
        SameMembers(releases, other);
        TaggedPermutes(releases, other);
        if AllParse(releases) {
          forall keep, kept, keepDesktop
            ensures Pruned(sort, Survivors(sort, other, keep, kept, keepDesktop), keep, kept, keepDesktop) == []
          {
            PruneIsIdempotent(sort, other, keep, kept, keepDesktop);
          }
        } else {
          FewParsedTie(releases);
          forall keep, kept, keepDesktop
            ensures Pruned(sort, Survivors(sort, other, keep, kept, keepDesktop), keep, kept, keepDesktop) == []
          {
            TiedIsIdempotent(sort, other, keep, kept, keepDesktop);
          }
        }
      }
    } else {
      var i :| 0 <= i < |releases| && releases[i].dev && releases[i].tag.version.None?;
      var other := OddTagSpoilsIdempotence(sort, releases, releases[i]);
    }
  }
}
