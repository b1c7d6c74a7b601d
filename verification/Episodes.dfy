/** Grouping loading indicators into episodes (`summarizeExperience` in
    scripts/perf/experience.ts). */
module Episodes {
  import opened Text
  import opened Sorting

  datatype Item = Item(start: real, ms: real, ended: bool)

  datatype Episode = Episode(start: real, ms: real, ended: bool, parts: nat)

  /** `t` is within one millisecond from `start` on. */
  predicate Within(start: real, t: real) { start <= t < start + 1.0 }

  function Max(a: real, b: real): real { if a < b then b else a }

  function Join(e: Episode, x: Item): Episode { Episode(e.start, Max(e.ms, x.ms), e.ended && x.ended, e.parts + 1) }

  function JoinSome(start: real, e: Option<Episode>, x: Item): Option<Episode> {
    if !Within(start, x.start) then e
    else if e.None? then Some(Episode(start, x.ms, x.ended, 1))
    else Some(Join(e.value, x))
  }

  /** The episode of the indicators that appear from `start` on. */
  function Made(items: seq<Item>, start: real): Option<Episode> {
    if items == [] then None else JoinSome(start, Made(items[1..], start), items[0])
  }

  /** As many parts as indicators, as long as the longest of them, and ended
      exactly when all of them did. */
  predicate Describes(e: Episode, start: real, here: seq<Item>) {
    && e.start == start && e.parts == |here|
    && (exists i :: 0 <= i < |here| && here[i].ms == e.ms)
    && (forall i :: 0 <= i < |here| ==> here[i].ms <= e.ms)
    && (e.ended <==> forall i :: 0 <= i < |here| ==> here[i].ended)
  }

  lemma JoinDescribes(e: Episode, start: real, here: seq<Item>, x: Item)
    requires Describes(e, start, here)
    ensures Describes(Join(e, x), start, [x] + here)
  {
    var longer, joined := [x] + here, Join(e, x);
    assert forall i :: 0 <= i < |here| ==> longer[i + 1] == here[i];
    assert forall i :: 1 <= i < |longer| ==> longer[i] == here[i - 1];
    var i :| 0 <= i < |here| && here[i].ms == e.ms;
    assert longer[i + 1].ms == e.ms && longer[0] == x;
  }

  function Here(items: seq<Item>, start: real): seq<Item> { Filter(items, (x: Item) => Within(start, x.start)) }

  /** The episode of a start describes the indicators that appear then. */
  lemma {:induction false} MadeMeans(items: seq<Item>, start: real)
    ensures if Made(items, start).None? then Here(items, start) == []
            else Describes(Made(items, start).value, start, Here(items, start))
  {
    if items != [] {
      MadeMeans(items[1..], start);
      var x, rest := items[0], Here(items[1..], start);
      if Within(start, x.start) {
        assert Here(items, start) == [x] + rest;
        if Made(items[1..], start).Some? {
          JoinDescribes(Made(items[1..], start).value, start, rest, x);
        } else {
          assert [x] + rest == [x] && [x][0] == x;
        }
      } else {
        assert Here(items, start) == rest;
      }
    }
  }

  predicate Starts(items: seq<Item>, t: real) { exists i :: 0 <= i < |items| && items[i].start == t }

  /** An episode starts with an indicator and is made of all that appear with it. */
  predicate Fits(items: seq<Item>, e: Episode) { Starts(items, e.start) && Made(items, e.start) == Some(e) }

  predicate AllFit(items: seq<Item>, episodes: seq<Episode>) {
    forall i :: 0 <= i < |episodes| ==> Fits(items, episodes[i])
  }

  predicate Spaced(episodes: seq<Episode>) {
    forall i, j :: 0 <= i < j < |episodes| ==> episodes[i].start + 1.0 <= episodes[j].start
  }

  predicate Covers(episodes: seq<Episode>, t: real) {
    exists i :: 0 <= i < |episodes| && Within(episodes[i].start, t)
  }

  predicate AllCovered(items: seq<Item>, episodes: seq<Episode>) {
    forall k :: 0 <= k < |items| ==> Covers(episodes, items[k].start)
  }

  /** The episodes of some indicators: in order, apart, and every indicator in
      exactly one. */
  predicate Grouping(items: seq<Item>, episodes: seq<Episode>) {
    Spaced(episodes) && AllFit(items, episodes) && AllCovered(items, episodes)
  }

  const BY_START := (a: Item, b: Item) => a.start <= b.start

  // ── The loop ──────────────────────────────────────────────────────────

  lemma {:induction false} MadeMiddle(a: seq<Item>, x: Item, b: seq<Item>, start: real)
    ensures Made(a + [x] + b, start) == JoinSome(start, Made(a + b, start), x)
  {
    if a == [] {
      assert a + [x] + b == [x] + b && a + b == b && ([x] + b)[1..] == b;
    } else {
      assert (a + [x] + b)[1..] == a[1..] + [x] + b && (a + b)[1..] == a[1..] + b;
      MadeMiddle(a[1..], x, b, start);
    }
  }

  lemma MadeAppend(items: seq<Item>, x: Item, start: real)
    ensures Made(items + [x], start) == JoinSome(start, Made(items, start), x)
  {
    MadeMiddle(items, x, [], start);
    assert items + [x] + [] == items + [x] && items + [] == items;
  }

  lemma {:induction false} MadeNone(items: seq<Item>, start: real)
    requires forall k :: 0 <= k < |items| ==> items[k].start < start
    ensures Made(items, start) == None
  {
    if items != [] { MadeNone(items[1..], start); }
  }

  lemma StartsAppend(items: seq<Item>, x: Item, t: real)
    ensures Starts(items + [x], t) <==> Starts(items, t) || x.start == t
  {
    var longer := items + [x];
    assert longer[|items|] == x;
    if Starts(items, t) {
      var i :| 0 <= i < |items| && items[i].start == t;
      assert longer[i] == items[i];
    }
  }

  lemma StaysFitting(items: seq<Item>, e: Episode, x: Item)
    requires Fits(items, e) && !Within(e.start, x.start)
    ensures Fits(items + [x], e)
  {
    MadeAppend(items, x, e.start);
    StartsAppend(items, x, e.start);
  }

  lemma JoinFits(items: seq<Item>, e: Episode, x: Item)
    requires Fits(items, e) && Within(e.start, x.start)
    ensures Fits(items + [x], Join(e, x))
  {
    MadeAppend(items, x, e.start);
    StartsAppend(items, x, e.start);
  }

  function Fresh(x: Item): Episode { Episode(x.start, x.ms, x.ended, 1) }

  lemma FreshFits(items: seq<Item>, x: Item)
    requires forall k :: 0 <= k < |items| ==> items[k].start < x.start
    ensures Fits(items + [x], Fresh(x))
  {
    MadeNone(items, x.start);
    MadeAppend(items, x, x.start);
    StartsAppend(items, x, x.start);
  }

  /** Replacing or adding the last episode keeps the earlier ones. */
  lemma EarlierFit(items: seq<Item>, episodes: seq<Episode>, x: Item, n: nat, last: Episode)
    requires AllFit(items, episodes) && n <= |episodes| && Fits(items + [x], last)
    requires forall i :: 0 <= i < n ==> !Within(episodes[i].start, x.start)
    ensures AllFit(items + [x], episodes[..n] + [last])
  {
    forall i | 0 <= i < n ensures Fits(items + [x], episodes[i]) { StaysFitting(items, episodes[i], x); }
  }

  lemma StillCovered(items: seq<Item>, a: seq<Episode>, x: Item, b: seq<Episode>)
    requires AllCovered(items, a) && |a| <= |b| && (forall i :: 0 <= i < |a| ==> b[i].start == a[i].start)
    requires b != [] && Within(b[|b| - 1].start, x.start)
    ensures AllCovered(items + [x], b)
  {
    forall k | 0 <= k < |items| ensures Covers(b, items[k].start) {
      var i :| 0 <= i < |a| && Within(a[i].start, items[k].start);
      assert Within(b[i].start, items[k].start);
    }
  }

  /** One pass of the loop, joining the last episode. */
  lemma JoinStep(items: seq<Item>, episodes: seq<Episode>, x: Item)
    requires Grouping(items, episodes) && episodes != [] && Within(episodes[|episodes| - 1].start, x.start)
    ensures Grouping(items + [x], episodes[..|episodes| - 1] + [Join(episodes[|episodes| - 1], x)])
  {
    var last := |episodes| - 1;
    JoinFits(items, episodes[last], x);
    EarlierFit(items, episodes, x, last, Join(episodes[last], x));
    StillCovered(items, episodes, x, episodes[..last] + [Join(episodes[last], x)]);
  }

  /** One pass of the loop, beginning an episode. */
  lemma FreshStep(items: seq<Item>, episodes: seq<Episode>, x: Item)
    requires Grouping(items, episodes)
    requires episodes != [] ==> episodes[|episodes| - 1].start + 1.0 <= x.start
    ensures Grouping(items + [x], episodes + [Fresh(x)])
  {
    BeforeFresh(items, episodes, x.start);
    FreshFits(items, x);
    EarlierFit(items, episodes, x, |episodes|, Fresh(x));
    assert episodes[..|episodes|] == episodes;
    StillCovered(items, episodes, x, episodes + [Fresh(x)]);
    SpacedFresh(episodes, Fresh(x));
  }

  lemma SpacedFresh(episodes: seq<Episode>, e: Episode)
    requires Spaced(episodes) && forall i :: 0 <= i < |episodes| ==> episodes[i].start + 1.0 <= e.start
    ensures Spaced(episodes + [e])
  {
  }

  lemma BeforeFresh(items: seq<Item>, episodes: seq<Episode>, t: real)
    requires Spaced(episodes) && AllCovered(items, episodes)
    requires episodes != [] ==> episodes[|episodes| - 1].start + 1.0 <= t
    ensures forall i :: 0 <= i < |episodes| ==> episodes[i].start + 1.0 <= t
    ensures forall k :: 0 <= k < |items| ==> items[k].start < t
  {
    assert forall i :: 0 <= i < |episodes| ==> episodes[i].start <= episodes[|episodes| - 1].start;
    forall k | 0 <= k < |items| ensures items[k].start < t {
      assert Covers(episodes, items[k].start);
    }
  }

  lemma LastNotLater(items: seq<Item>, n: nat, episodes: seq<Episode>)
    requires SortedBy(items, BY_START) && n < |items| && episodes != [] && AllFit(items[..n], episodes)
    ensures episodes[|episodes| - 1].start <= items[n].start
  {
    assert Fits(items[..n], episodes[|episodes| - 1]);
    var i :| 0 <= i < n && items[..n][i].start == episodes[|episodes| - 1].start;
    assert BY_START(items[i], items[n]);
  }

  /** What one pass of the loop makes of the episodes. */
  function Added(episodes: seq<Episode>, x: Item): seq<Episode> {
    var last := |episodes| - 1;
    if episodes != [] && x.start - episodes[last].start < 1.0 then episodes[..last] + [Join(episodes[last], x)]
    else episodes + [Fresh(x)]
  }

  lemma AddedGroups(items: seq<Item>, n: nat, episodes: seq<Episode>)
    requires SortedBy(items, BY_START) && n < |items| && Grouping(items[..n], episodes)
    ensures Grouping(items[..n + 1], Added(episodes, items[n]))
  {
    assert items[..n + 1] == items[..n] + [items[n]];
    if episodes != [] { LastNotLater(items, n, episodes); }
    if episodes != [] && items[n].start - episodes[|episodes| - 1].start < 1.0 {
      JoinStep(items[..n], episodes, items[n]);
    } else {
      FreshStep(items[..n], episodes, items[n]);
    }
  }

  /** The grouping loop over the sorted indicators. */
  method Group(items: seq<Item>) returns (episodes: seq<Episode>)
    requires SortedBy(items, BY_START)
    ensures Grouping(items, episodes)
  {
    episodes := [];
    for n := 0 to |items|
      invariant Grouping(items[..n], episodes)
    {
      AddedGroups(items, n, episodes);
      var x, last := items[n], |episodes| - 1;
      if episodes != [] && x.start - episodes[last].start < 1.0 {
        episodes := episodes[..last] + [Join(episodes[last], x)];
      } else {
        episodes := episodes + [Fresh(x)];
      }
    }
    assert items[..|items|] == items;
  }

  // ── What the episodes are ─────────────────────────────────────────────

  /** Sorts the indicators and groups them. */
  method FindEpisodes(items: seq<Item>) returns (episodes: seq<Episode>)
    ensures Grouping(items, episodes)
  {
    SortSorts(items, BY_START, (x: Item) => true);
    episodes := Group(Sort(items, BY_START));
    GroupingPermutes(Sort(items, BY_START), items, episodes);
  }

  lemma {:induction false} MadePermutes(s: seq<Item>, t: seq<Item>, start: real)
    requires multiset(s) == multiset(t)
    ensures Made(s, start) == Made(t, start)
  {
    assert |s| == |multiset(s)| == |multiset(t)| == |t|;
    if s != [] {
      var a, b := AroundHead(s, t);
      MadePermutes(s[1..], a + b, start);
      MadeMiddle(a, s[0], b, start);
    }
  }

  lemma StartsPermutes(s: seq<Item>, t: seq<Item>, start: real)
    requires multiset(s) == multiset(t) && Starts(s, start)
    ensures Starts(t, start)
  {
    SameMembers(s, t);
    var i :| 0 <= i < |s| && s[i].start == start;
    assert s[i] in t;
  }

  /** Whether episodes group the indicators does not depend on their order. */
  lemma {:induction false} GroupingPermutes(s: seq<Item>, t: seq<Item>, episodes: seq<Episode>)
    requires multiset(s) == multiset(t) && Grouping(s, episodes)
    ensures Grouping(t, episodes)
  {
    forall i | 0 <= i < |episodes| ensures Fits(t, episodes[i]) {
      assert Fits(s, episodes[i]);
      MadePermutes(s, t, episodes[i].start);
      StartsPermutes(s, t, episodes[i].start);
    }
    forall k | 0 <= k < |t| ensures Covers(episodes, t[k].start) {
      StartsPermutes(t, s, t[k].start);
      var j :| 0 <= j < |s| && s[j].start == t[k].start;
      assert Covers(episodes, s[j].start);
    }
  }

  /** Every episode of `a` starts within one of `b`. */
  predicate Reached(a: seq<Episode>, b: seq<Episode>) { forall k :: 0 <= k < |a| ==> Covers(b, a[k].start) }

  lemma FitsAreReached(items: seq<Item>, a: seq<Episode>, b: seq<Episode>)
    requires AllFit(items, a) && AllCovered(items, b)
    ensures Reached(a, b)
  {
    forall k | 0 <= k < |a| ensures Covers(b, a[k].start) {
      assert Fits(items, a[k]);
      var x :| 0 <= x < |items| && items[x].start == a[k].start;
      assert Covers(b, items[x].start);
    }
  }

  /** Then its `k`-th episode starts no earlier than that of `b`. */
  lemma {:induction false} NotLater(a: seq<Episode>, b: seq<Episode>, k: nat)
    requires Spaced(a) && Spaced(b) && Reached(a, b) && k < |a|
    ensures k < |b| && b[k].start <= a[k].start
  {
    assert Covers(b, a[k].start);
    var i :| 0 <= i < |b| && Within(b[i].start, a[k].start);
    if k > 0 {
      NotLater(a, b, k - 1);
      assert a[k - 1].start + 1.0 <= a[k].start;
      if i < k { assert false; }
    }
    assert k < i ==> b[k].start + 1.0 <= b[i].start;
  }

  lemma {:induction false} SameStarts(a: seq<Episode>, b: seq<Episode>)
    requires Spaced(a) && Spaced(b) && Reached(a, b) && Reached(b, a)
    ensures |a| == |b| && forall k :: 0 <= k < |a| ==> a[k].start == b[k].start
  {
    if a != [] { NotLater(a, b, |a| - 1); }
    if b != [] { NotLater(b, a, |b| - 1); }
    forall k | 0 <= k < |a| ensures a[k].start == b[k].start {
      NotLater(a, b, k);
      NotLater(b, a, k);
    }
  }

  /** The episodes are determined by which indicators there were: any two
      groupings of them, in whatever order they were recorded, are the same. */
  lemma {:induction false} EpisodesAreUnique(items: seq<Item>, other: seq<Item>, a: seq<Episode>, b: seq<Episode>)
    requires multiset(items) == multiset(other) && Grouping(items, a) && Grouping(other, b)
    ensures a == b
  {
    GroupingPermutes(other, items, b);
    FitsAreReached(items, a, b);
    FitsAreReached(items, b, a);
    SameStarts(a, b);
    forall k | 0 <= k < |a| ensures a[k] == b[k] { assert Fits(items, a[k]) && Fits(items, b[k]); }
  }

  /** Every indicator appears within one millisecond of one of the moments. */
  predicate Accounts(moments: set<real>, items: seq<Item>) {
    forall k :: 0 <= k < |items| ==> exists w :: w in moments && Within(w, items[k].start)
  }

  /** No fewer moments account for all indicators. */
  lemma {:induction false} FewestEpisodes(items: seq<Item>, episodes: seq<Episode>, moments: set<real>)
    requires Grouping(items, episodes) && Accounts(moments, items)
    ensures |episodes| <= |moments|
  {
    var chosen := MomentsOf(items, episodes, moments, |episodes|);
    SubsetSize(chosen, moments);
  }

  /** A different moment for each of the first `n` episodes, none after the last
      of them starts. */
  lemma {:induction false} MomentsOf(items: seq<Item>, episodes: seq<Episode>, moments: set<real>, n: nat)
    returns (chosen: set<real>)
    requires Grouping(items, episodes) && Accounts(moments, items) && n <= |episodes|
    ensures chosen <= moments && |chosen| == n
    ensures forall w :: w in chosen ==> n > 0 && w <= episodes[n - 1].start
  {
    chosen := {};
    if n > 0 {
      var before := MomentsOf(items, episodes, moments, n - 1);
      assert Fits(items, episodes[n - 1]);
      var x :| 0 <= x < |items| && items[x].start == episodes[n - 1].start;
      var w :| w in moments && Within(w, items[x].start);
      assert n >= 2 ==> episodes[n - 2].start + 1.0 <= episodes[n - 1].start;
      assert w !in before;
      chosen := before + {w};
    }
  }
}
