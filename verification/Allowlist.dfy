/** The allowlists of the performance guards (scripts/perf/guards.ts). */
module Allowlist {
  import opened Text
  import opened Sorting

  /** A call the guards found. */
  datatype Site = Site(site: string, kind: string)

  /** A registered call. */
  datatype Entry = Entry(site: string, kind: Option<string>, why: Option<string>)

  datatype Problem =
    | NeedsWhy(key: string)
    | NotRegistered(key: string, found: nat, registered: nat)
    | NotFound(key: string, missing: nat)
    | Grew(kind: string, after: nat, before: nat)

  /** `keyOf`: an empty kind counts as none. */
  function KeyOf(site: string, kind: Option<string>): string {
    if kind.Some? && kind.value != "" then site + " [" + kind.value + "]" else site
  }

  function SiteKey(s: Site, withKind: bool): string { KeyOf(s.site, if withKind then Some(s.kind) else None) }

  function EntryKey(e: Entry, withKind: bool): string { KeyOf(e.site, if withKind then e.kind else None) }

  function SiteKeys(sites: seq<Site>, withKind: bool): seq<string> {
    seq(|sites|, i requires 0 <= i < |sites| => SiteKey(sites[i], withKind))
  }

  function EntryKeys(list: seq<Entry>, withKind: bool): seq<string> {
    seq(|list|, i requires 0 <= i < |list| => EntryKey(list[i], withKind))
  }

  predicate HasWhy(e: Entry) { e.why.Some? && Trim(e.why.value) != "" }

  // ── Found against registered ──────────────────────────────────────────

  /** Counts how often each key occurs, as the `found` and `allowed` maps do. */
  method Tally(keys: seq<string>) returns (counts: map<string, nat>)
    ensures forall key :: (key in counts <==> key in keys) && (key in counts ==> counts[key] == multiset(keys)[key] > 0)
  {
    counts := map[];
    for n := 0 to |keys|
      invariant forall key :: key in counts <==> key in keys[..n]
      invariant forall key :: key in counts ==> counts[key] == multiset(keys[..n])[key]
    {
      assert keys[..n + 1] == keys[..n] + [keys[n]];
      var key := keys[n];
      counts := counts[key := (if key in counts then counts[key] else 0) + 1];
    }
    assert keys[..|keys|] == keys;
  }

  function CountOf(counts: map<string, nat>, key: string): nat { if key in counts then counts[key] else 0 }

  predicate Unexplained(list: seq<Entry>, withKind: bool, key: string) {
    exists e :: e in list && !HasWhy(e) && EntryKey(e, withKind) == key
  }

  /** `p` is a true problem of what was found and what is registered. */
  predicate IsProblem(
      found: multiset<string>, registered: multiset<string>, list: seq<Entry>, withKind: bool, p: Problem) {
    match p
    case NeedsWhy(key) => Unexplained(list, withKind, key)
    case NotRegistered(key, f, a) => found[key] == f && registered[key] == a && f > a
    case NotFound(key, missing) => registered[key] == found[key] + missing && missing > 0
    case Grew(_, _, _) => false
  }

  lemma UnexplainedAppend(list: seq<Entry>, e: Entry, withKind: bool, key: string)
    ensures Unexplained(list + [e], withKind, key) <==>
            Unexplained(list, withKind, key) || (!HasWhy(e) && EntryKey(e, withKind) == key)
  {
    assert e in list + [e];
    if Unexplained(list, withKind, key) {
      var x :| x in list && !HasWhy(x) && EntryKey(x, withKind) == key;
      assert x in list + [e];
    }
  }

  method Unexplaineds(list: seq<Entry>, withKind: bool) returns (problems: seq<Problem>)
    ensures forall p :: p in problems <==> p.NeedsWhy? && Unexplained(list, withKind, p.key)
  {
    problems := [];
    for n := 0 to |list|
      invariant forall p :: p in problems <==> p.NeedsWhy? && Unexplained(list[..n], withKind, p.key)
    {
      var e := list[n];
      assert list[..n + 1] == list[..n] + [e];
      forall key
        ensures Unexplained(list[..n + 1], withKind, key) <==>
                Unexplained(list[..n], withKind, key) || (!HasWhy(e) && EntryKey(e, withKind) == key)
      {
        UnexplainedAppend(list[..n], e, withKind, key);
      }
      if !HasWhy(e) { problems := problems + [NeedsWhy(EntryKey(e, withKind))]; }
    }
    assert list[..|list|] == list;
  }

  method NotRegistereds(found: map<string, nat>, allowed: map<string, nat>) returns (problems: seq<Problem>)
    ensures forall p :: p in problems <==>
              p.NotRegistered? && p.key in found && p.found == found[p.key] > p.registered == CountOf(allowed, p.key)
  {
    problems := [];
    var todo := found.Keys;
    while todo != {}
      invariant todo <= found.Keys
      invariant forall p :: p in problems <==>
                  p.NotRegistered? && p.key in found.Keys - todo &&
                    p.found == found[p.key] > p.registered == CountOf(allowed, p.key)
    {
      var key :| key in todo;
      if found[key] > CountOf(allowed, key) {
        problems := problems + [NotRegistered(key, found[key], CountOf(allowed, key))];
      }
      todo := todo - {key};
    }
  }

  method NotFounds(found: map<string, nat>, allowed: map<string, nat>) returns (problems: seq<Problem>)
    ensures forall p :: p in problems <==>
              p.NotFound? && p.key in allowed && allowed[p.key] == CountOf(found, p.key) + p.missing && p.missing > 0
  {
    problems := [];
    var todo := allowed.Keys;
    while todo != {}
      invariant todo <= allowed.Keys
      invariant forall p :: p in problems <==>
                  p.NotFound? && p.key in allowed.Keys - todo &&
                    allowed[p.key] == CountOf(found, p.key) + p.missing && p.missing > 0
    {
      var key :| key in todo;
      if allowed[key] > CountOf(found, key) {
        problems := problems + [NotFound(key, allowed[key] - CountOf(found, key))];
      }
      todo := todo - {key};
    }
  }

  /** `compareAllowlist`: exactly the true problems are reported, so none when
      found and registered keys agree, with repetitions, and every entry has a
      reason, and only then. */
  method CompareAllowlist(sites: seq<Site>, list: seq<Entry>, withKind: bool) returns (problems: seq<Problem>)
    ensures forall p :: p in problems <==>
              IsProblem(multiset(SiteKeys(sites, withKind)), multiset(EntryKeys(list, withKind)), list, withKind, p)
    ensures problems == [] <==> Accepted(sites, list, withKind)
  {
    var reasons := Unexplaineds(list, withKind);
    var found := Tally(SiteKeys(sites, withKind));
    var allowed := Tally(EntryKeys(list, withKind));
    var extras := NotRegistereds(found, allowed);
    var missing := NotFounds(found, allowed);
    problems := reasons + extras + missing;
    CountsOfTally(SiteKeys(sites, withKind), found);
    CountsOfTally(EntryKeys(list, withKind), allowed);
    NoProblemsIff(sites, list, withKind, problems);
  }

  /** Found and registered keys agree, and every entry says why. */
  predicate Accepted(sites: seq<Site>, list: seq<Entry>, withKind: bool) {
    && multiset(SiteKeys(sites, withKind)) == multiset(EntryKeys(list, withKind))
    && forall e :: e in list ==> HasWhy(e)
  }

  /** A list without kinds is accepted exactly when the sites found are the ones
      registered, as often, whatever their kinds, and every entry says why. */
  lemma AcceptedBySite(sites: seq<Site>, list: seq<Entry>)
    ensures Accepted(sites, list, false) <==>
            && multiset(seq(|sites|, i requires 0 <= i < |sites| => sites[i].site)) ==
               multiset(seq(|list|, i requires 0 <= i < |list| => list[i].site))
            && forall e :: e in list ==> e.why.Some? && Trim(e.why.value) != ""
  {
    assert SiteKeys(sites, false) == seq(|sites|, i requires 0 <= i < |sites| => sites[i].site);
    assert EntryKeys(list, false) == seq(|list|, i requires 0 <= i < |list| => list[i].site);
  }

  lemma CountsOfTally(keys: seq<string>, counts: map<string, nat>)
    requires forall key ::
               && (key in counts <==> key in keys)
               && (key in counts ==> counts[key] == multiset(keys)[key] > 0)
    ensures forall key :: CountOf(counts, key) == multiset(keys)[key]
  {
  }

  lemma NoProblemsIff(sites: seq<Site>, list: seq<Entry>, withKind: bool, problems: seq<Problem>)
    requires forall p :: p in problems <==>
               IsProblem(multiset(SiteKeys(sites, withKind)), multiset(EntryKeys(list, withKind)), list, withKind, p)
    ensures problems == [] <==> Accepted(sites, list, withKind)
  {
    var s, t := multiset(SiteKeys(sites, withKind)), multiset(EntryKeys(list, withKind));
    if problems == [] {
      assert forall p :: !IsProblem(s, t, list, withKind, p);
      forall key ensures s[key] == t[key] {
        assert !IsProblem(s, t, list, withKind, NotRegistered(key, s[key], t[key]));
        assert !IsProblem(s, t, list, withKind, NotFound(key, if t[key] > s[key] then t[key] - s[key] else 1));
      }
      forall e | e in list
        ensures HasWhy(e)
      {
        assert !IsProblem(s, t, list, withKind, NeedsWhy(EntryKey(e, withKind)));
      }
    } else {
      var p := problems[0];
      assert p in problems;
      assert IsProblem(s, t, list, withKind, p);
    }
  }

  // ── The ratchet ───────────────────────────────────────────────────────

  function CountKind(list: seq<Entry>, kind: string): nat {
    if list == [] then 0 else CountKind(list[1..], kind) + if list[0].kind == Some(kind) then 1 else 0
  }

  function KindOf(e: Entry): string { if e.kind.Some? then e.kind.value else "" }

  /** `compareShrinkOnly`: a problem for each kind of the head list that has more
      entries there than at the base. */
  method CompareShrinkOnly(head: seq<Entry>, base: seq<Entry>) returns (problems: seq<Problem>)
    ensures forall p :: p in problems <==>
              p.Grew? && p.after == CountKind(head, p.kind) > p.before == CountKind(base, p.kind)
    ensures problems == [] <==> forall kind :: CountKind(head, kind) <= CountKind(base, kind)
  {
    problems := [];
    var kinds := set i | 0 <= i < |head| :: KindOf(head[i]);
    var todo := kinds;
    while todo != {}
      invariant todo <= kinds
      invariant forall p :: p in problems <==>
                  p.Grew? && p.kind in kinds - todo &&
                    p.after == CountKind(head, p.kind) > p.before == CountKind(base, p.kind)
    {
      var kind :| kind in todo;
      var after, before := CountKind(head, kind), CountKind(base, kind);
      if after > before { problems := problems + [Grew(kind, after, before)]; }
      todo := todo - {kind};
    }
    forall kind | CountKind(head, kind) > 0 ensures kind in kinds { CountedKind(head, kind); }
    forall kind | CountKind(head, kind) > CountKind(base, kind)
      ensures Grew(kind, CountKind(head, kind), CountKind(base, kind)) in problems { }
    if problems != [] { assert problems[0] in problems; }
  }

  lemma {:induction false} CountedKind(list: seq<Entry>, kind: string)
    requires CountKind(list, kind) > 0
    ensures exists i :: 0 <= i < |list| && KindOf(list[i]) == kind
  {
    if list[0].kind == Some(kind) {
      assert KindOf(list[0]) == kind;
    } else {
      CountedKind(list[1..], kind);
      var i :| 0 <= i < |list[1..]| && KindOf(list[1..][i]) == kind;
      assert KindOf(list[i + 1]) == kind;
    }
  }

  function Calls(sites: seq<Site>, kind: string): nat {
    if sites == [] then 0 else Calls(sites[1..], kind) + if sites[0].kind == kind then 1 else 0
  }

  /** A kind that can be read back off a key. */
  predicate Plain(kind: string) { kind != "" && '[' !in kind }

  predicate PlainKinds(list: seq<Entry>) { forall e :: e in list ==> e.kind.Some? && Plain(e.kind.value) }

  predicate PlainSites(sites: seq<Site>) { forall s :: s in sites ==> Plain(s.kind) }

  /** The key says the kind. */
  predicate SaysKind(key: string, kind: string) {
    |key| >= |kind| + 3 && key[|key| - |kind| - 3..] == " [" + kind + "]"
  }

  /** A plain kind is read off a key exactly when it is the key's kind. */
  lemma KeySaysItsKind(site: string, kind: string, asked: string)
    requires Plain(kind) && Plain(asked)
    ensures SaysKind(KeyOf(site, Some(kind)), asked) <==> asked == kind
  {
    var key := KeyOf(site, Some(kind));
    LastBracket(site, kind);
    assert key[|site|..] == " [" + kind + "]";
    if SaysKind(key, asked) {
      var at := |key| - |asked| - 3;
      assert key == key[..at] + " [" + asked + "]";
      LastBracket(key[..at], asked);
      assert at + 1 <= |site| + 1 && |site| + 1 <= at + 1;
      var tail := key[at..];
      assert tail[2..|tail| - 1] == asked && (" [" + kind + "]")[2..|tail| - 1] == kind;
    }
  }

  /** The last opening bracket of a key stands right before its plain kind. */
  lemma LastBracket(head: string, kind: string)
    requires Plain(kind)
    ensures var key := head + " [" + kind + "]";
            key[|head| + 1] == '[' && forall i :: |head| + 1 < i < |key| ==> key[i] != '['
  {
    var key := head + " [" + kind + "]";
    forall i | |head| + 1 < i < |key| ensures key[i] != '[' {
      if i < |key| - 1 { assert key[i] == kind[i - |head| - 2]; }
    }
  }

  function Saying(keys: seq<string>, kind: string): nat {
    if keys == [] then 0 else Saying(keys[1..], kind) + if SaysKind(keys[0], kind) then 1 else 0
  }

  lemma {:induction false} SayingMiddle(a: seq<string>, key: string, b: seq<string>, kind: string)
    ensures Saying(a + [key] + b, kind) == Saying(a + b, kind) + if SaysKind(key, kind) then 1 else 0
  {
    if a == [] {
      assert a + [key] + b == [key] + b && a + b == b && ([key] + b)[1..] == b;
    } else {
      assert (a + [key] + b)[1..] == a[1..] + [key] + b && (a + b)[1..] == a[1..] + b;
      SayingMiddle(a[1..], key, b, kind);
    }
  }

  lemma {:induction false} SayingPermutes(s: seq<string>, t: seq<string>, kind: string)
    requires multiset(s) == multiset(t)
    ensures Saying(s, kind) == Saying(t, kind)
  {
    assert |s| == |multiset(s)| == |multiset(t)| == |t|;
    if s != [] {
      SameMembers(s, t);
      assert s[0] in t;
      var i :| 0 <= i < |t| && t[i] == s[0];
      var a, b := t[..i], t[i + 1..];
      assert t == a + [s[0]] + b;
      TailMultiset(s);
      assert multiset(t) == multiset(a + b) + multiset{s[0]};
      SayingPermutes(s[1..], a + b, kind);
      SayingMiddle(a, s[0], b, kind);
    }
  }

  lemma {:induction false} SitesSaying(sites: seq<Site>, kind: string)
    requires PlainSites(sites) && Plain(kind)
    ensures Saying(SiteKeys(sites, true), kind) == Calls(sites, kind)
  {
    if sites != [] {
      assert sites[0] in sites;
      SitesSaying(sites[1..], kind);
      KeySaysItsKind(sites[0].site, sites[0].kind, kind);
      assert SiteKeys(sites, true)[1..] == SiteKeys(sites[1..], true);
    }
  }

  lemma {:induction false} EntriesSaying(list: seq<Entry>, kind: string)
    requires PlainKinds(list) && Plain(kind)
    ensures Saying(EntryKeys(list, true), kind) == CountKind(list, kind)
  {
    if list != [] {
      assert list[0] in list;
      EntriesSaying(list[1..], kind);
      KeySaysItsKind(list[0].site, list[0].kind.value, kind);
      assert EntryKeys(list, true)[1..] == EntryKeys(list[1..], true);
    }
  }

  /** With plain kinds, an accepted list has as many entries of a kind as there
      are calls of that kind. */
  lemma AcceptedCountsCalls(sites: seq<Site>, list: seq<Entry>, kind: string)
    requires PlainSites(sites) && PlainKinds(list) && Plain(kind) && Accepted(sites, list, true)
    ensures Calls(sites, kind) == CountKind(list, kind)
  {
    SayingPermutes(SiteKeys(sites, true), EntryKeys(list, true), kind);
    SitesSaying(sites, kind);
    EntriesSaying(list, kind);
  }

  /** Whether a key says a plain kind depends on the entry's kind alone, even
      when that contains brackets. */
  lemma SaysByKind(site: string, kind: string, asked: string)
    requires kind != "" && Plain(asked)
    ensures SaysKind(KeyOf(site, Some(kind)), asked) <==> SaysKind(KeyOf("", Some(kind)), asked)
  {
    var tail := " [" + kind + "]";
    var key := site + tail;
    assert KeyOf(site, Some(kind)) == key && KeyOf("", Some(kind)) == tail;
    var at := |key| - |asked| - 3;
    if at >= |site| {
      assert key[at..] == tail[at - |site|..];
    } else if at >= 0 {
      assert key[at..][|site| + 1 - at] == key[|site| + 1] == '[';
      assert (" [" + asked + "]")[|site| + 1 - at] == asked[|site| - 1 - at];
    }
  }

  /** The keys of the entries' kinds, without their sites. */
  function Bare(list: seq<Entry>): seq<string> {
    seq(|list|, i requires 0 <= i < |list| => KeyOf("", list[i].kind))
  }

  predicate HaveKinds(list: seq<Entry>) { forall e :: e in list ==> e.kind.Some? && e.kind.value != "" }

  lemma {:induction false} BareSaying(list: seq<Entry>, kind: string)
    requires HaveKinds(list) && Plain(kind)
    ensures Saying(EntryKeys(list, true), kind) == Saying(Bare(list), kind)
  {
    if list != [] {
      assert list[0] in list;
      BareSaying(list[1..], kind);
      SaysByKind(list[0].site, list[0].kind.value, kind);
      assert EntryKeys(list, true)[1..] == EntryKeys(list[1..], true);
      assert Bare(list)[1..] == Bare(list[1..]);
    }
  }

  lemma {:induction false} BareCounts(list: seq<Entry>, kind: string)
    requires HaveKinds(list) && kind != ""
    ensures multiset(Bare(list))[KeyOf("", Some(kind))] == CountKind(list, kind)
  {
    if list != [] {
      assert list[0] in list;
      BareCounts(list[1..], kind);
      assert Bare(list) == [KeyOf("", list[0].kind)] + Bare(list[1..]);
      BareInjective(list[0].kind.value, kind);
    }
  }

  lemma BareInjective(a: string, b: string)
    requires a != "" && b != ""
    ensures KeyOf("", Some(a)) == KeyOf("", Some(b)) <==> a == b
  {
    var x, y := KeyOf("", Some(a)), KeyOf("", Some(b));
    assert x[2..|x| - 1] == a && y[2..|y| - 1] == b;
  }

  lemma {:induction false} FewerSaying(a: seq<string>, b: seq<string>, kind: string)
    requires multiset(a) <= multiset(b)
    ensures Saying(a, kind) <= Saying(b, kind)
  {
    if a != [] {
      assert a[0] in multiset(a) && a[0] in b;
      var i :| 0 <= i < |b| && b[i] == a[0];
      var front, back := b[..i], b[i + 1..];
      assert b == front + [a[0]] + back;
      TailMultiset(a);
      assert multiset(b) == multiset(front + back) + multiset{a[0]};
      FewerSaying(a[1..], front + back, kind);
      SayingMiddle(front, a[0], back, kind);
    }
  }

  /** A list that has no more entries of any kind has no more that say a kind. */
  lemma ShrunkSaying(head: seq<Entry>, base: seq<Entry>, kind: string)
    requires HaveKinds(head) && HaveKinds(base) && Plain(kind)
    requires forall k :: CountKind(head, k) <= CountKind(base, k)
    ensures Saying(EntryKeys(head, true), kind) <= Saying(EntryKeys(base, true), kind)
  {
    forall key ensures multiset(Bare(head))[key] <= multiset(Bare(base))[key] {
      if key in Bare(head) {
        var i :| 0 <= i < |head| && Bare(head)[i] == key;
        assert head[i] in head;
        BareCounts(head, head[i].kind.value);
        BareCounts(base, head[i].kind.value);
      }
    }
    FewerSaying(Bare(head), Bare(base), kind);
    BareSaying(head, kind);
    BareSaying(base, kind);
  }

  const HAS_KIND := (e: Entry) => e.kind.Some? && e.kind.value != ""

  /** The entries that have a kind, of a list that may have others. */
  function Kinded(list: seq<Entry>): seq<Entry> { Filter(list, HAS_KIND) }

  lemma KindedHaveKinds(list: seq<Entry>)
    ensures HaveKinds(Kinded(list))
  {
    forall e | e in Kinded(list) ensures HAS_KIND(e) { FilterMember(list, HAS_KIND, e); }
  }

  lemma {:induction false} KindedCounts(list: seq<Entry>, kind: string)
    requires Plain(kind)
    ensures forall k :: k != "" ==> CountKind(Kinded(list), k) == CountKind(list, k)
    ensures Saying(EntryKeys(Kinded(list), true), kind) <= Saying(EntryKeys(list, true), kind)
  {
    if list != [] {
      var rest := Kinded(list[1..]);
      KindedCounts(list[1..], kind);
      assert EntryKeys(list, true)[1..] == EntryKeys(list[1..], true);
      if HAS_KIND(list[0]) {
        assert Kinded(list) == [list[0]] + rest && Kinded(list)[1..] == rest;
        assert EntryKeys(Kinded(list), true)[1..] == EntryKeys(rest, true);
      } else {
        assert Kinded(list) == rest;
      }
    }
  }

  /** One commit: the calls in its source and its catalog list. */
  datatype Commit = Commit(sites: seq<Site>, list: seq<Entry>)

  /** The commit passes the allowlist check, and builders' names are plain. */
  predicate Sound(c: Commit) { Accepted(c.sites, c.list, true) && PlainSites(c.sites) }

  /** The list passes the shrink-only check against that of `base`. */
  ghost predicate Shrinks(head: Commit, base: Commit) {
    forall kind :: CountKind(head.list, kind) <= CountKind(base.list, kind)
  }

  lemma AcceptedSaying(c: Commit, kind: string)
    requires Sound(c) && Plain(kind)
    ensures Calls(c.sites, kind) == Saying(EntryKeys(c.list, true), kind)
  {
    SayingPermutes(SiteKeys(c.sites, true), EntryKeys(c.list, true), kind);
    SitesSaying(c.sites, kind);
  }

  lemma {:induction false} NoEmptyKind(list: seq<Entry>)
    requires HaveKinds(list)
    ensures CountKind(list, "") == 0
  {
    if list != [] {
      assert list[0] in list;
      NoEmptyKind(list[1..]);
    }
  }

  /** One step of the ratchet, from any list to one whose entries have kinds. */
  lemma RatchetStep(head: Commit, base: Commit, kind: string)
    requires Sound(head) && Sound(base) && HaveKinds(head.list) && Shrinks(head, base) && Plain(kind)
    ensures Calls(head.sites, kind) <= Calls(base.sites, kind)
  {
    AcceptedSaying(head, kind);
    AcceptedSaying(base, kind);
    KindedHaveKinds(base.list);
    KindedCounts(base.list, kind);
    NoEmptyKind(head.list);
    ShrunkSaying(head.list, Kinded(base.list), kind);
  }

  lemma {:induction false} CountKindUpdate(list: seq<Entry>, i: nat, e: Entry, kind: string)
    requires i < |list| && e.kind == list[i].kind
    ensures CountKind(list[i := e], kind) == CountKind(list, kind)
  {
    if i > 0 {
      CountKindUpdate(list[1..], i - 1, e, kind);
      assert list[i := e][1..] == list[1..][i - 1 := e];
    } else {
      assert list[0 := e][1..] == list[1..];
    }
  }

  lemma {:induction false} CallsUpdate(sites: seq<Site>, i: nat, s: Site, kind: string)
    requires i < |sites|
    ensures Calls(sites[i := s], kind) + (if sites[i].kind == kind then 1 else 0) ==
            Calls(sites, kind) + if s.kind == kind then 1 else 0
  {
    if i > 0 {
      CallsUpdate(sites[1..], i - 1, s, kind);
      assert sites[i := s][1..] == sites[1..][i - 1 := s];
    } else {
      assert sites[0 := s][1..] == sites[1..];
    }
  }

  /** Replacing a call and the entry that admits it by others of one key keeps the
      commit accepted. */
  lemma SwapKeepsSound(c: Commit, j: nat, s: Site, i: nat, e: Entry)
    requires Sound(c) && j < |c.sites| && i < |c.list| && SiteKey(c.sites[j], true) == EntryKey(c.list[i], true)
    requires Plain(s.kind) && HasWhy(e) && SiteKey(s, true) == EntryKey(e, true)
    ensures Sound(Commit(c.sites[j := s], c.list[i := e]))
  {
    var sites, list := c.sites[j := s], c.list[i := e];
    assert SiteKeys(sites, true) == SiteKeys(c.sites, true)[j := SiteKey(s, true)];
    assert EntryKeys(list, true) == EntryKeys(c.list, true)[i := EntryKey(e, true)];
    forall x | x in list ensures HasWhy(x) { assert x == e || x in c.list; }
    forall x | x in sites ensures Plain(x.kind) { assert x == s || x in c.sites; }
  }

  /** An entry without a kind may have admitted another call at the base. */
  lemma KindlessBase(head: Commit, i: nat) returns (base: Commit, kind: string)
    requires Sound(head) && i < |head.list| && !HAS_KIND(head.list[i])
    ensures Sound(base) && Shrinks(head, base) && Plain(kind)
    ensures Calls(head.sites, kind) > Calls(base.sites, kind)
  {
    var entry := head.list[i];
    assert EntryKeys(head.list, true)[i] == EntryKey(entry, true);
    SameMembers(SiteKeys(head.sites, true), EntryKeys(head.list, true));
    assert EntryKey(entry, true) in EntryKeys(head.list, true);
    var j :| 0 <= j < |head.sites| && SiteKeys(head.sites, true)[j] == EntryKey(entry, true);
    var site := head.sites[j];
    assert site in head.sites && entry in head.list;
    kind := site.kind;
    var other := Site(site.site, if kind == "a" then "b" else "a");
    var e := Entry(SiteKey(other, true), entry.kind, entry.why);
    base := Commit(head.sites[j := other], head.list[i := e]);
    SwapKeepsSound(head, j, other, i, e);
    CallsUpdate(head.sites, j, other, kind);
    forall k ensures CountKind(base.list, k) == CountKind(head.list, k) { CountKindUpdate(head.list, i, e, k); }
  }

  /** Whatever commit it passes against, the head has no more calls of any kind. */
  ghost predicate Ratchets(head: Commit) {
    forall base, kind :: Sound(base) && Shrinks(head, base) && Plain(kind) ==>
                           Calls(head.sites, kind) <= Calls(base.sites, kind)
  }

  /** A commit that passes the allowlist check cannot hide a new call, whatever base
      it also passes the shrink-only check against, exactly when all its entries
      have a kind. */
  lemma RatchetsIff(head: Commit)
    requires Sound(head)
    ensures Ratchets(head) <==> HaveKinds(head.list)
  {
    if HaveKinds(head.list) {
      forall base, kind | Sound(base) && Shrinks(head, base) && Plain(kind)
        ensures Calls(head.sites, kind) <= Calls(base.sites, kind)
      {
        RatchetStep(head, base, kind);
      }
    } else {
      var e :| e in head.list && !HAS_KIND(e);
      var i :| 0 <= i < |head.list| && head.list[i] == e;
      var base, kind := KindlessBase(head, i);
    }
  }

  /** Every commit passes the allowlist check, and from the second on the
      shrink-only check against the one before, with a kind on every entry. */
  ghost predicate Passing(commits: seq<Commit>) {
    && (forall i :: 0 <= i < |commits| ==> Sound(commits[i]))
    && (forall i :: 0 < i < |commits| ==> HaveKinds(commits[i].list) && Shrinks(commits[i], commits[i - 1]))
  }

  /** The ratchet: along any chain of passing commits the calls of a kind never
      increase, whatever was renamed or moved on the way. */
  lemma {:induction false} CallsNeverIncrease(commits: seq<Commit>, i: nat, j: nat, kind: string)
    requires Passing(commits) && i <= j < |commits| && Plain(kind)
    ensures Calls(commits[j].sites, kind) <= Calls(commits[i].sites, kind)
    decreases j
  {
    if i < j {
      RatchetStep(commits[j], commits[j - 1], kind);
      CallsNeverIncrease(commits, i, j - 1, kind);
    }
  }

  /** Entries without a kind escape it: registering a new call of any kind under
      its bracketed key, without a kind, passes both checks. */
  lemma KindlessEntryEscapes(sites: seq<Site>, list: seq<Entry>, site: string, kind: string, why: string)
    requires Accepted(sites, list, true) && Plain(kind) && Trim(why) != ""
    ensures var entry := Entry(KeyOf(site, Some(kind)), None, Some(why));
            && Accepted(sites + [Site(site, kind)], list + [entry], true)
            && (forall k :: CountKind(list + [entry], k) <= CountKind(list, k))
            && Calls(sites + [Site(site, kind)], kind) == Calls(sites, kind) + 1
  {
    var entry := Entry(KeyOf(site, Some(kind)), None, Some(why));
    assert SiteKeys(sites + [Site(site, kind)], true) == SiteKeys(sites, true) + [KeyOf(site, Some(kind))];
    assert EntryKeys(list + [entry], true) == EntryKeys(list, true) + [KeyOf(site, Some(kind))];
    forall k ensures CountKind(list + [entry], k) == CountKind(list, k) { KindlessNotCounted(list, entry, k); }
    CallsAppend(sites, Site(site, kind), kind);
  }

  lemma {:induction false} KindlessNotCounted(list: seq<Entry>, e: Entry, kind: string)
    requires e.kind.None?
    ensures CountKind(list + [e], kind) == CountKind(list, kind)
  {
    if list == [] {
      assert list + [e] == [e] && [e][1..] == [];
    } else {
      assert (list + [e])[1..] == list[1..] + [e];
      KindlessNotCounted(list[1..], e, kind);
    }
  }

  lemma {:induction false} CallsAppend(sites: seq<Site>, s: Site, kind: string)
    ensures Calls(sites + [s], kind) == Calls(sites, kind) + if s.kind == kind then 1 else 0
  {
    if sites == [] {
      assert sites + [s] == [s] && [s][1..] == [];
    } else {
      assert (sites + [s])[1..] == sites[1..] + [s];
      CallsAppend(sites[1..], s, kind);
    }
  }
}
