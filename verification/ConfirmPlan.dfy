/** What a confirmation run re-times (`confirmationPlan` in scripts/perf/gate.ts)
    and what click-trace accepts (scripts/perf/click-trace.ts). */
module ConfirmPlan {
  import opened Text
  import opened Sorting

  /** What a regression's id names: kind, then for clicks and passes network and
      pass. */
  datatype Suspect = Suspect(kind: string, network: string, pass: string)

  function Rest(s: Option<string>): string { if s.Some? then s.value else "" }

  /** The first three parts of an id between colons. */
  function ReadId(id: string): Suspect {
    var (kind, afterKind) := Cut(id, ':');
    var (network, afterNetwork) := Cut(Rest(afterKind), ':');
    Suspect(kind, network, Cut(Rest(afterNetwork), ':').0)
  }

  /** An id of `compare` reads back, whatever the journey's name, if it has one. */
  lemma IdReadsBack(x: Suspect, journey: Option<string>)
    requires Without(x.kind, ':') && Without(x.network, ':') && Without(x.pass, ':')
    ensures ReadId(Paste(x.kind, ':', Some(Paste(x.network, ':', Some(Paste(x.pass, ':', journey)))))) == x
  {
    CutPaste(x.pass, ':', journey);
    CutPaste(x.network, ':', Some(Paste(x.pass, ':', journey)));
    CutPaste(x.kind, ':', Some(Paste(x.network, ':', Some(Paste(x.pass, ':', journey)))));
  }

  /** One entry of the plan: a network with its passes, or the server. */
  datatype Entry = Entry(network: string, passes: string)

  const SERVER := "server"

  /** The passes click-trace knows, in the plan's order. */
  const ORDER := ["cold", "first", "warm", "revisit", "reopen", "idle"]

  /** click-trace's rule on `--passes`: only known passes, and warm, revisit or
      idle only together with first. */
  predicate Accepts(passes: seq<string>) {
    && (forall p :: p in passes ==> p in ORDER)
    && ("first" in passes || forall p :: p in passes ==> p !in {"warm", "revisit", "idle"})
  }

  /** What a click or pass suspect asks for. */
  function Wanted(pass: string): set<string> {
    {pass} + if pass != "cold" && pass != "first" then {"first"} else {}
  }

  /** A click or pass suspect of the network has this pass, or one that builds on
      first visits when this is `first`. */
  predicate Asked(regressions: seq<Suspect>, network: string, p: string) {
    exists x :: x in regressions && x.kind != SERVER && x.network == network &&
      (x.pass == p || (p == "first" && x.pass != "cold"))
  }

  lemma AskedMore(regressions: seq<Suspect>, x: Suspect, network: string, p: string)
    ensures Asked(regressions + [x], network, p) <==>
            Asked(regressions, network, p) || Asked([x], network, p)
    ensures Asked([x], network, p) <==> x.kind != SERVER && x.network == network && p in Wanted(x.pass)
  {
    assert x in [x];
    assert forall y :: y in regressions + [x] <==> y in regressions || y in [x];
  }

  function PassList(wanted: set<string>): seq<string> { Filter(ORDER, (p: string) => p in wanted) }

  /** The collecting loop: networks in the order they turn up, each with the
      passes to re-time. */
  method Collect(regressions: seq<Suspect>) returns (passes: map<string, set<string>>)
    ensures forall x :: x in regressions ==>
              if x.kind == SERVER then SERVER in passes
              else x.network in passes && (x.network != SERVER ==> Wanted(x.pass) <= passes[x.network])
    ensures forall network :: network in passes && network != SERVER ==>
              && (passes[network] == {"cold"} || "first" in passes[network])
              && (forall p :: p in passes[network] <==> Asked(regressions, network, p))
              && exists x :: x in regressions && x.kind != SERVER && x.network == network
    ensures SERVER in passes ==> exists x :: x in regressions && (x.kind == SERVER || x.network == SERVER)
  {
    passes := map[];
    for n := 0 to |regressions|
      invariant Collected(regressions[..n], passes)
    {
      var x := regressions[n];
      assert regressions[..n + 1] == regressions[..n] + [x];
      CollectOne(regressions[..n], x, passes);
      if x.kind == SERVER {
        passes := passes[SERVER := {}];
      } else {
        var have := if x.network in passes then passes[x.network] else {};
        passes := passes[x.network := have + Wanted(x.pass)];
      }
    }
    assert regressions[..|regressions|] == regressions;
    CollectedMeans(regressions, passes);
  }

  /** A suspect that is re-timed in the network. */
  predicate Suspected(regressions: seq<Suspect>, network: string) {
    exists x :: x in regressions && x.kind != SERVER && x.network == network
  }

  ghost predicate Collected(regressions: seq<Suspect>, passes: map<string, set<string>>) {
    && (SERVER in passes <==> exists x :: x in regressions && (x.kind == SERVER || x.network == SERVER))
    && (forall network :: network != SERVER ==> (network in passes <==> Suspected(regressions, network)))
    && (forall network, p :: network in passes && network != SERVER ==>
          (p in passes[network] <==> Asked(regressions, network, p)))
  }

  lemma CollectOne(regressions: seq<Suspect>, x: Suspect, passes: map<string, set<string>>)
    requires Collected(regressions, passes)
    ensures x.kind == SERVER ==> Collected(regressions + [x], passes[SERVER := {}])
    ensures x.kind != SERVER ==>
              var have := if x.network in passes then passes[x.network] else {};
              Collected(regressions + [x], passes[x.network := have + Wanted(x.pass)])
  {
    assert forall y :: y in regressions + [x] <==> y in regressions || y == x;
    forall network, p { AskedMore(regressions, x, network, p); }
  }

  lemma CollectedMeans(regressions: seq<Suspect>, passes: map<string, set<string>>)
    requires Collected(regressions, passes)
    ensures forall x :: x in regressions ==>
              if x.kind == SERVER then SERVER in passes
              else x.network in passes && (x.network != SERVER ==> Wanted(x.pass) <= passes[x.network])
    ensures forall network :: network in passes && network != SERVER ==>
              passes[network] == {"cold"} || "first" in passes[network]
  {
    forall x | x in regressions && x.kind != SERVER && x.network != SERVER
      ensures x.network in passes && Wanted(x.pass) <= passes[x.network]
    {
      assert Suspected(regressions, x.network);
      forall p | p in Wanted(x.pass) ensures p in passes[x.network] { assert Asked(regressions, x.network, p); }
    }
    forall network | network in passes && network != SERVER && "first" !in passes[network]
      ensures passes[network] == {"cold"}
    {
      assert !Asked(regressions, network, "first");
      var x :| x in regressions && x.kind != SERVER && x.network == network;
      assert x.pass == "cold" && Asked(regressions, network, "cold");
      forall p | p in passes[network] ensures p == "cold" { assert Asked(regressions, network, p); }
    }
  }

  /** One entry per network. */
  method Entries(lines: map<string, string>) returns (plan: seq<Entry>)
    ensures forall network :: network in lines ==> Entry(network, lines[network]) in plan
    ensures forall e :: e in plan ==> e.network in lines && e.passes == lines[e.network]
    ensures forall i, j :: 0 <= i < j < |plan| ==> plan[i].network != plan[j].network
  {
    plan := [];
    var todo := lines.Keys;
    while todo != {}
      invariant todo <= lines.Keys
      invariant forall network :: network in lines.Keys - todo ==> Entry(network, lines[network]) in plan
      invariant forall e :: e in plan ==> e.network in lines.Keys - todo && e.passes == lines[e.network]
      invariant forall i, j :: 0 <= i < j < |plan| ==> plan[i].network != plan[j].network
    {
      var network :| network in todo;
      assert forall i :: 0 <= i < |plan| ==> plan[i] in plan;
      plan := plan + [Entry(network, lines[network])];
      todo := todo - {network};
    }
  }

  function PassText(wanted: set<string>): string { Join(PassList(wanted), ',') }

  predicate Retimes(plan: seq<Entry>, x: Suspect) {
    exists e :: e in plan && e.network == x.network && x.pass in Split(e.passes, ',')
  }

  /** `confirmationPlan`: every suspect is re-timed, a route's server as such, a
      click or pass with its network and pass; and every entry for a network
      comes from a suspect and is one click-trace accepts. */
  method Plan(regressions: seq<Suspect>) returns (plan: seq<Entry>)
    ensures forall x :: x in regressions && x.kind == SERVER ==> exists e :: e in plan && e.network == SERVER
    ensures forall x :: x in regressions && x.kind != SERVER && x.network != SERVER && x.pass in ORDER ==>
            Retimes(plan, x)
    ensures forall e :: e in plan && e.network != SERVER ==>
              && Accepts(Split(e.passes, ','))
              && (forall p :: p in Split(e.passes, ',') <==> p in ORDER && Asked(regressions, e.network, p))
              && exists x :: x in regressions && x.kind != SERVER && x.network == e.network
    ensures forall i, j :: 0 <= i < j < |plan| ==> plan[i].network != plan[j].network
  {
    var passes := Collect(regressions);
    var lines := map network | network in passes :: PassText(passes[network]);
    plan := Entries(lines);
    forall x | x in regressions && x.kind == SERVER ensures exists e :: e in plan && e.network == SERVER {
      assert Entry(SERVER, lines[SERVER]) in plan;
    }
    forall x | x in regressions && x.kind != SERVER && x.network != SERVER && x.pass in ORDER ensures Retimes(plan, x) {
      WantedPassListed(passes[x.network], x.pass);
      assert Entry(x.network, lines[x.network]) in plan;
    }
    forall e | e in plan && e.network != SERVER
      ensures Accepts(Split(e.passes, ','))
      ensures forall p :: p in Split(e.passes, ',') <==> p in ORDER && Asked(regressions, e.network, p)
    {
      PassListMeans(passes[e.network]);
      PassListAccepted(passes[e.network]);
    }
  }

  function ReadIds(ids: seq<string>): seq<Suspect> {
    seq(|ids|, i requires 0 <= i < |ids| => ReadId(ids[i]))
  }

  /** `confirmationPlan` on the ids of the regressions. */
  method PlanForIds(ids: seq<string>) returns (plan: seq<Entry>)
    ensures forall id :: id in ids && ReadId(id).kind == SERVER ==> exists e :: e in plan && e.network == SERVER
    ensures forall id ::
              id in ids && ReadId(id).kind != SERVER && ReadId(id).network != SERVER && ReadId(id).pass in ORDER ==>
              Retimes(plan, ReadId(id))
    ensures forall e :: e in plan && e.network != SERVER ==>
              && Accepts(Split(e.passes, ','))
              && exists id :: id in ids && ReadId(id).kind != SERVER && ReadId(id).network == e.network
  {
    plan := Plan(ReadIds(ids));
    forall id | id in ids ensures ReadId(id) in ReadIds(ids) {
      var i :| 0 <= i < |ids| && ids[i] == id;
      assert ReadIds(ids)[i] == ReadId(id);
    }
    forall e | e in plan && e.network != SERVER
      ensures exists id :: id in ids && ReadId(id).kind != SERVER && ReadId(id).network == e.network
    {
      var x :| x in ReadIds(ids) && x.kind != SERVER && x.network == e.network;
      var i :| 0 <= i < |ids| && ReadIds(ids)[i] == x;
      assert ids[i] in ids;
    }
  }

  lemma WantedPassListed(wanted: set<string>, pass: string)
    requires pass in wanted && pass in ORDER && Wanted(pass) <= wanted
    ensures pass in Split(PassText(wanted), ',')
  {
    FilterMember(ORDER, (p: string) => p in wanted, pass);
    PassListSplits(wanted);
  }

  // ── The pass list as text ─────────────────────────────────────────────

  lemma {:induction false} NoComma(s: string)
    requires ',' !in s
    ensures Without(s, ',')
  {
    if s != "" { NoComma(s[1..]); }
  }

  lemma {:induction false} PartsWithout(parts: seq<string>)
    requires forall p :: p in parts ==> Without(p, ',')
    ensures AllWithout(parts, ',')
  {
    if parts != [] { PartsWithout(parts[1..]); }
  }

  lemma PassListSplits(wanted: set<string>)
    requires PassList(wanted) != []
    ensures Split(PassText(wanted), ',') == PassList(wanted)
  {
    var list := PassList(wanted);
    forall q | q in list ensures Without(q, ',') {
      FilterMember(ORDER, (p: string) => p in wanted, q);
      NoComma(q);
    }
    PartsWithout(list);
    SplitJoin(list, ',');
  }

  /** A collected set, printed and split again, gives its known passes. */
  lemma PassListMeans(wanted: set<string>)
    requires wanted == {"cold"} || "first" in wanted
    ensures forall p :: p in Split(PassText(wanted), ',') <==> p in ORDER && p in wanted
  {
    var list := PassList(wanted);
    forall p ensures p in list <==> p in ORDER && p in wanted { FilterMember(ORDER, (q: string) => q in wanted, p); }
    assert "first" in ORDER && "cold" in ORDER;
    assert "first" in list || "cold" in list;
    PassListSplits(wanted);
  }

  /** A collected set, printed and split again, is accepted. */
  lemma PassListAccepted(wanted: set<string>)
    requires wanted == {"cold"} || "first" in wanted
    ensures Accepts(Split(PassText(wanted), ','))
  {
    PassListMeans(wanted);
    assert "first" in ORDER;
    if "first" !in wanted { assert forall p :: p in Split(PassText(wanted), ',') ==> p == "cold"; }
  }
}
