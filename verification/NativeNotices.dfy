/** The dependency worklist of the native notices (scripts/native-notices.ts). */
module NativeNotices {
  import opened Text
  import opened Reachability

  /** A dependency edge; `kinds` lists its kinds, none for a normal one. */
  datatype Dependency = Dependency(pkg: string, kinds: seq<Option<string>>)

  datatype Node = Node(deps: seq<Dependency>)

  /** A package with what its review needs: whether its source, licence and
      checksum match the inventory and the lock file. */
  datatype Package = Package(name: string, version: string, reviewed: bool)

  datatype Metadata = Metadata(root: string, nodes: map<string, Node>, packages: map<string, Package>)

  predicate Normal(d: Dependency) { None in d.kinds }

  function NormalDeps(deps: seq<Dependency>): seq<string> {
    if deps == [] then [] else (if Normal(deps[0]) then [deps[0].pkg] else []) + NormalDeps(deps[1..])
  }

  /** They are the packages with an edge that has no kind among its kinds. */
  lemma {:induction false} NormalDepsAre(deps: seq<Dependency>, pkg: string)
    ensures pkg in NormalDeps(deps) <==>
            exists i, j :: 0 <= i < |deps| && 0 <= j < |deps[i].kinds| && deps[i].pkg == pkg && deps[i].kinds[j].None?
  {
    if deps != [] {
      NormalDepsAre(deps[1..], pkg);
      if i, j :| 0 <= i < |deps| && 0 <= j < |deps[i].kinds| && deps[i].pkg == pkg && deps[i].kinds[j].None? {
        if i == 0 { assert deps[0].kinds[j] in deps[0].kinds; } else { assert deps[1..][i - 1] == deps[i]; }
      }
      if i, j :| 0 <= i < |deps[1..]| && 0 <= j < |deps[1..][i].kinds| && deps[1..][i].pkg == pkg
                 && deps[1..][i].kinds[j].None? {
        assert deps[i + 1] == deps[1..][i];
      }
      if Normal(deps[0]) {
        var j :| 0 <= j < |deps[0].kinds| && deps[0].kinds[j] == None;
        assert deps[0].kinds[j].None?;
      }
    }
  }

  /** The normal dependencies between packages. */
  function Deps(m: Metadata): Graph { map id | id in m.nodes :: NormalDeps(m.nodes[id].deps) }

  function KeyOf(p: Package): string { p.name + "@" + p.version }

  /** A key names one version of one package, names being without `@`. */
  lemma KeyNamesVersion(p: Package, q: Package)
    requires Without(p.name, '@') && Without(q.name, '@')
    ensures KeyOf(p) == KeyOf(q) <==> p.name == q.name && p.version == q.version
  {
    CutPaste(p.name, '@', Some(p.version));
    CutPaste(q.name, '@', Some(q.version));
    assert KeyOf(p) == Paste(p.name, '@', Some(p.version)) && KeyOf(q) == Paste(q.name, '@', Some(q.version));
  }

  predicate Known(m: Metadata, id: string) { id in m.nodes && id in m.packages }

  /** The script goes on past a package: its metadata is there and, unless it is
      the root, its review holds. */
  predicate Acceptable(m: Metadata, id: string) { Known(m, id) && (id == m.root || m.packages[id].reviewed) }

  ghost predicate Needed(m: Metadata, id: string) { Reachable(Deps(m), {m.root}, id) }

  /** The pushes of one package: its normal dependencies go onto the stack. */
  method Push(deps: seq<Dependency>, pending: seq<string>) returns (after: seq<string>)
    ensures after == pending + NormalDeps(deps)
  {
    after := pending;
    for n := 0 to |deps|
      invariant after + NormalDeps(deps[n..]) == pending + NormalDeps(deps)
    {
      assert deps[n..][1..] == deps[n + 1..];
      if Normal(deps[n]) {
        assert after + ([deps[n].pkg] + NormalDeps(deps[n + 1..])) ==
               (after + [deps[n].pkg]) + NormalDeps(deps[n + 1..]);
        after := after + [deps[n].pkg];
      }
    }
  }

  function Pop(pending: seq<string>): seq<string>
    requires pending != []
  {
    pending[..|pending| - 1]
  }

  /** The root and every dependency of a seen package is seen or waiting, and
      nothing else is. */
  ghost predicate Tracked(g: Graph, root: string, seen: set<string>, pending: seq<string>) {
    && (root in seen || root in pending)
    && (forall id, next :: id in seen && id in g && next in g[id] ==> next in seen || next in pending)
    && (forall id :: id in seen || id in pending ==> Reachable(g, {root}, id))
  }

  /** The notices noted are those of the seen packages. */
  predicate Noted(m: Metadata, seen: set<string>, roots: map<string, string>) {
    && (forall id :: id in seen ==> Acceptable(m, id))
    && (forall id :: id in seen && id != m.root && id in m.packages ==> KeyOf(m.packages[id]) in roots)
    && (forall key :: key in roots ==>
          roots[key] in seen && roots[key] != m.root && roots[key] in m.packages &&
            KeyOf(m.packages[roots[key]]) == key)
  }

  lemma PopMembers(pending: seq<string>, x: string)
    requires pending != []
    ensures x in pending <==> x in Pop(pending) || x == pending[|pending| - 1]
  {
    assert pending == Pop(pending) + [pending[|pending| - 1]];
  }

  lemma SeeOne(g: Graph, root: string, seen: set<string>, pending: seq<string>, id: string)
    requires pending != [] && id == pending[|pending| - 1] && id in g && Tracked(g, root, seen, pending)
    ensures Tracked(g, root, seen + {id}, Pop(pending) + g[id])
  {
    forall x ensures x in pending <==> x in Pop(pending) || x == id { PopMembers(pending, x); }
    forall x | x in g[id] ensures Reachable(g, {root}, x) { EdgeReachable(g, {root}, id, x); }
  }

  lemma SkipOne(g: Graph, root: string, seen: set<string>, pending: seq<string>)
    requires pending != [] && pending[|pending| - 1] in seen && Tracked(g, root, seen, pending)
    ensures Tracked(g, root, seen, Pop(pending))
  {
    forall x ensures x in pending <==> x in Pop(pending) || x == pending[|pending| - 1] { PopMembers(pending, x); }
  }

  /** The notices with that of one more package. */
  function Note(m: Metadata, roots: map<string, string>, id: string): map<string, string>
    requires id in m.packages
  {
    if id == m.root then roots else roots[KeyOf(m.packages[id]) := id]
  }

  lemma NoteOne(m: Metadata, seen: set<string>, roots: map<string, string>, id: string)
    requires Noted(m, seen, roots) && Acceptable(m, id)
    ensures Noted(m, seen + {id}, Note(m, roots, id))
  {
  }

  lemma AllNeededSeen(g: Graph, root: string, seen: set<string>)
    requires Tracked(g, root, seen, [])
    ensures forall id :: Reachable(g, {root}, id) <==> id in seen
  {
    forall id | Reachable(g, {root}, id) ensures id in seen { ClosedContains(g, {root}, seen, id); }
  }

  /** The worklist: it succeeds exactly when every package reachable over normal
      dependencies is acceptable and there is one besides the root, and then it
      names exactly those packages. */
  method Collect(m: Metadata) returns (r: Result<map<string, string>>)
    ensures r.Ok? <==>
            && (forall id :: Needed(m, id) ==> Acceptable(m, id))
            && exists id :: Needed(m, id) && id != m.root
    ensures r.Ok? ==>
              && (forall id :: Needed(m, id) && id != m.root ==> id in m.packages && KeyOf(m.packages[id]) in r.value)
              && (forall key :: key in r.value ==>
                    && Needed(m, r.value[key]) && r.value[key] != m.root
                    && r.value[key] in m.packages && KeyOf(m.packages[r.value[key]]) == key)
  {
    var seen: set<string> := {};
    var pending := [m.root];
    var roots: map<string, string> := map[];
    ghost var g := Deps(m);
    StartReachable(g, {m.root}, m.root);
    while pending != []
      invariant Tracked(g, m.root, seen, pending) && Noted(m, seen, roots)
      decreases m.nodes.Keys - seen, |pending|
    {
      var id := pending[|pending| - 1];
      assert Needed(m, id);
      if id in seen {
        SkipOne(g, m.root, seen, pending);
        pending := Pop(pending);
        continue;
      }
      if id !in m.nodes || id !in m.packages { return Err("Incomplete native dependency metadata"); }
      if id != m.root && !m.packages[id].reviewed { return Err("Review the native dependency source/license"); }
      SeeOne(g, m.root, seen, pending, id);
      NoteOne(m, seen, roots, id);
      pending := Push(m.nodes[id].deps, Pop(pending));
      seen := seen + {id};
      roots := Note(m, roots, id);
    }
    AllNeededSeen(g, m.root, seen);
    if roots == map[] {
      assert forall id :: id in seen ==> id == m.root;
      return Err("No native dependencies identified");
    }
    var key :| key in roots;
    assert Needed(m, roots[key]);
    return Ok(roots);
  }
}
