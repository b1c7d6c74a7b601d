/** Bundle sizes by route (scripts/perf/bundle.ts). */
module BundleClosure {
  import opened Text
  import opened Sorting
  import opened Reachability

  /** A chunk of the Vite manifest. */
  datatype Chunk = Chunk(file: string, imports: seq<string>, isEntry: bool)

  type Manifest = map<string, Chunk>

  function Imports(m: Manifest): Graph { map key | key in m :: m[key].imports }

  /** The files of the chunks in `keys`. */
  function FilesOf(m: Manifest, keys: set<string>): set<string> { set key | key in keys && key in m :: m[key].file }

  /** The `files` and `seen` sets of `staticClosure`, and its recursive visit.
      `files` keeps insertion order, as a JavaScript Set does. */
  class Visitor {
    const manifest: Manifest
    var files: seq<string>
    var seen: set<string>

    constructor (manifest: Manifest)
      ensures this.manifest == manifest && files == [] && seen == {}
    {
      this.manifest, files, seen := manifest, [], {};
    }

    /** All chunks seen since `before` are complete: their imports are seen and
        their files collected. */
    predicate Complete(before: set<string>, filesBefore: set<string>)
      reads this
    {
      && before <= seen
      && (forall key :: key in seen - before ==>
            && key in manifest
            && forall i :: i in manifest[key].imports ==> i in seen)
      && Members(files) == filesBefore + FilesOf(manifest, seen - before)
      && Distinct(files)
    }

    /** Visits what is reachable from `key` and not seen yet; false when the
        manifest lacks a chunk on the way, which is then returned. */
    method Visit(key: string, ghost from: set<string>) returns (ok: bool, ghost missing: string)
      requires Distinct(files) && Reachable(Imports(manifest), from, key)
      requires forall k :: k in seen ==> Reachable(Imports(manifest), from, k)
      modifies this
      ensures forall k :: k in seen ==> Reachable(Imports(manifest), from, k)
      ensures ok ==> key in seen && Complete(old(seen), Members(old(files)))
      ensures !ok ==> Reachable(Imports(manifest), from, missing) && missing !in manifest
      decreases manifest.Keys - seen, 1
    {
      ok, missing := true, key;
      if key in seen { return; }
      ghost var before, filesBefore := seen, files;
      seen := seen + {key};
      if key !in manifest { return false, key; }
      var chunk := manifest[key];
      ok, missing := VisitAll(chunk.imports, key, from);
      if !ok { return; }
      ghost var inner := files;
      if chunk.file !in files { files := files + [chunk.file]; }
      assert Members(files) == Members(inner) + {chunk.file};
      assert seen - before == (seen - (before + {key})) + {key};
      assert FilesOf(manifest, seen - before) == FilesOf(manifest, seen - (before + {key})) + {chunk.file};
      assert Members(files) == Members(filesBefore) + FilesOf(manifest, seen - before);
    }

    /** The loop over a chunk's imports. */
    method VisitAll(
        keys: seq<string>, ghost parent: string, ghost from: set<string>) returns (ok: bool, ghost missing: string)
      requires Distinct(files) && parent in seen && parent in manifest && manifest[parent].imports == keys
      requires Reachable(Imports(manifest), from, parent)
      requires forall k :: k in seen ==> Reachable(Imports(manifest), from, k)
      modifies this
      ensures forall k :: k in seen ==> Reachable(Imports(manifest), from, k)
      ensures ok ==> (forall k :: k in keys ==> k in seen) && Complete(old(seen), Members(old(files)))
      ensures !ok ==> Reachable(Imports(manifest), from, missing) && missing !in manifest
      decreases manifest.Keys - seen, 2
    {
      ok, missing := true, parent;
      for n := 0 to |keys|
        invariant forall k :: k in seen ==> Reachable(Imports(manifest), from, k)
        invariant Complete(old(seen), Members(old(files)))
        invariant forall k :: k in keys[..n] ==> k in seen
      {
        EdgeReachable(Imports(manifest), from, parent, keys[n]);
        ok, missing := Visit(keys[n], from);
        if !ok { return; }
        assert keys[..n + 1] == keys[..n] + [keys[n]];
      }
      assert keys[..|keys|] == keys;
    }
  }

  /** The distinct files of the chunks reachable from `keys`. */
  ghost predicate IsClosure(m: Manifest, keys: set<string>, files: seq<string>) {
    && Distinct(files)
    && forall f :: f in files <==> exists k :: k in m && Reachable(Imports(m), keys, k) && m[k].file == f
  }

  ghost predicate NoneMissing(m: Manifest, keys: set<string>) {
    forall k :: Reachable(Imports(m), keys, k) ==> k in m
  }

  /** `staticClosure`, on any import graph: exactly the files of the reachable
      chunks, each once; it throws exactly when a reachable chunk is missing. */
  method StaticClosure(manifest: Manifest, keys: seq<string>) returns (r: Result<seq<string>>)
    ensures r.Ok? <==> NoneMissing(manifest, Members(keys))
    ensures r.Ok? ==> IsClosure(manifest, Members(keys), r.value)
  {
    var v := new Visitor(manifest);
    ghost var from := Members(keys);
    for n := 0 to |keys|
      invariant v.manifest == manifest
      invariant forall k :: k in v.seen ==> Reachable(Imports(manifest), from, k)
      invariant v.Complete({}, {})
      invariant forall k :: k in keys[..n] ==> k in v.seen
    {
      StartReachable(Imports(manifest), from, keys[n]);
      ghost var missing;
      var ok;
      ok, missing := v.Visit(keys[n], from);
      if !ok { return Err("manifest has no chunk"); }
      assert v.Complete({}, {});
      assert keys[..n + 1] == keys[..n] + [keys[n]];
    }
    assert keys[..|keys|] == keys;
    SeenIsReachable(manifest, from, v.seen);
    assert v.seen - {} == v.seen;
    FilesAreClosure(manifest, from, v.seen, v.files);
    return Ok(v.files);
  }

  lemma FilesAreClosure(m: Manifest, from: set<string>, seen: set<string>, files: seq<string>)
    requires forall k :: k in seen ==> k in m && Reachable(Imports(m), from, k)
    requires forall k :: Reachable(Imports(m), from, k) ==> k in seen
    requires Distinct(files) && Members(files) == FilesOf(m, seen)
    ensures IsClosure(m, from, files)
  {
    forall f ensures f in files <==> exists k :: k in m && Reachable(Imports(m), from, k) && m[k].file == f {
      assert f in files <==> f in FilesOf(m, seen) by { assert f in files <==> f in Members(files); }
      if f in FilesOf(m, seen) {
        var k :| k in seen && k in m && m[k].file == f;
        assert Reachable(Imports(m), from, k);
      }
    }
  }

  /** What is seen when nothing was missing is what is reachable. */
  lemma SeenIsReachable(m: Manifest, from: set<string>, seen: set<string>)
    requires forall k :: k in seen ==> k in m && forall i :: i in m[k].imports ==> i in seen
    requires from <= seen
    ensures forall k :: Reachable(Imports(m), from, k) ==> k in seen
  {
    forall k | Reachable(Imports(m), from, k) ensures k in seen {
      ClosedContains(Imports(m), from, seen, k);
    }
  }

  // ── Sizes ─────────────────────────────────────────────────────────────

  /** One file's sizes, or those of a bundle. */
  datatype Size = Size(raw: nat, gzip: nat, brotli: nat)

  /** The sum of a number that each file has. */
  function Sum(files: seq<string>, part: string -> nat): nat {
    if files == [] then 0 else Sum(files[..|files| - 1], part) + part(files[|files| - 1])
  }

  function Raw(sizeOf: string -> Size): string -> nat { file => sizeOf(file).raw }

  function Gzip(sizeOf: string -> Size): string -> nat { file => sizeOf(file).gzip }

  function Brotli(sizeOf: string -> Size): string -> nat { file => sizeOf(file).brotli }

  /** Each of the three sizes is the sum of the files'. */
  predicate SumsTo(files: seq<string>, sizeOf: string -> Size, size: Size) {
    && size.raw == Sum(files, Raw(sizeOf))
    && size.gzip == Sum(files, Gzip(sizeOf))
    && size.brotli == Sum(files, Brotli(sizeOf))
  }

  /** What a file counts: its cached sizes, else its sizes in `dist`. */
  function Counts(cache: map<string, Size>, dist: string -> Size): string -> Size {
    file => if file in cache then cache[file] else dist(file)
  }

  /** The `fileSizes` cache, kept by file name. */
  class FileSizes {
    var cache: map<string, Size>

    constructor ()
      ensures cache == map[]
    {
      cache := map[];
    }

    /** `measure`: the sum of the files' sizes. A cached file keeps the sizes it
        was first measured with, so the sum is the one of `dist` when everything
        cached was measured in `dist`. */
    method Measure(dist: string -> Size, files: seq<string>) returns (size: Size)
      modifies this
      ensures SumsTo(files, Counts(old(cache), dist), size)
      ensures (forall file :: file in files && file in old(cache) ==> old(cache)[file] == dist(file)) ==>
                SumsTo(files, dist, size)
      ensures forall file :: file in cache <==> file in old(cache) || file in files
      ensures forall file :: Counts(cache, dist)(file) == Counts(old(cache), dist)(file)
    {
      size := Size(0, 0, 0);
      ghost var counts := Counts(old(cache), dist);
      for n := 0 to |files|
        invariant SumsTo(files[..n], counts, size)
        invariant forall file :: file in cache <==> file in old(cache) || file in files[..n]
        invariant forall file :: file in cache ==> cache[file] == counts(file)
      {
        if files[n] !in cache { cache := cache[files[n] := dist(files[n])]; }
        var one := cache[files[n]];
        assert files[..n + 1][..n] == files[..n] && files[..n + 1][n] == files[n];
        size := Size(size.raw + one.raw, size.gzip + one.gzip, size.brotli + one.brotli);
      }
      assert files[..|files|] == files;
      if forall file :: file in files && file in old(cache) ==> old(cache)[file] == dist(file) {
        SumsSame(files, counts, dist, size);
      }
    }
  }

  lemma {:induction false} SumSame(files: seq<string>, a: string -> nat, b: string -> nat)
    requires forall f :: f in files ==> a(f) == b(f)
    ensures Sum(files, a) == Sum(files, b)
  {
    if files != [] { SumSame(files[..|files| - 1], a, b); }
  }

  lemma SumsSame(files: seq<string>, a: string -> Size, b: string -> Size, size: Size)
    requires SumsTo(files, a, size) && forall f :: f in files ==> a(f) == b(f)
    ensures SumsTo(files, b, size)
  {
    SumSame(files, Raw(a), Raw(b));
    SumSame(files, Gzip(a), Gzip(b));
    SumSame(files, Brotli(a), Brotli(b));
  }

  lemma {:induction false} SumWithout(files: seq<string>, i: nat, part: string -> nat)
    requires i < |files|
    ensures Sum(files, part) == part(files[i]) + Sum(files[..i] + files[i + 1..], part)
  {
    var n := |files| - 1;
    var rest := files[..i] + files[i + 1..];
    if i < n {
      SumWithout(files[..n], i, part);
      assert rest[..|rest| - 1] == files[..n][..i] + files[..n][i + 1..] && rest[|rest| - 1] == files[n];
    } else {
      assert rest == files[..n];
    }
  }

  predicate AtMost(a: Size, b: Size) { a.raw <= b.raw && a.gzip <= b.gzip && a.brotli <= b.brotli }

  /** More files never measure less. */
  lemma {:induction false} MoreFilesMeasureMore(some: seq<string>, all: seq<string>, part: string -> nat)
    requires Distinct(some) && forall f :: f in some ==> f in all
    ensures |some| <= |all| && Sum(some, part) <= Sum(all, part)
  {
    if some != [] {
      var n := |some| - 1;
      assert some[n] in all;
      var i :| 0 <= i < |all| && all[i] == some[n];
      var rest := all[..i] + all[i + 1..];
      forall f | f in some[..n] ensures f in rest {
        var j :| 0 <= j < n && some[j] == f;
        assert f != some[n] && f in all;
        var k :| 0 <= k < |all| && all[k] == f;
        assert if k < i then rest[k] == f else rest[k - 1] == f;
      }
      MoreFilesMeasureMore(some[..n], rest, part);
      SumWithout(all, i, part);
    }
  }

  /** A route starts from the entry's keys and more, so it never measures less
      than the entry, and a complete route means a complete entry. */
  lemma RouteAtLeastEntry(
      m: Manifest, entry: set<string>, route: set<string>, entryFiles: seq<string>, routeFiles: seq<string>,
      part: string -> nat)
    requires entry <= route && IsClosure(m, entry, entryFiles) && IsClosure(m, route, routeFiles)
    ensures |entryFiles| <= |routeFiles| && Sum(entryFiles, part) <= Sum(routeFiles, part)
    ensures NoneMissing(m, route) ==> NoneMissing(m, entry)
  {
    forall k | Reachable(Imports(m), entry, k) ensures Reachable(Imports(m), route, k) {
      MoreStarts(Imports(m), entry, route, k);
    }
    MoreFilesMeasureMore(entryFiles, routeFiles, part);
  }

  /** Every order of the same files measures the same. */
  lemma SameFilesMeasureSame(a: seq<string>, b: seq<string>, part: string -> nat)
    requires Distinct(a) && Distinct(b) && Members(a) == Members(b)
    ensures |a| == |b| && Sum(a, part) == Sum(b, part)
  {
    assert forall f :: f in a <==> f in Members(a);
    assert forall f :: f in b <==> f in Members(b);
    MoreFilesMeasureMore(a, b, part);
    MoreFilesMeasureMore(b, a, part);
  }

  // ── All routes ────────────────────────────────────────────────────────

  function Entries(m: Manifest): set<string> { set key | key in m && m[key].isEntry }

  /** The root stylesheets: imported by URL, so found by the end of their key. */
  function Sheets(m: Manifest, css: string): set<string> {
    set key | key in m && |key| >= |css| && key[|key| - |css|..] == css
  }

  /** They are the keys that consist of anything and then the stylesheet's path. */
  lemma SheetsEndWith(m: Manifest, css: string, key: string)
    ensures key in Sheets(m, css) <==> key in m && exists path: string :: key == path + css
  {
    if key in Sheets(m, css) { assert key == key[..|key| - |css|] + css; }
    if path: string :| key == path + css { assert key[|key| - |css|..] == css; }
  }

  /** `resolve` is `resolveKey`: none when it throws. */
  predicate AllResolve(resolve: string -> Option<string>, sources: seq<string>) {
    forall i :: 0 <= i < |sources| ==> resolve(sources[i]).Some?
  }

  function Resolved(resolve: string -> Option<string>, sources: seq<string>): seq<string>
    requires AllResolve(resolve, sources)
  {
    seq(|sources|, i requires 0 <= i < |sources| => resolve(sources[i]).value)
  }

  method ResolveAll(resolve: string -> Option<string>, sources: seq<string>) returns (r: Option<seq<string>>)
    ensures r.Some? <==> AllResolve(resolve, sources)
    ensures r.Some? ==> r.value == Resolved(resolve, sources)
  {
    var keys: seq<string> := [];
    for n := 0 to |sources|
      invariant AllResolve(resolve, sources[..n]) && keys == Resolved(resolve, sources[..n])
    {
      var key := resolve(sources[n]);
      if key.None? { return None; }
      keys := keys + [key.value];
    }
    assert sources[..|sources|] == sources;
    return Some(keys);
  }

  /** The chunks a route loads: the entry's and its sources'. */
  function RouteStarts(m: Manifest, resolve: string -> Option<string>, sources: seq<string>): set<string>
    requires AllResolve(resolve, sources)
  {
    Entries(m) + Members(Resolved(resolve, sources))
  }

  ghost predicate RouteComplete(m: Manifest, resolve: string -> Option<string>, sources: seq<string>) {
    AllResolve(resolve, sources) && NoneMissing(m, RouteStarts(m, resolve, sources))
  }

  /** A measured bundle: how many files, and their sizes. */
  datatype Measured = Measured(files: nat, size: Size)

  datatype Sizes = Sizes(entry: Measured, css: Measured, routes: seq<Measured>)

  /** `b` measures the files of the chunks reachable from `starts`. */
  ghost predicate Measures(m: Manifest, starts: set<string>, sizeOf: string -> Size, b: Measured) {
    exists files :: IsClosure(m, starts, files) && b.files == |files| && SumsTo(files, sizeOf, b.size)
  }

  predicate Fits(a: Measured, b: Measured) { a.files <= b.files && AtMost(a.size, b.size) }

  /** The keys of one bundle, closed and measured. */
  method MeasureClosure(
      m: Manifest, keys: seq<string>, dist: string -> Size, cache: FileSizes) returns (r: Result<Measured>)
    modifies cache
    ensures r.Ok? <==> NoneMissing(m, Members(keys))
    ensures r.Ok? ==> Measures(m, Members(keys), Counts(old(cache.cache), dist), r.value)
    ensures forall file :: Counts(cache.cache, dist)(file) == Counts(old(cache.cache), dist)(file)
  {
    var closure := StaticClosure(m, keys);
    if closure.Err? { return Err(closure.message); }
    var size := cache.Measure(dist, closure.value);
    r := Ok(Measured(|closure.value|, size));
  }

  lemma SameCounts(m: Manifest, starts: set<string>, a: string -> Size, b: string -> Size, x: Measured)
    requires Measures(m, starts, a, x) && forall file :: a(file) == b(file)
    ensures Measures(m, starts, b, x)
  {
    var files :| IsClosure(m, starts, files) && x.files == |files| && SumsTo(files, a, x.size);
    SumsSame(files, a, b, x.size);
  }

  lemma MeasuredAtLeast(
      m: Manifest, entry: set<string>, route: set<string>, sizeOf: string -> Size, a: Measured, b: Measured)
    requires entry <= route && Measures(m, entry, sizeOf, a) && Measures(m, route, sizeOf, b)
    ensures Fits(a, b)
  {
    var entryFiles :| IsClosure(m, entry, entryFiles) && a.files == |entryFiles| && SumsTo(entryFiles, sizeOf, a.size);
    var routeFiles :| IsClosure(m, route, routeFiles) && b.files == |routeFiles| && SumsTo(routeFiles, sizeOf, b.size);
    RouteAtLeastEntry(m, entry, route, entryFiles, routeFiles, Raw(sizeOf));
    RouteAtLeastEntry(m, entry, route, entryFiles, routeFiles, Gzip(sizeOf));
    RouteAtLeastEntry(m, entry, route, entryFiles, routeFiles, Brotli(sizeOf));
  }

  lemma OnlyMember(s: set<string>, key: string)
    requires |s| == 1 && key in s
    ensures s == {key}
  {
    SubsetSize({key}, s);
    if s != {key} {
      var other :| other in s && other != key;
      var pair := {key, other};
      SubsetSize(pair, s);
    }
  }

  /** `b` measures what a route loads, and at least what the entry does. */
  ghost predicate RouteMeasured(m: Manifest, resolve: string -> Option<string>, sources: seq<string>,
                                sizeOf: string -> Size, entry: Measured, b: Measured) {
    AllResolve(resolve, sources) && Measures(m, RouteStarts(m, resolve, sources), sizeOf, b) && Fits(entry, b)
  }

  /** One route. */
  method MeasureRoute(m: Manifest, entry: string, sources: seq<string>, resolve: string -> Option<string>,
                      dist: string -> Size, cache: FileSizes, ghost counts: string -> Size, ghost first: Measured)
    returns (r: Result<Measured>)
    requires Entries(m) == {entry} && Measures(m, Entries(m), counts, first)
    requires forall file :: Counts(cache.cache, dist)(file) == counts(file)
    modifies cache
    ensures forall file :: Counts(cache.cache, dist)(file) == counts(file)
    ensures r.Ok? <==> RouteComplete(m, resolve, sources)
    ensures r.Ok? ==> RouteMeasured(m, resolve, sources, counts, first, r.value)
  {
    var keys := ResolveAll(resolve, sources);
    if keys.None? { return Err("cannot find a source in the Vite manifest"); }
    assert Members([entry] + keys.value) == RouteStarts(m, resolve, sources);
    ghost var now := Counts(cache.cache, dist);
    r := MeasureClosure(m, [entry] + keys.value, dist, cache);
    if r.Ok? {
      SameCounts(m, RouteStarts(m, resolve, sources), now, counts, r.value);
      MeasuredAtLeast(m, Entries(m), RouteStarts(m, resolve, sources), counts, first, r.value);
    }
  }

  ghost predicate AllComplete(m: Manifest, resolve: string -> Option<string>, routes: seq<seq<string>>) {
    forall i :: 0 <= i < |routes| ==> RouteComplete(m, resolve, routes[i])
  }

  ghost predicate AllMeasured(m: Manifest, resolve: string -> Option<string>, routes: seq<seq<string>>,
                              sizeOf: string -> Size, entry: Measured, measured: seq<Measured>) {
    |measured| == |routes| && forall i :: 0 <= i < |routes| ==>
      RouteMeasured(m, resolve, routes[i], sizeOf, entry, measured[i])
  }

  lemma NextComplete(m: Manifest, resolve: string -> Option<string>, routes: seq<seq<string>>, n: nat)
    requires n < |routes| && AllComplete(m, resolve, routes[..n])
    ensures RouteComplete(m, resolve, routes[n]) <==> AllComplete(m, resolve, routes[..n + 1])
    ensures !RouteComplete(m, resolve, routes[n]) ==> !AllComplete(m, resolve, routes)
  {
    assert routes[..n + 1] == routes[..n] + [routes[n]];
    assert routes[..n + 1][n] == routes[n];
  }

  lemma NextMeasured(m: Manifest, resolve: string -> Option<string>, routes: seq<seq<string>>, n: nat,
                     sizeOf: string -> Size, entry: Measured, measured: seq<Measured>, next: Measured)
    requires n < |routes| && AllMeasured(m, resolve, routes[..n], sizeOf, entry, measured)
    requires RouteMeasured(m, resolve, routes[n], sizeOf, entry, next)
    ensures AllMeasured(m, resolve, routes[..n + 1], sizeOf, entry, measured + [next])
  {
    forall i | 0 <= i < n + 1
      ensures RouteMeasured(m, resolve, routes[..n + 1][i], sizeOf, entry, (measured + [next])[i])
    {
      if i < n { assert routes[..n + 1][i] == routes[..n][i]; }
    }
  }

  /** The loop over the routes. */
  method MeasureRoutes(m: Manifest, entry: string, routes: seq<seq<string>>, resolve: string -> Option<string>,
                       dist: string -> Size, cache: FileSizes, ghost counts: string -> Size, ghost first: Measured)
    returns (r: Result<seq<Measured>>)
    requires Entries(m) == {entry} && Measures(m, Entries(m), counts, first)
    requires forall file :: Counts(cache.cache, dist)(file) == counts(file)
    modifies cache
    ensures r.Ok? <==> AllComplete(m, resolve, routes)
    ensures r.Ok? ==> AllMeasured(m, resolve, routes, counts, first, r.value)
  {
    var measured: seq<Measured> := [];
    for n := 0 to |routes|
      invariant forall file :: Counts(cache.cache, dist)(file) == counts(file)
      invariant AllComplete(m, resolve, routes[..n])
      invariant AllMeasured(m, resolve, routes[..n], counts, first, measured)
    {
      var next := MeasureRoute(m, entry, routes[n], resolve, dist, cache, counts, first);
      NextComplete(m, resolve, routes, n);
      if next.Err? { return Err(next.message); }
      NextMeasured(m, resolve, routes, n, counts, first, measured, next.value);
      measured := measured + [next.value];
    }
    assert routes[..|routes|] == routes;
    return Ok(measured);
  }

  /** The one key of a set; none when there is not exactly one. */
  method OnlyKey(keys: set<string>) returns (key: Option<string>)
    ensures key.Some? <==> |keys| == 1
    ensures key.Some? ==> keys == {key.value}
  {
    if |keys| != 1 { return None; }
    var k :| k in keys;
    OnlyMember(keys, k);
    return Some(k);
  }

  /** `bundleSizes`: it succeeds exactly when there is one entry and one root
      stylesheet, every source of a route is found, and nothing reachable is
      missing. Then every route is measured as its closure, with the sizes that
      the cache and `dist` give, and never measures less than the entry. */
  method BundleSizes(m: Manifest, css: string, routes: seq<seq<string>>, resolve: string -> Option<string>,
                     dist: string -> Size, cache: FileSizes) returns (r: Result<Sizes>)
    modifies cache
    ensures r.Ok? <==>
              |Entries(m)| == 1 && |Sheets(m, css)| == 1 && NoneMissing(m, Entries(m)) &&
                AllComplete(m, resolve, routes)
    ensures r.Ok? ==>
              && Measures(m, Entries(m), Counts(old(cache.cache), dist), r.value.entry)
              && (forall key :: key in Sheets(m, css) ==>
                    r.value.css == Measured(1, Counts(old(cache.cache), dist)(m[key].file)))
              && AllMeasured(m, resolve, routes, Counts(old(cache.cache), dist), r.value.entry, r.value.routes)
  {
    var entries := set key | key in m && m[key].isEntry;
    assert entries == Entries(m);
    var entry := OnlyKey(entries);
    if entry.None? { return Err("expected one entry in the Vite manifest"); }
    var sheets := set key | key in m && |key| >= |css| && key[|key| - |css|..] == css;
    assert sheets == Sheets(m, css);
    var sheet := OnlyKey(sheets);
    if sheet.None? { return Err("expected one root stylesheet in the Vite manifest"); }
    assert sheet.value in Sheets(m, css);
    r := MeasureAll(m, entry.value, m[sheet.value].file, routes, resolve, dist, cache);
  }

  /** The entry, the stylesheet and every route. */
  method MeasureAll(m: Manifest, entry: string, css: string, routes: seq<seq<string>>,
                    resolve: string -> Option<string>, dist: string -> Size, cache: FileSizes)
    returns (r: Result<Sizes>)
    requires Entries(m) == {entry}
    modifies cache
    ensures r.Ok? <==> NoneMissing(m, Entries(m)) && AllComplete(m, resolve, routes)
    ensures r.Ok? ==>
              && Measures(m, Entries(m), Counts(old(cache.cache), dist), r.value.entry)
              && r.value.css == Measured(1, Counts(old(cache.cache), dist)(css))
              && AllMeasured(m, resolve, routes, Counts(old(cache.cache), dist), r.value.entry, r.value.routes)
  {
    ghost var counts := Counts(cache.cache, dist);
    assert Members([entry]) == {entry};
    var first := MeasureClosure(m, [entry], dist, cache);
    if first.Err? { return Err(first.message); }
    ghost var now := Counts(cache.cache, dist);
    var style := cache.Measure(dist, [css]);
    OneFile(css, now, style);
    var measured := MeasureRoutes(m, entry, routes, resolve, dist, cache, counts, first.value);
    if measured.Err? { return Err(measured.message); }
    return Ok(Sizes(first.value, Measured(1, style), measured.value));
  }

  lemma OneFile(file: string, sizeOf: string -> Size, size: Size)
    requires SumsTo([file], sizeOf, size)
    ensures size == sizeOf(file)
  {
    SumOne(file, Raw(sizeOf));
    SumOne(file, Gzip(sizeOf));
    SumOne(file, Brotli(sizeOf));
  }

  lemma SumOne(file: string, part: string -> nat)
    ensures Sum([file], part) == part(file)
  {
    assert [file][..0] == [] && Sum([], part) == 0;
  }
}
