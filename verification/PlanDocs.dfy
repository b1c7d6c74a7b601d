/** The planned documents of the performance fixtures (`planDocs` in
    scripts/perf/fixtures.ts). */
module PlanDocs {
  import opened Text

  datatype Kind = Md | Rich | Html

  /** A planned document: its space by position, and its kind. */
  datatype Doc = Doc(space: nat, kind: Kind)

  /** `Math.round`. */
  function Round(x: real): int { (x + 0.5).Floor }

  function MdTotal(total: nat): int { Round(total as real * 0.7) }

  function HtmlTotal(total: nat): int { Round(total as real * 0.05) }

  // ── Shuffling ─────────────────────────────────────────────────────────

  /** A generator: its n-th draw. */
  ghost predicate Uniform(draw: nat -> real) { forall n :: 0.0 <= draw(n) < 1.0 }

  /** `Math.floor(draw * (index + 1))`. */
  function Pick(d: real, index: nat): (i: nat)
    requires 0.0 <= d < 1.0
    ensures i <= index
  {
    var n := (index + 1) as real;
    assert 0.0 <= d * n;
    assert d * n < n by { assert (1.0 - d) * n > 0.0; }
    (d * n).Floor
  }

  function Swapped(s: seq<Kind>, i: nat, j: nat): (r: seq<Kind>)
    requires i < |s| && j < |s|
    ensures |r| == |s|
  {
    s[i := s[j]][j := s[i]]
  }

  /** `s` with the positions up to `index` shuffled by the draws from the
      `first` on. */
  ghost function Shuffled(s: seq<Kind>, index: int, draw: nat -> real, first: nat): (r: seq<Kind>)
    requires index < |s| && Uniform(draw)
    ensures |r| == |s|
    decreases index
  {
    if index <= 0 then s
    else Shuffled(Swapped(s, index, Pick(draw(first), index)), index - 1, draw, first + 1)
  }

  /** The Fisher-Yates shuffle. */
  method Shuffle(kinds: array<Kind>, draw: nat -> real)
    requires Uniform(draw)
    modifies kinds
    ensures kinds[..] == Shuffled(old(kinds[..]), kinds.Length - 1, draw, 0)
  {
    var draws := 0;
    var index := kinds.Length - 1;
    while index > 0
      invariant -1 <= index < kinds.Length
      invariant Shuffled(kinds[..], index, draw, draws) == Shuffled(old(kinds[..]), kinds.Length - 1, draw, 0)
    {
      var other := Pick(draw(draws), index);
      ghost var before := kinds[..];
      kinds[index], kinds[other] := kinds[other], kinds[index];
      assert kinds[..] == Swapped(before, index, other);
      draws := draws + 1;
      index := index - 1;
    }
  }

  lemma SwapPermutes(s: seq<Kind>, i: nat, j: nat)
    requires i < |s| && j < |s|
    ensures multiset(Swapped(s, i, j)) == multiset(s)
  {
  }

  /** Shuffling only moves kinds, and only up to `index`. */
  lemma {:induction false} ShuffleMoves(s: seq<Kind>, index: int, draw: nat -> real, first: nat)
    requires index < |s| && Uniform(draw)
    ensures multiset(Shuffled(s, index, draw, first)) == multiset(s)
    ensures forall i :: 0 <= i < |s| && i > index ==> Shuffled(s, index, draw, first)[i] == s[i]
    decreases index
  {
    if index > 0 {
      SwapPermutes(s, index, Pick(draw(first), index));
      ShuffleMoves(Swapped(s, index, Pick(draw(first), index)), index - 1, draw, first + 1);
    }
  }

  lemma {:induction false} ShuffledAgree(s: seq<Kind>, index: int, a: nat -> real, b: nat -> real, first: nat)
    requires index < |s| && Uniform(a) && Uniform(b) && forall n :: n >= first ==> a(n) == b(n)
    ensures Shuffled(s, index, a, first) == Shuffled(s, index, b, first)
    decreases index
  {
    if index > 0 { ShuffledAgree(Swapped(s, index, Pick(a(first), index)), index - 1, a, b, first + 1); }
  }

  lemma PickAny(j: nat, index: nat)
    requires j <= index
    ensures var d := j as real / (index + 1) as real; 0.0 <= d < 1.0 && Pick(d, index) == j
  {
    var n := (index + 1) as real;
    var d := j as real / n;
    assert d * n == j as real;
    assert d >= 1.0 ==> d * n >= n;
    assert d < 0.0 ==> d * n < 0.0;
  }

  lemma SwapInFront(s: seq<Kind>, index: nat, j: nat)
    requires j <= index < |s|
    ensures multiset(Swapped(s, index, j)[..index + 1]) == multiset(s[..index + 1])
  {
    SwapPermutes(s[..index + 1], index, j);
    assert Swapped(s, index, j)[..index + 1] == Swapped(s[..index + 1], index, j);
  }

  lemma DropEqualLast(s: seq<Kind>, t: seq<Kind>, n: nat)
    requires n < |s| && n < |t| && s[n] == t[n] && multiset(s[..n + 1]) == multiset(t[..n + 1])
    ensures multiset(s[..n]) == multiset(t[..n])
  {
    assert s[..n + 1] == s[..n] + [s[n]] && t[..n + 1] == t[..n] + [t[n]];
    assert multiset(s[..n]) == multiset(s[..n + 1]) - multiset{s[n]};
  }

  /** An occurrence of `t[index]` to put at `index`. */
  lemma ChooseLast(s: seq<Kind>, t: seq<Kind>, index: nat) returns (j: nat)
    requires |s| == |t| && index < |s| && multiset(s[..index + 1]) == multiset(t[..index + 1])
    ensures j <= index && s[j] == t[index]
    ensures multiset(Swapped(s, index, j)[..index]) == multiset(t[..index])
  {
    assert t[..index + 1][index] in multiset(s[..index + 1]);
    j :| 0 <= j <= index && s[..index + 1][j] == t[index];
    SwapInFront(s, index, j);
    DropEqualLast(Swapped(s, index, j), t, index);
  }

  /** No order is left out: every one comes of some draws. */
  lemma {:induction false} EveryOrderIsDrawn(
      s: seq<Kind>, t: seq<Kind>, index: int, first: nat) returns (draw: nat -> real)
    requires |s| == |t| && -1 <= index < |s| && multiset(s[..index + 1]) == multiset(t[..index + 1])
    requires forall i :: 0 <= i < |s| && i > index ==> s[i] == t[i]
    ensures Uniform(draw) && Shuffled(s, index, draw, first) == t
    decreases index
  {
    if index <= 0 {
      draw := n => 0.0;
      NothingToDraw(s, t, index);
    } else {
      var j := ChooseLast(s, t, index);
      var u := Swapped(s, index, j);
      assert forall i :: 0 <= i < |u| && i > index - 1 ==> u[i] == t[i];
      var rest := EveryOrderIsDrawn(u, t, index - 1, first + 1);
      draw := DrawThen(s, index, j, rest, first);
    }
  }

  lemma NothingToDraw(s: seq<Kind>, t: seq<Kind>, index: int)
    requires |s| == |t| && -1 <= index < |s| && index <= 0 && multiset(s[..index + 1]) == multiset(t[..index + 1])
    requires forall i :: 0 <= i < |s| && i > index ==> s[i] == t[i]
    ensures s == t
  {
    if index == 0 { var j := ChooseLast(s, t, 0); }
  }

  /** A draw that picks `j`, before others. */
  lemma DrawThen(s: seq<Kind>, index: nat, j: nat, rest: nat -> real, first: nat) returns (draw: nat -> real)
    requires j <= index && 0 < index < |s| && Uniform(rest)
    ensures Uniform(draw)
    ensures Shuffled(s, index, draw, first) == Shuffled(Swapped(s, index, j), index - 1, rest, first + 1)
  {
    PickAny(j, index);
    var d := j as real / (index + 1) as real;
    draw := (n: nat) => if n == first then d else rest(n);
    ShuffledAgree(Swapped(s, index, j), index - 1, draw, rest, first + 1);
  }

  // ── Sizes of the spaces ───────────────────────────────────────────────

  function Sum(weights: seq<real>): real {
    if weights == [] then 0.0 else weights[0] + Sum(weights[1..])
  }

  function SumInt(sizes: seq<int>): int {
    if sizes == [] then 0 else sizes[0] + SumInt(sizes[1..])
  }

  /** Each space's share of `rest` documents, rounded down. */
  function Shares(rest: nat, weights: seq<real>, sum: real): seq<int>
    requires sum > 0.0
  {
    if weights == [] then [] else [(rest as real * weights[0] / sum).Floor] + Shares(rest, weights[1..], sum)
  }

  /** The shares, the first with what rounding left over. */
  function Sizes(rest: nat, weights: seq<real>): seq<int>
    requires Sum(weights) > 0.0
  {
    var shares := Shares(rest, weights, Sum(weights));
    if shares == [] then [] else shares[0 := shares[0] + rest - SumInt(shares)]
  }

  predicate Positive(weights: seq<real>) { forall i :: 0 <= i < |weights| ==> weights[i] > 0.0 }

  lemma {:induction false} SumPositive(weights: seq<real>)
    requires Positive(weights)
    ensures Sum(weights) >= 0.0 && (weights != [] ==> Sum(weights) > 0.0)
  {
    if weights != [] { SumPositive(weights[1..]); }
  }

  /** Rounding down never hands out more than there is. */
  lemma {:induction false} SharesFit(rest: nat, weights: seq<real>, sum: real)
    requires sum > 0.0 && Positive(weights)
    ensures |Shares(rest, weights, sum)| == |weights|
    ensures forall i :: 0 <= i < |weights| ==> Shares(rest, weights, sum)[i] >= 0
    ensures SumInt(Shares(rest, weights, sum)) as real <= rest as real * Sum(weights) / sum
  {
    if weights != [] {
      SharesFit(rest, weights[1..], sum);
      var part := rest as real * weights[0] / sum;
      assert part >= 0.0;
      Distribute(rest as real, weights[0], Sum(weights[1..]), sum);
    }
  }

  /** A space's share is its part of the documents by weight, rounded down. */
  lemma {:induction false} ShareByWeight(rest: nat, weights: seq<real>, sum: real, i: nat)
    requires sum > 0.0 && i < |weights|
    ensures |Shares(rest, weights, sum)| == |weights|
    ensures var share := Shares(rest, weights, sum)[i] as real;
            share * sum <= rest as real * weights[i] < (share + 1.0) * sum
  {
    if i == 0 {
      ShareCount(rest, weights, sum);
      var part := rest as real * weights[0] / sum;
      assert part * sum == rest as real * weights[0];
      Scale(part.Floor as real, part, sum);
      Scale(part, part.Floor as real + 1.0, sum);
    } else {
      ShareByWeight(rest, weights[1..], sum, i - 1);
    }
  }

  lemma {:induction false} ShareCount(rest: nat, weights: seq<real>, sum: real)
    requires sum > 0.0
    ensures |Shares(rest, weights, sum)| == |weights|
  {
    if weights != [] { ShareCount(rest, weights[1..], sum); }
  }

  lemma Scale(a: real, b: real, c: real)
    requires c > 0.0
    ensures a <= b ==> a * c <= b * c
    ensures a < b ==> a * c < b * c
  {
    if a < b { assert (b - a) * c > 0.0; }
  }

  /** The weights add up in parts. */
  lemma {:induction false} SumOfParts(a: seq<real>, b: seq<real>, x: real)
    ensures Sum(a + b) == Sum(a) + Sum(b) && Sum([x]) == x
  {
    assert [x][1..] == [];
    if a == [] {
      assert a + b == b;
    } else {
      assert (a + b)[1..] == a[1..] + b;
      SumOfParts(a[1..], b, x);
    }
  }

  /** Every space but the first gets its part of the documents by weight, rounded
      down; the first gets the rest. */
  lemma SizesByWeight(rest: nat, weights: seq<real>, i: nat)
    requires Positive(weights) && 0 < i < |weights|
    ensures Sum(weights) > 0.0 && |Sizes(rest, weights)| == |weights|
    ensures var size := Sizes(rest, weights)[i] as real;
            size * Sum(weights) <= rest as real * weights[i] < (size + 1.0) * Sum(weights)
  {
    SumPositive(weights);
    ShareByWeight(rest, weights, Sum(weights), i);
  }

  lemma Distribute(c: real, a: real, b: real, sum: real)
    requires sum > 0.0
    ensures c * (a + b) / sum == c * a / sum + c * b / sum
  {
  }

  lemma WholeShare(c: real, sum: real)
    requires sum > 0.0
    ensures c * sum / sum == c
  {
  }

  lemma {:induction false} SumIntUpdate(sizes: seq<int>, i: nat, x: int)
    requires i < |sizes|
    ensures SumInt(sizes[i := x]) == SumInt(sizes) - sizes[i] + x
  {
    if i == 0 {
      assert sizes[0 := x][1..] == sizes[1..];
    } else {
      SumIntUpdate(sizes[1..], i - 1, x);
      assert sizes[i := x][1..] == sizes[1..][i - 1 := x];
    }
  }

  /** The sizes are not negative and add up exactly. */
  lemma SizesAddUp(rest: nat, weights: seq<real>)
    requires Positive(weights) && weights != []
    ensures Sum(weights) > 0.0
    ensures var sizes := Sizes(rest, weights);
            && |sizes| == |weights| && SumInt(sizes) == rest
            && forall i :: 0 <= i < |sizes| ==> sizes[i] >= 0
  {
    SumPositive(weights);
    var sum := Sum(weights);
    SharesFit(rest, weights, sum);
    WholeShare(rest as real, sum);
    var shares := Shares(rest, weights, sum);
    SumIntUpdate(shares, 0, shares[0] + rest - SumInt(shares));
  }

  // ── The plan ──────────────────────────────────────────────────────────

  function Repeat(k: Kind, n: nat): seq<Kind> { seq(n, _ => k) }

  function Kinds(docs: seq<Doc>): seq<Kind> { seq(|docs|, i requires 0 <= i < |docs| => docs[i].kind) }

  function Spaces(docs: seq<Doc>): seq<nat> { seq(|docs|, i requires 0 <= i < |docs| => docs[i].space) }

  /** Space numbers from `first` on, each as often as its size. */
  function Filled(sizes: seq<int>, first: nat): seq<nat> {
    if sizes == [] then []
    else seq(if sizes[0] < 0 then 0 else sizes[0], _ => first) + Filled(sizes[1..], first + 1)
  }

  const PROBES := [Doc(0, Rich), Doc(0, Rich), Doc(0, Md), Doc(0, Html)]

  /** The totals are the whole numbers nearest to 70% and 5%, the upper one of two. */
  lemma TotalsAreNearest(total: nat)
    ensures -0.5 < MdTotal(total) as real - 0.7 * total as real <= 0.5
    ensures -0.5 < HtmlTotal(total) as real - 0.05 * total as real <= 0.5
  {
  }

  /** For which totals the three kind counts are not negative. */
  lemma CountsFitIff(total: nat)
    ensures (MdTotal(total) - 1 >= 0 && HtmlTotal(total) - 1 >= 0 && total - MdTotal(total) - HtmlTotal(total) - 2 >= 0)
            <==> total >= 10
  {
    var m, h := total as real * 0.7, total as real * 0.05;
    assert MdTotal(total) as real <= m + 0.5 < MdTotal(total) as real + 1.0;
    assert HtmlTotal(total) as real <= h + 0.5 < HtmlTotal(total) as real + 1.0;
    if total >= 12 {
      assert total as real - m - h >= 3.0;
    } else if total >= 10 {
      assert total == 10 || total == 11;
    }
  }

  /** The loop that fills the spaces in order, one kind after another. */
  method Fill(kinds: seq<Kind>, sizes: seq<int>) returns (docs: seq<Doc>)
    requires (forall i :: 0 <= i < |sizes| ==> sizes[i] >= 0) && SumInt(sizes) == |kinds|
    ensures |docs| == 4 + |kinds| && docs[..4] == PROBES
    ensures Kinds(docs[4..]) == kinds && Spaces(docs[4..]) == Filled(sizes, 0)
  {
    docs := PROBES;
    var next := 0;
    for space := 0 to |sizes|
      invariant 0 <= next <= |kinds| && next + SumInt(sizes[space..]) == |kinds|
      invariant |docs| == 4 + next && docs[..4] == PROBES
      invariant Kinds(docs[4..]) == kinds[..next]
      invariant Spaces(docs[4..]) + Filled(sizes[space..], space) == Filled(sizes, 0)
    {
      assert sizes[space..][1..] == sizes[space + 1..];
      RestPositive(sizes, space + 1);
      ghost var before, start := docs, next;
      for index := 0 to sizes[space]
        invariant 0 <= next <= |kinds| && next == start + index &&
                  next + sizes[space] - index + SumInt(sizes[space + 1..]) == |kinds|
        invariant |docs| == 4 + next && docs[..4] == PROBES
        invariant Kinds(docs[4..]) == kinds[..next]
        invariant Spaces(docs[4..]) == Spaces(before[4..]) + seq(index, _ => space)
      {
        ghost var shorter := docs;
        docs := docs + [Doc(space, kinds[next])];
        assert docs[4..] == shorter[4..] + [Doc(space, kinds[next])];
        Appended(shorter[4..], Doc(space, kinds[next]));
        assert seq(index + 1, _ => space) == seq(index, _ => space) + [space];
        assert kinds[..next + 1] == kinds[..next] + [kinds[next]];
        next := next + 1;
      }
      assert Spaces(before[4..]) + (seq(sizes[space], _ => space) + Filled(sizes[space + 1..], space + 1))
          == Spaces(docs[4..]) + Filled(sizes[space + 1..], space + 1);
    }
    assert kinds[..|kinds|] == kinds;
  }

  lemma Appended(docs: seq<Doc>, d: Doc)
    ensures Kinds(docs + [d]) == Kinds(docs) + [d.kind]
    ensures Spaces(docs + [d]) == Spaces(docs) + [d.space]
  {
  }

  lemma {:induction false} RestPositive(sizes: seq<int>, i: nat)
    requires i <= |sizes| && forall j :: 0 <= j < |sizes| ==> sizes[j] >= 0
    ensures SumInt(sizes[i..]) >= 0
    decreases |sizes| - i
  {
    if i < |sizes| {
      RestPositive(sizes, i + 1);
      assert sizes[i..][1..] == sizes[i + 1..];
    }
  }

  function CountKind(docs: seq<Doc>, k: Kind): nat { multiset(Kinds(docs))[k] }

  /** The kinds planned besides the probes, before shuffling. */
  function Mixed(md: nat, rich: nat, html: nat): seq<Kind> { Repeat(Md, md) + Repeat(Rich, rich) + Repeat(Html, html) }

  /** The kinds, shuffled, put into the spaces after the probes. */
  method Arrange(md: nat, rich: nat, html: nat, sizes: seq<int>, draw: nat -> real) returns (docs: seq<Doc>)
    requires Uniform(draw)
    requires (forall i :: 0 <= i < |sizes| ==> sizes[i] >= 0) && SumInt(sizes) == md + rich + html
    ensures |docs| == 4 + md + rich + html && docs[..4] == PROBES
    ensures Kinds(docs[4..]) == Shuffled(Mixed(md, rich, html), md + rich + html - 1, draw, 0)
    ensures Spaces(docs[4..]) == Filled(sizes, 0)
    ensures CountKind(docs, Md) == md + 1 && CountKind(docs, Rich) == rich + 2 && CountKind(docs, Html) == html + 1
  {
    var kinds := ShuffleKinds(Mixed(md, rich, html), draw);
    docs := Fill(kinds, sizes);
    CountShuffled(docs, kinds, md, rich, html, draw);
  }

  lemma CountShuffled(docs: seq<Doc>, kinds: seq<Kind>, md: nat, rich: nat, html: nat, draw: nat -> real)
    requires Uniform(draw) && kinds == Shuffled(Mixed(md, rich, html), md + rich + html - 1, draw, 0)
    requires |docs| >= 4 && docs[..4] == PROBES && Kinds(docs[4..]) == kinds
    ensures CountKind(docs, Md) == md + 1 && CountKind(docs, Rich) == rich + 2 && CountKind(docs, Html) == html + 1
  {
    ShuffleMoves(Mixed(md, rich, html), md + rich + html - 1, draw, 0);
    CountPlanned(docs, kinds, md, rich, html);
  }

  method ShuffleKinds(all: seq<Kind>, draw: nat -> real) returns (kinds: seq<Kind>)
    requires Uniform(draw)
    ensures kinds == Shuffled(all, |all| - 1, draw, 0)
  {
    var a := new Kind[|all|](i requires 0 <= i < |all| => all[i]);
    assert a[..] == all;
    Shuffle(a, draw);
    return a[..];
  }

  /** `planDocs`: it throws exactly below ten documents. Otherwise, with at least
      one space, it plans exactly `total` documents: the four probes, then each
      planned kind once, shuffled, filling the spaces in order by their sizes; and
      exactly round(0.7 total) are Markdown and round(0.05 total) HTML. */
  method Plan(total: nat, weights: seq<real>, draw: nat -> real) returns (r: Result<seq<Doc>>)
    requires Positive(weights) && Uniform(draw)
    ensures r.Ok? <==> total >= 10
    ensures r.Ok? && weights == [] ==> r.value == PROBES
    ensures r.Ok? && weights != [] ==>
              && |r.value| == total && r.value[..4] == PROBES
              && CountKind(r.value, Md) == MdTotal(total)
              && CountKind(r.value, Html) == HtmlTotal(total)
              && CountKind(r.value, Rich) == total - MdTotal(total) - HtmlTotal(total)
              && Sum(weights) > 0.0
              && Spaces(r.value[4..]) == Filled(Sizes(total - 4, weights), 0)
              && |Sizes(total - 4, weights)| == |weights|
              && (forall i :: 0 <= i < |weights| ==>
                    multiset(Spaces(r.value))[i] == Sizes(total - 4, weights)[i] + if i == 0 then 4 else 0)
  {
    var md, html := MdTotal(total) - 1, HtmlTotal(total) - 1;
    var rich := total - md - html - 4;
    CountsFitIff(total);
    if md < 0 || rich < 0 || html < 0 { return Err("Invalid array length"); }
    if weights == [] { return Ok(PROBES); }
    SizesAddUp(total - 4, weights);
    var docs := Arrange(md, rich, html, Sizes(total - 4, weights), draw);
    forall i | 0 <= i < |weights|
      ensures multiset(Spaces(docs))[i] == Sizes(total - 4, weights)[i] + if i == 0 then 4 else 0
    {
      SpaceCount(docs, Sizes(total - 4, weights), i);
    }
    return Ok(docs);
  }

  lemma {:induction false} FilledCount(sizes: seq<int>, first: nat, space: nat)
    requires forall j :: 0 <= j < |sizes| ==> sizes[j] >= 0
    ensures multiset(Filled(sizes, first))[space] ==
            if first <= space < first + |sizes| then sizes[space - first] else 0
  {
    if sizes != [] {
      var same, rest := seq(sizes[0], _ => first), Filled(sizes[1..], first + 1);
      FilledCount(sizes[1..], first + 1, space);
      CountSame(sizes[0], first, space);
      CountConcat(same, rest, space);
      assert Filled(sizes, first) == same + rest;
    }
  }

  lemma CountConcat(a: seq<nat>, b: seq<nat>, x: nat)
    ensures multiset(a + b)[x] == multiset(a)[x] + multiset(b)[x]
  {
  }

  lemma {:induction false} CountSame(n: nat, first: nat, space: nat)
    ensures multiset(seq(n, _ => first))[space] == if space == first then n else 0
  {
    if n > 0 {
      CountSame(n - 1, first, space);
      assert seq(n, _ => first) == seq(n - 1, _ => first) + [first];
    }
  }

  /** A space holds as many documents as its size, and the first the probes too. */
  lemma SpaceCount(docs: seq<Doc>, sizes: seq<int>, space: nat)
    requires |docs| >= 4 && docs[..4] == PROBES && Spaces(docs[4..]) == Filled(sizes, 0)
    requires space < |sizes| && forall j :: 0 <= j < |sizes| ==> sizes[j] >= 0
    ensures multiset(Spaces(docs))[space] == sizes[space] + if space == 0 then 4 else 0
  {
    FilledCount(sizes, 0, space);
    ProbesCounted(docs, space);
  }

  lemma ProbesCounted(docs: seq<Doc>, space: nat)
    requires |docs| >= 4 && docs[..4] == PROBES
    ensures multiset(Spaces(docs))[space] == (if space == 0 then 4 else 0) + multiset(Spaces(docs[4..]))[space]
  {
    ProbesInFirst(docs);
    CountConcat(seq(4, _ => 0), Spaces(docs[4..]), space);
    CountSame(4, 0, space);
  }

  lemma ProbesInFirst(docs: seq<Doc>)
    requires |docs| >= 4 && docs[..4] == PROBES
    ensures Spaces(docs) == seq(4, _ => 0) + Spaces(docs[4..])
  {
    forall i | 0 <= i < 4 ensures docs[i].space == 0 { assert docs[i] == docs[..4][i] == PROBES[i]; }
  }

  lemma {:induction false} CountRepeat(k: Kind, n: nat, x: Kind)
    ensures multiset(Repeat(k, n))[x] == if k == x then n else 0
  {
    if n > 0 {
      CountRepeat(k, n - 1, x);
      assert Repeat(k, n) == Repeat(k, n - 1) + [k];
    }
  }

  lemma CountMixed(md: nat, rich: nat, html: nat, x: Kind)
    ensures multiset(Mixed(md, rich, html))[x]
         == (match x case Md => md case Rich => rich case Html => html)
  {
    CountRepeat(Md, md, x);
    CountRepeat(Rich, rich, x);
    CountRepeat(Html, html, x);
  }

  lemma ProbesFirst(docs: seq<Doc>, shuffled: seq<Kind>)
    requires |docs| >= 4 && docs[..4] == PROBES && Kinds(docs[4..]) == shuffled
    ensures multiset(Kinds(docs)) == multiset{Rich, Rich, Md, Html} + multiset(shuffled)
  {
    assert docs == PROBES + docs[4..];
    assert Kinds(docs) == [Rich, Rich, Md, Html] + shuffled;
  }

  lemma CountPlanned(docs: seq<Doc>, shuffled: seq<Kind>, md: nat, rich: nat, html: nat)
    requires |docs| >= 4 && docs[..4] == PROBES && Kinds(docs[4..]) == shuffled
    requires multiset(shuffled) == multiset(Mixed(md, rich, html))
    ensures CountKind(docs, Md) == md + 1 && CountKind(docs, Rich) == rich + 2 && CountKind(docs, Html) == html + 1
  {
    ProbesFirst(docs, shuffled);
    CountMixed(md, rich, html, Md);
    CountMixed(md, rich, html, Rich);
    CountMixed(md, rich, html, Html);
  }
}
