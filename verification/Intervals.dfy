/** The two sweeps over a click's request chain: the main thread's gaps
    (scripts/perf/click-trace.ts) and the network's cover
    (scripts/perf/click-trace-report.ts). Times are reals. */
module Intervals {
  import opened Sorting

  datatype Span = Span(start: real, end: real)

  function Max(a: real, b: real): real { if a < b then b else a }

  function Min(a: real, b: real): real { if b < a then b else a }

  function Clip(s: Span, from: real, to: real): Span { Span(Max(s.start, from), Min(s.end, to)) }

  const BY_START := (a: Span, b: Span) => a.start <= b.start

  /** The intervals clipped to [from, to], without the empty ones. */
  function Clipped(intervals: seq<Span>, from: real, to: real): seq<Span> {
    if intervals == [] then []
    else
      var c := Clip(intervals[0], from, to);
      (if c.end > c.start then [c] else []) + Clipped(intervals[1..], from, to)
  }

  function Prepared(intervals: seq<Span>, from: real, to: real): seq<Span> {
    Sort(Clipped(intervals, from, to), BY_START)
  }

  // ── The sweeps as functions ───────────────────────────────────────────

  /** The gaps from `cursor` on, over spans sorted by start. */
  function SweepGaps(spans: seq<Span>, cursor: real, to: real): seq<Span> {
    if spans == [] then (if cursor < to then [Span(cursor, to)] else [])
    else
      (if spans[0].start > cursor then [Span(cursor, spans[0].start)] else [])
      + SweepGaps(spans[1..], Max(cursor, spans[0].end), to)
  }

  /** The time spans cover beyond `cursor`. */
  function SweepCovered(spans: seq<Span>, cursor: real): real {
    if spans == [] then 0.0
    else Max(0.0, spans[0].end - Max(spans[0].start, cursor)) + SweepCovered(spans[1..], Max(cursor, spans[0].end))
  }

  function Length(gaps: seq<Span>): real {
    if gaps == [] then 0.0 else gaps[0].end - gaps[0].start + Length(gaps[1..])
  }

  /** Within [from, to], not empty, sorted by start. */
  predicate Ready(spans: seq<Span>, from: real, to: real) {
    && SortedBy(spans, BY_START)
    && forall i :: 0 <= i < |spans| ==> from <= spans[i].start < spans[i].end <= to
  }

  lemma {:induction false} ClippedMember(intervals: seq<Span>, from: real, to: real, x: Span)
    ensures x in Clipped(intervals, from, to) <==>
            exists s :: s in intervals && x == Clip(s, from, to) && x.end > x.start
  {
    if intervals != [] {
      ClippedMember(intervals[1..], from, to, x);
      assert intervals == [intervals[0]] + intervals[1..];
      if x in Clipped(intervals, from, to) {
        if x == Clip(intervals[0], from, to) && x.end > x.start {
          assert intervals[0] in intervals;
        } else {
          assert x in Clipped(intervals[1..], from, to);
          var s :| s in intervals[1..] && x == Clip(s, from, to) && x.end > x.start;
          assert s in intervals;
        }
      }
    }
  }

  lemma PreparedMember(intervals: seq<Span>, from: real, to: real, x: Span)
    ensures x in Prepared(intervals, from, to) <==>
            exists s :: s in intervals && x == Clip(s, from, to) && x.end > x.start
  {
    ClippedMember(intervals, from, to, x);
    SortKeeps(Clipped(intervals, from, to), BY_START);
    SameMembers(Prepared(intervals, from, to), Clipped(intervals, from, to));
  }

  lemma PreparedReady(intervals: seq<Span>, from: real, to: real)
    ensures Ready(Prepared(intervals, from, to), from, to)
  {
    var c := Clipped(intervals, from, to);
    SortSorts(c, BY_START, _ => true);
    var spans := Prepared(intervals, from, to);
    forall i | 0 <= i < |spans| ensures from <= spans[i].start < spans[i].end <= to {
      assert spans[i] in spans;
      PreparedMember(intervals, from, to, spans[i]);
    }
  }

  // ── What the gaps are ─────────────────────────────────────────────────

  predicate InOrder(gaps: seq<Span>, from: real, to: real) {
    && (forall i :: 0 <= i < |gaps| ==> from <= gaps[i].start < gaps[i].end <= to)
    && (forall i, j :: 0 <= i < j < |gaps| ==> gaps[i].end < gaps[j].start)
  }

  lemma {:induction false} SweepInOrder(spans: seq<Span>, cursor: real, to: real)
    requires spans == [] || Ready(spans, spans[0].start, to)
    ensures InOrder(SweepGaps(spans, cursor, to), cursor, to)
  {
    if spans != [] {
      var next := Max(cursor, spans[0].end);
      TailReady(spans, spans[0].start, to);
      SweepInOrder(spans[1..], next, to);
    }
  }

  lemma TailReady(spans: seq<Span>, from: real, to: real)
    requires spans != [] && Ready(spans, from, to)
    ensures spans[1..] != [] ==> Ready(spans[1..], spans[1..][0].start, to)
    ensures Ready(spans[1..], spans[0].start, to)
  {
    forall i | 0 <= i < |spans[1..]| ensures spans[0].start <= spans[1..][i].start {
      assert BY_START(spans[0], spans[i + 1]);
    }
    forall i | 0 < i < |spans[1..]| ensures spans[1..][0].start <= spans[1..][i].start {
      assert BY_START(spans[1], spans[i + 1]);
    }
  }

  /** `x` lies strictly inside `s`. */
  predicate Inside(s: Span, x: real) { s.start < x < s.end }

  /** `x` lies in `s`, ends included. */
  predicate Covers(s: Span, x: real) { s.start <= x <= s.end }

  predicate InGap(gaps: seq<Span>, x: real) { exists g :: g in gaps && Inside(g, x) }

  /** An interval of positive length covers `x`. */
  predicate Covered(spans: seq<Span>, x: real) { exists s :: s in spans && s.start < s.end && Covers(s, x) }

  /** A point beyond the cursor is inside a gap exactly when no span covers it. */
  lemma {:induction false} SweepFindsUncovered(spans: seq<Span>, cursor: real, to: real, x: real)
    requires spans == [] || Ready(spans, spans[0].start, to)
    requires cursor < x < to
    ensures InGap(SweepGaps(spans, cursor, to), x) <==> !Covered(spans, x)
  {
    if spans == [] {
      assert Span(cursor, to) in SweepGaps(spans, cursor, to) && Inside(Span(cursor, to), x);
    } else {
      var s0, next := spans[0], Max(cursor, spans[0].end);
      var rest := SweepGaps(spans[1..], next, to);
      TailReady(spans, s0.start, to);
      SweepInOrder(spans[1..], next, to);
      assert spans == [s0] + spans[1..];
      assert SweepGaps(spans, cursor, to) == (if s0.start > cursor then [Span(cursor, s0.start)] else []) + rest;
      if x <= next {
        assert forall g :: g in rest ==> !Inside(g, x);
        if x < s0.start {
          assert Inside(Span(cursor, s0.start), x) && Span(cursor, s0.start) in SweepGaps(spans, cursor, to);
          forall s | s in spans ensures !Covers(s, x) {
            var i :| 0 <= i < |spans| && spans[i] == s;
            assert i > 0 ==> BY_START(spans[0], spans[i]);
          }
        } else {
          assert Covers(s0, x) && s0 in spans;
        }
      } else {
        SweepFindsUncovered(spans[1..], next, to, x);
        GapIffUncoveredShifts(spans, cursor, to, x);
      }
    }
  }

  /** Past the first span, the first gap and the first span say nothing more. */
  lemma GapIffUncoveredShifts(spans: seq<Span>, cursor: real, to: real, x: real)
    requires spans != [] && spans[0].start < spans[0].end && Max(cursor, spans[0].end) < x
    ensures var rest := SweepGaps(spans[1..], Max(cursor, spans[0].end), to);
            InGap(SweepGaps(spans, cursor, to), x) <==> InGap(rest, x)
    ensures Covered(spans, x) <==> Covered(spans[1..], x)
  {
    var s0 := spans[0];
    var rest := SweepGaps(spans[1..], Max(cursor, s0.end), to);
    assert spans == [s0] + spans[1..];
    var gaps := SweepGaps(spans, cursor, to);
    assert gaps == (if s0.start > cursor then [Span(cursor, s0.start)] else []) + rest;
    assert !Inside(Span(cursor, s0.start), x) && !Covers(s0, x);
    if InGap(gaps, x) {
      var g :| g in gaps && Inside(g, x);
      assert g in rest;
    }
    if InGap(rest, x) {
      var g :| g in rest && Inside(g, x);
      assert g in gaps;
    }
    if Covered(spans, x) {
      var s :| s in spans && s.start < s.end && Covers(s, x);
      assert s in spans[1..];
    }
  }

  /** `gaps`: within [from, to], not empty, in order and apart; and a point
      between is inside a gap exactly when no interval of positive length
      covers it, whatever the intervals' order, overlap or range. */
  method Gaps(intervals: seq<Span>, from: real, to: real) returns (result: seq<Span>)
    ensures InOrder(result, from, to)
    ensures forall x :: from < x < to ==> (InGap(result, x) <==> !Covered(intervals, x))
    ensures result == SweepGaps(Prepared(intervals, from, to), from, to)
  {
    var sorted := Prepared(intervals, from, to);
    result := [];
    var cursor := from;
    for i := 0 to |sorted|
      invariant result + SweepGaps(sorted[i..], cursor, to) == SweepGaps(sorted, from, to)
    {
      ghost var before := result;
      if sorted[i].start > cursor { result := result + [Span(cursor, sorted[i].start)]; }
      assert sorted[i..][1..] == sorted[i + 1..];
      assert before + SweepGaps(sorted[i..], cursor, to) ==
             result + SweepGaps(sorted[i + 1..], Max(cursor, sorted[i].end), to);
      cursor := Max(cursor, sorted[i].end);
    }
    assert sorted[|sorted|..] == [];
    if cursor < to { result := result + [Span(cursor, to)]; }
    assert result == SweepGaps(sorted, from, to);
    GapsAreUncovered(intervals, from, to);
  }

  lemma GapsAreUncovered(intervals: seq<Span>, from: real, to: real)
    ensures var result := SweepGaps(Prepared(intervals, from, to), from, to);
            && InOrder(result, from, to)
            && forall x :: from < x < to ==> (InGap(result, x) <==> !Covered(intervals, x))
  {
    var spans := Prepared(intervals, from, to);
    PreparedReady(intervals, from, to);
    if spans != [] { assert forall i :: 0 < i < |spans| ==> BY_START(spans[0], spans[i]); }
    SweepInOrder(spans, from, to);
    forall x | from < x < to
      ensures InGap(SweepGaps(spans, from, to), x) <==> !Covered(intervals, x)
    {
      SweepFindsUncovered(spans, from, to, x);
      ClippingKeepsCover(intervals, from, to, x);
    }
  }

  /** Clipping loses no cover of a point between. */
  lemma ClippingKeepsCover(intervals: seq<Span>, from: real, to: real, x: real)
    requires from < x < to
    ensures Covered(Prepared(intervals, from, to), x) <==> Covered(intervals, x)
  {
    if Covered(Prepared(intervals, from, to), x) {
      var c :| c in Prepared(intervals, from, to) && c.start < c.end && Covers(c, x);
      PreparedMember(intervals, from, to, c);
      var s :| s in intervals && c == Clip(s, from, to) && c.end > c.start;
      assert s.start < s.end && Covers(s, x);
    }
    if Covered(intervals, x) {
      var s :| s in intervals && s.start < s.end && Covers(s, x);
      var c := Clip(s, from, to);
      assert c.end > c.start && Covers(c, x);
      PreparedMember(intervals, from, to, c);
    }
  }

  // ── Conservation ──────────────────────────────────────────────────────

  lemma {:induction false} SweepsAddUp(spans: seq<Span>, cursor: real, to: real)
    requires cursor <= to
    requires spans == [] || Ready(spans, spans[0].start, to)
    ensures Length(SweepGaps(spans, cursor, to)) + SweepCovered(spans, cursor) == to - cursor
  {
    if spans != [] {
      TailReady(spans, spans[0].start, to);
      SweepsAddUp(spans[1..], Max(cursor, spans[0].end), to);
      var rest := SweepGaps(spans[1..], Max(cursor, spans[0].end), to);
      assert ([Span(cursor, spans[0].start)] + rest)[1..] == rest;
      assert [] + rest == rest;
    } else if cursor < to {
      assert [Span(cursor, to)][1..] == [];
    }
  }

  /** `networkMs`: the time the chain's requests cover before content. */
  method NetworkMs(steps: seq<Span>, content: real) returns (covered: real)
    ensures covered == SweepCovered(Prepared(steps, 0.0, content), 0.0)
    ensures covered + Length(SweepGaps(Prepared(steps, 0.0, content), 0.0, content)) == Max(0.0, content)
  {
    var spans := Prepared(steps, 0.0, content);
    covered := 0.0;
    var cursor := 0.0;
    for i := 0 to |spans|
      invariant covered + SweepCovered(spans[i..], cursor) == SweepCovered(spans, 0.0)
    {
      assert spans[i..][1..] == spans[i + 1..];
      covered := covered + Max(0.0, spans[i].end - Max(spans[i].start, cursor));
      cursor := Max(cursor, spans[i].end);
    }
    CoverIsConserved(steps, content);
  }

  /** For any chain and any content time, the network's cover and the gaps of
      [0, content] together make up the time before content. */
  lemma CoverIsConserved(steps: seq<Span>, content: real)
    ensures SweepCovered(Prepared(steps, 0.0, content), 0.0)
            + Length(SweepGaps(Prepared(steps, 0.0, content), 0.0, content)) == Max(0.0, content)
  {
    var spans := Prepared(steps, 0.0, content);
    PreparedReady(steps, 0.0, content);
    if spans != [] {
      assert 0.0 <= spans[0].start < spans[0].end <= content;
      assert forall i :: 0 < i < |spans| ==> BY_START(spans[0], spans[i]);
    }
    if content >= 0.0 { SweepsAddUp(spans, 0.0, content); }
  }

  /** The report drops steps that ended before the click; that changes nothing. */
  lemma {:induction false} EarlyStepsDoNotCount(steps: seq<Span>, content: real)
    ensures Clipped(Filter(steps, (s: Span) => s.end > 0.0), 0.0, content) == Clipped(steps, 0.0, content)
  {
    if steps != [] {
      EarlyStepsDoNotCount(steps[1..], content);
      var late := (s: Span) => s.end > 0.0;
      assert ([steps[0]] + Filter(steps[1..], late))[1..] == Filter(steps[1..], late);
      assert Filter(steps, late) == (if late(steps[0]) then [steps[0]] else []) + Filter(steps[1..], late);
      if !late(steps[0]) { assert [] + Filter(steps[1..], late) == Filter(steps[1..], late); }
    }
  }
}
