/**
 * Camp cleanup: count the assignment pairs, one per line `a-b,c-d`, in which one
 * section range contains the other, and those in which the two ranges intersect.
 */
module CampCleanup {
  import opened Wrappers
  import opened Text

  /** A section range `start-end`; the inputs have start <= end, which is not checked. */
  datatype Range = Range(start: int, end: int)

  /** One assignment pair: the two ranges of one input line. */
  datatype Pair = Pair(first: Range, second: Range)

  datatype Counts = Counts(fullOverlapCounter: nat, partialOverlapCounter: nat)

  predicate WellOrdered(r: Range)
  {
    r.start <= r.end
  }

  predicate Covers(r: Range, x: int)
  {
    r.start <= x <= r.end
  }

  /** `hasFullOverlap`: one range starts no later and ends no earlier than the other. */
  predicate HasFullOverlap(p1: Range, p2: Range)
  {
    (p1.start <= p2.start && p1.end >= p2.end) || (p2.start <= p1.start && p2.end >= p1.end)
  }

  /** `hasPartialOverlap`: the start of one range lies within the other. */
  predicate HasPartialOverlap(p1: Range, p2: Range)
  {
    (p1.start <= p2.start && p1.end >= p2.start) || (p2.start <= p1.start && p2.end >= p1.start)
  }

  lemma FullOverlapSymmetric(p1: Range, p2: Range)
    ensures HasFullOverlap(p1, p2) == HasFullOverlap(p2, p1)
  {
  }

  lemma PartialOverlapSymmetric(p1: Range, p2: Range)
    ensures HasPartialOverlap(p1, p2) == HasPartialOverlap(p2, p1)
  {
  }

  lemma OverlapReflexive(r: Range)
    ensures HasFullOverlap(r, r)
    ensures HasPartialOverlap(r, r) <==> WellOrdered(r)
  {
  }

  lemma FullImpliesPartial(p1: Range, p2: Range)
    requires WellOrdered(p1) && WellOrdered(p2)
    ensures HasFullOverlap(p1, p2) ==> HasPartialOverlap(p1, p2)
  {
  }

  /** The partial-overlap test is the usual interval-intersection test. */
  lemma PartialOverlapIntersects(p1: Range, p2: Range)
    requires WellOrdered(p1) && WellOrdered(p2)
    ensures HasPartialOverlap(p1, p2) <==> p1.start <= p2.end && p2.start <= p1.end
  {
  }

  /** Partial overlap means the two ranges share a section. */
  lemma PartialOverlapSharesSection(p1: Range, p2: Range)
    requires WellOrdered(p1) && WellOrdered(p2)
    ensures HasPartialOverlap(p1, p2) <==> exists x :: Covers(p1, x) && Covers(p2, x)
  {
    if HasPartialOverlap(p1, p2) {
      var x := if p1.start <= p2.start then p2.start else p1.start;
      assert Covers(p1, x) && Covers(p2, x);
    }
  }

  /** Full overlap means every section of one range is a section of the other. */
  lemma FullOverlapContains(p1: Range, p2: Range)
    requires WellOrdered(p1) && WellOrdered(p2)
    ensures HasFullOverlap(p1, p2) <==>
      (forall x :: Covers(p2, x) ==> Covers(p1, x)) || (forall x :: Covers(p1, x) ==> Covers(p2, x))
  {
    if forall x :: Covers(p2, x) ==> Covers(p1, x) {
      assert Covers(p2, p2.start) && Covers(p2, p2.end);
    } else if forall x :: Covers(p1, x) ==> Covers(p2, x) {
      assert Covers(p1, p1.start) && Covers(p1, p1.end);
    }
  }

  /** `range.split("-").map(Number)`, keeping the first two numbers. */
  function ParseRange(text: string): Option<Range>
  {
    var bounds := Split(text, '-');
    if |bounds| < 2 then None
    else
      match (ToNumber(bounds[0]), ToNumber(bounds[1]))
      case (Some(a), Some(b)) => Some(Range(a, b))
      case _ => None
  }

  /** `line.split(",")` into two ranges; a third comma-separated part is ignored. */
  function ParseLine(line: string): Option<Pair>
  {
    var ranges := Split(line, ',');
    if |ranges| < 2 then None
    else
      match (ParseRange(ranges[0]), ParseRange(ranges[1]))
      case (Some(r1), Some(r2)) => Some(Pair(r1, r2))
      case _ => None
  }

  /** The line `a-b,c-d` written from four numbers. */
  function PairLine(a: nat, b: nat, c: nat, d: nat): string
  {
    Numeral(a) + "-" + Numeral(b) + "," + Numeral(c) + "-" + Numeral(d)
  }

  lemma ParseRangeOf(a: nat, b: nat)
    ensures ParseRange(Numeral(a) + "-" + Numeral(b)) == Some(Range(a, b))
  {
    var parts := [Numeral(a), Numeral(b)];
    assert Numeral(a) + "-" + Numeral(b) == Join(parts, '-');
    SplitJoin(parts, '-');
    ToNumberNumeral(a);
    ToNumberNumeral(b);
  }

  /** The line `a-b,c-d` parses to the pair of ranges [a, b] and [c, d]. */
  lemma ParseLineOf(a: nat, b: nat, c: nat, d: nat)
    ensures ParseLine(PairLine(a, b, c, d)) == Some(Pair(Range(a, b), Range(c, d)))
  {
    var left, right := Numeral(a) + "-" + Numeral(b), Numeral(c) + "-" + Numeral(d);
    assert PairLine(a, b, c, d) == Join([left, right], ',');
    assert ',' !in left && ',' !in right by {
      assert forall i :: 0 <= i < |Numeral(a)| ==> IsDigit(Numeral(a)[i]);
      assert forall i :: 0 <= i < |Numeral(b)| ==> IsDigit(Numeral(b)[i]);
      assert forall i :: 0 <= i < |Numeral(c)| ==> IsDigit(Numeral(c)[i]);
      assert forall i :: 0 <= i < |Numeral(d)| ==> IsDigit(Numeral(d)[i]);
    }
    SplitJoin([left, right], ',');
    ParseRangeOf(a, b);
    ParseRangeOf(c, d);
  }

  /** `inputLines.map(...)`: None as soon as one line is not a pair of ranges. */
  function ParsePairs(lines: seq<string>): (r: Option<seq<Pair>>)
    ensures r.Some? ==> |r.value| == |lines|
    ensures r.Some? <==> forall i :: 0 <= i < |lines| ==> ParseLine(lines[i]).Some?
    ensures r.Some? ==> forall i :: 0 <= i < |lines| ==> ParseLine(lines[i]) == Some(r.value[i])
  {
    if |lines| == 0 then Some([])
    else
      var init := lines[..|lines| - 1];
      assert forall i :: 0 <= i < |init| ==> init[i] == lines[i];
      match (ParsePairs(init), ParseLine(lines[|lines| - 1]))
      case (Some(ps), Some(p)) => Some(ps + [p])
      case _ => None
  }

  /** The number of pairs in which one range contains the other. */
  function CountFull(pairs: seq<Pair>): nat
  {
    if |pairs| == 0 then 0
    else
      var p := pairs[|pairs| - 1];
      CountFull(pairs[..|pairs| - 1]) + (if HasFullOverlap(p.first, p.second) then 1 else 0)
  }

  /** The number of pairs whose ranges intersect. */
  function CountPartial(pairs: seq<Pair>): nat
  {
    if |pairs| == 0 then 0
    else
      var p := pairs[|pairs| - 1];
      CountPartial(pairs[..|pairs| - 1]) + (if HasPartialOverlap(p.first, p.second) then 1 else 0)
  }

  predicate AllWellOrdered(pairs: seq<Pair>)
  {
    forall i :: 0 <= i < |pairs| ==> WellOrdered(pairs[i].first) && WellOrdered(pairs[i].second)
  }

  /** Every fully overlapping pair also overlaps partially, so the first count never exceeds the second. */
  lemma {:induction false} CountsOrdered(pairs: seq<Pair>)
    requires AllWellOrdered(pairs)
    ensures CountFull(pairs) <= CountPartial(pairs) <= |pairs|
  {
    if |pairs| > 0 {
      var p := pairs[|pairs| - 1];
      CountsOrdered(pairs[..|pairs| - 1]);
      FullImpliesPartial(p.first, p.second);
    }
  }

  /** The counting loop of `calculateOverlap`. */
  method CountOverlaps(pairs: seq<Pair>) returns (full: nat, partial: nat)
    ensures full == CountFull(pairs) && partial == CountPartial(pairs)
    ensures AllWellOrdered(pairs) ==> full <= partial <= |pairs|
  {
    full, partial := 0, 0;
    for i := 0 to |pairs|
      invariant full == CountFull(pairs[..i])
      invariant partial == CountPartial(pairs[..i])
    {
      assert pairs[..i + 1][..i] == pairs[..i];
      var pair := pairs[i];
      if HasFullOverlap(pair.first, pair.second) {
        full := full + 1;
      }
      if HasPartialOverlap(pair.first, pair.second) {
        partial := partial + 1;
      }
    }
    assert pairs[..|pairs|] == pairs;
    if AllWellOrdered(pairs) {
      CountsOrdered(pairs);
    }
  }

  /** `calculateOverlap` on the lines of the input file; None when a line is not `a-b,c-d`. */
  method CalculateOverlap(lines: seq<string>) returns (r: Option<Counts>)
    ensures r.Some? <==> ParsePairs(lines).Some?
    ensures r.Some? ==> r.value == Counts(CountFull(ParsePairs(lines).value), CountPartial(ParsePairs(lines).value))
  {
    var pairs := ParsePairs(lines);
    if pairs.None? {
      return None;
    }
    var full, partial := CountOverlaps(pairs.value);
    r := Some(Counts(full, partial));
  }

  lemma CountsAppend(pairs: seq<Pair>, p: Pair)
    ensures CountFull(pairs + [p]) == CountFull(pairs) + (if HasFullOverlap(p.first, p.second) then 1 else 0)
    ensures CountPartial(pairs + [p]) == CountPartial(pairs) + (if HasPartialOverlap(p.first, p.second) then 1 else 0)
  {
    assert (pairs + [p])[..|pairs|] == pairs;
  }

  /** The sample of the puzzle: two pairs overlap fully, four at all; so do its last four pairs. */
  lemma SampleCounts()
    ensures CountFull(SamplePairs()) == 2 && CountPartial(SamplePairs()) == 4
    ensures CountFull(SamplePairs()[2..]) == 2 && CountPartial(SamplePairs()[2..]) == 4
  {
    var ps := SamplePairs();
    CountsAppend([], ps[0]);
    assert [] + [ps[0]] == ps[..1];
    CountsAppend(ps[..1], ps[1]);
    assert ps[..1] + [ps[1]] == ps[..2];
    CountsAppend(ps[..2], ps[2]);
    assert ps[..2] + [ps[2]] == ps[..3];
    CountsAppend(ps[..3], ps[3]);
    assert ps[..3] + [ps[3]] == ps[..4];
    CountsAppend(ps[..4], ps[4]);
    assert ps[..4] + [ps[4]] == ps[..5];
    CountsAppend(ps[..5], ps[5]);
    assert ps[..5] + [ps[5]] == ps;
    var tail := ps[2..];
    CountsAppend([], tail[0]);
    assert [] + [tail[0]] == tail[..1];
    CountsAppend(tail[..1], tail[1]);
    assert tail[..1] + [tail[1]] == tail[..2];
    CountsAppend(tail[..2], tail[2]);
    assert tail[..2] + [tail[2]] == tail[..3];
    CountsAppend(tail[..3], tail[3]);
    assert tail[..3] + [tail[3]] == tail;
  }

  /** Lines that each parse to the corresponding pair parse, together, to the sequence of pairs. */
  lemma {:induction false} ParsePairsOf(lines: seq<string>, pairs: seq<Pair>)
    requires |lines| == |pairs|
    requires forall i :: 0 <= i < |lines| ==> ParseLine(lines[i]) == Some(pairs[i])
    ensures ParsePairs(lines) == Some(pairs)
  {
    if |lines| > 0 {
      ParsePairsOf(lines[..|lines| - 1], pairs[..|pairs| - 1]);
      assert pairs[..|pairs| - 1] + [pairs[|pairs| - 1]] == pairs;
    }
  }

  /** The sample lines parse to the sample pairs. */
  lemma SampleParses()
    ensures ParsePairs(SampleLines()) == Some(SamplePairs())
  {
    forall i | 0 <= i < 6 ensures ParseLine(SampleLines()[i]) == Some(SamplePairs()[i]) {
      SampleLineParses(i);
    }
    ParsePairsOf(SampleLines(), SamplePairs());
  }

  lemma SampleLineParses(i: nat)
    requires i < 6
    ensures ParseLine(SampleLines()[i]) == Some(SamplePairs()[i])
  {
    var p := SamplePairs()[i];
    var a, b, c, d := p.first.start, p.first.end, p.second.start, p.second.end;
    assert 0 <= a < 10 && 0 <= b < 10 && 0 <= c < 10 && 0 <= d < 10;
    assert SampleLines()[i] == PairLine(a, b, c, d);
    ParseLineOf(a, b, c, d);
  }

  function SampleLines(): seq<string>
  {
    ["2-4,6-8", "2-3,4-5", "5-7,7-9", "2-8,3-7", "6-6,4-6", "2-6,4-8"]
  }

  function SamplePairs(): seq<Pair>
  {
    [ Pair(Range(2, 4), Range(6, 8)), Pair(Range(2, 3), Range(4, 5)), Pair(Range(5, 7), Range(7, 9)),
      Pair(Range(2, 8), Range(3, 7)), Pair(Range(6, 6), Range(4, 6)), Pair(Range(2, 6), Range(4, 8)) ]
  }
}
