/** Gaps in a barcode series (scripts/find_missing_barcodes.py). */
module MissingBarcodes {

  /** A closed interval of missing barcodes. */
  datatype Range = Range(first: int, last: int)

  predicate Covers(r: Range, x: int) {
    r.first <= x <= r.last
  }

  predicate InSome(ranges: seq<Range>, x: int) {
    exists k | 0 <= k < |ranges| :: Covers(ranges[k], x)
  }

  /** Non-empty intervals in ascending order with at least one barcode between neighbours. */
  predicate Separated(ranges: seq<Range>) {
    && (forall k | 0 <= k < |ranges| :: ranges[k].first <= ranges[k].last)
    && (forall j, k | 0 <= j < k < |ranges| :: ranges[j].last + 1 < ranges[k].first)
  }

  /** The ranges cover exactly the barcodes of [start, end] that do not exist. */
  ghost predicate CoversMissing(ranges: seq<Range>, start: int, end: int, existing: set<int>) {
    forall x :: InSome(ranges, x) <==> start <= x <= end && x !in existing
  }

  function Sizes(ranges: seq<Range>): int {
    if ranges == [] then 0
    else Sizes(ranges[..|ranges| - 1]) + (ranges[|ranges| - 1].last - ranges[|ranges| - 1].first + 1)
  }

  /** How many of the barcodes start, ..., next - 1 are missing. */
  function CountMissing(start: int, next: int, existing: set<int>): nat
    decreases next - start
  {
    if next <= start then 0
    else CountMissing(start, next - 1, existing) + if next - 1 in existing then 0 else 1
  }

  lemma SizesSnoc(ranges: seq<Range>, r: Range)
    ensures Sizes(ranges + [r]) == Sizes(ranges) + (r.last - r.first + 1)
  {
    assert (ranges + [r])[..|ranges|] == ranges;
  }

  lemma InSomeSnoc(ranges: seq<Range>, r: Range, x: int)
    ensures InSome(ranges + [r], x) <==> InSome(ranges, x) || Covers(r, x)
  {
    var longer := ranges + [r];
    if InSome(ranges, x) {
      var k :| 0 <= k < |ranges| && Covers(ranges[k], x);
      assert Covers(longer[k], x);
    }
    if Covers(r, x) {
      assert Covers(longer[|ranges|], x);
    }
  }

  /** What the closed ranges say about the barcodes before `upTo`. */
  ghost predicate Closed(ranges: seq<Range>, start: int, upTo: int, existing: set<int>) {
    && Separated(ranges)
    && (forall k | 0 <= k < |ranges| :: ranges[k].last + 1 < upTo)
    && (forall x :: InSome(ranges, x) <==> start <= x < upTo && x !in existing)
    && Sizes(ranges) == CountMissing(start, upTo, existing)
  }

  /** Ranges that settle everything before an existing barcode settle it too. */
  lemma SkipExisting(ranges: seq<Range>, start: int, at: int, existing: set<int>)
    requires Separated(ranges) && start <= at && at in existing
    requires forall k | 0 <= k < |ranges| :: ranges[k].last < at
    requires forall x :: InSome(ranges, x) <==> start <= x < at && x !in existing
    requires Sizes(ranges) == CountMissing(start, at, existing)
    ensures Closed(ranges, start, at + 1, existing)
  {
    forall x ensures InSome(ranges, x) <==> start <= x < at + 1 && x !in existing {
    }
  }

  lemma {:induction false} MissingRun(start: int, from: int, next: int, existing: set<int>)
    requires start <= from <= next && forall x | from <= x < next :: x !in existing
    ensures CountMissing(start, next, existing) == CountMissing(start, from, existing) + (next - from)
    decreases next - from
  {
    if from < next {
      MissingRun(start, from, next - 1, existing);
    }
  }

  /** Closing a run of missing barcodes; the next barcode exists or lies past the end. */
  lemma CloseRun(ranges: seq<Range>, start: int, from: int, next: int, existing: set<int>)
    requires start <= from < next && forall x | from <= x < next :: x !in existing
    requires Closed(ranges, start, from, existing)
    ensures var longer := ranges + [Range(from, next - 1)];
            && Separated(longer)
            && (forall k | 0 <= k < |longer| :: longer[k].last < next)
            && (forall x :: InSome(longer, x) <==> start <= x < next && x !in existing)
            && Sizes(longer) == CountMissing(start, next, existing)
  {
    var r := Range(from, next - 1);
    SizesSnoc(ranges, r);
    MissingRun(start, from, next, existing);
    forall x ensures InSome(ranges + [r], x) <==> start <= x < next && x !in existing {
      InSomeSnoc(ranges, r, x);
    }
  }

  /** The run ends at an existing barcode. */
  lemma CloseAtExisting(ranges: seq<Range>, start: int, from: int, at: int, existing: set<int>)
    requires start <= from < at && at in existing && forall x | from <= x < at :: x !in existing
    requires Closed(ranges, start, from, existing)
    ensures Closed(ranges + [Range(from, at - 1)], start, at + 1, existing)
  {
    CloseRun(ranges, start, from, at, existing);
    SkipExisting(ranges + [Range(from, at - 1)], start, at, existing);
  }

  /** What the caller gets. */
  ghost predicate Answer(ranges: seq<Range>, start: int, end: int, existing: set<int>) {
    && Separated(ranges)
    && CoversMissing(ranges, start, end, existing)
    && Sizes(ranges) == CountMissing(start, end + 1, existing)
  }

  lemma NoOpenRun(ranges: seq<Range>, start: int, end: int, upTo: int, existing: set<int>)
    requires Closed(ranges, start, upTo, existing) && (upTo == end + 1 || (upTo == start && start > end))
    ensures Answer(ranges, start, end, existing)
  {
  }

  lemma OpenRun(ranges: seq<Range>, start: int, from: int, end: int, existing: set<int>)
    requires start <= from <= end && forall x | from <= x <= end :: x !in existing
    requires Closed(ranges, start, from, existing)
    ensures Answer(ranges + [Range(from, end)], start, end, existing)
  {
    CloseRun(ranges, start, from, end + 1, existing);
  }

  /** `find_missing_ranges`. For any bounds the result is separated, covers exactly the missing
      barcodes, and its sizes add up to their number. */
  method FindMissingRanges(start: int, end: int, existing: set<int>) returns (ranges: seq<Range>)
    ensures Separated(ranges)
    ensures CoversMissing(ranges, start, end, existing)
    ensures Sizes(ranges) == CountMissing(start, end + 1, existing)
  {
    ranges := [];
    var open := false;
    var rangeStart := start;
    var barcode := start;
    assert Closed(ranges, start, start, existing);
    while barcode <= end
      invariant start <= barcode && (barcode <= end + 1 || (barcode == start && !open))
      invariant open ==> start <= rangeStart < barcode && forall x | rangeStart <= x < barcode :: x !in existing
      invariant Closed(ranges, start, if open then rangeStart else barcode, existing)
    {
      if barcode !in existing {
        if !open {
          open, rangeStart := true, barcode;
        }
      } else if open {
        CloseAtExisting(ranges, start, rangeStart, barcode, existing);
        ranges, open := ranges + [Range(rangeStart, barcode - 1)], false;
      } else {
        SkipExisting(ranges, start, barcode, existing);
      }
      barcode := barcode + 1;
    }
    if open {
      OpenRun(ranges, start, rangeStart, end, existing);
      ranges := ranges + [Range(rangeStart, end)];
    } else {
      NoOpenRun(ranges, start, end, barcode, existing);
    }
  }

  // ---------------------------------------------------------------- uniqueness

  lemma Uncovered(ranges: seq<Range>, k: nat)
    requires Separated(ranges) && k < |ranges|
    ensures !InSome(ranges, ranges[k].first - 1) && !InSome(ranges, ranges[k].last + 1)
    ensures InSome(ranges, ranges[k].first) && InSome(ranges, ranges[k].last)
  {
    assert Covers(ranges[k], ranges[k].first) && Covers(ranges[k], ranges[k].last);
    forall j | 0 <= j < |ranges|
      ensures !Covers(ranges[j], ranges[k].first - 1) && !Covers(ranges[j], ranges[k].last + 1)
    {
    }
  }

  ghost predicate SameCover(a: seq<Range>, b: seq<Range>) {
    forall x :: InSome(a, x) <==> InSome(b, x)
  }

  /** The last intervals of two separated lists with the same cover are the same. */
  lemma SameLast(a: seq<Range>, b: seq<Range>)
    requires Separated(a) && Separated(b) && SameCover(a, b) && a != [] && b != []
    ensures a[|a| - 1].last <= b[|b| - 1].last
    ensures a[|a| - 1].last == b[|b| - 1].last ==> a[|a| - 1].first <= b[|b| - 1].first
  {
    var x, y := a[|a| - 1], b[|b| - 1];
    Uncovered(a, |a| - 1);
    Uncovered(b, |b| - 1);
    assert InSome(b, x.last);
    assert Covers(b[|b| - 1], x.first - 1) ==> InSome(b, x.first - 1);
  }

  lemma {:induction false} DropLastCover(a: seq<Range>, x: int)
    requires Separated(a) && a != []
    ensures InSome(a[..|a| - 1], x) <==> InSome(a, x) && x < a[|a| - 1].first
  {
    var init, last := a[..|a| - 1], a[|a| - 1];
    assert a == init + [last];
    InSomeSnoc(init, last, x);
  }

  /** Separation and the barcodes covered determine the ranges: there is only one right answer. */
  lemma {:induction false} RangesAreUnique(a: seq<Range>, b: seq<Range>)
    requires Separated(a) && Separated(b) && SameCover(a, b)
    ensures a == b
  {
    if a == [] && b != [] {
      Uncovered(b, 0);
    } else if b == [] && a != [] {
      Uncovered(a, 0);
    } else if a != [] {
      SameLast(a, b);
      SameLast(b, a);
      var a0, b0 := a[..|a| - 1], b[..|b| - 1];
      forall x ensures InSome(a0, x) <==> InSome(b0, x) {
        DropLastCover(a, x);
        DropLastCover(b, x);
      }
      RangesAreUnique(a0, b0);
      assert a == a0 + [a[|a| - 1]] && b == b0 + [b[|b| - 1]];
    }
  }

  // ---------------------------------------------------------------- the reported count

  function Inside(start: int, end: int, existing: set<int>): set<int> {
    set x | x in existing && start <= x <= end
  }

  /** `missing_count` of `generate_report`. */
  function ReportedMissing(start: int, end: int, existing: set<int>): int {
    end - start + 1 - |existing|
  }

  lemma {:induction false} MissingAndInside(start: int, next: int, existing: set<int>)
    requires start <= next
    ensures CountMissing(start, next, existing) + |Inside(start, next - 1, existing)| == next - start
    decreases next - start
  {
    if next == start {
      assert Inside(start, next - 1, existing) == {};
    } else {
      MissingAndInside(start, next - 1, existing);
      var smaller := Inside(start, next - 2, existing);
      if next - 1 in existing {
        assert Inside(start, next - 1, existing) == smaller + {next - 1};
      } else {
        assert Inside(start, next - 1, existing) == smaller;
      }
    }
  }

  /** The report's missing count agrees with the ranges exactly when every existing barcode lies in
      the interval; each stray one makes it one too low. */
  lemma ReportedCountExact(start: int, end: int, existing: set<int>)
    requires start <= end
    ensures CountMissing(start, end + 1, existing) - ReportedMissing(start, end, existing)
            == |existing - Inside(start, end, existing)|
    ensures CountMissing(start, end + 1, existing) == ReportedMissing(start, end, existing)
            <==> forall x | x in existing :: start <= x <= end
  {
    MissingAndInside(start, end + 1, existing);
    var inside := Inside(start, end, existing);
    var stray := existing - inside;
    assert existing == inside + stray && inside * stray == {};
    assert |existing| == |inside| + |stray|;
    if stray == {} {
      assert forall x | x in existing :: x in inside;
    } else {
      var x :| x in stray;
      assert x in existing && !(start <= x <= end);
    }
  }
}
