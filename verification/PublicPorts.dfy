/**
 * Sets of public ports kept as lists of intervals: parsing, the normal form, membership, union and
 * printing. The normal form is canonical: it depends only on the set denoted.
 */
module PublicPorts {
  import opened Wrappers
  import opened Bytes
  import opened Text
  import opened PortText
  import opened Sorting

  datatype Error = Empty | InvalidPort | DescendingRange | EmptySegment

  // ---------------------------------------------------------------- the set a list denotes

  ghost predicate Covers(ranges: seq<PortRange>, port: int)
  {
    exists r :: r in ranges && r.start <= port <= r.end
  }

  ghost predicate SameSet(a: seq<PortRange>, b: seq<PortRange>)
  {
    forall port :: Covers(a, port) <==> Covers(b, port)
  }

  /** Sorted, disjoint and not adjacent. */
  predicate Canonical(ranges: seq<PortRange>)
  {
    && Ascending(ranges)
    && forall i, j :: 0 <= i < j < |ranges| ==> ranges[i].end + 1 < ranges[j].start
  }

  predicate Nonzero(ranges: seq<PortRange>)
  {
    forall i :: 0 <= i < |ranges| ==> ranges[i].start > 0
  }

  // ---------------------------------------------------------------- the normal form

  function RangeKey(r: PortRange): seq<int>
  {
    [r.start, r.end]
  }

  predicate StartsSorted(ranges: seq<PortRange>)
  {
    forall i, j :: 0 <= i < j < |ranges| ==> ranges[i].start <= ranges[j].start
  }

  function Later(a: U16, b: U16): U16
  {
    if a >= b then a else b
  }

  function Absorb(merged: seq<PortRange>, r: PortRange): seq<PortRange>
  {
    var n := |merged|;
    if n > 0 && r.start <= NextPort(merged[n - 1].end) then
      merged[..n - 1] + [merged[n - 1].(end := Later(merged[n - 1].end, r.end))]
    else
      merged + [r]
  }

  function Merge(sorted: seq<PortRange>): seq<PortRange>
  {
    if sorted == [] then [] else Absorb(Merge(sorted[..|sorted| - 1]), sorted[|sorted| - 1])
  }

  function Normalize(ranges: seq<PortRange>): seq<PortRange>
  {
    Merge(SortByKey(ranges, RangeKey))
  }

  lemma {:induction false} SortedByStart(ranges: seq<PortRange>)
    ensures StartsSorted(SortByKey(ranges, RangeKey))
  {
    hide SortByKey;
    var sorted := SortByKey(ranges, RangeKey);
    SortSorts(ranges, RangeKey);
    forall i, j | 0 <= i < j < |sorted| ensures sorted[i].start <= sorted[j].start {
      assert LexLeq(RangeKey(sorted[i]), RangeKey(sorted[j]));
    }
  }

  ghost predicate StartsBy(ranges: seq<PortRange>, bound: int)
  {
    forall i :: 0 <= i < |ranges| ==> ranges[i].start <= bound
  }

  lemma {:induction false} AbsorbKeeps(merged: seq<PortRange>, r: PortRange)
    requires Canonical(merged) && StartsBy(merged, r.start) && r.start <= r.end
    ensures Canonical(Absorb(merged, r)) && StartsBy(Absorb(merged, r), r.start)
    ensures forall port :: Covers(Absorb(merged, r), port) <==> Covers(merged, port) || r.start <= port <= r.end
  {
    hide Covers;
    forall port ensures Covers(Absorb(merged, r), port) <==> Covers(merged, port) || r.start <= port <= r.end {
      AbsorbCovers(merged, r, port);
    }
    AbsorbCanonical(merged, r);
  }

  lemma {:induction false} AbsorbCanonical(merged: seq<PortRange>, r: PortRange)
    requires Canonical(merged) && StartsBy(merged, r.start) && r.start <= r.end
    ensures Canonical(Absorb(merged, r)) && StartsBy(Absorb(merged, r), r.start)
  {
    var n := |merged|;
    var after := Absorb(merged, r);
    if n > 0 && r.start <= NextPort(merged[n - 1].end) {
      assert after == merged[n - 1 := after[n - 1]];
    } else {
      assert forall i :: 0 <= i < n - 1 ==> merged[i].end + 1 < merged[n - 1].start;
    }
  }

  lemma {:induction false} AbsorbCovers(merged: seq<PortRange>, r: PortRange, port: int)
    requires Ascending(merged) && StartsBy(merged, r.start) && r.start <= r.end
    ensures Covers(Absorb(merged, r), port) <==> Covers(merged, port) || r.start <= port <= r.end
  {
    var n := |merged|;
    var after := Absorb(merged, r);
    if n > 0 && r.start <= NextPort(merged[n - 1].end) {
      var last, grown := merged[n - 1], after[n - 1];
      assert merged == merged[..n - 1] + [last];
      CoversAppend(merged[..n - 1], last, port);
      CoversAppend(merged[..n - 1], grown, port);
    } else {
      CoversAppend(merged, r, port);
    }
  }

  lemma {:induction false} CoversAppend(ranges: seq<PortRange>, r: PortRange, port: int)
    ensures Covers(ranges + [r], port) <==> Covers(ranges, port) || r.start <= port <= r.end
  {
    if Covers(ranges, port) {
      var s :| s in ranges && s.start <= port <= s.end;
      assert s in ranges + [r];
    }
    assert r in ranges + [r];
  }

  lemma {:induction false} MergeNothing()
    ensures Canonical([])
  {
  }

  lemma {:induction false} MergeKeeps(sorted: seq<PortRange>)
    requires StartsSorted(sorted) && Ascending(sorted)
    ensures Canonical(Merge(sorted)) && SameSet(Merge(sorted), sorted)
    ensures sorted != [] ==> StartsBy(Merge(sorted), sorted[|sorted| - 1].start)
  {
    hide Absorb, Covers, Canonical;
    var n := |sorted|;
    if n == 0 {
      MergeNothing();
    } else {
      var init, last := sorted[..n - 1], sorted[n - 1];
      MergeKeeps(init);
      assert n > 1 ==> init[n - 2].start <= last.start;
      AbsorbKeeps(Merge(init), last);
      assert sorted == init + [last];
      forall port ensures Covers(Merge(sorted), port) <==> Covers(sorted, port) {
        CoversAppend(init, last, port);
      }
    }
  }

  /** Normalising keeps the set and gives a canonical list. */
  lemma {:induction false} NormalizeKeeps(ranges: seq<PortRange>)
    requires Ascending(ranges)
    ensures Canonical(Normalize(ranges)) && SameSet(Normalize(ranges), ranges)
  {
    hide SortByKey, Merge, Canonical;
    SortKeepsMembers(ranges, RangeKey);
    SortedByStart(ranges);
    var sorted := SortByKey(ranges, RangeKey);
    forall i | 0 <= i < |sorted| ensures sorted[i].start <= sorted[i].end {
      assert sorted[i] in ranges;
    }
    MergeKeeps(sorted);
    forall port ensures Covers(sorted, port) <==> Covers(ranges, port) {
    }
  }

  // ---------------------------------------------------------------- uniqueness

  lemma {:induction false} CoversFirst(ranges: seq<PortRange>, port: int)
    requires Canonical(ranges) && ranges != []
    ensures Covers(ranges, port) ==> port >= ranges[0].start
    ensures ranges[0].start <= port <= ranges[0].end ==> Covers(ranges, port)
    ensures !Covers(ranges, ranges[0].end + 1)
    ensures Covers(ranges[1..], port) <==> Covers(ranges, port) && port > ranges[0].end
  {
    assert ranges == [ranges[0]] + ranges[1..];
    assert ranges[0] in ranges;
    forall r | r in ranges[1..] ensures r in ranges && ranges[0].end + 1 < r.start {
    }
  }

  lemma {:induction false} NoPorts(ranges: seq<PortRange>)
    requires Canonical(ranges)
    ensures ranges == [] <==> forall port :: !Covers(ranges, port)
  {
    if ranges != [] {
      CoversFirst(ranges, ranges[0].start);
    }
  }

  /** Two canonical lists of the same set are the same list. */
  lemma {:induction false} CanonicalUnique(a: seq<PortRange>, b: seq<PortRange>)
    requires Canonical(a) && Canonical(b) && SameSet(a, b)
    ensures a == b
    decreases |a|
  {
    hide Covers, Canonical;
    NoPorts(a);
    NoPorts(b);
    if a != [] && b != [] {
      SameFirst(a, b);
      forall port ensures Covers(a[1..], port) <==> Covers(b[1..], port) {
        CoversFirst(a, port);
        CoversFirst(b, port);
      }
      CanonicalTail(a);
      CanonicalTail(b);
      CanonicalUnique(a[1..], b[1..]);
      assert a == [a[0]] + a[1..] && b == [b[0]] + b[1..];
    }
  }

  lemma {:induction false} CanonicalTail(ranges: seq<PortRange>)
    requires Canonical(ranges) && ranges != []
    ensures Canonical(ranges[1..]) && ranges[0].start <= ranges[0].end
  {
  }

  lemma {:induction false} SameFirst(a: seq<PortRange>, b: seq<PortRange>)
    requires Canonical(a) && Canonical(b) && SameSet(a, b) && a != [] && b != []
    ensures a[0] == b[0]
  {
    hide Covers, Canonical;
    CanonicalTail(a);
    CanonicalTail(b);
    CoversFirst(a, a[0].start);
    CoversFirst(b, b[0].start);
    CoversFirst(a, b[0].start);
    CoversFirst(b, a[0].start);
    CoversFirst(a, b[0].end + 1);
    CoversFirst(b, a[0].end + 1);
  }

  /** Two lists denote the same set exactly when their normal forms are equal. */
  lemma {:induction false} NormalFormDecides(a: seq<PortRange>, b: seq<PortRange>)
    requires Ascending(a) && Ascending(b)
    ensures SameSet(a, b) <==> Normalize(a) == Normalize(b)
  {
    hide Normalize, Canonical, Covers;
    NormalizeKeeps(a);
    NormalizeKeeps(b);
    if SameSet(a, b) {
      CanonicalUnique(Normalize(a), Normalize(b));
    }
  }

  /** The canonical lists are exactly the fixpoints of normalising. */
  lemma {:induction false} NormalizeFixpoint(ranges: seq<PortRange>)
    requires Ascending(ranges)
    ensures Normalize(ranges) == ranges <==> Canonical(ranges)
  {
    hide Normalize, Canonical, Covers;
    NormalizeKeeps(ranges);
    if Canonical(ranges) {
      CanonicalUnique(Normalize(ranges), ranges);
    }
  }

  // ---------------------------------------------------------------- parsing

  function ParsePort(text: string): Result<U16, Error>
  {
    match ParseU16(Trim(text))
    case None => Err(InvalidPort)
    case Some(port) => if port == 0 then Err(InvalidPort) else Ok(port)
  }

  function ParseSpan(start: string, end: string): Result<PortRange, Error>
  {
    if '-' in end then Err(InvalidPort)
    else
      match ParsePort(start)
      case Err(e) => Err(e)
      case Ok(a) =>
        match ParsePort(end)
        case Err(e) => Err(e)
        case Ok(b) => if a > b then Err(DescendingRange) else Ok(PortRange(a, b))
  }

  function ParseSegment(text: string): Result<PortRange, Error>
  {
    var segment := Trim(text);
    var dash := IndexOf(segment, '-');
    if segment == "" then Err(EmptySegment)
    else if dash < |segment| then ParseSpan(segment[..dash], segment[dash + 1..])
    else
      match ParsePort(segment)
      case Err(e) => Err(e)
      case Ok(port) => Ok(PortRange(port, port))
  }

  /** The ranges of all segments, or the error of the first segment that has one. */
  function ParseSegments(segments: seq<string>): Result<seq<PortRange>, Error>
  {
    if segments == [] then Ok([])
    else
      match ParseSegments(segments[..|segments| - 1])
      case Err(e) => Err(e)
      case Ok(ranges) =>
        match ParseSegment(segments[|segments| - 1])
        case Err(e) => Err(e)
        case Ok(r) => Ok(ranges + [r])
  }

  function Parse(expression: string, allowEmpty: bool): Result<seq<PortRange>, Error>
  {
    var trimmed := Trim(expression);
    if trimmed == "" then if allowEmpty then Ok([]) else Err(Empty)
    else
      match ParseSegments(Split(trimmed, ','))
      case Err(e) => Err(e)
      case Ok(ranges) => Ok(Normalize(ranges))
  }

  lemma {:induction false} ParseSegmentOk(text: string)
    ensures ParseSegment(text).Ok? ==> 0 < ParseSegment(text).value.start <= ParseSegment(text).value.end
  {
  }

  /** Parsing the segments succeeds exactly when each parses, with the ranges in order. */
  lemma {:induction false} SegmentsPointwise(segments: seq<string>)
    ensures ParseSegments(segments).Ok? <==> forall i :: 0 <= i < |segments| ==> ParseSegment(segments[i]).Ok?
    ensures ParseSegments(segments).Ok? ==> |ParseSegments(segments).value| == |segments|
    ensures ParseSegments(segments).Ok? ==> forall i :: 0 <= i < |segments| ==>
      ParseSegment(segments[i]) == Ok(ParseSegments(segments).value[i])
  {
    hide ParseSegment;
    var n := |segments|;
    if n == 0 {
    } else {
      SegmentsPointwise(segments[..n - 1]);
      forall i | 0 <= i < n - 1 ensures segments[..n - 1][i] == segments[i] {
      }
    }
  }

  /** The error reported is the one of the first segment that fails. */
  lemma {:induction false} FirstErrorWins(segments: seq<string>, i: nat)
    requires i < |segments| && ParseSegment(segments[i]).Err?
    requires forall j :: 0 <= j < i ==> ParseSegment(segments[j]).Ok?
    ensures ParseSegments(segments) == Err(ParseSegment(segments[i]).error)
  {
    hide ParseSegment;
    var n := |segments|;
    if i == n - 1 {
      SegmentsPointwise(segments[..n - 1]);
    } else {
      FirstErrorWins(segments[..n - 1], i);
    }
  }

  ghost predicate SomeSegmentCovers(segments: seq<string>, port: int)
  {
    exists i :: 0 <= i < |segments| && ParseSegment(segments[i]).Ok? &&
                ParseSegment(segments[i]).value.start <= port <= ParseSegment(segments[i]).value.end
  }

  /** A parsed expression is canonical, never holds port zero and denotes the union of its segments. */
  lemma {:induction false} ParseMeaning(expression: string, allowEmpty: bool)
    requires Parse(expression, allowEmpty).Ok? && Trim(expression) != ""
    ensures var ranges := Parse(expression, allowEmpty).value;
            && ranges != [] && Canonical(ranges) && Nonzero(ranges)
            && forall port :: Covers(ranges, port) <==> SomeSegmentCovers(Split(Trim(expression), ','), port)
  {
    hide ParseSegment, Normalize, Split, Canonical;
    var segments := Split(Trim(expression), ',');
    var parsed := ParseSegments(segments).value;
    SegmentsPointwise(segments);
    forall i | 0 <= i < |parsed| ensures 0 < parsed[i].start <= parsed[i].end {
      assert ParseSegment(segments[i]) == Ok(parsed[i]);
      ParseSegmentOk(segments[i]);
    }
    var ranges := Normalize(parsed);
    NormalizeKeeps(parsed);
    forall port ensures Covers(ranges, port) <==> SomeSegmentCovers(segments, port) {
      CoveredBySegment(segments, parsed, port);
    }
    assert parsed[0] in parsed && Covers(parsed, parsed[0].start);
    forall i | 0 <= i < |ranges| ensures ranges[i].start > 0 {
      CoversStart(ranges, i);
    }
  }

  lemma {:induction false} CoversStart(ranges: seq<PortRange>, i: nat)
    requires Canonical(ranges) && i < |ranges|
    ensures Covers(ranges, ranges[i].start)
  {
    assert ranges[i] in ranges;
  }

  lemma {:induction false} CoveredBySegment(segments: seq<string>, parsed: seq<PortRange>, port: int)
    requires |parsed| == |segments| && forall i :: 0 <= i < |segments| ==> ParseSegment(segments[i]) == Ok(parsed[i])
    ensures Covers(parsed, port) <==> SomeSegmentCovers(segments, port)
  {
    hide ParseSegment;
    if Covers(parsed, port) {
      var r :| r in parsed && r.start <= port <= r.end;
      var i :| 0 <= i < |parsed| && parsed[i] == r;
      assert ParseSegment(segments[i]) == Ok(parsed[i]);
    }
    if SomeSegmentCovers(segments, port) {
      var i :| 0 <= i < |segments| && ParseSegment(segments[i]).Ok? &&
               ParseSegment(segments[i]).value.start <= port <= ParseSegment(segments[i]).value.end;
      assert parsed[i] in parsed;
    }
  }

  // ---------------------------------------------------------------- printing

  lemma {:induction false} SegmentRoundTrip(r: PortRange)
    requires 0 < r.start <= r.end
    ensures ParseSegment(RangeText(r)) == Ok(r)
  {
    hide Trim, IndexOf, ParseUnsigned, Decimal;
    RangeTextPlain(r);
    DecimalPlain(r.start);
    DecimalPlain(r.end);
    UnsignedRoundTrip(r.start, 0x1_0000);
    UnsignedRoundTrip(r.end, 0x1_0000);
    var s := RangeText(r);
    if r.start != r.end {
      var k := |Decimal(r.start)|;
      assert s[..k] == Decimal(r.start) && s[k + 1..] == Decimal(r.end) && s[k] == '-';
      FirstOf(s, '-', k);
    } else {
      FirstOf(s, '-', |s|);
    }
  }

  lemma {:induction false} SegmentsRoundTrip(ranges: seq<PortRange>)
    requires Ascending(ranges) && Nonzero(ranges)
    ensures ParseSegments(RangeTexts(ranges)) == Ok(ranges)
  {
    hide ParseSegment, RangeText;
    var n := |ranges|;
    if n == 0 {
    } else {
      SegmentsRoundTrip(ranges[..n - 1]);
      assert RangeTexts(ranges)[..n - 1] == RangeTexts(ranges[..n - 1]);
      SegmentRoundTrip(ranges[n - 1]);
      assert ranges == ranges[..n - 1] + [ranges[n - 1]];
    }
  }

  /** Parsing what was printed gives the list back; the empty list prints as blank text. */
  lemma {:induction false} ExpressionRoundTrip(ranges: seq<PortRange>, allowEmpty: bool)
    requires Canonical(ranges) && Nonzero(ranges)
    ensures ranges != [] ==> Parse(RangesText(ranges), allowEmpty) == Ok(ranges)
    ensures ranges == [] ==> Parse(RangesText(ranges), allowEmpty) == if allowEmpty then Ok([]) else Err(Empty)
  {
    hide Trim, Split, Normalize, ParseSegments;
    if ranges == [] {
      TrimPlain("");
    } else {
      RangesTextPlain(ranges);
      SegmentsRoundTrip(ranges);
      NormalizeFixpoint(ranges);
    }
  }

  // ---------------------------------------------------------------- the code

  lemma {:induction false} MergeNone(sorted: seq<PortRange>)
    ensures Merge(sorted[..0]) == []
  {
  }

  lemma {:induction false} MergeStep(sorted: seq<PortRange>, i: nat)
    requires i < |sorted|
    ensures Merge(sorted[..i + 1]) == Absorb(Merge(sorted[..i]), sorted[i])
  {
    assert sorted[..i + 1][..i] == sorted[..i];
  }

  method NormalizeRanges(ranges: seq<PortRange>) returns (normalized: seq<PortRange>)
    ensures normalized == Normalize(ranges)
  {
    hide SortByKey, Merge;
    var sorted := SortByKey(ranges, RangeKey);
    normalized := [];
    assert Merge(sorted[..0]) == [] by { MergeNone(sorted); }
    for i := 0 to |sorted|
      invariant normalized == Merge(sorted[..i])
    {
      var r, n := sorted[i], |normalized|;
      MergeStep(sorted, i);
      if n > 0 && r.start <= NextPort(normalized[n - 1].end) {
        normalized := normalized[n - 1 := normalized[n - 1].(end := Later(normalized[n - 1].end, r.end))];
      } else {
        normalized := normalized + [r];
      }
    }
    assert sorted[..|sorted|] == sorted;
  }

  method ParseRanges(expression: string, allowEmpty: bool) returns (result: Result<seq<PortRange>, Error>)
    ensures result == Parse(expression, allowEmpty)
  {
    hide ParseSegment, Normalize, Split, Trim;
    var trimmed := Trim(expression);
    if trimmed == "" {
      return if allowEmpty then Ok([]) else Err(Empty);
    }
    var segments := Split(trimmed, ',');
    var ranges: seq<PortRange> := [];
    for i := 0 to |segments|
      invariant ParseSegments(segments[..i]) == Ok(ranges)
    {
      assert segments[..i + 1][..i] == segments[..i];
      match ParseSegment(segments[i]) {
        case Err(e) =>
          SegmentsPointwise(segments[..i]);
          forall j | 0 <= j < i ensures ParseSegment(segments[j]).Ok? {
            assert segments[..i][j] == segments[j];
          }
          FirstErrorWins(segments, i);
          return Err(e);
        case Ok(r) =>
          ranges := ranges + [r];
      }
    }
    assert segments[..|segments|] == segments;
    var normalized := NormalizeRanges(ranges);
    result := Ok(normalized);
  }

  /** Binary search finds a port exactly when it is in the set. */
  method Contains(ranges: seq<PortRange>, port: U16) returns (found: bool)
    requires Canonical(ranges)
    ensures found <==> port != 0 && Covers(ranges, port)
  {
    if port == 0 {
      return false;
    }
    var low, high := 0, |ranges|;
    while low < high
      invariant 0 <= low <= high <= |ranges|
      invariant forall i :: 0 <= i < low ==> ranges[i].end < port
      invariant forall i :: high <= i < |ranges| ==> port < ranges[i].start
    {
      var middle := (low + high) / 2;
      if port < ranges[middle].start {
        high := middle;
      } else if port > ranges[middle].end {
        low := middle + 1;
      } else {
        assert ranges[middle] in ranges;
        return true;
      }
    }
    found := false;
  }

  /** The union with a list of single ports; zero is ignored. */
  method IncludingPorts(ranges: seq<PortRange>, ports: seq<U16>) returns (result: seq<PortRange>)
    requires Canonical(ranges)
    ensures Canonical(result)
    ensures forall port :: Covers(result, port) <==> Covers(ranges, port) || (port != 0 && port in ports)
  {
    hide Normalize;
    var all := ranges;
    for i := 0 to |ports|
      invariant Ascending(all)
      invariant forall port :: Covers(all, port) <==> Covers(ranges, port) || (port != 0 && port in ports[..i])
    {
      ghost var before := all;
      if ports[i] != 0 {
        all := all + [PortRange(ports[i], ports[i])];
        forall port ensures Covers(all, port) <==> Covers(before, port) || port == ports[i] {
          CoversAppend(before, PortRange(ports[i], ports[i]), port);
        }
      }
      assert ports[..i + 1] == ports[..i] + [ports[i]];
    }
    assert ports[..|ports|] == ports;
    result := NormalizeRanges(all);
    NormalizeKeeps(all);
  }
}
