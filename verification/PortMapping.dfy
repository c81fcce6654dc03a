/**
 * Port groups: a list of distinct ports in a given order, its expression, and the pairing of public
 * with target ports. Normal expressions are exactly what Fleet accepts.
 */
module PortMapping {
  import opened Wrappers
  import opened Bytes
  import opened Text
  import opened PortText
  import opened Sequences

  datatype Error =
    | Empty | InvalidSyntax | DescendingRange | PortOutOfRange | DuplicatePort | TooManyPorts | CountMismatch

  datatype Limits = Limits(minimum: U16, maximum: U16, count: nat)

  datatype PortPair = PortPair(public: U16, target: U16)

  datatype Mappings = Mappings(publicPorts: string, targetPorts: string, pairs: seq<PortPair>)

  const MAX_PORT_MAPPINGS: nat := 256

  // ---------------------------------------------------------------- parsing

  function ParsePort(text: string): Result<U16, Error>
  {
    if text == "" || !AllDigits(text) then Err(InvalidSyntax)
    else if NatOf(text) > MAX_PORT then Err(PortOutOfRange)
    else Ok(NatOf(text))
  }

  function ParsePorts(start: string, end: string): Result<PortRange, Error>
  {
    match ParsePort(start)
    case Err(e) => Err(e)
    case Ok(a) =>
      match ParsePort(end)
      case Err(e) => Err(e)
      case Ok(b) => Ok(PortRange(a, b))
  }

  function ParsePieces(pieces: seq<string>): Result<PortRange, Error>
  {
    if |pieces| == 1 then ParsePorts(Trim(pieces[0]), Trim(pieces[0]))
    else if |pieces| == 2 && Trim(pieces[0]) != "" && Trim(pieces[1]) != "" then
      ParsePorts(Trim(pieces[0]), Trim(pieces[1]))
    else Err(InvalidSyntax)
  }

  function ParseItem(text: string, limits: Limits): Result<PortRange, Error>
  {
    var item := Trim(text);
    if item == "" then Err(InvalidSyntax)
    else
      match ParsePieces(Split(item, '-'))
      case Err(e) => Err(e)
      case Ok(r) =>
        if r.start > r.end then Err(DescendingRange)
        else if r.start < limits.minimum || r.end > limits.maximum then Err(PortOutOfRange)
        else Ok(r)
  }

  /** Adds `start`, `start + 1`, ..., `end` one by one. */
  function Extend(ports: seq<U16>, start: U16, end: U16, count: nat): Result<seq<U16>, Error>
    decreases end - start
  {
    if start > end then Ok(ports)
    else if start in ports then Err(DuplicatePort)
    else if |ports| + 1 > count then Err(TooManyPorts)
    else if start == end then Ok(ports + [start])
    else Extend(ports + [start], start + 1, end, count)
  }

  function ParseItems(items: seq<string>, limits: Limits): Result<seq<U16>, Error>
  {
    if items == [] then Ok([])
    else
      match ParseItems(items[..|items| - 1], limits)
      case Err(e) => Err(e)
      case Ok(ports) =>
        match ParseItem(items[|items| - 1], limits)
        case Err(e) => Err(e)
        case Ok(r) => Extend(ports, r.start, r.end, limits.count)
  }

  predicate UsableLimits(limits: Limits)
  {
    0 < limits.minimum <= limits.maximum && limits.count > 0
  }

  function ParsePortSet(expression: string, limits: Limits): Result<seq<U16>, Error>
  {
    if Trim(expression) == "" then Err(Empty)
    else if !UsableLimits(limits) then Err(PortOutOfRange)
    else ParseItems(Split(expression, ','), limits)
  }

  // ---------------------------------------------------------------- what a successful parse means

  /** The lists a parse can return. */
  predicate Admissible(ports: seq<U16>, limits: Limits)
  {
    && UsableLimits(limits)
    && Distinct(ports) && 0 < |ports| <= limits.count
    && forall i :: 0 <= i < |ports| ==> limits.minimum <= ports[i] <= limits.maximum
  }

  function Expand(r: PortRange): seq<U16>
    requires r.start <= r.end
  {
    seq(r.end - r.start + 1, i requires 0 <= i <= r.end - r.start => r.start + i)
  }

  function ExpandAll(ranges: seq<PortRange>): seq<U16>
    requires Ascending(ranges)
  {
    if ranges == [] then [] else ExpandAll(ranges[..|ranges| - 1]) + Expand(ranges[|ranges| - 1])
  }

  lemma {:induction false} ExpandFirst(r: PortRange)
    requires r.start < r.end
    ensures Expand(r) == [r.start] + Expand(PortRange(r.start + 1, r.end))
  {
  }

  /** Adding a range succeeds exactly when the ports stay distinct and few enough. */
  lemma {:induction false} ExtendExact(ports: seq<U16>, r: PortRange, count: nat)
    requires r.start <= r.end && Distinct(ports)
    ensures var all := ports + Expand(r);
            && (Extend(ports, r.start, r.end, count).Ok? <==> Distinct(all) && |all| <= count)
            && (Extend(ports, r.start, r.end, count).Ok? ==> Extend(ports, r.start, r.end, count) == Ok(all))
    decreases r.end - r.start
  {
    var all := ports + Expand(r);
    assert all[|ports|] == r.start;
    if r.start == r.end {
      assert all == ports + [r.start];
      DistinctLast(ports, r.start);
    } else if r.start in ports {
      var i :| 0 <= i < |ports| && ports[i] == r.start;
      assert all[i] == all[|ports|];
    } else if |ports| + 1 <= count {
      ExpandFirst(r);
      DistinctLast(ports, r.start);
      ExtendExact(ports + [r.start], PortRange(r.start + 1, r.end), count);
      assert all == (ports + [r.start]) + Expand(PortRange(r.start + 1, r.end));
    }
  }

  ghost predicate ItemsAre(items: seq<string>, limits: Limits, ranges: seq<PortRange>)
  {
    |ranges| == |items| && forall i :: 0 <= i < |items| ==> ParseItem(items[i], limits) == Ok(ranges[i])
  }

  lemma {:induction false} ItemsAscend(items: seq<string>, limits: Limits, ranges: seq<PortRange>)
    requires ItemsAre(items, limits, ranges)
    ensures Ascending(ranges)
    ensures forall i :: 0 <= i < |ranges| ==> limits.minimum <= ranges[i].start && ranges[i].end <= limits.maximum
  {
    hide ParsePieces, Split, Trim;
    forall i | 0 <= i < |ranges|
      ensures ranges[i].start <= ranges[i].end && limits.minimum <= ranges[i].start && ranges[i].end <= limits.maximum
    {
      assert ParseItem(items[i], limits) == Ok(ranges[i]);
    }
  }

  /** If every item is a range, the parse succeeds exactly when the whole expansion is distinct and fits. */
  lemma {:induction false} ItemsExact(items: seq<string>, limits: Limits, ranges: seq<PortRange>)
    requires ItemsAre(items, limits, ranges) && Ascending(ranges)
    ensures ParseItems(items, limits).Ok? <==> Distinct(ExpandAll(ranges)) && |ExpandAll(ranges)| <= limits.count
    ensures ParseItems(items, limits).Ok? ==> ParseItems(items, limits) == Ok(ExpandAll(ranges))
    decreases |items|
  {
    hide ParseItem, Extend, Expand;
    var n := |items|;
    if n == 0 {
    } else {
      var init := ranges[..n - 1];
      ItemsExact(items[..n - 1], limits, init);
      if ParseItems(items[..n - 1], limits).Ok? {
        ExtendExact(ExpandAll(init), ranges[n - 1], limits.count);
      } else {
        DistinctFront(ExpandAll(init), Expand(ranges[n - 1]));
      }
    }
  }

  /** A successful parse has read every item as a range. */
  lemma {:induction false} ItemsRead(items: seq<string>, limits: Limits) returns (ranges: seq<PortRange>)
    requires ParseItems(items, limits).Ok?
    ensures ItemsAre(items, limits, ranges)
    decreases |items|
  {
    hide ParseItem, Extend;
    var n := |items|;
    if n == 0 {
      ranges := [];
    } else {
      var init := ItemsRead(items[..n - 1], limits);
      ranges := init + [ParseItem(items[n - 1], limits).value];
    }
  }

  lemma {:induction false} ExpandAllMembers(ranges: seq<PortRange>, low: U16, high: U16)
    requires Ascending(ranges)
    requires forall i :: 0 <= i < |ranges| ==> low <= ranges[i].start && ranges[i].end <= high
    ensures forall i :: 0 <= i < |ExpandAll(ranges)| ==> low <= ExpandAll(ranges)[i] <= high
    ensures ranges != [] ==> ExpandAll(ranges) != []
    decreases |ranges|
  {
    if ranges == [] {
    } else {
      ExpandAllMembers(ranges[..|ranges| - 1], low, high);
    }
  }

  lemma {:induction false} ParseIsAdmissible(expression: string, limits: Limits)
    requires ParsePortSet(expression, limits).Ok?
    ensures Admissible(ParsePortSet(expression, limits).value, limits)
  {
    hide ParseItems, Split, Trim;
    var items := Split(expression, ',');
    var ranges := ItemsRead(items, limits);
    ItemsAscend(items, limits, ranges);
    ItemsExact(items, limits, ranges);
    ExpandAllMembers(ranges, limits.minimum, limits.maximum);
  }

  // ---------------------------------------------------------------- the normal expression

  /** How many ports from the front count up by one. */
  function RunLength(ports: seq<U16>): (n: nat)
    requires ports != []
    ensures 0 < n <= |ports|
  {
    if |ports| > 1 && ports[1] == NextPort(ports[0]) then 1 + RunLength(ports[1..]) else 1
  }

  function Runs(ports: seq<U16>): seq<PortRange>
    decreases |ports|
  {
    if ports == [] then []
    else
      var n := RunLength(ports);
      [PortRange(ports[0], ports[n - 1])] + Runs(ports[n..])
  }

  function NormalText(ports: seq<U16>): string
  {
    RangesText(Runs(ports))
  }

  lemma {:induction false} RunCounts(ports: seq<U16>, i: nat)
    requires ports != [] && Distinct(ports) && i < RunLength(ports)
    ensures ports[i] == ports[0] + i
  {
    if i == 0 {
    } else {
      assert ports[0] != ports[1];
      RunCounts(ports[1..], i - 1);
    }
  }

  lemma {:induction false} ExpandAllFront(r: PortRange, ranges: seq<PortRange>)
    requires r.start <= r.end && Ascending(ranges)
    ensures Ascending([r] + ranges) && ExpandAll([r] + ranges) == Expand(r) + ExpandAll(ranges)
    decreases |ranges|
  {
    hide Expand;
    var n := |ranges|;
    var all := [r] + ranges;
    if n == 0 {
      assert all[..0] == [];
    } else {
      ExpandAllFront(r, ranges[..n - 1]);
      assert all[..n] == [r] + ranges[..n - 1];
    }
  }

  /** The runs of a list of distinct ports expand to the list, in the same order. */
  lemma {:induction false} RunsExpand(ports: seq<U16>, low: U16, high: U16)
    requires Distinct(ports) && forall i :: 0 <= i < |ports| ==> low <= ports[i] <= high
    ensures Ascending(Runs(ports)) && ExpandAll(Runs(ports)) == ports && (Runs(ports) == [] <==> ports == [])
    ensures forall i :: 0 <= i < |Runs(ports)| ==> low <= Runs(ports)[i].start && Runs(ports)[i].end <= high
    decreases |ports|
  {
    hide Expand, RunLength, Runs, ExpandAll;
    RunsFirst(ports);
    if ports == [] {
      ExpandNothing();
    } else {
      var n := RunLength(ports);
      RunIsRange(ports);
      RunsExpand(ports[n..], low, high);
      ExpandAllFront(PortRange(ports[0], ports[n - 1]), Runs(ports[n..]));
      assert ports == ports[..n] + ports[n..];
    }
  }

  lemma {:induction false} RunsFirst(ports: seq<U16>)
    ensures ports == [] ==> Runs(ports) == []
    ensures ports != [] ==>
      var n := RunLength(ports); Runs(ports) == [PortRange(ports[0], ports[n - 1])] + Runs(ports[n..])
  {
  }

  lemma {:induction false} ExpandNothing()
    ensures ExpandAll([]) == []
  {
  }

  lemma {:induction false} RunIsRange(ports: seq<U16>)
    requires ports != [] && Distinct(ports)
    ensures var n := RunLength(ports);
      ports[0] <= ports[n - 1] && Expand(PortRange(ports[0], ports[n - 1])) == ports[..n]
  {
    forall i | 0 <= i < RunLength(ports) ensures ports[i] == ports[0] + i {
      RunCounts(ports, i);
    }
  }

  predicate Follows(port: int, next: int)
  {
    next == port + 1
  }

  /** Runs are as long as possible: no two neighbouring runs join up. */
  lemma {:induction false} RunsMaximal(ports: seq<U16>, i: nat)
    requires Distinct(ports) && i + 1 < |Runs(ports)|
    ensures !Follows(Runs(ports)[i].end, Runs(ports)[i + 1].start)
    decreases |ports|
  {
    var n := RunLength(ports);
    if i == 0 {
      RunEnds(ports);
      assert ports[n..] != [];
      assert Runs(ports)[1] == Runs(ports[n..])[0];
    } else {
      RunsMaximal(ports[n..], i - 1);
    }
  }

  lemma {:induction false} RunEnds(ports: seq<U16>)
    requires ports != [] && Distinct(ports)
    ensures RunLength(ports) < |ports| ==> !Follows(ports[RunLength(ports) - 1], ports[RunLength(ports)])
  {
    if |ports| > 1 && ports[1] == NextPort(ports[0]) {
      RunEnds(ports[1..]);
    }
  }

  lemma {:induction false} ParsePortDecimal(n: U16)
    ensures ParsePort(Decimal(n)) == Ok(n)
  {
    DecimalReads(n);
  }

  lemma {:induction false} ItemRoundTrip(r: PortRange, limits: Limits)
    requires limits.minimum <= r.start <= r.end <= limits.maximum
    ensures ParseItem(RangeText(r), limits) == Ok(r)
  {
    hide Split, Trim, ParsePort, Decimal;
    RangeTextPlain(r);
    DecimalPlain(r.start);
    DecimalPlain(r.end);
    ParsePortDecimal(r.start);
    ParsePortDecimal(r.end);
    DecimalNonempty(r.start);
    DecimalNonempty(r.end);
    SplitPiece(Decimal(r.start), Decimal(r.end), '-');
    SplitPiece(Decimal(r.end), "", '-');
  }

  lemma {:induction false} DecimalNonempty(n: nat)
    ensures Decimal(n) != ""
  {
  }

  /** Parsing the normal expression of an admissible list gives back the same ports in the same order. */
  lemma {:induction false} RoundTrip(ports: seq<U16>, limits: Limits)
    requires Admissible(ports, limits)
    ensures ParsePortSet(NormalText(ports), limits) == Ok(ports)
  {
    hide Split, Trim, ParseItem, ParseItems, Runs, ExpandAll, RangeText;
    var runs := Runs(ports);
    RunsExpand(ports, limits.minimum, limits.maximum);
    RangesTextPlain(runs);
    forall i | 0 <= i < |runs| ensures ParseItem(RangeTexts(runs)[i], limits) == Ok(runs[i]) {
      ItemRoundTrip(runs[i], limits);
    }
    ItemsExact(RangeTexts(runs), limits, runs);
  }

  /** The lists some expression parses to are exactly the admissible ones. */
  lemma {:induction false} ParseReaches(ports: seq<U16>, limits: Limits)
    ensures (exists expression :: ParsePortSet(expression, limits) == Ok(ports)) <==> Admissible(ports, limits)
  {
    hide ParsePortSet, Admissible;
    forall expression | ParsePortSet(expression, limits) == Ok(ports) ensures Admissible(ports, limits) {
      ParseIsAdmissible(expression, limits);
    }
    if Admissible(ports, limits) {
      RoundTrip(ports, limits);
    }
  }

  function Canonicalize(expression: string, limits: Limits): Result<string, Error>
  {
    match ParsePortSet(expression, limits)
    case Err(e) => Err(e)
    case Ok(ports) => Ok(NormalText(ports))
  }

  lemma {:induction false} CanonicalizeTwice(expression: string, limits: Limits)
    requires Canonicalize(expression, limits).Ok?
    ensures Canonicalize(Canonicalize(expression, limits).value, limits) == Canonicalize(expression, limits)
  {
    hide ParsePortSet, NormalText, Admissible;
    ParseIsAdmissible(expression, limits);
    RoundTrip(ParsePortSet(expression, limits).value, limits);
  }

  // ---------------------------------------------------------------- pairing and Fleet

  function Zip(a: seq<U16>, b: seq<U16>): seq<PortPair>
    requires |a| == |b|
  {
    seq(|a|, i requires 0 <= i < |a| => PortPair(a[i], b[i]))
  }

  function ParseMappings(public: string, target: string, limits: Limits): Result<Mappings, Error>
  {
    match ParsePortSet(public, limits)
    case Err(e) => Err(e)
    case Ok(ports) =>
      match ParsePortSet(target, Limits(1, MAX_PORT, limits.count))
      case Err(e) => Err(e)
      case Ok(targets) =>
        if |ports| != |targets| then Err(CountMismatch)
        else Ok(Mappings(NormalText(ports), NormalText(targets), Zip(ports, targets)))
  }

  const FLEET: Limits := Limits(1, MAX_PORT, MAX_PORT_MAPPINGS)

  predicate FleetAccepts(public: string, target: string)
  {
    match ParseMappings(public, target, FLEET)
    case Err(_) => false
    case Ok(m) => m.publicPorts == public && m.targetPorts == target
  }

  /** Fleet accepts exactly the normal expressions of two admissible lists of equal length, paired by position. */
  lemma {:induction false} FleetAcceptsNormalForms(public: string, target: string)
    ensures FleetAccepts(public, target) <==> exists ports, targets :: Spells(public, target, ports, targets)
  {
    hide ParsePortSet, NormalText, Admissible, Zip;
    if FleetAccepts(public, target) {
      var ports, targets := ParsePortSet(public, FLEET).value, ParsePortSet(target, FLEET).value;
      ParseIsAdmissible(public, FLEET);
      ParseIsAdmissible(target, FLEET);
      assert Spells(public, target, ports, targets);
    }
    forall ports, targets | Spells(public, target, ports, targets) ensures FleetAccepts(public, target) {
      RoundTrip(ports, FLEET);
      RoundTrip(targets, FLEET);
    }
  }

  ghost predicate Spells(public: string, target: string, ports: seq<U16>, targets: seq<U16>)
  {
    && Admissible(ports, Limits(1, 65_535, 256)) && Admissible(targets, Limits(1, 65_535, 256))
    && |ports| == |targets|
    && public == NormalText(ports) && target == NormalText(targets)
  }

  /** The two expressions determine the lists and so the pairing. */
  lemma {:induction false} PairingIsPreserved(public: string, target: string, ports: seq<U16>, targets: seq<U16>)
    requires Spells(public, target, ports, targets)
    ensures var r := ParseMappings(public, target, FLEET);
      && r.Ok? && r.value.publicPorts == public && r.value.targetPorts == target && |r.value.pairs| == |ports|
      && forall i :: 0 <= i < |ports| ==> r.value.pairs[i] == PortPair(ports[i], targets[i])
    ensures forall other, others :: Spells(public, target, other, others) ==> other == ports && others == targets
  {
    hide ParsePortSet, NormalText, Admissible;
    RoundTrip(ports, FLEET);
    RoundTrip(targets, FLEET);
    forall other, others | Spells(public, target, other, others) ensures other == ports && others == targets {
      RoundTrip(other, FLEET);
      RoundTrip(others, FLEET);
    }
  }

  // ---------------------------------------------------------------- the loops

  lemma {:induction false} ItemsFail(items: seq<string>, limits: Limits, n: nat)
    requires n <= |items| && ParseItems(items[..n], limits).Err?
    ensures ParseItems(items, limits) == ParseItems(items[..n], limits)
    decreases |items|
  {
    hide ParseItem, Extend;
    if n == |items| {
      assert items[..n] == items;
    } else {
      assert items[..|items| - 1][..n] == items[..n];
      ItemsFail(items[..|items| - 1], limits, n);
    }
  }

  method AddPorts(ports: seq<U16>, seen: set<U16>, start: U16, end: U16, count: nat)
    returns (result: Result<seq<U16>, Error>, seen': set<U16>)
    requires start <= end && seen == set p | p in ports
    ensures result == Extend(ports, start, end, count)
    ensures result.Ok? ==> seen' == set p | p in result.value
  {
    var all: seq<U16>, port: int := ports, start;
    seen' := seen;
    while port <= end
      invariant start <= port <= end + 1 && seen' == set p | p in all
      invariant port <= end ==> Extend(ports, start, end, count) == Extend(all, port, end, count)
      invariant port == end + 1 ==> Extend(ports, start, end, count) == Ok(all)
    {
      if port in seen' {
        return Err(DuplicatePort), seen';
      }
      seen' := seen' + {port};
      all := all + [port];
      if |all| > count {
        return Err(TooManyPorts), seen';
      }
      port := port + 1;
    }
    result := Ok(all);
  }

  method ParseSet(expression: string, limits: Limits) returns (result: Result<seq<U16>, Error>)
    ensures result == ParsePortSet(expression, limits)
  {
    hide Trim, Split, ParseItem, Extend;
    if Trim(expression) == "" {
      return Err(Empty);
    }
    if limits.minimum == 0 || limits.minimum > limits.maximum || limits.count == 0 {
      return Err(PortOutOfRange);
    }
    var items := Split(expression, ',');
    var ports: seq<U16>, seen: set<U16> := [], {};
    for i := 0 to |items|
      invariant ParseItems(items[..i], limits) == Ok(ports) && seen == set p | p in ports
    {
      assert items[..i + 1][..i] == items[..i];
      match ParseItem(items[i], limits) {
        case Err(e) =>
          ItemsFail(items, limits, i + 1);
          return Err(e);
        case Ok(r) =>
          ItemAscends(items[i], limits);
          var more, seen' := AddPorts(ports, seen, r.start, r.end, limits.count);
          if more.Err? {
            ItemsFail(items, limits, i + 1);
            return more;
          }
          ports, seen := more.value, seen';
      }
    }
    assert items[..|items|] == items;
    result := Ok(ports);
  }

  lemma {:induction false} ItemAscends(item: string, limits: Limits)
    ensures ParseItem(item, limits).Ok? ==> ParseItem(item, limits).value.start <= ParseItem(item, limits).value.end
  {
    hide Trim, Split, ParsePieces;
  }

  method NormalizePortSet(ports: seq<U16>) returns (text: string)
    ensures text == NormalText(ports)
  {
    hide RangeTexts, RangeText, Join, Runs, RunLength;
    var result: seq<string>, index := [], 0;
    assert ports[0..] == ports && result + RangeTexts(Runs(ports)) == RangeTexts(Runs(ports));
    while index < |ports|
      invariant 0 <= index <= |ports|
      invariant RangeTexts(Runs(ports)) == result + RangeTexts(Runs(ports[index..]))
    {
      var first, start, end := index, ports[index], ports[index];
      while index + 1 < |ports| && ports[index + 1] == NextPort(end)
        invariant first <= index < |ports| && end == ports[index]
        invariant RunLength(ports[first..]) == index - first + RunLength(ports[index..])
      {
        RunGrows(ports, index);
        index := index + 1;
        end := ports[index];
      }
      RunGrows(ports, index);
      RunStep(ports[first..], index - first + 1);
      Regroup(result, [RangeText(PortRange(start, end))], RangeTexts(Runs(ports[index + 1..])));
      assert ports[first..][index - first + 1..] == ports[index + 1..];
      result := result + [RangeText(PortRange(start, end))];
      index := index + 1;
    }
    NoRuns();
    assert ports[index..] == [] && result + [] == result;
    text := Join(result, ',');
  }

  lemma {:induction false} NoRuns()
    ensures RangeTexts(Runs([])) == []
  {
  }

  lemma {:induction false} RunGrows(ports: seq<U16>, i: nat)
    requires i < |ports|
    ensures i + 1 < |ports| && ports[i + 1] == NextPort(ports[i]) ==>
      RunLength(ports[i..]) == 1 + RunLength(ports[i + 1..])
    ensures !(i + 1 < |ports| && ports[i + 1] == NextPort(ports[i])) ==> RunLength(ports[i..]) == 1
  {
    if i + 1 < |ports| {
      assert ports[i..][1..] == ports[i + 1..];
    }
  }

  lemma {:induction false} RunStep(ports: seq<U16>, n: nat)
    requires ports != [] && n == RunLength(ports)
    ensures RangeTexts(Runs(ports)) == [RangeText(PortRange(ports[0], ports[n - 1]))] + RangeTexts(Runs(ports[n..]))
  {
    hide RangeText;
  }

  method ParsePortMappings(public: string, target: string, limits: Limits) returns (result: Result<Mappings, Error>)
    ensures result == ParseMappings(public, target, limits)
  {
    hide ParsePortSet, NormalText;
    var ports := ParseSet(public, limits);
    if ports.Err? {
      return Err(ports.error);
    }
    var targets := ParseSet(target, Limits(1, MAX_PORT, limits.count));
    if targets.Err? {
      return Err(targets.error);
    }
    if |ports.value| != |targets.value| {
      return Err(CountMismatch);
    }
    var publicPorts := NormalizePortSet(ports.value);
    var targetPorts := NormalizePortSet(targets.value);
    result := Ok(Mappings(publicPorts, targetPorts, Zip(ports.value, targets.value)));
  }
}
