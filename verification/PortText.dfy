/** A closed interval of ports and how it is written. */
module PortText {
  import opened Bytes
  import opened Text

  datatype PortRange = PortRange(start: U16, end: U16)

  const MAX_PORT: U16 := 0xffff

  /** The next port, or the last one again. */
  function NextPort(port: U16): U16
  {
    if port == MAX_PORT then MAX_PORT else port + 1
  }

  predicate Ascending(ranges: seq<PortRange>)
  {
    forall i :: 0 <= i < |ranges| ==> ranges[i].start <= ranges[i].end
  }

  function RangeText(r: PortRange): string
  {
    if r.start == r.end then Decimal(r.start) else Decimal(r.start) + "-" + Decimal(r.end)
  }

  function RangeTexts(ranges: seq<PortRange>): seq<string>
  {
    seq(|ranges|, i requires 0 <= i < |ranges| => RangeText(ranges[i]))
  }

  function RangesText(ranges: seq<PortRange>): string
  {
    Join(RangeTexts(ranges), ',')
  }

  lemma {:induction false} RangeTextPlain(r: PortRange)
    ensures Plain(RangeText(r)) && ',' !in RangeText(r) && Trim(RangeText(r)) == RangeText(r)
  {
    hide Trim, NatOf;
    DecimalReads(r.start);
    DecimalReads(r.end);
    forall i | 0 <= i < |RangeText(r)| ensures !Whitespace(RangeText(r)[i]) && RangeText(r)[i] != ',' {
      assert Digit(RangeText(r)[i]) || RangeText(r)[i] == '-';
    }
    TrimPlain(RangeText(r));
  }

  lemma {:induction false} DecimalPlain(n: U16)
    ensures '-' !in Decimal(n) && Trim(Decimal(n)) == Decimal(n)
  {
    hide Trim, NatOf;
    DecimalReads(n);
    forall i | 0 <= i < |Decimal(n)| ensures !Whitespace(Decimal(n)[i]) && Decimal(n)[i] != '-' {
      assert Digit(Decimal(n)[i]);
    }
    TrimPlain(Decimal(n));
  }

  /** The written list comes apart into its written ranges, and has no blanks around it. */
  lemma {:induction false} RangesTextPlain(ranges: seq<PortRange>)
    requires ranges != []
    ensures RangesText(ranges) != "" && Trim(RangesText(ranges)) == RangesText(ranges)
    ensures Split(RangesText(ranges), ',') == RangeTexts(ranges)
  {
    hide RangeText, Split, Trim;
    forall i | 0 <= i < |ranges| ensures ',' !in RangeTexts(ranges)[i] && Plain(RangeTexts(ranges)[i]) {
      RangeTextPlain(ranges[i]);
    }
    SplitJoin(RangeTexts(ranges), ',');
    JoinPlain(RangeTexts(ranges), ',');
    TrimPlain(RangesText(ranges));
  }
}
