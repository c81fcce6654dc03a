/**
 * How a target pool is written: its parser, and the canonical text that Fleet insists on. A parsed pool
 * always has weight, which is what selection needs.
 */
module TargetText {
  import opened Wrappers
  import opened Bytes
  import opened Text
  import opened Cidr
  import opened TargetPool

  datatype Error = Empty | TooMany | InvalidAddress | InvalidWeight

  const MAX_TARGETS := 16
  const MAX_TARGET_WEIGHT := 10_000
  const MAX_ADDRESS_BYTES := 255
  const MAX_TARGET_POOL_BYTES := 4_096

  // ---------------------------------------------------------------- addresses

  predicate DnsLabel(s: string)
  {
    && 0 < |s| <= 63 && s[0] != '-' && s[|s| - 1] != '-'
    && forall i :: 0 <= i < |s| ==> Digit(s[i]) || 'a' <= s[i] <= 'z' || 'A' <= s[i] <= 'Z' || s[i] == '-'
  }

  predicate DnsName(host: string)
  {
    var parts := Split(host, '.');
    Utf8Length(host) <= 253 && forall i :: 0 <= i < |parts| ==> DnsLabel(parts[i])
  }

  /** The first place where `]` is followed by a colon. */
  function ClosingBracket(s: string): (i: Option<nat>)
    ensures i.Some? ==> i.value + 2 <= |s|
  {
    if |s| < 2 then None
    else if s[0] == ']' && s[1] == ':' then Some(0)
    else
      match ClosingBracket(s[1..])
      case None => None
      case Some(i) => Some(i + 1)
  }

  /** Host and port of an address; a bracketed host must be an IPv6 address. */
  function HostAndPort(text: AddressText, value: string): Option<(string, string)>
  {
    if value != "" && value[0] == '[' then
      var rest := value[1..];
      match ClosingBracket(rest)
      case None => None
      case Some(i) =>
        var ip := text.parse(rest[..i]);
        if ip.Some? && ip.value.V6? then Some((rest[..i], rest[i + 2..])) else None
    else
      match LastIndexOf(value, ':')
      case None => None
      case Some(i) => if ':' in value[..i] then None else Some((value[..i], value[i + 1..]))
  }

  predicate AddressChar(c: char)
  {
    !Whitespace(c) && !ControlChar(c) && c != '/' && c != '\\' && c != '?' && c != '#' && c != '@'
  }

  /** No scheme can occur, as no slash does. */
  predicate ValidAddress(text: AddressText, value: string)
  {
    && value != "" && Utf8Length(value) <= MAX_ADDRESS_BYTES && (forall i :: 0 <= i < |value| ==> AddressChar(value[i]))
    && match HostAndPort(text, value)
       case None => false
       case Some((host, port)) =>
         && host != "" && '[' !in host && ']' !in host
         && ParseU16(port).Some? && ParseU16(port).value != 0
         && (value[0] != '[' ==> (text.parse(host).Some? && text.parse(host).value.V4?) || DnsName(host))
  }

  // ---------------------------------------------------------------- parsing

  function Checked(text: AddressText, address: string, weight: U32): Result<Target, Error>
  {
    if ValidAddress(text, address) then Ok(Target(address, weight)) else Err(InvalidAddress)
  }

  function ParseSegment(text: AddressText, segment: string): Result<Target, Error>
  {
    var s := Trim(segment);
    match LastIndexOf(s, '@')
    case None => Checked(text, s, 1)
    case Some(i) =>
      match ParseUnsigned(s[i + 1..], 0x1_0000_0000)
      case None => Err(InvalidWeight)
      case Some(weight) =>
        if weight == 0 || weight > MAX_TARGET_WEIGHT then Err(InvalidWeight)
        else Checked(text, Trim(s[..i]), weight)
  }

  function ParseSegments(text: AddressText, segments: seq<string>): Result<seq<Target>, Error>
  {
    if segments == [] then Ok([])
    else
      match ParseSegments(text, segments[..|segments| - 1])
      case Err(e) => Err(e)
      case Ok(targets) =>
        match ParseSegment(text, segments[|segments| - 1])
        case Err(e) => Err(e)
        case Ok(t) => Ok(targets + [t])
  }

  function ParseTargetPool(text: AddressText, value: string): Result<seq<Target>, Error>
  {
    var trimmed := Trim(value);
    var segments := Split(trimmed, ',');
    if trimmed == "" then Err(Empty)
    else if |segments| > MAX_TARGETS then Err(TooMany)
    else ParseSegments(text, segments)
  }

  // ---------------------------------------------------------------- what a parsed pool is

  predicate Admissible(text: AddressText, t: Target)
  {
    ValidAddress(text, t.address) && ',' !in t.address && 1 <= t.weight <= MAX_TARGET_WEIGHT
  }

  /** The pools a parse can return. */
  predicate AdmissiblePool(text: AddressText, targets: seq<Target>)
  {
    1 <= |targets| <= MAX_TARGETS && forall i :: 0 <= i < |targets| ==> Admissible(text, targets[i])
  }

  lemma {:induction false} SegmentAdmissible(text: AddressText, segment: string)
    requires ',' !in segment && ParseSegment(text, segment).Ok?
    ensures Admissible(text, ParseSegment(text, segment).value)
  {
    hide ValidAddress, Trim, ParseUnsigned;
    var s := Trim(segment);
    TrimWithin(segment, ',');
    if LastIndexOf(s, '@').Some? {
      TrimWithin(s[..LastIndexOf(s, '@').value], ',');
    }
  }

  lemma {:induction false} SegmentsAdmissible(text: AddressText, segments: seq<string>)
    requires ParseSegments(text, segments).Ok? && forall i :: 0 <= i < |segments| ==> ',' !in segments[i]
    ensures var targets := ParseSegments(text, segments).value;
      |targets| == |segments| && forall i :: 0 <= i < |targets| ==> Admissible(text, targets[i])
    decreases |segments|
  {
    hide ParseSegment, Admissible;
    if segments == [] {
    } else {
      SegmentsAdmissible(text, segments[..|segments| - 1]);
      SegmentAdmissible(text, segments[|segments| - 1]);
    }
  }

  lemma {:induction false} WeightBounds(text: AddressText, targets: seq<Target>)
    requires forall i :: 0 <= i < |targets| ==> Admissible(text, targets[i])
    ensures |targets| <= Total(targets) <= |targets| * MAX_TARGET_WEIGHT
    decreases |targets|
  {
    hide ValidAddress;
    if targets == [] {
    } else {
      WeightBounds(text, targets[..|targets| - 1]);
      assert Admissible(text, targets[|targets| - 1]);
    }
  }

  /** A parsed pool has between one and sixteen valid targets, and a weight from one to 160,000. */
  lemma {:induction false} ParsedPool(text: AddressText, value: string)
    requires ParseTargetPool(text, value).Ok?
    ensures AdmissiblePool(text, ParseTargetPool(text, value).value)
    ensures 1 <= Total(ParseTargetPool(text, value).value) <= 160_000
  {
    hide ParseSegments, Split, Trim, Admissible;
    var segments := Split(Trim(value), ',');
    SplitClean(Trim(value), ',');
    SegmentsAdmissible(text, segments);
    WeightBounds(text, ParseTargetPool(text, value).value);
  }

  // ---------------------------------------------------------------- the canonical text

  function TargetAsText(t: Target): string
  {
    if t.weight == 1 then t.address else t.address + "@" + Decimal(t.weight)
  }

  function TargetTexts(targets: seq<Target>): seq<string>
  {
    seq(|targets|, i requires 0 <= i < |targets| => TargetAsText(targets[i]))
  }

  function PoolText(targets: seq<Target>): string
  {
    Join(TargetTexts(targets), ',')
  }

  lemma {:induction false} AddressPlain(text: AddressText, address: string)
    requires ValidAddress(text, address)
    ensures Plain(address) && '@' !in address
  {
    hide HostAndPort;
    forall i | 0 <= i < |address| ensures !Whitespace(address[i]) && address[i] != '@' {
      assert AddressChar(address[i]);
    }
  }

  lemma {:induction false} DigitsPlain(n: nat)
    ensures Plain(Decimal(n)) && '@' !in Decimal(n) && ',' !in Decimal(n)
  {
    hide NatOf;
    DecimalReads(n);
    forall i | 0 <= i < |Decimal(n)| ensures !Whitespace(Decimal(n)[i]) && Decimal(n)[i] != '@' && Decimal(n)[i] != ','
    {
      assert Digit(Decimal(n)[i]);
    }
  }

  lemma {:induction false} LastAt(front: string, back: string)
    requires '@' !in back
    ensures LastIndexOf(front + "@" + back, '@') == Some(|front|)
  {
    var s := front + "@" + back;
    assert s[|front|] == '@';
  }

  /** A written target reads back, and a list can be cut around it. */
  lemma {:induction false} TargetReadsBack(text: AddressText, t: Target)
    requires Admissible(text, t)
    ensures ParseSegment(text, TargetAsText(t)) == Ok(t)
    ensures Plain(TargetAsText(t)) && ',' !in TargetAsText(t)
  {
    hide ValidAddress, Trim, ParseUnsigned, Decimal;
    var s := TargetAsText(t);
    AddressPlain(text, t.address);
    DigitsPlain(t.weight);
    TrimPlain(s);
    TrimPlain(t.address);
    if t.weight == 1 {
      assert LastIndexOf(s, '@') == None;
    } else {
      LastAt(t.address, Decimal(t.weight));
      UnsignedRoundTrip(t.weight, 0x1_0000_0000);
      assert s[|t.address| + 1..] == Decimal(t.weight) && s[..|t.address|] == t.address;
    }
  }

  lemma {:induction false} TextsReadBack(text: AddressText, targets: seq<Target>)
    requires forall i :: 0 <= i < |targets| ==> Admissible(text, targets[i])
    ensures ParseSegments(text, TargetTexts(targets)) == Ok(targets)
    decreases |targets|
  {
    hide ParseSegment, Admissible, TargetAsText;
    var n := |targets|;
    if n == 0 {
    } else {
      TextsReadBack(text, targets[..n - 1]);
      TargetReadsBack(text, targets[n - 1]);
      assert TargetTexts(targets)[..n - 1] == TargetTexts(targets[..n - 1]);
      assert targets == targets[..n - 1] + [targets[n - 1]];
    }
  }

  /** Every admissible pool is read back from its canonical text. */
  lemma {:induction false} PoolRoundTrip(text: AddressText, targets: seq<Target>)
    requires AdmissiblePool(text, targets)
    ensures ParseTargetPool(text, PoolText(targets)) == Ok(targets)
  {
    hide ParseSegments, Split, Trim, Admissible, TargetAsText, Join;
    var texts := TargetTexts(targets);
    forall i | 0 <= i < |texts| ensures Plain(texts[i]) && ',' !in texts[i] {
      TargetReadsBack(text, targets[i]);
    }
    SplitJoin(texts, ',');
    JoinPlain(texts, ',');
    TrimPlain(PoolText(targets));
    TextsReadBack(text, targets);
  }

  /** What Fleet accepts as the target of a resource: a parsable pool written canonically. */
  predicate FleetAccepts(text: AddressText, value: string)
  {
    && Utf8Length(value) <= MAX_TARGET_POOL_BYTES
    && ParseTargetPool(text, value).Ok? && PoolText(ParseTargetPool(text, value).value) == value
  }

  /** Fleet accepts exactly the canonical texts of admissible pools that are short enough. */
  lemma {:induction false} FleetAcceptsCanonical(text: AddressText, value: string)
    ensures FleetAccepts(text, value) <==>
      && Utf8Length(value) <= 4_096
      && exists targets :: AdmissiblePool(text, targets) && PoolText(targets) == value
  {
    hide ParseTargetPool, AdmissiblePool, PoolText;
    if FleetAccepts(text, value) {
      ParsedPool(text, value);
    }
    if targets :| AdmissiblePool(text, targets) && PoolText(targets) == value {
      PoolRoundTrip(text, targets);
    }
  }

  /** Two accepted texts of the same pool are the same text, and canonical text names one pool only. */
  lemma {:induction false} CanonicalUnique(text: AddressText, v: string, w: string, targets: seq<Target>)
    requires FleetAccepts(text, v) && FleetAccepts(text, w)
    ensures ParseTargetPool(text, v) == ParseTargetPool(text, w) <==> v == w
    ensures AdmissiblePool(text, targets) && PoolText(targets) == v ==> ParseTargetPool(text, v) == Ok(targets)
  {
    hide ParseTargetPool, AdmissiblePool, PoolText;
    if AdmissiblePool(text, targets) {
      PoolRoundTrip(text, targets);
    }
  }

  // ---------------------------------------------------------------- all spellings

  /** The spellings of a target: white space around the address and after the weight, which may be left out if 1. */
  ghost predicate Spells(s: string, t: Target)
  {
    || (t.weight == 1 && Padded(s, t.address))
    || exists front, digits, w ::
         Padded(front, t.address) && Signed(digits, t.weight) && AllWhite(w) && s == front + "@" + digits + w
  }

  ghost predicate Padded(s: string, m: string)
  {
    exists w, v :: AllWhite(w) && AllWhite(v) && s == w + m + v
  }

  lemma {:induction false} TrimIsPadded(s: string, m: string)
    requires Bare(m)
    ensures Trim(s) == m <==> Padded(s, m)
  {
    hide Trim, AllWhite;
    TrimExact(s, m);
  }

  lemma {:induction false} SignedPlain(s: string, weight: nat)
    requires Signed(s, weight)
    ensures Bare(s) && s != "" && '@' !in s
  {
    hide NatOf;
    var digits :| Numeral(digits, weight) && (s == digits || s == "+" + digits);
    forall i | 0 <= i < |digits| ensures !Whitespace(digits[i]) && digits[i] != '@' {
      assert Digit(digits[i]);
    }
  }

  /** Every spelling of an admissible target is read as that target. */
  lemma {:induction false} SpellingReads(text: AddressText, s: string, t: Target)
    requires Admissible(text, t) && Spells(s, t)
    ensures ParseSegment(text, s) == Ok(t)
  {
    hide ValidAddress, Trim, ParseUnsigned, AllWhite;
    AddressPlain(text, t.address);
    if t.weight == 1 && Padded(s, t.address) {
      TrimIsPadded(s, t.address);
      assert LastIndexOf(t.address, '@') == None;
    } else {
      var front, digits, w :|
        Padded(front, t.address) && Signed(digits, t.weight) && AllWhite(w) && s == front + "@" + digits + w;
      WeightedReads(text, s, t, front, digits, w);
    }
  }

  lemma {:induction false} WeightedReads(
    text: AddressText, s: string, t: Target, front: string, digits: string, w: string)
    requires Admissible(text, t) && Plain(t.address) && '@' !in t.address
    requires Padded(front, t.address) && Signed(digits, t.weight) && AllWhite(w) && s == front + "@" + digits + w
    ensures ParseSegment(text, s) == Ok(t)
  {
    hide ValidAddress, Trim, ParseUnsigned, AllWhite, NatOf, ParseSegment;
    SignedPlain(digits, t.weight);
    var a, b :| AllWhite(a) && AllWhite(b) && front == a + t.address + b;
    TrimmedParts(s, t.address, a, b, digits, w);
    TrimmedFront(t.address, b);
    UnsignedExact(digits, 0x1_0000_0000, t.weight);
    ReadsTrimmed(text, s, t.address + b, digits, t);
  }

  lemma {:induction false} TrimmedParts(s: string, address: string, a: string, b: string, digits: string, w: string)
    requires Plain(address) && AllWhite(a) && AllWhite(w) && Bare(digits) && digits != ""
    requires s == a + address + b + "@" + digits + w
    ensures Trim(s) == (address + b) + "@" + digits
  {
    hide Trim, AllWhite;
    var m := (address + b) + "@" + digits;
    assert s == a + m + w;
    TrimIsPadded(s, m);
  }

  lemma {:induction false} TrimmedFront(address: string, b: string)
    requires Plain(address) && AllWhite(b)
    ensures Trim(address + b) == address
  {
    hide Trim;
    assert address + b == "" + address + b;
    TrimIsPadded(address + b, address);
  }

  lemma {:induction false} ReadsTrimmed(text: AddressText, s: string, front: string, digits: string, t: Target)
    requires Trim(s) == front + "@" + digits && '@' !in digits && Trim(front) == t.address
    requires ParseUnsigned(digits, 0x1_0000_0000) == Some(t.weight) && Admissible(text, t)
    ensures ParseSegment(text, s) == Ok(t)
  {
    hide Trim, ParseUnsigned, ValidAddress;
    var m := front + "@" + digits;
    LastAt(front, digits);
    assert m[|front| + 1..] == digits && m[..|front|] == front;
  }

  /** And only spellings of it are. */
  lemma {:induction false} ReadIsSpelling(text: AddressText, s: string)
    requires ParseSegment(text, s).Ok?
    ensures Spells(s, ParseSegment(text, s).value)
    ensures ValidAddress(text, ParseSegment(text, s).value.address)
    ensures 1 <= ParseSegment(text, s).value.weight <= MAX_TARGET_WEIGHT
  {
    hide ValidAddress, Trim, ParseUnsigned, AllWhite, Spells;
    var m, t := Trim(s), ParseSegment(text, s).value;
    match LastIndexOf(m, '@')
    case None => PlainSpelling(s, t);
    case Some(i) => WeightedSpelling(s, t, i);
  }

  lemma {:induction false} PlainSpelling(s: string, t: Target)
    requires Trim(s) == t.address && t.weight == 1
    ensures Spells(s, t)
  {
    hide Trim, AllWhite;
    TrimExact(s, t.address);
  }

  lemma {:induction false} WeightedSpelling(s: string, t: Target, i: nat)
    requires i < |Trim(s)| && Trim(s)[i] == '@' && Trim(Trim(s)[..i]) == t.address
    requires ParseUnsigned(Trim(s)[i + 1..], 0x1_0000_0000) == Some(t.weight)
    ensures Spells(s, t)
  {
    hide Trim, AllWhite, ParseUnsigned, NatOf;
    var m := Trim(s);
    TrimExact(s, m);
    var w, v :| AllWhite(w) && AllWhite(v) && s == w + m + v;
    TrimExact(m[..i], t.address);
    var a, b :| AllWhite(a) && AllWhite(b) && m[..i] == a + t.address + b;
    UnsignedExact(m[i + 1..], 0x1_0000_0000, t.weight);
    WhiteJoins(w, a);
    WiderPadding(w, a, t.address, b);
    assert Signed(m[i + 1..], t.weight);
    AtInside(w, m, i, v);
  }

  lemma {:induction false} WiderPadding(w: string, a: string, address: string, b: string)
    requires AllWhite(w + a) && AllWhite(b)
    ensures Padded(w + (a + address + b), address)
  {
    hide AllWhite;
    assert w + (a + address + b) == (w + a) + address + b;
  }

  lemma {:induction false} AtInside(w: string, m: string, i: nat, v: string)
    requires i < |m| && m[i] == '@'
    ensures w + m + v == (w + m[..i]) + "@" + m[i + 1..] + v
  {
    assert m == m[..i] + "@" + m[i + 1..];
  }

  // ---------------------------------------------------------------- all addresses

  predicate V6Text(text: AddressText, host: string)
  {
    text.parse(host).Some? && text.parse(host).value.V6?
  }

  predicate V4Text(text: AddressText, host: string)
  {
    text.parse(host).Some? && text.parse(host).value.V4?
  }

  predicate LetterOrDigit(c: char)
  {
    '0' <= c <= '9' || 'a' <= c <= 'z' || 'A' <= c <= 'Z'
  }

  /** One to sixty-three letters, digits and hyphens, with no hyphen at either end. */
  predicate Label(s: string)
  {
    0 < |s| < 64 && forall i :: 0 <= i < |s| ==> LetterOrDigit(s[i]) || (s[i] == '-' && 0 < i < |s| - 1)
  }

  /** A host name is labels with a dot between any two, of at most 253 bytes. */
  lemma {:induction false} DnsExact(host: string)
    ensures DnsName(host) <==>
      Utf8Length(host) < 254 && exists labels ::
        labels != [] && Join(labels, '.') == host && forall i :: 0 <= i < |labels| ==> Label(labels[i])
  {
    hide Split, Join, DnsLabel, Label, Utf8Length;
    JoinSplit(host, '.');
    forall l ensures (DnsLabel(l) <==> Label(l)) && (Label(l) ==> '.' !in l) {
      LabelExact(l);
    }
    if labels :| labels != [] && Join(labels, '.') == host && forall i :: 0 <= i < |labels| ==> Label(labels[i]) {
      SplitExact(host, '.', labels);
    }
  }

  lemma {:induction false} LabelExact(l: string)
    ensures (DnsLabel(l) <==> Label(l)) && (Label(l) ==> '.' !in l)
  {
  }

  /** Host and port of an address, bracketed or not. */
  ghost predicate Names(text: AddressText, value: string, host: string, port: string)
  {
    || (value == "[" + host + "]:" + port && V6Text(text, host))
    || (value == host + ":" + port && ':' !in host && ':' !in port && (V4Text(text, host) || DnsName(host)))
  }

  lemma {:induction false} BracketFound(host: string, tail: string)
    requires ']' !in host
    ensures ClosingBracket(host + "]:" + tail) == Some(|host|)
  {
    var s := host + "]:" + tail;
    if host == "" {
      assert s[0] == ']' && s[1] == ':';
    } else {
      BracketFound(host[1..], tail);
      assert s[1..] == host[1..] + "]:" + tail;
    }
  }

  lemma {:induction false} BracketSplits(s: string)
    ensures var i := ClosingBracket(s); i.Some? ==> s == s[..i.value] + "]:" + s[i.value + 2..]
  {
    if |s| >= 2 && !(s[0] == ']' && s[1] == ':') {
      BracketSplits(s[1..]);
    }
  }

  /** An address is valid exactly if it names a host and a port in its characters and length. */
  lemma {:induction false} AddressExact(text: AddressText, value: string)
    ensures ValidAddress(text, value) <==>
      && Utf8Length(value) <= 255 && (forall i :: 0 <= i < |value| ==> AddressChar(value[i]))
      && exists host, port ::
           && Names(text, value, host, port) && host != "" && '[' !in host && ']' !in host
           && ParseU16(port).Some? && ParseU16(port).value != 0
  {
    hide Utf8Length, AddressChar, DnsName, ParseUnsigned;
    if ValidAddress(text, value) {
      ValidNames(text, value);
    }
    if host, port :|
      && Names(text, value, host, port) && host != "" && '[' !in host && ']' !in host
      && ParseU16(port).Some? && ParseU16(port).value != 0
    {
      NamesHostAndPort(text, value, host, port);
    }
  }

  lemma {:induction false} NamesHostAndPort(text: AddressText, value: string, host: string, port: string)
    requires Names(text, value, host, port) && host != "" && '[' !in host && ']' !in host
    ensures HostAndPort(text, value) == Some((host, port)) && value != ""
    ensures value[0] == '[' || V4Text(text, host) || DnsName(host)
  {
    hide DnsName;
    if value == "[" + host + "]:" + port && V6Text(text, host) {
      var rest := value[1..];
      assert rest == host + "]:" + port;
      BracketFound(host, port);
      assert rest[..|host|] == host && rest[|host| + 2..] == port;
    } else {
      assert value[0] == host[0];
      LastColon(host, port);
      assert value[..|host|] == host && value[|host| + 1..] == port;
    }
  }

  lemma {:induction false} LastColon(front: string, back: string)
    requires ':' !in back
    ensures LastIndexOf(front + ":" + back, ':') == Some(|front|)
  {
    var s := front + ":" + back;
    assert s[|front|] == ':';
  }

  lemma {:induction false} ValidNames(text: AddressText, value: string)
    requires ValidAddress(text, value)
    ensures exists host, port ::
      && Names(text, value, host, port) && host != "" && '[' !in host && ']' !in host
      && ParseU16(port).Some? && ParseU16(port).value != 0
  {
    hide Utf8Length, AddressChar, DnsName, ParseUnsigned;
    var (host, port) := HostAndPort(text, value).value;
    if value[0] == '[' {
      BracketSplits(value[1..]);
      assert value == "[" + host + "]:" + port;
    } else {
      assert value == host + ":" + port;
    }
    assert Names(text, value, host, port);
  }
}
