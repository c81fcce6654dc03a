/** How a port range may be written, white space and signs included, in the two expressions that take ranges. */
module PortGrammar {
  import opened Wrappers
  import opened Bytes
  import opened Text
  import opened PortText
  import P = PublicPorts
  import M = PortMapping

  // ---------------------------------------------------------------- public ports

  /** A port from 1 to 65535, with white space around it and perhaps a plus sign before it. */
  ghost predicate PortWritten(text: string, n: nat)
  {
    && 1 <= n <= 65_535
    && exists w, s, v :: AllWhite(w) && AllWhite(v) && text == w + s + v && Signed(s, n)
  }

  /** One port, or two with a hyphen between them, the first not above the second. */
  ghost predicate RangeWritten(text: string, a: nat, b: nat)
  {
    || (a == b && PortWritten(text, a))
    || (a <= b && exists x, y :: text == x + "-" + y && PortWritten(x, a) && PortWritten(y, b))
  }

  lemma {:induction false} NumeralPlain(digits: string, n: nat)
    requires Numeral(digits, n)
    ensures Bare(digits) && Bare("+" + digits) && digits != "" && '-' !in digits && '-' !in "+" + digits
  {
    hide NatOf;
    forall i | 0 <= i < |digits| ensures !Whitespace(digits[i]) && digits[i] != '-' {
      assert Digit(digits[i]);
    }
  }

  lemma {:induction false} SignedPlain(s: string, n: nat)
    requires Signed(s, n)
    ensures Bare(s) && s != "" && '-' !in s
  {
    hide Numeral, Bare;
    var digits :| Numeral(digits, n) && (s == digits || s == "+" + digits);
    NumeralPlain(digits, n);
  }

  lemma {:induction false} PortExact(text: string, n: U16)
    ensures P.ParsePort(text) == Ok(n) <==> PortWritten(text, n)
  {
    hide Trim, AllWhite, NatOf, ParseUnsigned;
    var m := Trim(text);
    TrimExact(text, m);
    UnsignedExact(m, 0x1_0000, n);
    if PortWritten(text, n) {
      var w, s, v :| AllWhite(w) && AllWhite(v) && text == w + s + v && Signed(s, n);
      SignedPlain(s, n);
      TrimExact(text, s);
    }
  }

  lemma {:induction false} NoHyphen(text: string, n: nat)
    requires PortWritten(text, n)
    ensures '-' !in text && Trim(text) != ""
  {
    hide NatOf, Trim;
    var w, s, v :| AllWhite(w) && AllWhite(v) && text == w + s + v && Signed(s, n);
    SignedPlain(s, n);
    TrimExact(text, s);
    assert '-' !in w && '-' !in v;
  }

  /** Ports are read the same whether the text was trimmed before or not. */
  lemma {:induction false} SamePort(text: string, trimmed: string)
    requires Trim(text) == Trim(trimmed)
    ensures P.ParsePort(text) == P.ParsePort(trimmed)
  {
  }

  lemma {:induction false} FirstHyphen(x: string, y: string)
    requires '-' !in x
    ensures IndexOf(x + "-" + y, '-') == |x|
  {
    assert (x + "-" + y)[..|x|] == x;
    FirstOf(x + "-" + y, '-', |x|);
  }

  /** A span is read exactly if both its ports are and ascend. */
  lemma {:induction false} SpanExact(x: string, y: string, a: U16, b: U16)
    ensures P.ParseSpan(x, y) == Ok(PortRange(a, b)) <==> a <= b && PortWritten(x, a) && PortWritten(y, b)
  {
    hide P.ParsePort, PortWritten;
    PortExact(x, a);
    PortExact(y, b);
    if PortWritten(y, b) {
      NoHyphen(y, b);
    }
  }

  lemma {:induction false} WhiteHasNoHyphen(w: string)
    requires AllWhite(w)
    ensures '-' !in w
  {
  }

  lemma {:induction false} NoSpan(text: string, a: U16, b: U16)
    requires '-' !in text
    ensures RangeWritten(text, a, b) <==> a == b && PortWritten(text, a)
  {
    hide PortWritten;
    forall x, y ensures text != x + "-" + y {
      assert (x + "-" + y)[|x|] == '-';
    }
  }

  lemma {:induction false} OnlySpan(x: string, y: string, a: U16, b: U16)
    requires '-' !in x
    ensures RangeWritten(x + "-" + y, a, b) <==> a <= b && PortWritten(x, a) && PortWritten(y, b)
  {
    hide PortWritten;
    var text := x + "-" + y;
    assert text[|x|] == '-';
    if PortWritten(text, a) {
      NoHyphen(text, a);
    }
    forall p, q | text == p + "-" + q && PortWritten(p, a) && PortWritten(q, b) ensures p == x && q == y {
      NoHyphen(p, a);
      FirstHyphen(x, y);
      FirstHyphen(p, q);
      assert p == text[..|p|] && x == text[..|x|] && q == text[|p| + 1..] && y == text[|x| + 1..];
    }
  }

  lemma {:induction false} Around(w: string, start: string, end: string, v: string)
    ensures w + (start + "-" + end) + v == (w + start) + "-" + (end + v)
  {
    var x, y := w + (start + "-" + end) + v, (w + start) + "-" + (end + v);
    assert |x| == |y| && forall i :: 0 <= i < |x| ==> x[i] == y[i];
  }

  /** A segment is read as a range exactly if the range is written there. */
  lemma {:induction false} SegmentExact(text: string, a: U16, b: U16)
    ensures P.ParseSegment(text) == Ok(PortRange(a, b)) <==> RangeWritten(text, a, b)
  {
    hide Trim, AllWhite, PortWritten, RangeWritten, P.ParsePort, P.ParseSpan;
    var segment := Trim(text);
    TrimExact(text, segment);
    var w, v :| AllWhite(w) && AllWhite(v) && text == w + segment + v;
    WhiteHasNoHyphen(w);
    WhiteHasNoHyphen(v);
    var dash := IndexOf(segment, '-');
    if dash < |segment| {
      var start, end := segment[..dash], segment[dash + 1..];
      assert segment == start + "-" + end;
      Around(w, start, end, v);
      OnlySpan(w + start, end + v, a, b);
      SpanExact(start, end, a, b);
      PaddedPort(w, start, a);
      PaddedPort(v, end, b);
    } else {
      assert '-' !in segment by { assert segment[..|segment|] == segment; }
      NoSpan(text, a, b);
      TrimTwice(text);
      SamePort(text, segment);
      PortExact(text, a);
      if PortWritten(text, a) {
        NoHyphen(text, a);
      }
    }
  }

  lemma {:induction false} PaddedPort(w: string, s: string, n: U16)
    requires AllWhite(w)
    ensures PortWritten(w + s, n) <==> PortWritten(s, n)
    ensures PortWritten(s + w, n) <==> PortWritten(s, n)
  {
    hide Trim, AllWhite, PortWritten, P.ParsePort;
    TrimPadding(w, s);
    SamePort(w + s, s);
    SamePort(s + w, s);
    PortExact(w + s, n);
    PortExact(s + w, n);
    PortExact(s, n);
  }

  /** Why a segment is refused: nothing there, ports that descend, or something that is not a port. */
  lemma {:induction false} SegmentReason(text: string)
    ensures P.ParseSegment(text) == Err(P.EmptySegment) <==> AllWhite(text)
    ensures P.ParseSegment(text) == Err(P.DescendingRange) ==>
      exists a, b, x, y :: a > b && text == x + "-" + y && PortWritten(x, a) && PortWritten(y, b)
    ensures P.ParseSegment(text).Err? ==> P.ParseSegment(text).error != P.Empty
  {
    hide AllWhite, PortWritten, P.ParseSpan, P.ParsePort, Trim;
    TrimmedAway(text);
    var segment := Trim(text);
    PortReason(segment);
    var dash := IndexOf(segment, '-');
    if dash < |segment| {
      SpanReason(segment[..dash], segment[dash + 1..]);
      if P.ParseSegment(text) == Err(P.DescendingRange) {
        Descends(text, dash);
      }
    }
  }

  lemma {:induction false} TrimmedAway(text: string)
    ensures Trim(text) == "" <==> AllWhite(text)
  {
    hide Trim, AllWhite;
    TrimExact(text, "");
    NothingIsWhite();
    if AllWhite(text) {
      assert text == text + "" + "";
    }
    if w, v :| AllWhite(w) && AllWhite(v) && text == w + "" + v {
      WhiteJoins(w, v);
      assert text == w + v;
    }
  }

  lemma {:induction false} SpanReason(x: string, y: string)
    ensures P.ParseSpan(x, y).Err? ==> P.ParseSpan(x, y).error in {P.InvalidPort, P.DescendingRange}
    ensures P.ParseSpan(x, y) == Err(P.DescendingRange) ==>
      P.ParsePort(x).Ok? && P.ParsePort(y).Ok? && P.ParsePort(x).value > P.ParsePort(y).value
  {
    hide P.ParsePort;
    PortReason(x);
    PortReason(y);
  }

  lemma {:induction false} Descends(text: string, dash: nat)
    requires dash < |Trim(text)| && Trim(text)[dash] == '-'
    requires P.ParseSpan(Trim(text)[..dash], Trim(text)[dash + 1..]) == Err(P.DescendingRange)
    ensures exists a, b, x, y :: a > b && text == x + "-" + y && PortWritten(x, a) && PortWritten(y, b)
  {
    hide AllWhite, PortWritten, P.ParseSpan, P.ParsePort, Trim;
    var segment := Trim(text);
    var start, end := segment[..dash], segment[dash + 1..];
    SpanReason(start, end);
    TrimExact(text, segment);
    var w, v :| AllWhite(w) && AllWhite(v) && text == w + segment + v;
    var a, b := P.ParsePort(start).value, P.ParsePort(end).value;
    PortExact(start, a);
    PortExact(end, b);
    PaddedPort(w, start, a);
    PaddedPort(v, end, b);
    assert segment == start + "-" + end && text == (w + start) + "-" + (end + v);
  }

  lemma {:induction false} PortReason(text: string)
    ensures P.ParsePort(text).Err? ==> P.ParsePort(text).error == P.InvalidPort
  {
  }

  lemma {:induction false} NothingIsWhite()
    ensures AllWhite("")
  {
  }

  // ---------------------------------------------------------------- port groups

  /** A number in digits only, with white space around it. */
  ghost predicate DigitsWritten(text: string, n: nat)
  {
    exists w, digits, v :: AllWhite(w) && AllWhite(v) && text == w + digits + v && Numeral(digits, n)
  }

  /** One number, or two with a hyphen between them. */
  ghost predicate ItemWritten(text: string, a: nat, b: nat)
  {
    || (a == b && DigitsWritten(text, a))
    || exists x, y :: text == x + "-" + y && DigitsWritten(x, a) && DigitsWritten(y, b)
  }

  lemma {:induction false} DigitsExact(text: string, n: U16)
    ensures M.ParsePort(Trim(text)) == Ok(n) <==> DigitsWritten(text, n)
  {
    hide Trim, AllWhite, NatOf;
    TrimExact(text, Trim(text));
    if DigitsWritten(text, n) {
      var w, digits, v :| AllWhite(w) && AllWhite(v) && text == w + digits + v && Numeral(digits, n);
      NumeralPlain(digits, n);
      TrimExact(text, digits);
    }
  }

  lemma {:induction false} DigitsPlain(text: string, n: nat)
    requires DigitsWritten(text, n)
    ensures '-' !in text && Trim(text) != ""
  {
    hide NatOf, Trim;
    var w, digits, v :| AllWhite(w) && AllWhite(v) && text == w + digits + v && Numeral(digits, n);
    NumeralPlain(digits, n);
    TrimExact(text, digits);
    assert '-' !in w && '-' !in v;
  }

  lemma {:induction false} PaddedDigits(w: string, s: string, n: U16)
    requires AllWhite(w)
    ensures DigitsWritten(w + s, n) <==> DigitsWritten(s, n)
    ensures DigitsWritten(s + w, n) <==> DigitsWritten(s, n)
  {
    hide Trim, AllWhite, DigitsWritten, M.ParsePort;
    TrimPadding(w, s);
    DigitsExact(w + s, n);
    DigitsExact(s + w, n);
    DigitsExact(s, n);
  }

  /** The pieces around a hyphen are read exactly if both are numbers. */
  lemma {:induction false} PiecesExact(pieces: seq<string>, a: U16, b: U16)
    ensures M.ParsePieces(pieces) == Ok(PortRange(a, b)) <==>
      || (|pieces| == 1 && a == b && DigitsWritten(pieces[0], a))
      || (|pieces| == 2 && DigitsWritten(pieces[0], a) && DigitsWritten(pieces[1], b))
  {
    hide Trim, DigitsWritten, M.ParsePort;
    if |pieces| >= 1 {
      DigitsExact(pieces[0], a);
      DigitsExact(pieces[0], b);
      if DigitsWritten(pieces[0], a) {
        DigitsPlain(pieces[0], a);
      }
    }
    if |pieces| == 2 {
      DigitsExact(pieces[1], b);
      if DigitsWritten(pieces[1], b) {
        DigitsPlain(pieces[1], b);
      }
    }
  }

  /** An item is read as a range exactly if it is written there, ascends and lies within the limits. */
  lemma {:induction false} ItemExact(text: string, limits: M.Limits, a: U16, b: U16)
    ensures M.ParseItem(text, limits) == Ok(PortRange(a, b)) <==>
      ItemWritten(text, a, b) && limits.minimum <= a <= b <= limits.maximum
  {
    hide Trim, AllWhite, DigitsWritten, ItemWritten, M.ParsePieces, Split;
    var item := Trim(text);
    TrimExact(text, item);
    var w, v :| AllWhite(w) && AllWhite(v) && text == w + item + v;
    PiecesExact(Split(item, '-'), a, b);
    ItemPieces(text, w, item, v, a, b);
    if ItemWritten(text, a, b) {
      ItemNotBlank(text, a, b);
    }
  }

  lemma {:induction false} ItemNotBlank(text: string, a: nat, b: nat)
    requires ItemWritten(text, a, b)
    ensures Trim(text) != ""
  {
    hide Trim, DigitsWritten;
    if a == b && DigitsWritten(text, a) {
      DigitsPlain(text, a);
    } else {
      var x, y :| text == x + "-" + y && DigitsWritten(x, a) && DigitsWritten(y, b);
      assert text[|x|] == '-';
      var m := Trim(text);
      TrimExact(text, m);
      var w, v :| AllWhite(w) && AllWhite(v) && text == w + m + v;
      WhiteHasNoHyphen(w);
      WhiteHasNoHyphen(v);
      assert '-' in m;
    }
  }

  lemma {:induction false} ItemPieces(text: string, w: string, item: string, v: string, a: U16, b: U16)
    requires AllWhite(w) && AllWhite(v) && text == w + item + v
    ensures var pieces := Split(item, '-');
      ItemWritten(text, a, b) <==>
        || (|pieces| == 1 && a == b && DigitsWritten(pieces[0], a))
        || (|pieces| == 2 && DigitsWritten(pieces[0], a) && DigitsWritten(pieces[1], b))
  {
    hide AllWhite, DigitsWritten, Split;
    var pieces := Split(item, '-');
    SplitExact(item, '-', pieces);
    PaddedDigits(w, item, a);
    PaddedDigits(v, w + item, a);
    if |pieces| == 1 {
      assert item == pieces[0];
    }
    if |pieces| == 2 {
      PaddedDigits(w, pieces[0], a);
      PaddedDigits(v, pieces[1], b);
      assert Join(pieces[1..], '-') == pieces[1];
      assert text == (w + pieces[0]) + "-" + (pieces[1] + v);
    }
    if ItemWritten(text, a, b) {
      if a == b && DigitsWritten(text, a) {
        DigitsPlain(text, a);
        SplitPiece(item, "", '-');
      } else {
        var x, y :| text == x + "-" + y && DigitsWritten(x, a) && DigitsWritten(y, b);
        CutItem(w, item, v, x, y, a, b);
      }
    }
  }

  /** The hyphen of a written item lies within its trimmed text. */
  lemma {:induction false} CutItem(w: string, item: string, v: string, x: string, y: string, a: U16, b: U16)
    requires AllWhite(w) && AllWhite(v) && w + item + v == x + "-" + y
    requires DigitsWritten(x, a) && DigitsWritten(y, b)
    ensures var pieces := Split(item, '-');
      |pieces| == 2 && DigitsWritten(pieces[0], a) && DigitsWritten(pieces[1], b)
  {
    hide AllWhite, DigitsWritten, Split;
    DigitsPlain(x, a);
    DigitsPlain(y, b);
    WhiteHasNoHyphen(w);
    WhiteHasNoHyphen(v);
    var text := x + "-" + y;
    assert text == w + item + v && text[|x|] == '-';
    HyphenWithin(w, item, v, |x|);
    var p, q := item[..|x| - |w|], item[|x| - |w| + 1..];
    assert item[|x| - |w|] == '-' && item == p + "-" + q;
    assert x == text[..|x|] == w + p && y == text[|x| + 1..] == q + v;
    assert '-' !in p && '-' !in q;
    PaddedDigits(w, p, a);
    PaddedDigits(v, q, b);
    SplitPiece(p, q, '-');
    SplitPiece(q, "", '-');
  }

  lemma {:induction false} HyphenWithin(w: string, item: string, v: string, i: nat)
    requires '-' !in w && '-' !in v && i < |w + item + v| && (w + item + v)[i] == '-'
    ensures |w| <= i < |w| + |item|
  {
  }

  /** A number that is no port: in digits, but above 65535. */
  ghost predicate TooBig(text: string)
  {
    exists n :: n > 65_535 && DigitsWritten(text, n)
  }

  lemma {:induction false} DigitsReason(text: string)
    ensures var r := M.ParsePort(Trim(text));
      r.Err? ==> (r.error == M.InvalidSyntax || (r.error == M.PortOutOfRange && TooBig(text)))
  {
    hide Trim, AllWhite, NatOf;
    var m := Trim(text);
    TrimExact(text, m);
    if m != "" && AllDigits(m) {
      var w, v :| AllWhite(w) && AllWhite(v) && text == w + m + v;
      assert Numeral(m, NatOf(m));
      assert DigitsWritten(text, NatOf(m));
    }
  }

  /** Why the items of a port group are refused, as far as single items go. */
  lemma {:induction false} PiecesReason(pieces: seq<string>)
    ensures var r := M.ParsePieces(pieces);
      r.Err? ==>
        || r.error == M.InvalidSyntax
        || (r.error == M.PortOutOfRange && exists i :: 0 <= i < |pieces| && TooBig(pieces[i]))
  {
    hide Trim, TooBig, M.ParsePort;
    forall i | 0 <= i < |pieces|
      ensures var r := M.ParsePort(Trim(pieces[i]));
        r.Err? ==> (r.error == M.InvalidSyntax || (r.error == M.PortOutOfRange && TooBig(pieces[i])))
    {
      DigitsReason(pieces[i]);
    }
  }

  /** An item that descends, or that leaves the limits, is written so. */
  lemma {:induction false} ItemReason(text: string, limits: M.Limits)
    ensures M.ParseItem(text, limits) == Err(M.DescendingRange) ==>
      exists a: nat, b: nat :: a > b && ItemWritten(text, a, b)
    ensures M.ParseItem(text, limits) == Err(M.PortOutOfRange) ==>
      || (exists a: nat, b: nat :: ItemWritten(text, a, b) && a <= b && (a < limits.minimum || b > limits.maximum))
      || (exists i :: 0 <= i < |Split(Trim(text), '-')| && TooBig(Split(Trim(text), '-')[i]))
    ensures M.ParseItem(text, limits).Err? ==>
      M.ParseItem(text, limits).error in {M.InvalidSyntax, M.DescendingRange, M.PortOutOfRange}
  {
    hide Trim, AllWhite, DigitsWritten, ItemWritten, M.ParsePieces, Split, TooBig;
    var item := Trim(text);
    PiecesReason(Split(item, '-'));
    if M.ParsePieces(Split(item, '-')).Ok? {
      var r := M.ParsePieces(Split(item, '-')).value;
      TrimExact(text, item);
      var w, v :| AllWhite(w) && AllWhite(v) && text == w + item + v;
      PiecesExact(Split(item, '-'), r.start, r.end);
      ItemPieces(text, w, item, v, r.start, r.end);
      assert ItemWritten(text, r.start, r.end);
    } else if M.ParseItem(text, limits) == Err(M.PortOutOfRange) {
      assert M.ParsePieces(Split(item, '-')).error == M.PortOutOfRange;
    }
  }

  /** Why a range is not added: one of its ports is there already, or there are too many. */
  lemma {:induction false} ExtendReason(ports: seq<U16>, start: U16, end: U16, count: nat)
    requires start <= end
    ensures match M.Extend(ports, start, end, count)
      case Err(DuplicatePort) => exists port :: start <= port <= end && port in ports
      case Err(TooManyPorts) => |ports| + (end - start + 1) > count
      case Err(_) => false
      case Ok(more) => |more| == |ports| + (end - start + 1)
    decreases end - start
  {
    if start !in ports && |ports| + 1 <= count && start < end {
      ExtendReason(ports + [start], start + 1, end, count);
    }
  }

  /** A group is empty exactly if nothing is written. */
  lemma {:induction false} GroupEmpty(expression: string, limits: M.Limits)
    ensures M.ParsePortSet(expression, limits) == Err(M.Empty) <==> AllWhite(expression)
  {
    hide Trim, AllWhite, M.ParseItem, M.Extend, Split;
    TrimmedAway(expression);
    ItemsNotEmpty(Split(expression, ','), limits);
  }

  lemma {:induction false} ItemsNotEmpty(items: seq<string>, limits: M.Limits)
    ensures M.ParseItems(items, limits) != Err(M.Empty)
  {
    hide M.ParseItem, M.Extend;
    if items == [] {
    } else {
      var n := |items| - 1;
      ItemsNotEmpty(items[..n], limits);
      ItemReason(items[n], limits);
      if M.ParseItem(items[n], limits).Ok? && M.ParseItems(items[..n], limits).Ok? {
        var r := M.ParseItem(items[n], limits).value;
        ItemAscends(items[n], limits);
        ExtendReason(M.ParseItems(items[..n], limits).value, r.start, r.end, limits.count);
      }
    }
  }

  lemma {:induction false} ItemAscends(text: string, limits: M.Limits)
    ensures M.ParseItem(text, limits).Ok? ==>
      M.ParseItem(text, limits).value.start <= M.ParseItem(text, limits).value.end
  {
    hide Trim, M.ParsePieces, Split;
  }
}
