/** The string operations the expressions are written with: trim, split, join and decimals. */
module Text {
  import opened Wrappers
  import opened Bytes

  /** The Unicode property White_Space. */
  predicate Whitespace(c: char)
  {
    var u := c as int;
    || 0x09 <= u <= 0x0d || u == 0x20 || u == 0x85 || u == 0xa0 || u == 0x1680 || 0x2000 <= u <= 0x200a
    || u == 0x2028 || u == 0x2029 || u == 0x202f || u == 0x205f || u == 0x3000
  }

  /** The Unicode category Cc. */
  predicate ControlChar(c: char)
  {
    var u := c as int;
    u <= 0x1f || 0x7f <= u <= 0x9f
  }

  function Utf8Length(s: string): nat
  {
    if s == "" then 0
    else
      var u := s[0] as int;
      (if u < 0x80 then 1 else if u < 0x800 then 2 else if u < 0x1_0000 then 3 else 4) + Utf8Length(s[1..])
  }

  function TrimStart(s: string): string
  {
    if s != "" && Whitespace(s[0]) then TrimStart(s[1..]) else s
  }

  function TrimEnd(s: string): string
  {
    if s != "" && Whitespace(s[|s| - 1]) then TrimEnd(s[..|s| - 1]) else s
  }

  function Trim(s: string): string
  {
    TrimEnd(TrimStart(s))
  }

  /** The pieces between separators: one more than there are separators. */
  function Split(s: string, separator: char): (pieces: seq<string>)
    ensures pieces != []
  {
    if s == "" then [""]
    else
      var rest := Split(s[1..], separator);
      if s[0] == separator then [""] + rest else [[s[0]] + rest[0]] + rest[1..]
  }

  function Join(pieces: seq<string>, separator: char): string
  {
    if |pieces| == 0 then ""
    else if |pieces| == 1 then pieces[0]
    else pieces[0] + [separator] + Join(pieces[1..], separator)
  }

  /** The first position of `c`, or the length of `s` if there is none. */
  function IndexOf(s: string, c: char): (i: nat)
    ensures i <= |s| && c !in s[..i] && (i < |s| ==> s[i] == c)
  {
    if s == "" || s[0] == c then 0
    else
      assert s[..1 + IndexOf(s[1..], c)] == [s[0]] + s[1..][..IndexOf(s[1..], c)];
      1 + IndexOf(s[1..], c)
  }

  /** The last position of `c`. */
  function LastIndexOf(s: string, c: char): (i: Option<nat>)
    ensures i.Some? ==> i.value < |s| && s[i.value] == c && c !in s[i.value + 1..]
    ensures i.None? ==> c !in s
  {
    if s == "" then None
    else if s[|s| - 1] == c then Some(|s| - 1)
    else
      assert s == s[..|s| - 1] + [s[|s| - 1]];
      LastIndexOf(s[..|s| - 1], c)
  }

  predicate Digit(c: char)
  {
    '0' <= c <= '9'
  }

  predicate AllDigits(s: string)
  {
    forall i :: 0 <= i < |s| ==> Digit(s[i])
  }

  function NatOf(s: string): nat
    requires AllDigits(s)
  {
    if s == "" then 0 else 10 * NatOf(s[..|s| - 1]) + (s[|s| - 1] as int - '0' as int)
  }

  function Decimal(n: nat): string
  {
    (if n < 10 then "" else Decimal(n / 10)) + ["0123456789"[n % 10]]
  }

  /** An unsigned number below `bound` as Rust reads it: an optional plus sign, then digits. */
  function ParseUnsigned(s: string, bound: nat): (n: Option<nat>)
    ensures n.Some? ==> n.value < bound
  {
    var digits := if s != "" && s[0] == '+' then s[1..] else s;
    if digits == "" || !AllDigits(digits) || NatOf(digits) >= bound then None else Some(NatOf(digits))
  }

  function ParseU16(s: string): Option<U16>
  {
    ParseUnsigned(s, 0x1_0000)
  }

  // ---------------------------------------------------------------- lemmas

  lemma {:induction false} DecimalReads(n: nat)
    ensures Decimal(n) != "" && AllDigits(Decimal(n)) && NatOf(Decimal(n)) == n
  {
    var s := Decimal(n);
    if n >= 10 {
      DecimalReads(n / 10);
      assert s[..|s| - 1] == Decimal(n / 10);
    } else {
      assert s[..|s| - 1] == "";
    }
  }

  /** Rust reads back the decimal form of every number below the bound. */
  lemma {:induction false} UnsignedRoundTrip(n: nat, bound: nat)
    requires n < bound
    ensures ParseUnsigned(Decimal(n), bound) == Some(n)
  {
    DecimalReads(n);
    assert Digit(Decimal(n)[0]);
  }

  lemma {:induction false} FirstOf(s: string, c: char, k: nat)
    requires k <= |s| && c !in s[..k] && (k < |s| ==> s[k] == c)
    ensures IndexOf(s, c) == k
  {
  }

  lemma {:induction false} TrimPlain(s: string)
    requires forall i :: 0 <= i < |s| ==> !Whitespace(s[i])
    ensures Trim(s) == s
  {
  }

  lemma {:induction false} SplitPiece(piece: string, rest: string, separator: char)
    requires separator !in piece
    ensures Split(piece, separator) == [piece]
    ensures Split(piece + [separator] + rest, separator) == [piece] + Split(rest, separator)
  {
    var s := piece + [separator] + rest;
    if piece == "" {
      assert s[1..] == rest;
    } else {
      SplitPiece(piece[1..], rest, separator);
      assert s[1..] == piece[1..] + [separator] + rest;
      assert [piece[0]] + piece[1..] == piece;
    }
  }

  /** Splitting undoes joining. */
  lemma {:induction false} SplitJoin(pieces: seq<string>, separator: char)
    requires pieces != [] && forall i :: 0 <= i < |pieces| ==> separator !in pieces[i]
    ensures Split(Join(pieces, separator), separator) == pieces
  {
    if |pieces| == 1 {
      SplitPiece(pieces[0], "", separator);
    } else {
      SplitJoin(pieces[1..], separator);
      SplitPiece(pieces[0], Join(pieces[1..], separator), separator);
    }
  }

  /** Splitting leaves no separator in any piece. */
  lemma {:induction false} SplitClean(s: string, separator: char)
    ensures forall i :: 0 <= i < |Split(s, separator)| ==> separator !in Split(s, separator)[i]
  {
    if s == "" {
    } else {
      SplitClean(s[1..], separator);
      var rest := Split(s[1..], separator);
      forall i | 0 <= i < |Split(s, separator)| ensures separator !in Split(s, separator)[i] {
        assert separator !in rest[0];
        assert i > 0 ==> separator !in rest[if s[0] == separator then i - 1 else i];
      }
    }
  }

  lemma {:induction false} TrimWithin(s: string, c: char)
    requires c !in s
    ensures c !in Trim(s)
  {
    TrimStartWithin(s, c);
    TrimEndWithin(TrimStart(s), c);
  }

  lemma {:induction false} TrimStartWithin(s: string, c: char)
    requires c !in s
    ensures c !in TrimStart(s)
  {
    if s != "" && Whitespace(s[0]) {
      TrimStartWithin(s[1..], c);
    }
  }

  lemma {:induction false} TrimEndWithin(s: string, c: char)
    requires c !in s
    ensures c !in TrimEnd(s)
  {
    if s != "" && Whitespace(s[|s| - 1]) {
      TrimEndWithin(s[..|s| - 1], c);
    }
  }

  predicate Plain(s: string)
  {
    s != "" && forall i :: 0 <= i < |s| ==> !Whitespace(s[i])
  }

  /** A list of pieces without white space has none itself. */
  lemma {:induction false} JoinPlain(pieces: seq<string>, separator: char)
    requires pieces != [] && !Whitespace(separator) && forall i :: 0 <= i < |pieces| ==> Plain(pieces[i])
    ensures Plain(Join(pieces, separator))
  {
    if |pieces| == 1 {
    } else {
      JoinPlain(pieces[1..], separator);
      assert Plain(pieces[0]);
    }
  }

  // ---------------------------------------------------------------- what the operations mean

  predicate AllWhite(s: string)
  {
    forall i :: 0 <= i < |s| ==> Whitespace(s[i])
  }

  /** No white space at either end. */
  predicate Bare(s: string)
  {
    s != "" ==> !Whitespace(s[0]) && !Whitespace(s[|s| - 1])
  }

  lemma {:induction false} TrimStartCuts(w: string, rest: string)
    requires AllWhite(w) && (rest != "" ==> !Whitespace(rest[0]))
    ensures TrimStart(w + rest) == rest
  {
    hide Whitespace;
    if w == "" {
      assert w + rest == rest;
    } else {
      TrimStartCuts(w[1..], rest);
      assert (w + rest)[1..] == w[1..] + rest;
    }
  }

  lemma {:induction false} TrimEndCuts(rest: string, w: string)
    requires AllWhite(w) && (rest != "" ==> !Whitespace(rest[|rest| - 1]))
    ensures TrimEnd(rest + w) == rest
  {
    hide Whitespace;
    if w == "" {
      assert rest + w == rest;
    } else {
      TrimEndCuts(rest, w[..|w| - 1]);
      assert (rest + w)[..|rest + w| - 1] == rest + w[..|w| - 1];
    }
  }

  lemma {:induction false} TrimCuts(w: string, m: string, v: string)
    requires AllWhite(w) && AllWhite(v) && Bare(m)
    ensures Trim(w + m + v) == m
  {
    hide Whitespace, TrimStart, TrimEnd;
    if m == "" {
      assert w + m + v == (w + v) + "";
      TrimStartCuts(w + v, "");
      TrimEndCuts("", "");
      assert "" + "" == "";
    } else {
      assert w + m + v == w + (m + v);
      TrimStartCuts(w, m + v);
      TrimEndCuts(m, v);
    }
  }

  lemma {:induction false} TrimStartSplits(s: string) returns (w: string)
    ensures AllWhite(w) && s == w + TrimStart(s) && (TrimStart(s) != "" ==> !Whitespace(TrimStart(s)[0]))
  {
    hide Whitespace;
    if s != "" && Whitespace(s[0]) {
      var v := TrimStartSplits(s[1..]);
      w := [s[0]] + v;
    } else {
      w := "";
    }
  }

  lemma {:induction false} TrimEndSplits(s: string) returns (w: string)
    ensures AllWhite(w) && s == TrimEnd(s) + w && (TrimEnd(s) != "" ==> !Whitespace(TrimEnd(s)[|TrimEnd(s)| - 1]))
    ensures TrimEnd(s) != "" ==> s != "" && TrimEnd(s)[0] == s[0]
  {
    hide Whitespace;
    if s != "" && Whitespace(s[|s| - 1]) {
      var v := TrimEndSplits(s[..|s| - 1]);
      w := v + [s[|s| - 1]];
    } else {
      w := "";
    }
  }

  /** Trimming takes off white space at both ends, and all of it. */
  lemma {:induction false} TrimExact(s: string, m: string)
    ensures Trim(s) == m <==> Bare(m) && exists w, v :: AllWhite(w) && AllWhite(v) && s == w + m + v
  {
    hide Whitespace, TrimStart, TrimEnd;
    if Bare(m) {
      if w, v :| AllWhite(w) && AllWhite(v) && s == w + m + v {
        TrimCuts(w, m, v);
      }
    }
    var w := TrimStartSplits(s);
    var v := TrimEndSplits(TrimStart(s));
    assert s == w + Trim(s) + v;
  }

  lemma {:induction false} TrimTwice(s: string)
    ensures Trim(Trim(s)) == Trim(s)
  {
    hide Trim;
    TrimExact(s, Trim(s));
    TrimExact(Trim(s), Trim(s));
    assert AllWhite("") && Trim(s) == "" + Trim(s) + "";
  }

  /** White space added at an end is trimmed off again. */
  lemma {:induction false} TrimPadding(w: string, s: string)
    requires AllWhite(w)
    ensures Trim(w + s) == Trim(s) && Trim(s + w) == Trim(s)
  {
    hide Trim, AllWhite;
    var m := Trim(s);
    TrimExact(s, m);
    var a, b :| AllWhite(a) && AllWhite(b) && s == a + m + b;
    WhiteJoins(w, a);
    WhiteJoins(b, w);
    assert w + s == (w + a) + m + b && s + w == a + m + (b + w);
    TrimExact(w + s, m);
    TrimExact(s + w, m);
  }

  lemma {:induction false} WhiteJoins(a: string, b: string)
    requires AllWhite(a) && AllWhite(b)
    ensures AllWhite(a + b)
  {
  }

  lemma {:induction false} JoinSplit(s: string, separator: char)
    ensures Join(Split(s, separator), separator) == s
  {
    if s == "" {
    } else {
      JoinSplit(s[1..], separator);
      var rest := Split(s[1..], separator);
      if s[0] == separator {
        assert Split(s, separator)[1..] == rest;
      } else {
        assert Split(s, separator)[1..] == rest[1..];
      }
    }
  }

  /** The pieces are the only ones without separator that join to the text. */
  lemma {:induction false} SplitExact(s: string, separator: char, pieces: seq<string>)
    ensures Split(s, separator) == pieces <==>
      pieces != [] && Join(pieces, separator) == s && forall i :: 0 <= i < |pieces| ==> separator !in pieces[i]
  {
    hide Split, Join;
    JoinSplit(s, separator);
    SplitClean(s, separator);
    if pieces != [] && forall i :: 0 <= i < |pieces| ==> separator !in pieces[i] {
      SplitJoin(pieces, separator);
    }
  }

  lemma {:induction false} DecimalLeads(n: nat)
    ensures Decimal(n) != "" && (Decimal(n)[0] == '0' ==> n == 0)
  {
    if n >= 10 {
      DecimalLeads(n / 10);
    }
  }

  lemma {:induction false} NumeralIsDecimal(s: string, n: nat)
    requires s != "" && AllDigits(s) && NatOf(s) == n && (s[0] == '0' ==> |s| == 1)
    ensures Decimal(n) == s
    decreases |s|
  {
    hide NatOf;
    LastDigit(s, n);
    var init := s[..|s| - 1];
    assert s == init + [s[|s| - 1]];
    if init == "" {
      OneDigit(s, n);
    } else {
      NoLeadingZero(init);
      NumeralIsDecimal(init, n / 10);
    }
  }

  lemma {:induction false} OneDigit(s: string, n: nat)
    requires |s| == 1 && AllDigits(s) && NatOf(s) == n
    ensures n < 10
  {
    assert Digit(s[0]) && s[..0] == "";
  }

  /** The decimal form is the one numeral of the number that has no needless zero in front. */
  lemma {:induction false} DecimalExact(s: string, n: nat)
    ensures Decimal(n) == s <==> s != "" && AllDigits(s) && NatOf(s) == n && (s[0] == '0' ==> |s| == 1)
  {
    hide NatOf;
    DecimalReads(n);
    DecimalLeads(n);
    assert |Decimal(0)| == 1;
    if s != "" && AllDigits(s) && NatOf(s) == n && (s[0] == '0' ==> |s| == 1) {
      NumeralIsDecimal(s, n);
    }
  }

  lemma {:induction false} LastDigit(s: string, n: nat)
    requires s != "" && AllDigits(s) && NatOf(s) == n
    ensures AllDigits(s[..|s| - 1]) && NatOf(s[..|s| - 1]) == n / 10 && s[|s| - 1] == "0123456789"[n % 10]
  {
    var digit := s[|s| - 1];
    assert Digit(digit);
    DivUnique(n, 10, NatOf(s[..|s| - 1]), digit as int - '0' as int);
  }

  lemma {:induction false} NoLeadingZero(s: string)
    requires s != "" && AllDigits(s) && s[0] != '0'
    ensures NatOf(s) > 0
  {
    if |s| == 1 {
      assert Digit(s[0]);
    } else {
      NoLeadingZero(s[..|s| - 1]);
    }
  }

  predicate Numeral(s: string, n: nat)
  {
    s != "" && AllDigits(s) && NatOf(s) == n
  }

  /** A numeral with or without a plus sign. */
  ghost predicate Signed(s: string, n: nat)
  {
    exists digits :: Numeral(digits, n) && (s == digits || s == "+" + digits)
  }

  /** A number is read from a numeral that stands for it, with or without a plus sign, if it is below the bound. */
  lemma {:induction false} UnsignedExact(s: string, bound: nat, n: nat)
    ensures ParseUnsigned(s, bound) == Some(n) <==>
      n < bound && Signed(s, n)
  {
    hide NatOf;
    if digits :| Numeral(digits, n) && (s == digits || s == "+" + digits) {
      assert Digit(digits[0]);
      assert s == "+" + digits ==> s[1..] == digits;
    }
    var digits := if s != "" && s[0] == '+' then s[1..] else s;
    assert s == digits || s == "+" + digits;
  }

  // ---------------------------------------------------------------- bytes

  /** How many characters are numbered `least` or higher. */
  function AtLeast(s: string, least: int): nat
  {
    |set i | 0 <= i < |s| && s[i] as int >= least|
  }

  lemma {:induction false} AtLeastStep(s: string, least: int)
    requires s != ""
    ensures AtLeast(s, least) == (if s[|s| - 1] as int >= least then 1 else 0) + AtLeast(s[..|s| - 1], least)
  {
    var n := |s| - 1;
    assert (set i | 0 <= i < |s| && s[i] as int >= least)
        == (set i | 0 <= i < n && s[..n][i] as int >= least) + if s[n] as int >= least then {n} else {};
  }

  lemma {:induction false} Utf8Last(s: string)
    requires s != ""
    ensures Utf8Length(s) == Utf8Length(s[..|s| - 1]) + Utf8Length([s[|s| - 1]])
  {
    if |s| == 1 {
    } else {
      Utf8Last(s[1..]);
      assert s[1..][..|s| - 2] == s[..|s| - 1][1..];
    }
  }

  /** A character is one byte long, and one longer from each of the three limits on. */
  lemma {:induction false} Utf8Exact(s: string)
    ensures Utf8Length(s) == |s| + AtLeast(s, 128) + AtLeast(s, 2_048) + AtLeast(s, 65_536)
  {
    hide AtLeast;
    if s == "" {
      NoneAtLeast(128);
      NoneAtLeast(2_048);
      NoneAtLeast(65_536);
    } else {
      var n := |s| - 1;
      Utf8Exact(s[..n]);
      Utf8Last(s);
      AtLeastStep(s, 128);
      AtLeastStep(s, 2_048);
      AtLeastStep(s, 65_536);
    }
  }

  lemma {:induction false} NoneAtLeast(least: int)
    ensures AtLeast("", least) == 0
  {
  }
}
