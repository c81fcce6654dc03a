/**
 * Base32 without padding (section 6 of RFC 4648): the reference definition regroups the bit string of
 * the input, and the shift-buffer loops, whose 32-bit buffer overflows, are proved equal to it.
 */
module Base32 {
  import opened Wrappers
  import opened Bytes

  type Bits = seq<bool>

  const WORD := 0x1_0000_0000

  /** Shift right. */
  function Shr(n: nat, k: nat): nat
  {
    if k == 0 then n else Shr(n / 2, k - 1)
  }

  /** The `width` low-order bits of `n`, most significant first. */
  function BitsOf(n: nat, width: nat): (b: Bits)
    ensures |b| == width
  {
    if width == 0 then [] else BitsOf(n / 2, width - 1) + [n % 2 == 1]
  }

  function Number(b: Bits): nat
  {
    if b == [] then 0 else 2 * Number(b[..|b| - 1]) + if b[|b| - 1] then 1 else 0
  }

  /** The bits of all values, `width` for each. */
  function Flatten(values: seq<nat>, width: nat): Bits
  {
    if values == [] then [] else Flatten(values[..|values| - 1], width) + BitsOf(values[|values| - 1], width)
  }

  /** The values of successive groups of `width` bits; a shorter tail is dropped. */
  function Groups(b: Bits, width: nat): seq<nat>
    requires width > 0
    decreases |b|
  {
    if |b| < width then [] else [Number(b[..width])] + Groups(b[width..], width)
  }

  function Zeros(n: nat): Bits
  {
    seq(n, _ => false)
  }

  // ---------------------------------------------------------------- the alphabet

  function Symbol(v: nat): Byte
    requires v < 32
  {
    if v < 26 then 0x41 + v else 0x32 + (v - 26)
  }

  predicate Whitespace(b: Byte)
  {
    b == 0x20 || b == 0x09 || b == 0x0a || b == 0x0c || b == 0x0d
  }

  function Value(b: Byte): (v: Option<nat>)
    ensures v.Some? ==> v.value < 32
  {
    if 0x41 <= b <= 0x5a then Some(b - 0x41)
    else if 0x61 <= b <= 0x7a then Some(b - 0x61)
    else if 0x32 <= b <= 0x37 then Some(b - 0x32 + 26)
    else None
  }

  /** The values of the characters other than white space; `None` if one has no value. */
  function Values(text: seq<Byte>): Option<seq<nat>>
  {
    if text == [] then Some([])
    else match Values(text[..|text| - 1])
      case None => None
      case Some(init) =>
        var last := text[|text| - 1];
        if Whitespace(last) then Some(init)
        else match Value(last)
          case None => None
          case Some(v) => Some(init + [v])
  }

  // ---------------------------------------------------------------- the reference definition

  function Padding(length: nat): nat
  {
    (5 - length % 5) % 5
  }

  function EncodedValues(input: seq<Byte>): seq<nat>
  {
    var b := Flatten(input, 8);
    Groups(b + Zeros(Padding(|b|)), 5)
  }

  function Encode(input: seq<Byte>): seq<Byte>
  {
    var values := EncodedValues(input);
    GroupsBounded(Flatten(input, 8) + Zeros(Padding(|Flatten(input, 8)|)), 5);
    seq(|values|, i requires 0 <= i < |values| => Symbol(values[i]))
  }

  function Decode(text: seq<Byte>): Option<seq<nat>>
  {
    match Values(text)
    case None => None
    case Some(values) =>
      var output := Groups(Flatten(values, 5), 8);
      if output == [] then None else Some(output)
  }

  // ---------------------------------------------------------------- bits and numbers

  lemma {:induction false} NumberBounded(b: Bits)
    ensures Number(b) < Pow2(|b|)
  {
    if b == [] {
    } else {
      NumberBounded(b[..|b| - 1]);
    }
  }

  lemma {:induction false} GroupsBounded(b: Bits, width: nat)
    requires width > 0
    ensures forall i :: 0 <= i < |Groups(b, width)| ==> Groups(b, width)[i] < Pow2(width)
    ensures width == 5 ==> forall i :: 0 <= i < |Groups(b, width)| ==> Groups(b, width)[i] < 32
    decreases |b|
  {
    Pow2Values();
    if |b| >= width {
      NumberBounded(b[..width]);
      GroupsBounded(b[width..], width);
    }
  }

  lemma {:induction false} Pow2Values()
    ensures Pow2(5) == 32 && Pow2(8) == 256 && Pow2(32) == WORD
  {
    assert Pow2(4) == 16 && Pow2(5) == 32;
    assert Pow2(8) == 8 * Pow2(5) by { assert Pow2(6) == 2 * Pow2(5) && Pow2(7) == 2 * Pow2(6); }
    Pow2Sum(8, 8);
    Pow2Sum(16, 16);
  }

  lemma {:induction false} Pow2Sum(a: nat, b: nat)
    ensures Pow2(a + b) == Pow2(a) * Pow2(b)
  {
    if b == 0 {
    } else {
      Pow2Sum(a, b - 1);
      assert Pow2(a + b) == 2 * Pow2(a + (b - 1));
    }
  }

  lemma {:induction false} BitsOfNumber(b: Bits)
    ensures BitsOf(Number(b), |b|) == b
  {
    if b == [] {
    } else {
      BitsOfNumber(b[..|b| - 1]);
      assert Number(b) / 2 == Number(b[..|b| - 1]);
    }
  }

  lemma {:induction false} NumberOfBits(n: nat, width: nat)
    requires n < Pow2(width)
    ensures Number(BitsOf(n, width)) == n
  {
    if width == 0 {
    } else {
      var b := BitsOf(n, width);
      assert b[..|b| - 1] == BitsOf(n / 2, width - 1);
      NumberOfBits(n / 2, width - 1);
    }
  }

  /** Shifting right splits off the low bits. */
  lemma {:induction false} BitsSplit(n: nat, high: nat, low: nat)
    ensures BitsOf(n, high + low) == BitsOf(Shr(n, low), high) + BitsOf(n, low)
  {
    hide BitsOf;
    if low == 0 {
    } else {
      BitsSplit(n / 2, high, low - 1);
      BitsStep(n, high + low);
      BitsStep(n, low);
      SplitStep(BitsOf(n, high + low), BitsOf(Shr(n, low), high), BitsOf(n / 2, low - 1), BitsOf(n, low), n % 2 == 1);
    }
  }

  lemma {:induction false} SplitStep(whole: Bits, high: Bits, low: Bits, low': Bits, bit: bool)
    requires whole == (high + low) + [bit] && low' == low + [bit]
    ensures whole == high + low'
  {
  }

  lemma {:induction false} BitsStep(n: nat, width: nat)
    requires width > 0
    ensures BitsOf(n, width) == BitsOf(n / 2, width - 1) + [n % 2 == 1]
  {
  }

  lemma {:induction false} Pow2Double(n: nat)
    requires n > 0
    ensures Pow2(n) == 2 * Pow2(n - 1)
  {
  }

  /** Halving commutes with reducing modulo an even number. */
  lemma {:induction false} HalfMod(n: nat, p: nat)
    requires p > 0
    ensures n / 2 / p == n / (2 * p) && n / 2 % p == n % (2 * p) / 2 && n % (2 * p) % 2 == n % 2
  {
    var q, r := n / (2 * p), n % (2 * p);
    assert n == (2 * p) * q + r;
    assert (2 * p) * q == 2 * (p * q);
    assert n / 2 == p * q + r / 2;
    DivUnique(n / 2, p, q, r / 2);
  }

  /** Only the low bits matter, so a buffer may lose higher ones. */
  lemma {:induction false} BitsModulo(n: nat, width: nat, kept: nat)
    requires width <= kept
    ensures BitsOf(n % Pow2(kept), width) == BitsOf(n, width)
  {
    hide Pow2, BitsOf;
    if width > 0 {
      Pow2Double(kept);
      HalfMod(n, Pow2(kept - 1));
      BitsModulo(n / 2, width - 1, kept - 1);
      BitsStep(n, width);
      BitsStep(n % Pow2(kept), width);
    } else {
      assert BitsOf(n, 0) == [] && BitsOf(n % Pow2(kept), 0) == [];
    }
  }

  /** Shifting in a value appends its bits. */
  lemma {:induction false} BitsShift(n: nat, width: nat, v: nat, step: nat)
    requires v < Pow2(step)
    ensures BitsOf(n * Pow2(step) + v, width + step) == BitsOf(n, width) + BitsOf(v, step)
  {
    hide BitsOf;
    BitsSplit(n * Pow2(step) + v, width, step);
    ShrShifted(n, v, step);
    if step == 0 {
    } else {
      BitsModulo(n * Pow2(step) + v, step, step);
      ModShifted(n, v, Pow2(step));
    }
  }

  lemma {:induction false} ModShifted(n: nat, v: nat, p: nat)
    requires v < p
    ensures (n * p + v) % p == v
  {
    DivUnique(n * p + v, p, n, v);
  }

  lemma {:induction false} ShrShifted(n: nat, v: nat, step: nat)
    requires v < Pow2(step)
    ensures Shr(n * Pow2(step) + v, step) == n
  {
    if step == 0 {
    } else {
      var p := Pow2(step - 1);
      assert n * Pow2(step) == 2 * (n * p);
      ShrShifted(n, v / 2, step - 1);
    }
  }

  lemma {:induction false} BitsOfZero(width: nat)
    ensures BitsOf(0, width) == Zeros(width)
  {
    if width == 0 {
    } else {
      BitsOfZero(width - 1);
      assert Zeros(width) == Zeros(width - 1) + [false];
    }
  }

  // ---------------------------------------------------------------- grouping

  lemma {:induction false} FlattenFirst(values: seq<nat>, width: nat)
    requires values != []
    ensures Flatten(values, width) == BitsOf(values[0], width) + Flatten(values[1..], width)
    decreases |values|
  {
    hide BitsOf, Flatten;
    var n := |values|;
    var last := BitsOf(values[n - 1], width);
    FlattenLast(values, width);
    if n == 1 {
      NothingFlat(width);
      assert values[..0] == [] && values[1..] == [];
      assert [] + last == last + [];
    } else {
      var middle := Flatten(values[1..][..n - 2], width);
      FlattenFirst(values[..n - 1], width);
      FlattenLast(values[1..], width);
      assert values[..n - 1][1..] == values[1..][..n - 2];
      assert (BitsOf(values[0], width) + middle) + last == BitsOf(values[0], width) + (middle + last);
    }
  }

  lemma {:induction false} NothingFlat(width: nat)
    ensures Flatten([], width) == [] && (width > 0 ==> Groups([], width) == [])
  {
  }

  lemma {:induction false} FlattenLast(values: seq<nat>, width: nat)
    requires values != []
    ensures Flatten(values, width) == Flatten(values[..|values| - 1], width) + BitsOf(values[|values| - 1], width)
  {
  }

  /** Grouping undoes flattening; a tail shorter than a group is ignored. */
  lemma {:induction false} GroupsOfFlatten(values: seq<nat>, width: nat, tail: Bits)
    requires width > 0 && |tail| < width && forall i :: 0 <= i < |values| ==> values[i] < Pow2(width)
    ensures Groups(Flatten(values, width) + tail, width) == values
    decreases |values|
  {
    if values == [] {
    } else {
      FlattenFirst(values, width);
      var rest := Flatten(values[1..], width) + tail;
      var b := Flatten(values, width) + tail;
      assert b == BitsOf(values[0], width) + rest;
      assert b[..width] == BitsOf(values[0], width) && b[width..] == rest;
      NumberOfBits(values[0], width);
      GroupsOfFlatten(values[1..], width, tail);
    }
  }

  lemma {:induction false} FirstGroup(b: Bits, width: nat)
    requires 0 < width <= |b|
    ensures Groups(b, width) != [] && Groups(b, width)[0] == Number(b[..width])
    ensures Groups(b, width)[1..] == Groups(b[width..], width)
  {
  }

  predicate Aligned(length: nat, width: nat)
    requires width > 0
  {
    length == 0 || (length >= width && Aligned(length - width, width))
  }

  lemma {:induction false} AlignedToFive(length: nat)
    requires length % 5 == 0
    ensures Aligned(length, 5)
  {
    if length == 0 {
    } else {
      AlignedToFive(length - 5);
    }
  }

  lemma {:induction false} FlattenOfGroups(b: Bits, width: nat)
    requires width > 0 && Aligned(|b|, width)
    ensures Flatten(Groups(b, width), width) == b
    decreases |b|
  {
    hide Number, BitsOf, Flatten, Groups;
    if b == [] {
      NothingFlat(width);
    } else {
      FirstGroup(b, width);
      FlattenOfGroups(b[width..], width);
      FlattenFirst(Groups(b, width), width);
      BitsOfNumber(b[..width]);
      assert b == b[..width] + b[width..];
    }
  }

  lemma {:induction false} FlattenLength(values: seq<nat>, width: nat)
    ensures |Flatten(values, width)| == |values| * width
  {
    if values == [] {
    } else {
      FlattenLength(values[..|values| - 1], width);
      assert |values| * width == (|values| - 1) * width + width;
    }
  }

  // ---------------------------------------------------------------- round trip

  lemma {:induction false} ValuesOfSymbols(values: seq<nat>, text: seq<Byte>)
    requires |text| == |values| && forall i :: 0 <= i < |values| ==> values[i] < 32 && text[i] == Symbol(values[i])
    ensures Values(text) == Some(values)
    decreases |values|
  {
    var n := |values|;
    if n == 0 {
    } else {
      ValuesOfSymbols(values[..n - 1], text[..n - 1]);
      assert values == values[..n - 1] + [values[n - 1]];
    }
  }

  /** Decoding what was encoded gives the input back, for every input that is not empty. */
  lemma {:induction false} RoundTrip(input: seq<Byte>)
    ensures input != [] ==> Decode(Encode(input)) == Some(input)
    ensures input == [] ==> Decode(Encode(input)) == None
  {
    hide Flatten, Groups, Values, BitsOf, Symbol, Pow2;
    var b := Flatten(input, 8);
    var padded := b + Zeros(Padding(|b|));
    var values := EncodedValues(input);
    GroupsBounded(padded, 5);
    ValuesOfSymbols(values, Encode(input));
    AlignedToFive(|padded|);
    FlattenOfGroups(padded, 5);
    Pow2Values();
    GroupsOfFlatten(input, 8, Zeros(Padding(|b|)));
  }

  // ---------------------------------------------------------------- the loops

  lemma {:induction false} FlattenAppend(values: seq<nat>, v: nat, width: nat)
    ensures Flatten(values + [v], width) == Flatten(values, width) + BitsOf(v, width)
  {
    assert (values + [v])[..|values|] == values;
  }

  /** Shifting a value into the 32-bit buffer, which may push older bits out. */
  lemma {:induction false} BufferIn(buffer: nat, bits: nat, v: nat, step: nat)
    requires v < Pow2(step) && bits + step <= 32
    ensures BitsOf((buffer * Pow2(step) + v) % WORD, bits + step) == BitsOf(buffer, bits) + BitsOf(v, step)
  {
    hide Pow2, BitsOf;
    Pow2Values();
    BitsModulo(buffer * Pow2(step) + v, bits + step, 32);
    BitsShift(buffer, bits, v, step);
  }

  /** Taking the oldest `step` unread bits out of the buffer. */
  lemma {:induction false} BufferOut(buffer: nat, bits: nat, step: nat)
    ensures BitsOf(buffer, step + bits) == BitsOf(Shr(buffer, bits) % Pow2(step), step) + BitsOf(buffer, bits)
  {
    hide Pow2, BitsOf;
    BitsSplit(buffer, step, bits);
    BitsModulo(Shr(buffer, bits), step, step);
  }

  lemma {:induction false} NothingYet()
    ensures forall w :: Flatten([], w) == [] && BitsOf(0, 0) == []
  {
  }

  method EncodeText(input: seq<Byte>) returns (output: seq<Byte>)
    ensures output == Encode(input)
  {
    hide Flatten, BitsOf, Pow2, Symbol, Groups, EncodedValues;
    Pow2Values();
    output := [];
    NothingYet();
    var buffer, bits: nat := 0, 0;
    ghost var values: seq<nat> := [];
    for i := 0 to |input|
      invariant bits < 5 && 0 <= buffer < WORD
      invariant Flatten(values, 5) + BitsOf(buffer, bits) == Flatten(input[..i], 8)
      invariant |output| == |values|
      invariant forall j :: 0 <= j < |values| ==> values[j] < 32 && output[j] == Symbol(values[j])
    {
      assert input[..i + 1] == input[..i] + [input[i]];
      FlattenAppend(input[..i], input[i], 8);
      BufferIn(buffer, bits, input[i], 8);
      buffer := (buffer * 256 + input[i]) % WORD;
      bits := bits + 8;
      while bits >= 5
        invariant bits <= 12 && 0 <= buffer < WORD
        invariant Flatten(values, 5) + BitsOf(buffer, bits) == Flatten(input[..i + 1], 8)
        invariant |output| == |values|
        invariant forall j :: 0 <= j < |values| ==> values[j] < 32 && output[j] == Symbol(values[j])
      {
        BufferOut(buffer, bits - 5, 5);
        bits := bits - 5;
        var v := Shr(buffer, bits) % 32;
        FlattenAppend(values, v, 5);
        values := values + [v];
        output := output + [Symbol(v)];
      }
    }
    assert input[..|input|] == input;
    if bits > 0 {
      LastSymbol(buffer, bits);
      var v := buffer * Pow2(5 - bits) % 32;
      FlattenAppend(values, v, 5);
      values := values + [v];
      output := output + [Symbol(v)];
    }
    FinishEncode(input, values, if bits > 0 then 5 - bits else 0);
  }

  lemma {:induction false} LastSymbol(buffer: nat, bits: nat)
    requires 0 < bits < 5
    ensures BitsOf(buffer * Pow2(5 - bits) % 32, 5) == BitsOf(buffer, bits) + Zeros(5 - bits)
  {
    Pow2Values();
    BitsModulo(buffer * Pow2(5 - bits), 5, 5);
    BitsShift(buffer, bits, 0, 5 - bits);
    BitsOfZero(5 - bits);
  }

  lemma {:induction false} FinishEncode(input: seq<Byte>, values: seq<nat>, pad: nat)
    requires pad < 5 && Flatten(values, 5) == Flatten(input, 8) + Zeros(pad)
    requires forall j :: 0 <= j < |values| ==> values[j] < 32
    ensures values == EncodedValues(input)
  {
    Pow2Values();
    hide Flatten, Groups;
    var b := Flatten(input, 8);
    FlattenLength(values, 5);
    assert |b| + pad == 5 * |values|;
    assert pad == Padding(|b|);
    GroupsOfFlatten(values, 5, []);
    assert Flatten(values, 5) + [] == Flatten(values, 5);
  }

  method DecodeText(text: seq<Byte>) returns (r: Option<seq<nat>>)
    ensures r == Decode(text)
  {
    hide Flatten, BitsOf, Pow2, Groups, Value;
    Pow2Values();
    NothingYet();
    var output: seq<nat> := [];
    var buffer, bits: nat := 0, 0;
    ghost var values: seq<nat> := [];
    for i := 0 to |text|
      invariant bits < 8 && 0 <= buffer < WORD
      invariant Values(text[..i]) == Some(values)
      invariant Flatten(output, 8) + BitsOf(buffer, bits) == Flatten(values, 5)
      invariant forall j :: 0 <= j < |output| ==> output[j] < 256
    {
      var upto := text[..i + 1];
      assert upto[..|upto| - 1] == text[..i] && upto[|upto| - 1] == text[i];
      if !Whitespace(text[i]) {
        var v := Value(text[i]);
        if v.None? {
          ValuesFail(text, i + 1);
          return None;
        }
        FlattenAppend(values, v.value, 5);
        BufferIn(buffer, bits, v.value, 5);
        values := values + [v.value];
        buffer := (buffer * 32 + v.value) % WORD;
        bits := bits + 5;
        assert Flatten(output, 8) + BitsOf(buffer, bits) == Flatten(values, 5);
        if bits >= 8 {
          BufferOut(buffer, bits - 8, 8);
          bits := bits - 8;
          var b := Shr(buffer, bits) % 256;
          FlattenAppend(output, b, 8);
          output := output + [b];
        }
      }
    }
    assert text[..|text|] == text;
    GroupsOfFlatten(output, 8, BitsOf(buffer, bits));
    r := if output == [] then None else Some(output);
  }

  lemma {:induction false} ValuesFail(text: seq<Byte>, n: nat)
    requires n <= |text| && Values(text[..n]) == None
    ensures Values(text) == None
    decreases |text|
  {
    if n == |text| {
      assert text[..n] == text;
    } else {
      assert text[..|text| - 1][..n] == text[..n];
      ValuesFail(text[..|text| - 1], n);
    }
  }
}
