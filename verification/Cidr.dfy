/** Address ranges written in CIDR notation, and their normal spelling. */
module Cidr {
  import opened Wrappers
  import opened Bytes
  import opened Text

  type U128 = n: int | 0 <= n < 0x1_0000_0000_0000_0000_0000_0000_0000_0000

  datatype Address = V4(bits4: U32) | V6(bits6: U128)

  /** How the platform reads and prints addresses. */
  datatype AddressText = AddressText(parse: string -> Option<Address>, print_: Address -> string)

  /** Printed addresses read back, and hold neither a slash nor white space. */
  ghost predicate Faithful(text: AddressText)
  {
    forall a :: text.parse(text.print_(a)) == Some(a) && Printable(text.print_(a))
  }

  predicate Printable(s: string)
  {
    s != "" && forall i :: 0 <= i < |s| ==> s[i] != '/' && !Whitespace(s[i])
  }

  datatype Network = Network(base: Address, prefix: nat)

  function Width(a: Address): nat
  {
    if a.V4? then 32 else 128
  }

  function Bits(a: Address): nat
  {
    if a.V4? then a.bits4 else a.bits6
  }

  function ClearBelow(n: nat, unit: nat): (r: nat)
    requires unit > 0
    ensures r <= n
  {
    n - n % unit
  }

  /** The address with every bit after the prefix cleared. */
  function Masked(a: Address, prefix: nat): Address
    requires prefix <= Width(a)
  {
    var host := Pow2(Width(a) - prefix);
    if a.V4? then V4(ClearBelow(a.bits4, host)) else V6(ClearBelow(a.bits6, host))
  }

  function NetworkOf(a: Option<Address>, prefix: Option<nat>): Option<Network>
  {
    match (a, prefix)
    case (Some(address), Some(p)) => if p <= Width(address) then Some(Network(Masked(address, p), p)) else None
    case _ => None
  }

  /** The network a spelling denotes; `None` for text that is not CIDR notation. */
  function Denotes(text: AddressText, value: string): Option<Network>
  {
    var slash := IndexOf(value, '/');
    if value != Trim(value) || value == "" then None
    else if slash < |value| then NetworkOf(text.parse(value[..slash]), ParseUnsigned(value[slash + 1..], 0x100))
    else
      var a := text.parse(value);
      NetworkOf(a, if a.Some? then Some(Width(a.value)) else None)
  }

  function Written(text: AddressText, network: Network): string
  {
    text.print_(network.base) + "/" + Decimal(network.prefix)
  }

  function NormalizeCidr(text: AddressText, value: string): Option<string>
  {
    match Denotes(text, value)
    case None => None
    case Some(network) => Some(Written(text, network))
  }

  // ---------------------------------------------------------------- masking

  lemma {:induction false} DivideApart(n: nat, d: nat)
    requires d > 0
    ensures n - n % d == d * (n / d)
  {
  }

  lemma {:induction false} ModMultiple(n: nat, d: nat)
    requires d > 0
    ensures (n - n % d) % d == 0 && (n - n % d) / d == n / d
  {
    assert n - n % d == d * (n / d);
    DivUnique(n - n % d, d, n / d, 0);
  }

  lemma {:induction false} MaskedTwice(a: Address, prefix: nat)
    requires prefix <= Width(a)
    ensures Width(Masked(a, prefix)) == Width(a) && Masked(Masked(a, prefix), prefix) == Masked(a, prefix)
  {
    hide Pow2;
    ModMultiple(Bits(a), Pow2(Width(a) - prefix));
  }

  /** Masking identifies exactly the addresses of one family that share the leading bits. */
  lemma {:induction false} MaskedDecides(a: Address, b: Address, prefix: nat)
    requires prefix <= Width(a) && Width(a) == Width(b)
    ensures Masked(a, prefix) == Masked(b, prefix) <==>
            Bits(a) / Pow2(Width(a) - prefix) == Bits(b) / Pow2(Width(a) - prefix)
  {
    hide Pow2;
    var host := Pow2(Width(a) - prefix);
    ModMultiple(Bits(a), host);
    ModMultiple(Bits(b), host);
    DivideApart(Bits(a), host);
    DivideApart(Bits(b), host);
  }

  // ---------------------------------------------------------------- the normal spelling

  ghost predicate Proper(network: Network)
  {
    network.prefix <= Width(network.base) && Masked(network.base, network.prefix) == network.base
  }

  lemma {:induction false} DenotesProper(text: AddressText, value: string)
    ensures Denotes(text, value).Some? ==> Proper(Denotes(text, value).value)
  {
    hide Trim, Masked, ParseUnsigned;
    var slash := IndexOf(value, '/');
    var a := text.parse(if slash < |value| then value[..slash] else value);
    if Denotes(text, value).Some? {
      MaskedTwice(a.value, Denotes(text, value).value.prefix);
    }
  }

  /** What is written for a network denotes that network. */
  lemma {:induction false} WrittenDenotes(text: AddressText, network: Network)
    requires Faithful(text) && Proper(network)
    ensures Denotes(text, Written(text, network)) == Some(network)
  {
    hide Trim, Masked, ParseUnsigned, Decimal;
    var address, digits := text.print_(network.base), Decimal(network.prefix);
    var value := Written(text, network);
    var slash := |address|;
    assert text.parse(address) == Some(network.base) && Printable(address);
    DecimalReads(network.prefix);
    UnsignedRoundTrip(network.prefix, 0x100);
    assert value[..slash] == address && value[slash] == '/' && value[slash + 1..] == digits;
    FirstOf(value, '/', slash);
    NoBlanks(address, digits);
    TrimPlain(value);
  }

  lemma {:induction false} NoBlanks(address: string, digits: string)
    requires Printable(address) && AllDigits(digits)
    ensures var s := address + "/" + digits; forall i :: 0 <= i < |s| ==> !Whitespace(s[i])
  {
    var s := address + "/" + digits;
    forall i | 0 <= i < |s| ensures !Whitespace(s[i]) {
      assert i < |address| || s[i] == '/' || Digit(s[i]);
    }
  }

  /** Normalising twice is normalising once, and the network stays the same. */
  lemma {:induction false} NormalizeTwice(text: AddressText, value: string)
    requires Faithful(text) && NormalizeCidr(text, value).Some?
    ensures var normal := NormalizeCidr(text, value).value;
            && Denotes(text, normal) == Denotes(text, value)
            && NormalizeCidr(text, normal) == Some(normal)
  {
    hide Denotes, Written, Proper, Faithful;
    DenotesProper(text, value);
    WrittenDenotes(text, Denotes(text, value).value);
  }

  /** Two spellings have the same normal spelling exactly when they denote the same network. */
  lemma {:induction false} SpellingDecides(text: AddressText, v: string, w: string)
    requires Faithful(text)
    ensures NormalizeCidr(text, v) == NormalizeCidr(text, w) <==> Denotes(text, v) == Denotes(text, w)
  {
    hide Denotes, Written, Proper, Faithful;
    if NormalizeCidr(text, v).Some? && NormalizeCidr(text, w).Some? {
      NormalizeTwice(text, v);
      NormalizeTwice(text, w);
    }
  }
}
