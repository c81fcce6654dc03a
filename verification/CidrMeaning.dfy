/** Which texts are CIDR notation, and which network each of them names. */
module CidrMeaning {
  import opened Wrappers
  import opened Bytes
  import opened Text
  import opened Cidr

  /** The network has `prefix` bits, agrees with the address in them and is zero after them. */
  ghost predicate Names(network: Network, a: Address, prefix: nat)
  {
    && network.prefix == prefix <= Width(a) && (network.base.V4? <==> a.V4?)
    && var unit := Pow2(Width(a) - prefix);
       Bits(network.base) / unit == Bits(a) / unit && Bits(network.base) % unit == 0
  }

  /** An address alone, or an address, a slash and a number of bits; no white space around it. */
  ghost predicate Spelled(text: AddressText, value: string, a: Address, prefix: nat)
  {
    && value != "" && Bare(value)
    && ((&& '/' !in value && text.parse(value) == Some(a) && prefix == (if a.V4? then 32 else 128))
        || exists x, y ::
             && value == x + "/" + y && '/' !in x && text.parse(x) == Some(a)
             && prefix < 256 && Signed(y, prefix))
  }

  lemma {:induction false} MaskedNames(a: Address, prefix: nat, network: Network)
    requires prefix <= Width(a)
    ensures network == Network(Masked(a, prefix), prefix) <==> Names(network, a, prefix)
  {
    hide Pow2;
    var unit := Pow2(Width(a) - prefix);
    ModMultiple(Bits(a), unit);
    if Names(network, a, prefix) {
      Multiple(Bits(network.base), unit);
      Multiple(Bits(a), unit);
    }
  }

  lemma {:induction false} Multiple(n: nat, d: nat)
    requires d > 0
    ensures n == d * (n / d) + n % d
  {
  }

  lemma {:induction false} BareIsTrimmed(value: string)
    ensures value == Trim(value) <==> Bare(value)
  {
    hide Trim;
    TrimExact(value, value);
    assert value == "" + value + "" && AllWhite("");
  }

  /** A text denotes a network exactly if it spells an address and a prefix that name it. */
  lemma {:induction false} DenotesExact(text: AddressText, value: string, network: Network)
    ensures Denotes(text, value) == Some(network) <==>
      exists a, prefix :: Spelled(text, value, a, prefix) && Names(network, a, prefix)
  {
    hide Trim, Bare, Masked, ParseUnsigned, Names, Signed;
    BareIsTrimmed(value);
    var slash := IndexOf(value, '/');
    if slash < |value| {
      SlashExact(text, value, slash, network);
    } else {
      assert '/' !in value by { assert value[..|value|] == value; }
      PlainExact(text, value, network);
    }
  }

  lemma {:induction false} PlainExact(text: AddressText, value: string, network: Network)
    requires '/' !in value
    ensures (value != "" && Bare(value) && Denotes(text, value) == Some(network)) <==>
      exists a, prefix :: Spelled(text, value, a, prefix) && Names(network, a, prefix)
  {
    hide Trim, Bare, Masked, ParseUnsigned, Names, Signed;
    BareIsTrimmed(value);
    assert IndexOf(value, '/') == |value| by { FirstOf(value, '/', |value|); }
    forall a, prefix | Spelled(text, value, a, prefix) ensures text.parse(value) == Some(a) && prefix == Width(a) {
      forall x: string, y: string ensures value != x + "/" + y {
        assert (x + "/" + y)[|x|] == '/';
      }
    }
    if text.parse(value).Some? {
      var a := text.parse(value).value;
      MaskedNames(a, Width(a), network);
      if value != "" && Bare(value) {
        assert Spelled(text, value, a, Width(a));
      }
    }
  }

  lemma {:induction false} SlashExact(text: AddressText, value: string, slash: nat, network: Network)
    requires slash < |value| && slash == IndexOf(value, '/')
    ensures (value != "" && Bare(value) && Denotes(text, value) == Some(network)) <==>
      exists a, prefix :: Spelled(text, value, a, prefix) && Names(network, a, prefix)
  {
    hide Trim, Bare, Masked, ParseUnsigned, Names, Signed;
    BareIsTrimmed(value);
    var x, y := value[..slash], value[slash + 1..];
    assert value == x + "/" + y && '/' in value;
    forall p: string, q: string | value == p + "/" + q && '/' !in p ensures p == x && q == y {
      assert value[..|p|] == p && value[|p|] == '/';
      FirstOf(value, '/', |p|);
    }
    if text.parse(x).Some? {
      var a := text.parse(x).value;
      forall prefix: nat ensures ParseUnsigned(y, 0x100) == Some(prefix) <==> prefix < 256 && Signed(y, prefix) {
        UnsignedExact(y, 0x100, prefix);
      }
      forall prefix: nat | prefix <= Width(a)
        ensures network == Network(Masked(a, prefix), prefix) <==> Names(network, a, prefix)
      {
        MaskedNames(a, prefix, network);
      }
      NamesFits(network, a);
      if value != "" && Bare(value) && ParseUnsigned(y, 0x100).Some? {
        assert Spelled(text, value, a, ParseUnsigned(y, 0x100).value);
      }
    }
  }

  lemma {:induction false} NamesFits(network: Network, a: Address)
    ensures forall prefix: nat :: Names(network, a, prefix) ==> prefix <= Width(a)
  {
  }
}
