/**
 * Canonical content of Fleet bundles is a complete invariant: two sound bundles have the same canonical
 * content exactly when they differ only in the order of lists and the spelling of CIDRs.
 */
module FleetCanonical {
  import opened Bytes
  import opened Sequences
  import opened Sorting
  import opened Cidr
  import opened FleetBundle

  // ---------------------------------------------------------------- equal up to order and spelling

  ghost predicate SameNetworks(text: AddressText, a: seq<string>, b: seq<string>)
  {
    AllCidrs(text, a) && AllCidrs(text, b) && SameMembers(Networks(text, a), Networks(text, b))
  }

  ghost predicate SameControl(text: AddressText, c: Control, d: Control)
  {
    && c.(allowed := [], denied := [], weekdays := []) == d.(allowed := [], denied := [], weekdays := [])
    && SameNetworks(text, c.allowed, d.allowed) && SameNetworks(text, c.denied, d.denied)
    && SameMembers(c.weekdays, d.weekdays)
  }

  ghost predicate HasPartner(text: AddressText, c: Control, controls: seq<Control>)
  {
    exists d :: d in controls && SameControl(text, c, d)
  }

  ghost predicate SameControls(text: AddressText, a: seq<Control>, b: seq<Control>)
  {
    && (forall c :: c in a ==> HasPartner(text, c, b))
    && (forall d :: d in b ==> HasPartner(text, d, a))
  }

  /** The bundles say the same: they differ only in order and in how CIDRs are spelled. */
  ghost predicate SameContent<S>(env: Env<S>, a: Content<S>, b: Content<S>)
  {
    && a.(clients := [], resources := [], controls := []) == b.(clients := [], resources := [], controls := [])
    && SameMembers(a.clients, b.clients) && SameMembers(a.resources, b.resources)
    && SameControls(env.addresses, a.controls, b.controls)
  }

  predicate SameListSizes(c: Control, d: Control)
  {
    |c.allowed| == |d.allowed| && |c.denied| == |d.denied| && |c.weekdays| == |d.weekdays|
  }

  /** Nothing was repeated or merged on the way from one to the other. */
  ghost predicate SameSizes<S>(a: Content<S>, b: Content<S>)
  {
    && |a.clients| == |b.clients| && |a.resources| == |b.resources| && |a.controls| == |b.controls|
    && forall c, d :: c in a.controls && d in b.controls && c.id == d.id ==> SameListSizes(c, d)
  }

  // ---------------------------------------------------------------- keys

  function NetworkKey(n: Network): seq<int>
  {
    [if n.base.V4? then 4 else 6, Bits(n.base), n.prefix]
  }

  lemma {:induction false} NetworkKeys(s: seq<Network>)
    ensures KeysDistinct(s, NetworkKey) <==> Distinct(s)
  {
    forall a, b: Network ensures NetworkKey(a) == NetworkKey(b) ==> a == b {
      var x, y := NetworkKey(a), NetworkKey(b);
      assert x == y ==> x[0] == y[0] && x[1] == y[1] && x[2] == y[2];
    }
  }

  lemma {:induction false} DayKeys(s: seq<Byte>)
    ensures KeysDistinct(s, DayKey) <==> Distinct(s)
  {
    forall a, b: Byte ensures DayKey(a) == DayKey(b) ==> a == b {
      assert DayKey(a)[0] == a && DayKey(b)[0] == b;
    }
  }

  lemma {:induction false} CodesInjective(s: string, t: string)
    ensures Codes(s) == Codes(t) ==> s == t
  {
    if Codes(s) == Codes(t) {
      assert |s| == |t|;
      forall i | 0 <= i < |s| ensures s[i] == t[i] {
        assert Codes(s)[i] == Codes(t)[i];
      }
    }
  }

  lemma {:induction false} StringKeys(s: seq<string>)
    ensures KeysDistinct(s, Codes) <==> Distinct(s)
  {
    hide Codes;
    forall i, j | 0 <= i < j < |s| ensures Codes(s[i]) == Codes(s[j]) <==> s[i] == s[j] {
      CodesInjective(s[i], s[j]);
    }
  }

  // ---------------------------------------------------------------- one control

  lemma {:induction false} NetworksSayIt(text: AddressText, a: seq<string>, b: seq<string>)
    requires Faithful(text) && AllCidrs(text, a) && AllCidrs(text, b)
    ensures SameMembers(Networks(text, a), Networks(text, b)) <==> SameMembers(Spellings(text, a), Spellings(text, b))
  {
    hide Faithful, Denotes;
    Included(text, a, b);
    Included(text, b, a);
  }

  ghost predicate Within<T>(a: seq<T>, b: seq<T>)
  {
    forall x :: x in a ==> x in b
  }

  lemma {:induction false} Included(text: AddressText, a: seq<string>, b: seq<string>)
    requires Faithful(text) && AllCidrs(text, a) && AllCidrs(text, b)
    ensures Within(Networks(text, a), Networks(text, b)) <==> Within(Spellings(text, a), Spellings(text, b))
  {
    hide Faithful, Denotes;
    var sa, sb, na, nb := Spellings(text, a), Spellings(text, b), Networks(text, a), Networks(text, b);
    forall i, j | 0 <= i < |a| && 0 <= j < |b| ensures sa[i] == sb[j] <==> na[i] == nb[j] {
      SpellingDecides(text, a[i], b[j]);
    }
    forall i | 0 <= i < |a| ensures na[i] in nb <==> sa[i] in sb {
      if na[i] in nb {
        var j :| 0 <= j < |nb| && nb[j] == na[i];
        assert sb[j] in sb;
      }
      if sa[i] in sb {
        var j :| 0 <= j < |sb| && sb[j] == sa[i];
        assert nb[j] in nb;
      }
    }
    assert forall i :: 0 <= i < |a| ==> na[i] in na && sa[i] in sa;
  }

  lemma {:induction false} SortedSpellings(text: AddressText, a: seq<string>, b: seq<string>)
    requires Faithful(text) && AllCidrs(text, a) && AllCidrs(text, b)
    requires Distinct(Networks(text, a)) && Distinct(Networks(text, b))
    ensures SortByKey(Spellings(text, a), Codes) == SortByKey(Spellings(text, b), Codes) <==> SameNetworks(text, a, b)
  {
    hide Faithful, Networks, Spellings, Codes, SortByKey, AllCidrs;
    var sa, sb := Spellings(text, a), Spellings(text, b);
    SpellingsDistinct(text, a);
    SpellingsDistinct(text, b);
    StringKeys(sa);
    StringKeys(sb);
    NetworksSayIt(text, a, b);
    SortDecides(sa, sb, Codes);
  }

  lemma {:induction false} SortDecides<T>(a: seq<T>, b: seq<T>, key: T -> seq<int>)
    requires KeysDistinct(a, key) && KeysDistinct(b, key)
    ensures SortByKey(a, key) == SortByKey(b, key) <==> SameMembers(a, b)
  {
    hide SortByKey;
    SortKeepsMembers(a, key);
    SortKeepsMembers(b, key);
    if SameMembers(a, b) {
      SortsAgree(a, b, key);
    }
  }

  /** Canonical controls are equal exactly when the controls say the same. */
  lemma {:induction false} CanonicalControlDecides(text: AddressText, c: Control, d: Control)
    requires Faithful(text) && ControlValid(text, c) && ControlValid(text, d)
    ensures CanonicalControl(text, c) == CanonicalControl(text, d) <==> SameControl(text, c, d)
  {
    hide Faithful, Networks, Spellings, Codes, DayKey, SortByKey, AllCidrs, SameNetworks;
    SortedSpellings(text, c.allowed, d.allowed);
    SortedSpellings(text, c.denied, d.denied);
    DayKeys(c.weekdays);
    DayKeys(d.weekdays);
    SortDecides(c.weekdays, d.weekdays, DayKey);
  }

  // ---------------------------------------------------------------- whole contents

  lemma {:induction false} StructuredIsReadable<S>(env: Env<S>, c: Content<S>)
    requires Structured(env, c)
    ensures Readable(env, c)
  {
  }

  lemma {:induction false} CanonicalControlsKeys<S>(env: Env<S>, c: Content<S>)
    requires Readable(env, c) && KeysDistinct(c.controls, ControlKey)
    ensures KeysDistinct(CanonicalControls(env, c), ControlKey)
  {
    hide CanonicalControl;
    forall i | 0 <= i < |c.controls| ensures ControlKey(CanonicalControls(env, c)[i]) == ControlKey(c.controls[i]) {
      KeepsId(env.addresses, c.controls[i]);
    }
  }

  lemma {:induction false} KeepsId(text: AddressText, c: Control)
    requires ControlReadable(text, c)
    ensures CanonicalControl(text, c).id == c.id
  {
  }

  lemma {:induction false} PartnersDecide<S>(env: Env<S>, a: Content<S>, b: Content<S>)
    requires Faithful(env.addresses) && Structured(env, a) && Structured(env, b) && Readable(env, a) && Readable(env, b)
    ensures Within(CanonicalControls(env, a), CanonicalControls(env, b)) <==>
            forall c :: c in a.controls ==> HasPartner(env.addresses, c, b.controls)
  {
    hide Faithful, CanonicalControl, Structured, HasPartner, Readable;
    var ca := CanonicalControls(env, a);
    forall i | 0 <= i < |ca|
      ensures ca[i] in CanonicalControls(env, b) <==> HasPartner(env.addresses, a.controls[i], b.controls)
    {
      PartnerDecides(env, a, b, i);
    }
    assert forall i :: 0 <= i < |ca| ==> ca[i] in ca && a.controls[i] in a.controls;
  }

  lemma {:induction false} PartnerDecides<S>(env: Env<S>, a: Content<S>, b: Content<S>, i: nat)
    requires Faithful(env.addresses) && Structured(env, a) && Structured(env, b) && Readable(env, a) && Readable(env, b)
    requires i < |a.controls|
    ensures CanonicalControls(env, a)[i] in CanonicalControls(env, b) <==>
      HasPartner(env.addresses, a.controls[i], b.controls)
  {
    hide Faithful, CanonicalControl, SameControl, ControlValid, ControlReadable;
    var c, cb := a.controls[i], CanonicalControls(env, b);
    forall j | 0 <= j < |cb|
      ensures CanonicalControls(env, a)[i] == cb[j] <==> SameControl(env.addresses, c, b.controls[j])
    {
      CanonicalControlDecides(env.addresses, c, b.controls[j]);
    }
    if HasPartner(env.addresses, c, b.controls) {
      var d :| d in b.controls && SameControl(env.addresses, c, d);
      var j :| 0 <= j < |b.controls| && b.controls[j] == d;
      assert cb[j] in cb;
    }
    if CanonicalControls(env, a)[i] in cb {
      var j :| 0 <= j < |cb| && cb[j] == CanonicalControls(env, a)[i];
      assert b.controls[j] in b.controls;
    }
  }

  lemma {:induction false} ControlsDecide<S>(env: Env<S>, a: Content<S>, b: Content<S>)
    requires Faithful(env.addresses) && Structured(env, a) && Structured(env, b) && Readable(env, a) && Readable(env, b)
    ensures SortByKey(CanonicalControls(env, a), ControlKey) == SortByKey(CanonicalControls(env, b), ControlKey) <==>
            SameControls(env.addresses, a.controls, b.controls)
  {
    hide Faithful, CanonicalControls, SortByKey, HasPartner, Readable;
    CanonicalControlsKeys(env, a);
    CanonicalControlsKeys(env, b);
    PartnersDecide(env, a, b);
    PartnersDecide(env, b, a);
    SortDecides(CanonicalControls(env, a), CanonicalControls(env, b), ControlKey);
  }

  /** Canonical content is a complete invariant of what a sound bundle says. */
  lemma {:induction false} CanonicalContentDecides<S>(env: Env<S>, a: Content<S>, b: Content<S>)
    requires Faithful(env.addresses) && Structured(env, a) && Structured(env, b) && Readable(env, a) && Readable(env, b)
    ensures CanonicalContent(env, a) == CanonicalContent(env, b) <==> SameContent(env, a, b)
  {
    hide Faithful, CanonicalControls, SortByKey, SameControls, Readable, ControlsValid, SameMembers;
    SortDecides(a.clients, b.clients, ClientKey);
    SortDecides(a.resources, b.resources, ResourceKey);
    ControlsDecide(env, a, b);
  }

  // ---------------------------------------------------------------- soundness survives

  lemma {:induction false} NetworksStayDistinct(text: AddressText, a: seq<string>, b: seq<string>)
    requires SameNetworks(text, a, b) && |a| == |b| && Distinct(Networks(text, a))
    ensures Distinct(Networks(text, b))
  {
    hide Networks, AllCidrs, NetworkKey;
    NetworkKeys(Networks(text, a));
    NetworkKeys(Networks(text, b));
    SameMembersSameKeys(Networks(text, a), Networks(text, b), NetworkKey);
    DistinctTransfers(Networks(text, a), NetworkKey, Networks(text, b), NetworkKey);
  }

  lemma {:induction false} ControlStaysValid(text: AddressText, c: Control, d: Control)
    requires ControlValid(text, c) && SameControl(text, c, d) && SameListSizes(c, d)
    ensures ControlValid(text, d)
  {
    hide Networks, AllCidrs, DayKey;
    NetworksStayDistinct(text, c.allowed, d.allowed);
    NetworksStayDistinct(text, c.denied, d.denied);
    DayKeys(c.weekdays);
    DayKeys(d.weekdays);
    SameMembersSameKeys(c.weekdays, d.weekdays, DayKey);
    DistinctTransfers(c.weekdays, DayKey, d.weekdays, DayKey);
    var e := c.(allowed := [], denied := [], weekdays := []);
    assert e == d.(allowed := [], denied := [], weekdays := []);
    assert e.perMinute == d.perMinute && e.dailyQuota == d.dailyQuota;
    assert e.startMinute == d.startMinute && e.endMinute == d.endMinute;
  }

  lemma {:induction false} ClientsStayValid(a: seq<Client>, b: seq<Client>)
    requires ClientsValid(a) && SameMembers(a, b) && |a| == |b|
    ensures ClientsValid(b) && ClientIds(a) == ClientIds(b)
  {
    hide ClientValid;
    SameMembersSameKeys(a, b, ClientKey);
    DistinctTransfers(a, ClientKey, b, ClientKey);
    forall i | 0 <= i < |b| ensures ClientValid(b[i]) {
      assert b[i] in b && b[i] in a;
    }
  }

  lemma {:induction false} ResourceIdMembers<S>(resources: seq<Resource<S>>)
    ensures ResourceIds(resources) == set r | r in resources :: r.id
  {
    forall i | 0 <= i < |resources| ensures resources[i] in resources {
    }
  }

  lemma {:induction false} ResourcesStayValid<S>(
    env: Env<S>, a: seq<Resource<S>>, b: seq<Resource<S>>, clients: set<Uuid>)
    requires ResourcesValid(env, a, clients) && SameMembers(a, b) && |a| == |b|
    ensures ResourcesValid(env, b, clients) && ResourceIds(a) == ResourceIds(b)
  {
    hide ResourceValid;
    SameMembersSameKeys(a, b, ResourceKey);
    DistinctTransfers(a, ResourceKey, b, ResourceKey);
    forall i | 0 <= i < |b| ensures ResourceValid(env, b[i], clients) {
      assert b[i] in b && b[i] in a;
    }
    ResourceIdMembers(a);
    ResourceIdMembers(b);
  }

  lemma {:induction false} SameId(text: AddressText, c: Control, d: Control)
    requires SameControl(text, c, d)
    ensures c.id == d.id && SameControl(text, d, c)
  {
    hide Networks, AllCidrs;
    assert c.(allowed := [], denied := [], weekdays := []).id == d.(allowed := [], denied := [], weekdays := []).id;
  }

  lemma {:induction false} PartnerKeys(text: AddressText, a: seq<Control>, b: seq<Control>)
    requires SameControls(text, a, b)
    ensures Keys(a, ControlKey) == Keys(b, ControlKey)
  {
    hide SameControl;
    forall c | c in a ensures ControlKey(c) in Keys(b, ControlKey) {
      assert HasPartner(text, c, b);
      var d :| d in b && SameControl(text, c, d);
      SameId(text, c, d);
    }
    forall d | d in b ensures ControlKey(d) in Keys(a, ControlKey) {
      assert HasPartner(text, d, a);
      var c :| c in a && SameControl(text, d, c);
      SameId(text, d, c);
    }
  }

  lemma {:induction false} ControlsStayValid<S>(env: Env<S>, a: Content<S>, b: Content<S>, resources: set<Uuid>)
    requires ControlsValid(env.addresses, a.controls, resources)
    requires SameControls(env.addresses, a.controls, b.controls) && SameSizes(a, b)
    ensures ControlsValid(env.addresses, b.controls, resources)
  {
    hide SameControl, ControlValid, SameListSizes;
    PartnerKeys(env.addresses, a.controls, b.controls);
    DistinctTransfers(a.controls, ControlKey, b.controls, ControlKey);
    forall i | 0 <= i < |b.controls|
      ensures b.controls[i].id != NIL_UUID && b.controls[i].id in resources
      ensures ControlValid(env.addresses, b.controls[i])
    {
      var d := b.controls[i];
      assert d in b.controls && HasPartner(env.addresses, d, a.controls);
      var c :| c in a.controls && SameControl(env.addresses, d, c);
      SameId(env.addresses, d, c);
      ControlStaysValid(env.addresses, c, d);
    }
  }

  /** Rearranging a sound bundle, or respelling its CIDRs, leaves it sound with the same canonical content. */
  lemma {:induction false} RearrangedIsSound<S>(env: Env<S>, a: Content<S>, b: Content<S>)
    requires Faithful(env.addresses) && Structured(env, a) && SameContent(env, a, b) && SameSizes(a, b)
    ensures Structured(env, b) && Readable(env, a) && Readable(env, b)
    ensures CanonicalContent(env, b) == CanonicalContent(env, a)
  {
    hide Faithful, ClientsValid, ResourcesValid, ControlsValid, SameMembers, SameControls;
    hide Readable, CanonicalContent, ClientIds, ResourceIds;
    HeaderSame(env, a, b);
    ClientsStayValid(a.clients, b.clients);
    ResourcesStayValid(env, a.resources, b.resources, ClientIds(a.clients));
    ControlsStayValid(env, a, b, ResourceIds(a.resources));
    StructuredIsReadable(env, a);
    StructuredIsReadable(env, b);
    CanonicalContentDecides(env, a, b);
  }

  lemma {:induction false} HeaderSame<S>(env: Env<S>, a: Content<S>, b: Content<S>)
    requires SameContent(env, a, b) && SameSizes(a, b)
    ensures HeaderError(a).None? <==> HeaderError(b).None?
  {
    var e := a.(clients := [], resources := [], controls := []);
    assert e == b.(clients := [], resources := [], controls := []);
    assert e.schema == b.schema && e.source == b.source && e.generation == b.generation && e.generated == b.generated;
  }

  // ---------------------------------------------------------------- canonical content of canonical content

  lemma {:induction false} SpellingsSame(text: AddressText, values: seq<string>, sorted: seq<string>)
    requires Faithful(text) && AllCidrs(text, values) && sorted == SortByKey(Spellings(text, values), Codes)
    ensures SameNetworks(text, values, sorted) && |sorted| == |values|
  {
    hide Faithful, Denotes, SortByKey;
    var spelled := Spellings(text, values);
    SortKeepsMembers(spelled, Codes);
    forall i | 0 <= i < |values| ensures Denotes(text, spelled[i]) == Denotes(text, values[i]) {
      NormalizeTwice(text, values[i]);
    }
    forall i | 0 <= i < |sorted| ensures Denotes(text, sorted[i]).Some? {
      assert sorted[i] in sorted;
    }
    forall i | 0 <= i < |values| ensures Networks(text, values)[i] in Networks(text, sorted) {
      assert spelled[i] in spelled && spelled[i] in sorted;
      var j :| 0 <= j < |sorted| && sorted[j] == spelled[i];
      assert Networks(text, sorted)[j] == Networks(text, values)[i];
    }
    forall j | 0 <= j < |sorted| ensures Networks(text, sorted)[j] in Networks(text, values) {
      assert sorted[j] in sorted && sorted[j] in spelled;
      var i :| 0 <= i < |spelled| && spelled[i] == sorted[j];
      assert Networks(text, values)[i] == Networks(text, sorted)[j];
    }
  }

  lemma {:induction false} CanonicalControlSame(text: AddressText, c: Control)
    requires Faithful(text) && ControlReadable(text, c)
    ensures SameControl(text, c, CanonicalControl(text, c)) && SameListSizes(c, CanonicalControl(text, c))
  {
    hide Faithful, SortByKey, Spellings, SameNetworks, AllCidrs;
    SpellingsSame(text, c.allowed, CanonicalControl(text, c).allowed);
    SpellingsSame(text, c.denied, CanonicalControl(text, c).denied);
    SortKeepsMembers(c.weekdays, DayKey);
  }

  lemma {:induction false} CanonicalControlsSame<S>(env: Env<S>, c: Content<S>)
    requires Faithful(env.addresses) && Structured(env, c) && Readable(env, c)
    ensures SameControls(env.addresses, c.controls, CanonicalContent(env, c).controls)
    ensures |CanonicalContent(env, c).controls| == |c.controls|
  {
    hide Faithful, SortByKey, CanonicalControl, SameControl, ControlValid, SameListSizes;
    var canonical := CanonicalControls(env, c);
    SortKeepsMembers(canonical, ControlKey);
    var sorted := SortByKey(canonical, ControlKey);
    forall d | d in c.controls ensures HasPartner(env.addresses, d, sorted) {
      var i :| 0 <= i < |c.controls| && c.controls[i] == d;
      CanonicalControlSame(env.addresses, d);
      assert canonical[i] in canonical && canonical[i] in sorted;
    }
    forall e | e in sorted ensures HasPartner(env.addresses, e, c.controls) {
      assert e in canonical;
      var i :| 0 <= i < |canonical| && canonical[i] == e;
      CanonicalControlSame(env.addresses, c.controls[i]);
      SameId(env.addresses, c.controls[i], e);
    }
  }

  lemma {:induction false} CanonicalSizes<S>(env: Env<S>, c: Content<S>, d: Control, e: Control)
    requires Faithful(env.addresses) && Structured(env, c) && Readable(env, c)
    requires d in c.controls && e in CanonicalContent(env, c).controls && d.id == e.id
    ensures SameListSizes(d, e)
  {
    hide Faithful, SortByKey, CanonicalControl, SameControl, ControlValid, SameListSizes;
    var canonical := CanonicalControls(env, c);
    SortKeepsMembers(canonical, ControlKey);
    var i :| 0 <= i < |c.controls| && c.controls[i] == d;
    assert e in canonical;
    var j :| 0 <= j < |canonical| && canonical[j] == e;
    KeepsId(env.addresses, c.controls[j]);
    assert i != j ==> ControlKey(c.controls[i]) != ControlKey(c.controls[j]);
    CanonicalControlSame(env.addresses, d);
  }

  lemma {:induction false} CanonicalSaysTheSame<S>(env: Env<S>, c: Content<S>)
    requires Faithful(env.addresses) && Structured(env, c) && Readable(env, c)
    ensures SameContent(env, c, CanonicalContent(env, c)) && SameSizes(c, CanonicalContent(env, c))
  {
    hide Faithful, Structured, Readable, SortByKey, CanonicalControls, SameControls, SameListSizes;
    var canonical := CanonicalContent(env, c);
    SortKeepsMembers(c.clients, ClientKey);
    SortKeepsMembers(c.resources, ResourceKey);
    CanonicalControlsSame(env, c);
    forall d, e | d in c.controls && e in canonical.controls && d.id == e.id ensures SameListSizes(d, e) {
      CanonicalSizes(env, c, d, e);
    }
  }

  /** The canonical content of a sound bundle is sound, and is its own canonical content. */
  lemma {:induction false} CanonicalIsFixpoint<S>(env: Env<S>, c: Content<S>)
    requires Faithful(env.addresses) && Structured(env, c) && Readable(env, c)
    ensures Structured(env, CanonicalContent(env, c)) && Readable(env, CanonicalContent(env, c))
    ensures CanonicalContent(env, CanonicalContent(env, c)) == CanonicalContent(env, c)
  {
    hide Faithful, Structured, Readable, CanonicalContent, SameContent, SameSizes;
    CanonicalSaysTheSame(env, c);
    RearrangedIsSound(env, c, CanonicalContent(env, c));
  }
}
