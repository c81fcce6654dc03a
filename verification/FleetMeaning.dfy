/**
 * What a sound bundle is, with every limit as a number and every field check spelled out, and what each
 * reported fault says about the bundle.
 */
module FleetMeaning {
  import opened Wrappers
  import opened Bytes
  import opened Text
  import opened Sequences
  import opened Cidr
  import opened FleetBundle

  /** A name of at most 80 bytes, without white space around it or control characters in it. */
  predicate NameSound(name: string)
  {
    && name != "" && !Whitespace(name[0]) && !Whitespace(name[|name| - 1]) && Utf8Length(name) <= 80
    && forall i :: 0 <= i < |name| ==> name[i] as int >= 32 && !(127 <= name[i] as int <= 159)
  }

  /** Thirty-two octets in lower-case hexadecimal. */
  predicate HexSound(s: string)
  {
    |s| == 64 && forall i :: 0 <= i < |s| ==> s[i] in "0123456789abcdef"
  }

  predicate ClientSound(client: Client)
  {
    client.id != NIL_UUID && NameSound(client.name) && (client.publicKey.Some? ==> HexSound(client.publicKey.value))
  }

  /** Both ends of the schedule or neither, each a minute of the day. */
  predicate ScheduleSound(control: Control)
  {
    match (control.startMinute, control.endMinute)
    case (Some(start), Some(end)) => start < 24 * 60 && end < 24 * 60
    case (None, None) => true
    case _ => false
  }

  predicate HeaderSound<S>(c: Content<S>)
  {
    && c.schema == 2 && c.source != NIL_UUID && c.generation >= 1 && c.generated >= 1
    && |c.clients| <= 4_096 && |c.resources| <= 65_535 && |c.controls| <= 65_535
  }

  lemma {:induction false} NameExact(name: string)
    ensures ValidName(name, MAX_NAME_BYTES) <==> NameSound(name)
  {
    hide Trim, Utf8Length;
    TrimExact(name, name);
    assert name == "" + name + "" && AllWhite("");
  }

  lemma {:induction false} HexExact(s: string)
    ensures ValidHex(s, 32) <==> HexSound(s)
  {
    forall c: char ensures (Digit(c) || 'a' <= c <= 'f') <==> c in "0123456789abcdef" {
      HexDigit(c);
    }
  }

  lemma {:induction false} HexDigit(c: char)
    ensures (Digit(c) || 'a' <= c <= 'f') <==> c in "0123456789abcdef"
  {
    var digits := "0123456789abcdef";
    if Digit(c) {
      assert digits[c as int - '0' as int] == c;
    } else if 'a' <= c <= 'f' {
      assert digits[10 + (c as int - 'a' as int)] == c;
    }
  }

  /** The field checks of a bundle mean what they are named after. */
  lemma {:induction false} FieldsExact<S>(c: Content<S>, client: Client, control: Control)
    ensures HeaderError(c) == None <==> HeaderSound(c)
    ensures ClientValid(client) <==> ClientSound(client)
    ensures ScheduleOk(control) <==> ScheduleSound(control)
  {
    hide ValidName, NameSound, ValidHex, HexSound;
    NameExact(client.name);
    if client.publicKey.Some? {
      HexExact(client.publicKey.value);
    }
  }

  // ---------------------------------------------------------------- faults

  predicate TwoOf<T>(s: seq<T>, id: T -> Uuid, x: Uuid)
  {
    exists i, j :: 0 <= i < j < |s| && id(s[i]) == x && id(s[j]) == x
  }

  lemma {:induction false} OneMoreIsTwo<T>(s: seq<T>, id: T -> Uuid, i: nat)
    requires s != [] && i < |s| - 1 && id(s[i]) == id(s[|s| - 1])
    ensures TwoOf(s, id, id(s[|s| - 1]))
  {
  }

  lemma {:induction false} TwoMore<T>(s: seq<T>, id: T -> Uuid, x: Uuid)
    requires s != [] && TwoOf(s[..|s| - 1], id, x)
    ensures TwoOf(s, id, x)
  {
    var init := s[..|s| - 1];
    var i, j :| 0 <= i < j < |init| && id(init[i]) == x && id(init[j]) == x;
    assert s[i] == init[i] && s[j] == init[j];
  }

  /** What a fault found among the clients says. */
  ghost predicate ClientsFault(clients: seq<Client>, e: Error)
  {
    match e
    case InvalidField(field) =>
      || (field == "clients.agent_instance_id" && exists c :: c in clients && c.id == NIL_UUID)
      || (field == "clients.name" && exists c :: c in clients && !NameSound(c.name))
      || (field == "clients.agent_identity_public_key"
          && exists c :: c in clients && c.publicKey.Some? && !HexSound(c.publicKey.value))
    case DuplicateClient(x) => TwoOf(clients, (c: Client) => c.id, x)
    case _ => false
  }

  lemma {:induction false} ClientsReason(clients: seq<Client>)
    ensures ClientsError(clients).Some? ==> ClientsFault(clients, ClientsError(clients).value)
  {
    hide ValidName, ValidHex, NameSound, HexSound;
    if clients == [] {
    } else {
      var n := |clients| - 1;
      var init, last := clients[..n], clients[n];
      ClientsReason(init);
      NameExact(last.name);
      if last.publicKey.Some? {
        HexExact(last.publicKey.value);
      }
      assert last in clients && forall c :: c in init ==> c in clients;
      if ClientsError(init).Some? {
        ClientsFaultMore(clients, ClientsError(init).value);
      } else if last.id in ClientIds(init) {
        var c :| c in init && c.id == last.id;
        var i :| 0 <= i < |init| && init[i] == c;
        OneMoreIsTwo(clients, (c: Client) => c.id, i);
      }
    }
  }

  lemma {:induction false} ClientsFaultMore(clients: seq<Client>, e: Error)
    requires clients != [] && ClientsFault(clients[..|clients| - 1], e)
    ensures ClientsFault(clients, e)
  {
    hide NameSound, HexSound, TwoOf;
    var init := clients[..|clients| - 1];
    assert forall c :: c in init ==> c in clients;
    match e
    case DuplicateClient(x) => TwoMore(clients, (c: Client) => c.id, x);
    case _ =>
  }

  /** What a fault found among the resources says. */
  ghost predicate ResourcesFault<S(!new)>(
    env: Env<S>, resources: seq<Resource<S>>, clients: set<Uuid>, e: Error)
  {
    || (e == InvalidField("resources.resource_id") && exists r :: r in resources && r.id == NIL_UUID)
    || (e.DuplicateResource? && TwoOf(resources, (r: Resource<S>) => r.id, e.resource))
    || (exists r :: r in resources && env.specError(r.spec) == Some(e))
    || (e.UnknownClient? && e.client !in clients && exists r :: r in resources && e.client in env.referenced(r.spec))
  }

  lemma {:induction false} UnknownReason(ids: seq<Uuid>, known: set<Uuid>)
    ensures var e := FirstUnknown(ids, known);
      e.Some? ==> e.value.UnknownClient? && e.value.client in ids && e.value.client !in known
  {
    if ids == [] {
    } else {
      UnknownReason(ids[1..], known);
    }
  }

  lemma {:induction false} ResourcesReason<S(!new)>(env: Env<S>, resources: seq<Resource<S>>, clients: set<Uuid>)
    ensures var e := ResourcesError(env, resources, clients);
      e.Some? ==> ResourcesFault(env, resources, clients, e.value)
  {
    hide TwoOf;
    if resources == [] {
    } else {
      var n := |resources| - 1;
      var init, last := resources[..n], resources[n];
      ResourcesReason(env, init, clients);
      UnknownReason(env.referenced(last.spec), clients);
      assert last in resources && forall r :: r in init ==> r in resources;
      var e := ResourcesError(env, init, clients);
      if e.Some? {
        if e.value.DuplicateResource? && TwoOf(init, (r: Resource<S>) => r.id, e.value.resource) {
          TwoMore(resources, (r: Resource<S>) => r.id, e.value.resource);
        }
      } else if last.id in ResourceIds(init) {
        var i :| 0 <= i < |init| && init[i].id == last.id;
        assert resources[i] == init[i];
        OneMoreIsTwo(resources, (r: Resource<S>) => r.id, i);
      }
    }
  }

  /** The field of a control that is at fault. */
  ghost predicate FieldFault(text: AddressText, control: Control, field: string)
  {
    || (field == "traffic_controls.allowed_cidrs" && exists v :: v in control.allowed && Denotes(text, v) == None)
    || (field == "traffic_controls.denied_cidrs" && exists v :: v in control.denied && Denotes(text, v) == None)
    || (field == "traffic_controls.cidrs" && CidrsFault(text, control))
    || (field == "traffic_controls.max_connections_per_minute"
        && (control.perMinute == Some(0) || exists n :: control.perMinute == Some(n) && n > 1_000_000))
    || (field == "traffic_controls.daily_quota_bytes" && exists n :: control.dailyQuota == Some(n) && n < 1_024)
    || (field == "traffic_controls.active_weekdays_utc"
        && (!Distinct(control.weekdays) || exists day :: day in control.weekdays && day >= 7))
    || (field == "traffic_controls.schedule" && !ScheduleSound(control))
  }

  /** Too many networks, or one of them named twice. */
  ghost predicate CidrsFault(text: AddressText, control: Control)
  {
    || |control.allowed| > 64 || |control.denied| > 64
    || exists i, j ::
         && 0 <= i < j < |control.allowed + control.denied|
         && SameNetwork(text, (control.allowed + control.denied)[i], (control.allowed + control.denied)[j])
  }

  ghost predicate SameNetwork(text: AddressText, v: string, w: string)
  {
    Denotes(text, v).Some? && Denotes(text, v) == Denotes(text, w)
  }

  /** Equal normal spellings among the two lists come from one network named twice. */
  lemma {:induction false} ListedTwice(text: AddressText, control: Control)
    requires Faithful(text) && AllCidrs(text, control.allowed) && AllCidrs(text, control.denied)
    requires var allowed, denied := Spellings(text, control.allowed), Spellings(text, control.denied);
      !Distinct(allowed) || !Distinct(denied) || !Disjoint(allowed, denied)
    ensures CidrsFault(text, control)
  {
    hide Denotes, Faithful, NormalizeCidr;
    var a, d := control.allowed, control.denied;
    var allowed, denied := Spellings(text, a), Spellings(text, d);
    var i, j: nat;
    if !Distinct(allowed) {
      i, j :| 0 <= i < j < |a| && allowed[i] == allowed[j];
    } else if !Distinct(denied) {
      var p, q :| 0 <= p < q < |d| && denied[p] == denied[q];
      i, j := |a| + p, |a| + q;
    } else {
      var p :| 0 <= p < |a| && allowed[p] in denied;
      var q :| 0 <= q < |d| && denied[q] == allowed[p];
      i, j := p, |a| + q;
    }
    var all := a + d;
    assert NormalizeCidr(text, all[i]) == NormalizeCidr(text, all[j]) by {
      SpellingAt(text, a, d, i);
      SpellingAt(text, a, d, j);
    }
    SpellingAt(text, a, d, i);
    SpellingAt(text, a, d, j);
    SpellingDecides(text, all[i], all[j]);
    assert SameNetwork(text, all[i], all[j]);
  }

  lemma {:induction false} SpellingAt(text: AddressText, a: seq<string>, d: seq<string>, i: nat)
    requires AllCidrs(text, a) && AllCidrs(text, d) && i < |a + d|
    ensures Denotes(text, (a + d)[i]).Some?
    ensures NormalizeCidr(text, (a + d)[i]) == Some((Spellings(text, a) + Spellings(text, d))[i])
  {
    hide Denotes;
  }

  lemma {:induction false} FieldReason(text: AddressText, control: Control)
    requires Faithful(text)
    ensures ControlFault(text, control).Some? ==>
      && ControlFault(text, control).value.InvalidField?
      && FieldFault(text, control, ControlFault(text, control).value.field)
  {
    hide Denotes, Faithful, NormalizeCidr, CidrsFault;
    if |control.allowed| > 64 || |control.denied| > 64 {
      TooManyNetworks(text, control);
    } else if AllCidrs(text, control.allowed) && AllCidrs(text, control.denied) {
      var allowed, denied := Spellings(text, control.allowed), Spellings(text, control.denied);
      if !Distinct(allowed) || !Distinct(denied) || !Disjoint(allowed, denied) {
        ListedTwice(text, control);
      }
      OtherFields(control);
    }
  }

  /** The readings of the numeric fields and the schedule. */
  lemma {:induction false} OtherFields(control: Control)
    ensures control.perMinute.Some? && !(1 <= control.perMinute.value <= 1_000_000) ==>
      control.perMinute == Some(0) || exists n :: control.perMinute == Some(n) && n > 1_000_000
    ensures control.dailyQuota.Some? && control.dailyQuota.value < 1024 ==>
      exists n :: control.dailyQuota == Some(n) && n < 1_024
    ensures (exists i :: 0 <= i < |control.weekdays| && control.weekdays[i] > 6) ==>
      exists day :: day in control.weekdays && day >= 7
    ensures ScheduleOk(control) <==> ScheduleSound(control)
  {
    if i :| 0 <= i < |control.weekdays| && control.weekdays[i] > 6 {
      assert control.weekdays[i] in control.weekdays;
    }
  }

  lemma {:induction false} TooManyNetworks(text: AddressText, control: Control)
    requires |control.allowed| > 64 || |control.denied| > 64
    ensures CidrsFault(text, control)
  {
  }

  /** What a fault found among the traffic controls says. */
  ghost predicate ControlsFault(text: AddressText, controls: seq<Control>, resources: set<Uuid>, e: Error)
  {
    match e
    case InvalidField(field) =>
      || (field == "traffic_controls.resource_id" && exists c :: c in controls && c.id == NIL_UUID)
      || exists c :: c in controls && FieldFault(text, c, field)
    case UnknownResource(x) => x !in resources && exists c :: c in controls && c.id == x
    case DuplicateTrafficControl(x) => TwoOf(controls, (c: Control) => c.id, x)
    case _ => false
  }

  lemma {:induction false} ControlsReason(text: AddressText, controls: seq<Control>, resources: set<Uuid>)
    requires Faithful(text)
    ensures var e := ControlsError(text, controls, resources);
      e.Some? ==> ControlsFault(text, controls, resources, e.value)
  {
    hide FieldFault, ControlFault, Faithful, TwoOf;
    if controls == [] {
    } else {
      var n := |controls| - 1;
      var init, last := controls[..n], controls[n];
      ControlsReason(text, init, resources);
      FieldReason(text, last);
      assert last in controls && forall c :: c in init ==> c in controls;
      var e := ControlsError(text, init, resources);
      if e.Some? {
        if e.value.DuplicateTrafficControl? {
          TwoMore(controls, (c: Control) => c.id, e.value.resource);
        }
      } else if last.id in ControlIds(init) {
        var c :| c in init && c.id == last.id;
        var i :| 0 <= i < |init| && init[i] == c;
        OneMoreIsTwo(controls, (c: Control) => c.id, i);
      }
    }
  }

  /** What a fault of the header says. */
  predicate HeaderFault<S>(c: Content<S>, e: Error)
  {
    match e
    case UnsupportedSchemaVersion(v) => v == c.schema != 2
    case InvalidField(field) =>
      || (field == "source_instance_id" && c.source == NIL_UUID)
      || (field == "generation" && c.generation == 0)
      || (field == "generated_unix_seconds" && c.generated == 0)
      || (field == "clients" && |c.clients| > 4_096)
      || (field == "resources" && (|c.resources| > 65_535 || |c.controls| > 65_535))
    case _ => false
  }

  /** Whatever fault is reported, the bundle has it. */
  lemma {:induction false} FaultIsReal<S(!new)>(env: Env<S>, c: Content<S>)
    requires Faithful(env.addresses) && StructureError(env, c).Some?
    ensures var e := StructureError(env, c).value;
      || HeaderFault(c, e) || ClientsFault(c.clients, e)
      || ResourcesFault(env, c.resources, ClientIds(c.clients), e)
      || ControlsFault(env.addresses, c.controls, ResourceIds(c.resources), e)
  {
    hide ClientsError, ResourcesError, ControlsError, ClientsFault, ResourcesFault, ControlsFault, Faithful;
    ClientsReason(c.clients);
    ResourcesReason(env, c.resources, ClientIds(c.clients));
    ControlsReason(env.addresses, c.controls, ResourceIds(c.resources));
  }
}
