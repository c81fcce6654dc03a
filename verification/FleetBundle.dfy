/**
 * Fleet bundles: structural validation, canonical content and integrity. Resource settings are left
 * abstract: a bundle is generic in their type, with their check and the clients they name as functions.
 */
module FleetBundle {
  import opened Wrappers
  import opened Bytes
  import opened Text
  import opened Sequences
  import opened Sorting
  import opened Cidr

  datatype Error =
    | UnsupportedSchemaVersion(version: U16)
    | InvalidField(field: string)
    | DuplicateClient(client: Uuid)
    | DuplicateResource(resource: Uuid)
    | DuplicateTrafficControl(resource: Uuid)
    | UnknownClient(client: Uuid)
    | UnknownResource(resource: Uuid)
    | InvalidContentSha256
    | ContentSha256Mismatch
    | RevisionMismatch

  datatype Client = Client(id: Uuid, name: string, publicKey: Option<string>)

  datatype Resource<S> = Resource(id: Uuid, enabled: bool, spec: S)

  datatype Control = Control(
    id: Uuid, enabled: bool, allowed: seq<string>, denied: seq<string>, perMinute: Option<U32>,
    dailyQuota: Option<U64>, weekdays: seq<Byte>, startMinute: Option<U16>, endMinute: Option<U16>)

  datatype Content<S> = Content(
    schema: U16, source: Uuid, generation: U64, generated: U64,
    clients: seq<Client>, resources: seq<Resource<S>>, controls: seq<Control>)

  datatype Bundle<S> = Bundle(content: Content<S>, digest: string, revision: string)

  /** What the bundle takes from elsewhere: addresses, resource settings, and the digest of serialised content. */
  datatype Env<!S> = Env(
    addresses: AddressText, specError: S -> Option<Error>, referenced: S -> seq<Uuid>, sha256: Content<S> -> string)

  ghost predicate EnvOk<S(!new)>(env: Env<S>)
  {
    Faithful(env.addresses) && forall c :: ValidHex(env.sha256(c), 32)
  }

  const SCHEMA_VERSION: U16 := 2
  const MAX_CLIENTS := 4096
  const MAX_RESOURCES := 65535
  const MAX_NAME_BYTES := 80

  // ---------------------------------------------------------------- field checks

  predicate ValidName(name: string, maximum: nat)
  {
    && name == Trim(name) && name != "" && Utf8Length(name) <= maximum
    && forall i :: 0 <= i < |name| ==> !ControlChar(name[i])
  }

  predicate ValidHex(s: string, bytes: nat)
  {
    |s| == 2 * bytes && forall i :: 0 <= i < |s| ==> Digit(s[i]) || 'a' <= s[i] <= 'f'
  }

  // ---------------------------------------------------------------- CIDR lists

  predicate AllCidrs(text: AddressText, values: seq<string>)
  {
    forall i :: 0 <= i < |values| ==> Denotes(text, values[i]).Some?
  }

  /** The normal spellings, in order. */
  function Spellings(text: AddressText, values: seq<string>): (r: seq<string>)
    requires AllCidrs(text, values)
    ensures |r| == |values|
  {
    seq(|values|, i requires 0 <= i < |values| => NormalizeCidr(text, values[i]).value)
  }

  predicate Disjoint(a: seq<string>, b: seq<string>)
  {
    forall i :: 0 <= i < |a| ==> a[i] !in b
  }

  function Codes(s: string): (r: seq<int>)
    ensures |r| == |s|
  {
    seq(|s|, i requires 0 <= i < |s| => s[i] as int)
  }

  function DayKey(day: Byte): seq<int>
  {
    [day]
  }

  // ---------------------------------------------------------------- validation of the structure

  function ClientError(client: Client, seen: set<Uuid>): Option<Error>
  {
    if client.id == NIL_UUID then Some(InvalidField("clients.agent_instance_id"))
    else if !ValidName(client.name, MAX_NAME_BYTES) then Some(InvalidField("clients.name"))
    else if client.publicKey.Some? && !ValidHex(client.publicKey.value, 32) then
      Some(InvalidField("clients.agent_identity_public_key"))
    else if client.id in seen then Some(DuplicateClient(client.id))
    else None
  }

  function FirstUnknown(ids: seq<Uuid>, known: set<Uuid>): Option<Error>
  {
    if ids == [] then None
    else if ids[0] !in known then Some(UnknownClient(ids[0]))
    else FirstUnknown(ids[1..], known)
  }

  function ResourceError<S>(env: Env<S>, resource: Resource<S>, seen: set<Uuid>, clients: set<Uuid>): Option<Error>
  {
    if resource.id == NIL_UUID then Some(InvalidField("resources.resource_id"))
    else if resource.id in seen then Some(DuplicateResource(resource.id))
    else
      var fault := env.specError(resource.spec);
      if fault.Some? then fault else FirstUnknown(env.referenced(resource.spec), clients)
  }

  predicate ScheduleOk(control: Control)
  {
    && control.startMinute.Some? == control.endMinute.Some?
    && (control.startMinute.Some? ==> control.startMinute.value < 1440)
    && (control.endMinute.Some? ==> control.endMinute.value < 1440)
  }

  function ControlFault(text: AddressText, control: Control): Option<Error>
  {
    if |control.allowed| > 64 || |control.denied| > 64 then Some(InvalidField("traffic_controls.cidrs"))
    else if !AllCidrs(text, control.allowed) then Some(InvalidField("traffic_controls.allowed_cidrs"))
    else if !AllCidrs(text, control.denied) then Some(InvalidField("traffic_controls.denied_cidrs"))
    else
      var allowed, denied := Spellings(text, control.allowed), Spellings(text, control.denied);
      if !Distinct(allowed) || !Distinct(denied) || !Disjoint(allowed, denied) then
        Some(InvalidField("traffic_controls.cidrs"))
      else if control.perMinute.Some? && !(1 <= control.perMinute.value <= 1_000_000) then
        Some(InvalidField("traffic_controls.max_connections_per_minute"))
      else if control.dailyQuota.Some? && control.dailyQuota.value < 1024 then
        Some(InvalidField("traffic_controls.daily_quota_bytes"))
      else if (exists i :: 0 <= i < |control.weekdays| && control.weekdays[i] > 6) || !Distinct(control.weekdays) then
        Some(InvalidField("traffic_controls.active_weekdays_utc"))
      else if !ScheduleOk(control) then Some(InvalidField("traffic_controls.schedule"))
      else None
  }

  function ControlError(text: AddressText, control: Control, resources: set<Uuid>, seen: set<Uuid>): Option<Error>
  {
    if control.id == NIL_UUID then Some(InvalidField("traffic_controls.resource_id"))
    else if control.id !in resources then Some(UnknownResource(control.id))
    else if control.id in seen then Some(DuplicateTrafficControl(control.id))
    else ControlFault(text, control)
  }

  function ClientIds(clients: seq<Client>): set<Uuid>
  {
    set c | c in clients :: c.id
  }

  function ResourceIds<S(==)>(resources: seq<Resource<S>>): set<Uuid>
  {
    set i | 0 <= i < |resources| :: resources[i].id
  }

  function ControlIds(controls: seq<Control>): set<Uuid>
  {
    set c | c in controls :: c.id
  }

  function ClientsError(clients: seq<Client>): Option<Error>
  {
    if clients == [] then None
    else
      var n := |clients|;
      var earlier := ClientsError(clients[..n - 1]);
      if earlier.Some? then earlier else ClientError(clients[n - 1], ClientIds(clients[..n - 1]))
  }

  function ResourcesError<S(==)>(env: Env<S>, resources: seq<Resource<S>>, clients: set<Uuid>): Option<Error>
  {
    if resources == [] then None
    else
      var n := |resources|;
      var earlier := ResourcesError(env, resources[..n - 1], clients);
      if earlier.Some? then earlier
      else ResourceError(env, resources[n - 1], ResourceIds(resources[..n - 1]), clients)
  }

  function ControlsError(text: AddressText, controls: seq<Control>, resources: set<Uuid>): Option<Error>
  {
    if controls == [] then None
    else
      var n := |controls|;
      var earlier := ControlsError(text, controls[..n - 1], resources);
      if earlier.Some? then earlier else ControlError(text, controls[n - 1], resources, ControlIds(controls[..n - 1]))
  }

  function HeaderError<S>(c: Content<S>): Option<Error>
  {
    if c.schema != SCHEMA_VERSION then Some(UnsupportedSchemaVersion(c.schema))
    else if c.source == NIL_UUID then Some(InvalidField("source_instance_id"))
    else if c.generation == 0 then Some(InvalidField("generation"))
    else if c.generated == 0 then Some(InvalidField("generated_unix_seconds"))
    else if |c.clients| > MAX_CLIENTS then Some(InvalidField("clients"))
    else if |c.resources| > MAX_RESOURCES || |c.controls| > MAX_RESOURCES then Some(InvalidField("resources"))
    else None
  }

  /** The first fault of a bundle's structure, in the order in which it is examined. */
  function StructureError<S(==)>(env: Env<S>, c: Content<S>): Option<Error>
  {
    var header := HeaderError(c);
    if header.Some? then header
    else
      var clients := ClientsError(c.clients);
      if clients.Some? then clients
      else
        var resources := ResourcesError(env, c.resources, ClientIds(c.clients));
        if resources.Some? then resources else ControlsError(env.addresses, c.controls, ResourceIds(c.resources))
  }

  // ---------------------------------------------------------------- canonical content

  function ClientKey(c: Client): seq<int>
  {
    c.id
  }

  function ResourceKey<S>(r: Resource<S>): seq<int>
  {
    r.id
  }

  function ControlKey(c: Control): seq<int>
  {
    c.id
  }

  predicate ControlReadable(text: AddressText, control: Control)
  {
    AllCidrs(text, control.allowed) && AllCidrs(text, control.denied)
  }

  /** Every CIDR of the content can be normalised: otherwise canonicalisation panics. */
  predicate Readable<S>(env: Env<S>, c: Content<S>)
  {
    forall i :: 0 <= i < |c.controls| ==> ControlReadable(env.addresses, c.controls[i])
  }

  function CanonicalControl(text: AddressText, control: Control): Control
    requires ControlReadable(text, control)
  {
    control.(
      allowed := SortByKey(Spellings(text, control.allowed), Codes),
      denied := SortByKey(Spellings(text, control.denied), Codes),
      weekdays := SortByKey(control.weekdays, DayKey))
  }

  function CanonicalControls<S>(env: Env<S>, c: Content<S>): seq<Control>
    requires Readable(env, c)
  {
    seq(|c.controls|, i requires 0 <= i < |c.controls| => CanonicalControl(env.addresses, c.controls[i]))
  }

  function CanonicalContent<S>(env: Env<S>, c: Content<S>): Content<S>
    requires Readable(env, c)
  {
    c.(
      clients := SortByKey(c.clients, ClientKey),
      resources := SortByKey(c.resources, ResourceKey),
      controls := SortByKey(CanonicalControls(env, c), ControlKey))
  }

  function DigestOf<S>(env: Env<S>, c: Content<S>): string
    requires Readable(env, c)
  {
    env.sha256(CanonicalContent(env, c))
  }

  // ---------------------------------------------------------------- the order-free meaning of validation

  /** The networks of a list, in order. */
  function Networks(text: AddressText, values: seq<string>): (r: seq<Network>)
    requires AllCidrs(text, values)
    ensures |r| == |values|
  {
    seq(|values|, i requires 0 <= i < |values| => Denotes(text, values[i]).value)
  }

  ghost predicate ControlValid(text: AddressText, control: Control)
  {
    && |control.allowed| <= 64 && |control.denied| <= 64
    && AllCidrs(text, control.allowed) && AllCidrs(text, control.denied)
    && Distinct(Networks(text, control.allowed)) && Distinct(Networks(text, control.denied))
    && (forall n :: !(n in Networks(text, control.allowed) && n in Networks(text, control.denied)))
    && (control.perMinute.Some? ==> 1 <= control.perMinute.value <= 1_000_000)
    && (control.dailyQuota.Some? ==> control.dailyQuota.value >= 1024)
    && Distinct(control.weekdays) && (forall d :: d in control.weekdays ==> d <= 6)
    && ScheduleOk(control)
  }

  ghost predicate ClientValid(client: Client)
  {
    && client.id != NIL_UUID && ValidName(client.name, MAX_NAME_BYTES)
    && (client.publicKey.Some? ==> ValidHex(client.publicKey.value, 32))
  }

  ghost predicate ResourceValid<S>(env: Env<S>, resource: Resource<S>, clients: set<Uuid>)
  {
    && resource.id != NIL_UUID && env.specError(resource.spec).None?
    && forall id :: id in env.referenced(resource.spec) ==> id in clients
  }

  ghost predicate ClientsValid(clients: seq<Client>)
  {
    KeysDistinct(clients, ClientKey) && forall i :: 0 <= i < |clients| ==> ClientValid(clients[i])
  }

  ghost predicate ResourcesValid<S>(env: Env<S>, resources: seq<Resource<S>>, clients: set<Uuid>)
  {
    && KeysDistinct(resources, ResourceKey)
    && forall i :: 0 <= i < |resources| ==> ResourceValid(env, resources[i], clients)
  }

  ghost predicate ControlsValid(text: AddressText, controls: seq<Control>, resources: set<Uuid>)
  {
    && KeysDistinct(controls, ControlKey)
    && forall i :: 0 <= i < |controls| ==>
         controls[i].id != NIL_UUID && controls[i].id in resources && ControlValid(text, controls[i])
  }

  /** What a structurally sound bundle is, without any order of examination. */
  ghost predicate Structured<S>(env: Env<S>, c: Content<S>)
  {
    && HeaderError(c).None? && ClientsValid(c.clients)
    && ResourcesValid(env, c.resources, ClientIds(c.clients))
    && ControlsValid(env.addresses, c.controls, ResourceIds(c.resources))
  }

  lemma {:induction false} SpellingsDistinct(text: AddressText, values: seq<string>)
    requires Faithful(text) && AllCidrs(text, values)
    ensures Distinct(Spellings(text, values)) <==> Distinct(Networks(text, values))
  {
    hide Denotes, Faithful;
    forall i, j | 0 <= i < j < |values|
      ensures Spellings(text, values)[i] == Spellings(text, values)[j] <==>
        Networks(text, values)[i] == Networks(text, values)[j]
    {
      SpellingDecides(text, values[i], values[j]);
    }
  }

  lemma {:induction false} SpellingsDisjoint(text: AddressText, a: seq<string>, b: seq<string>)
    requires Faithful(text) && AllCidrs(text, a) && AllCidrs(text, b)
    ensures Disjoint(Spellings(text, a), Spellings(text, b)) <==>
      forall n :: !(n in Networks(text, a) && n in Networks(text, b))
  {
    hide Denotes, Faithful;
    var sa, sb, na, nb := Spellings(text, a), Spellings(text, b), Networks(text, a), Networks(text, b);
    forall i, j | 0 <= i < |a| && 0 <= j < |b| ensures sa[i] == sb[j] <==> na[i] == nb[j] {
      SpellingDecides(text, a[i], b[j]);
    }
    if n :| n in na && n in nb {
      var i :| 0 <= i < |na| && na[i] == n;
      var j :| 0 <= j < |nb| && nb[j] == n;
      assert sa[i] == sb[j];
    } else {
      forall i | 0 <= i < |sa| ensures sa[i] !in sb {
        assert na[i] in na;
        forall j | 0 <= j < |sb| ensures sb[j] != sa[i] {
          assert nb[j] in nb;
        }
      }
    }
  }

  lemma {:induction false} ControlFaultExact(text: AddressText, control: Control)
    requires Faithful(text)
    ensures ControlFault(text, control).None? <==> ControlValid(text, control)
  {
    hide Spellings, Networks, Faithful, Disjoint;
    assert forall i :: 0 <= i < |control.weekdays| ==> control.weekdays[i] in control.weekdays;
    if AllCidrs(text, control.allowed) && AllCidrs(text, control.denied) {
      SpellingsDistinct(text, control.allowed);
      SpellingsDistinct(text, control.denied);
      SpellingsDisjoint(text, control.allowed, control.denied);
    }
  }

  lemma {:induction false} KeysDistinctLast<T>(s: seq<T>, key: T -> seq<int>)
    requires s != []
    ensures KeysDistinct(s, key) <==>
            KeysDistinct(s[..|s| - 1], key) && forall i :: 0 <= i < |s| - 1 ==> key(s[i]) != key(s[|s| - 1])
  {
  }

  lemma {:induction false} ClientsLast(clients: seq<Client>)
    requires clients != []
    ensures var init, last := clients[..|clients| - 1], clients[|clients| - 1];
            ClientsValid(clients) <==> ClientsValid(init) && ClientValid(last) && last.id !in ClientIds(init)
  {
    hide ClientValid;
    var n := |clients|;
    var init, last := clients[..n - 1], clients[n - 1];
    KeysDistinctLast(clients, ClientKey);
    assert forall i :: 0 <= i < n - 1 ==> init[i] == clients[i] && init[i] in init;
    if last.id in ClientIds(init) {
      var i :| 0 <= i < n - 1 && init[i].id == last.id;
      assert ClientKey(clients[i]) == ClientKey(last);
    }
  }

  lemma {:induction false} ClientErrorExact(client: Client, seen: set<Uuid>)
    ensures ClientError(client, seen).None? <==> ClientValid(client) && client.id !in seen
  {
    hide ValidName, ValidHex;
  }

  lemma {:induction false} ClientsExact(clients: seq<Client>)
    ensures ClientsError(clients).None? <==> ClientsValid(clients)
  {
    hide ClientsValid, ClientValid, ClientError, ClientIds;
    if clients == [] {
      NoClients();
    } else {
      var init, last := clients[..|clients| - 1], clients[|clients| - 1];
      ClientsExact(init);
      ClientErrorExact(last, ClientIds(init));
      ClientsLast(clients);
    }
  }

  lemma {:induction false} NoClients()
    ensures ClientsValid([])
  {
  }

  lemma {:induction false} FirstUnknownExact(ids: seq<Uuid>, known: set<Uuid>)
    ensures FirstUnknown(ids, known).None? <==> forall id :: id in ids ==> id in known
  {
    if ids == [] {
    } else {
      FirstUnknownExact(ids[1..], known);
      assert ids == [ids[0]] + ids[1..];
    }
  }

  lemma {:induction false} ResourcesLast<S>(env: Env<S>, resources: seq<Resource<S>>, clients: set<Uuid>)
    requires resources != []
    ensures var init, last := resources[..|resources| - 1], resources[|resources| - 1];
            ResourcesValid(env, resources, clients) <==>
            ResourcesValid(env, init, clients) && ResourceValid(env, last, clients) && last.id !in ResourceIds(init)
  {
    hide ResourceValid;
    var n := |resources|;
    var init, last := resources[..n - 1], resources[n - 1];
    KeysDistinctLast(resources, ResourceKey);
    assert forall i :: 0 <= i < n - 1 ==> init[i] == resources[i];
    if last.id in ResourceIds(init) {
      var i :| 0 <= i < n - 1 && init[i].id == last.id;
      assert ResourceKey(resources[i]) == ResourceKey(last);
    }
  }

  lemma {:induction false} ResourcesExact<S>(env: Env<S>, resources: seq<Resource<S>>, clients: set<Uuid>)
    ensures ResourcesError(env, resources, clients).None? <==> ResourcesValid(env, resources, clients)
  {
    hide ResourcesValid, ResourceIds;
    if resources == [] {
      NoResources(env, clients);
    } else {
      var init, last := resources[..|resources| - 1], resources[|resources| - 1];
      ResourcesExact(env, init, clients);
      FirstUnknownExact(env.referenced(last.spec), clients);
      ResourcesLast(env, resources, clients);
    }
  }

  lemma {:induction false} NoResources<S>(env: Env<S>, clients: set<Uuid>)
    ensures ResourcesValid(env, [], clients)
  {
  }

  lemma {:induction false} ControlsLast(text: AddressText, controls: seq<Control>, resources: set<Uuid>)
    requires controls != []
    ensures var init, last := controls[..|controls| - 1], controls[|controls| - 1];
            ControlsValid(text, controls, resources) <==>
            && ControlsValid(text, init, resources) && last.id !in ControlIds(init)
            && last.id != NIL_UUID && last.id in resources && ControlValid(text, last)
  {
    hide ControlValid;
    var n := |controls|;
    var init, last := controls[..n - 1], controls[n - 1];
    KeysDistinctLast(controls, ControlKey);
    assert forall i :: 0 <= i < n - 1 ==> init[i] == controls[i] && init[i] in init;
    if last.id in ControlIds(init) {
      var i :| 0 <= i < n - 1 && init[i].id == last.id;
      assert ControlKey(controls[i]) == ControlKey(last);
    }
  }

  lemma {:induction false} ControlsExact(text: AddressText, controls: seq<Control>, resources: set<Uuid>)
    requires Faithful(text)
    ensures ControlsError(text, controls, resources).None? <==> ControlsValid(text, controls, resources)
  {
    hide ControlFault, ControlValid, Faithful, ControlsValid, ControlIds;
    if controls == [] {
      NoControls(text, resources);
    } else {
      var init, last := controls[..|controls| - 1], controls[|controls| - 1];
      ControlsExact(text, init, resources);
      ControlFaultExact(text, last);
      ControlsLast(text, controls, resources);
    }
  }

  lemma {:induction false} NoControls(text: AddressText, resources: set<Uuid>)
    ensures ControlsValid(text, [], resources)
  {
  }

  /** Examination in order finds no fault exactly in the structurally sound bundles. */
  lemma {:induction false} StructureExact<S>(env: Env<S>, c: Content<S>)
    requires Faithful(env.addresses)
    ensures StructureError(env, c).None? <==> Structured(env, c)
  {
    hide ClientsError, ResourcesError, ControlsError, HeaderError, Faithful;
    hide ClientsValid, ResourcesValid, ControlsValid;
    ClientsExact(c.clients);
    ResourcesExact(env, c.resources, ClientIds(c.clients));
    ControlsExact(env.addresses, c.controls, ResourceIds(c.resources));
  }
}
