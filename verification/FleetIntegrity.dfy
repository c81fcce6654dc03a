/** Digest and revision of a Fleet bundle, and the code that validates, seals and canonicalises bundles. */
module FleetIntegrity {
  import opened Wrappers
  import opened Bytes
  import opened Sorting
  import opened Cidr
  import opened FleetBundle
  import opened FleetCanonical

  const REVISION_PREFIX := "sha256:"

  function Validate<S(==)>(env: Env<S>, b: Bundle<S>): Option<Error>
  {
    var structure := StructureError(env, b.content);
    if structure.Some? then structure
    else if !ValidHex(b.digest, 32) then Some(InvalidContentSha256)
    else
      AcceptedIsReadable(env, b.content);
      var expected := DigestOf(env, b.content);
      if b.digest != expected then Some(ContentSha256Mismatch)
      else if b.revision != REVISION_PREFIX + expected then Some(RevisionMismatch)
      else None
  }

  /** After validation every CIDR normalises, so canonicalisation cannot panic. */
  lemma {:induction false} AcceptedIsReadable<S>(env: Env<S>, c: Content<S>)
    requires StructureError(env, c).None?
    ensures Readable(env, c)
  {
    hide ClientsError, ResourcesError, ControlsError, HeaderError;
    AcceptedControls(env.addresses, c.controls, ResourceIds(c.resources));
  }

  lemma {:induction false} AcceptedControls(text: AddressText, controls: seq<Control>, resources: set<Uuid>)
    requires ControlsError(text, controls, resources).None?
    ensures forall i :: 0 <= i < |controls| ==> ControlReadable(text, controls[i])
  {
    hide ControlError, ControlReadable;
    if controls == [] {
    } else {
      var n := |controls|;
      AcceptedControls(text, controls[..n - 1], resources);
      AcceptedControl(text, controls[n - 1], resources, ControlIds(controls[..n - 1]));
      assert forall i :: 0 <= i < n - 1 ==> controls[..n - 1][i] == controls[i];
    }
  }

  lemma {:induction false} AcceptedControl(text: AddressText, control: Control, resources: set<Uuid>, seen: set<Uuid>)
    requires ControlError(text, control, resources, seen).None?
    ensures ControlReadable(text, control)
  {
    hide AllCidrs, Spellings;
  }

  function Sealed<S>(env: Env<S>, c: Content<S>): Bundle<S>
    requires Readable(env, c)
  {
    Bundle(c, DigestOf(env, c), REVISION_PREFIX + DigestOf(env, c))
  }

  function CanonicalBundle<S>(env: Env<S>, b: Bundle<S>): Bundle<S>
    requires Readable(env, b.content)
  {
    b.(content := CanonicalContent(env, b.content))
  }

  /** A bundle is valid exactly when it is structurally sound and carries the seal of its content. */
  lemma {:induction false} ValidExactly<S(!new)>(env: Env<S>, b: Bundle<S>)
    requires EnvOk(env)
    ensures Validate(env, b).None? <==>
      Structured(env, b.content) && Readable(env, b.content) && b == Sealed(env, b.content)
  {
    hide StructureError, Structured, Readable, Faithful, CanonicalContent, ValidHex;
    StructureExact(env, b.content);
    if StructureError(env, b.content).None? {
      AcceptedIsReadable(env, b.content);
      assert ValidHex(env.sha256(CanonicalContent(env, b.content)), 32);
    }
  }

  /** Rearranging or respelling the content of a valid bundle leaves it valid under the same digest and revision. */
  lemma {:induction false} ValidityIgnoresOrder<S(!new)>(env: Env<S>, b: Bundle<S>, c: Content<S>)
    requires EnvOk(env) && Validate(env, b).None? && SameContent(env, b.content, c) && SameSizes(b.content, c)
    ensures Validate(env, b.(content := c)).None?
  {
    hide Validate, Structured, Readable, Faithful, CanonicalContent, SameContent, SameSizes;
    ValidExactly(env, b);
    RearrangedIsSound(env, b.content, c);
    ValidExactly(env, b.(content := c));
  }

  /** The canonical bundle is valid with the same digest, and is its own canonical bundle. */
  lemma {:induction false} CanonicalBundleIsValid<S(!new)>(env: Env<S>, b: Bundle<S>)
    requires EnvOk(env) && Validate(env, b).None?
    ensures Readable(env, b.content) && Validate(env, CanonicalBundle(env, b)).None?
    ensures Readable(env, CanonicalBundle(env, b).content)
    ensures CanonicalBundle(env, CanonicalBundle(env, b)) == CanonicalBundle(env, b)
  {
    hide Validate, Structured, Readable, Faithful, CanonicalContent;
    ValidExactly(env, b);
    CanonicalIsFixpoint(env, b.content);
    ValidExactly(env, CanonicalBundle(env, b));
  }

  /** Two valid bundles have equal canonical bundles only if they say the same, and then always. */
  lemma {:induction false} CanonicalBundleDecides<S(!new)>(env: Env<S>, a: Bundle<S>, b: Bundle<S>)
    requires EnvOk(env) && Validate(env, a).None? && Validate(env, b).None?
    ensures Readable(env, a.content) && Readable(env, b.content)
    ensures CanonicalBundle(env, a) == CanonicalBundle(env, b) <==> SameContent(env, a.content, b.content)
  {
    hide Validate, Structured, Readable, Faithful, CanonicalContent, SameContent;
    ValidExactly(env, a);
    ValidExactly(env, b);
    CanonicalContentDecides(env, a.content, b.content);
  }

  // ---------------------------------------------------------------- the code

  lemma {:induction false} ClientsFail(clients: seq<Client>, n: nat)
    requires n <= |clients| && ClientsError(clients[..n]).Some?
    ensures ClientsError(clients) == ClientsError(clients[..n])
    decreases |clients|
  {
    hide ClientError;
    if n == |clients| {
      assert clients[..n] == clients;
    } else {
      assert clients[..|clients| - 1][..n] == clients[..n];
      ClientsFail(clients[..|clients| - 1], n);
    }
  }

  lemma {:induction false} ResourcesFail<S>(env: Env<S>, resources: seq<Resource<S>>, clients: set<Uuid>, n: nat)
    requires n <= |resources| && ResourcesError(env, resources[..n], clients).Some?
    ensures ResourcesError(env, resources, clients) == ResourcesError(env, resources[..n], clients)
    decreases |resources|
  {
    hide ResourceError;
    if n == |resources| {
      assert resources[..n] == resources;
    } else {
      assert resources[..|resources| - 1][..n] == resources[..n];
      ResourcesFail(env, resources[..|resources| - 1], clients, n);
    }
  }

  lemma {:induction false} ControlsFail(text: AddressText, controls: seq<Control>, resources: set<Uuid>, n: nat)
    requires n <= |controls| && ControlsError(text, controls[..n], resources).Some?
    ensures ControlsError(text, controls, resources) == ControlsError(text, controls[..n], resources)
    decreases |controls|
  {
    hide ControlError;
    if n == |controls| {
      assert controls[..n] == controls;
    } else {
      assert controls[..|controls| - 1][..n] == controls[..n];
      ControlsFail(text, controls[..|controls| - 1], resources, n);
    }
  }

  lemma {:induction false} NoClientIds(clients: seq<Client>)
    ensures ClientIds(clients[..0]) == {}
  {
  }

  lemma {:induction false} ClientIdsAppend(clients: seq<Client>, i: nat)
    requires i < |clients|
    ensures ClientIds(clients[..i + 1]) == ClientIds(clients[..i]) + {clients[i].id}
  {
    assert clients[..i + 1] == clients[..i] + [clients[i]];
  }

  method CheckClients(clients: seq<Client>) returns (error: Option<Error>, seen: set<Uuid>)
    ensures error == ClientsError(clients)
    ensures error.None? ==> seen == ClientIds(clients)
  {
    hide ValidName, ValidHex, ClientIds, ClientError;
    seen := {};
    assert seen == ClientIds(clients[..0]) by { NoClientIds(clients); }
    for i := 0 to |clients|
      invariant ClientsError(clients[..i]) == None && seen == ClientIds(clients[..i])
    {
      var client := clients[i];
      assert clients[..i + 1][..i] == clients[..i];
      ClientIdsAppend(clients, i);
      error := ClientError(client, seen);
      if error.Some? {
        ClientsFail(clients, i + 1);
        return;
      }
      seen := seen + {client.id};
    }
    assert clients[..|clients|] == clients;
    error := None;
  }

  method CheckReferences(ids: seq<Uuid>, clients: set<Uuid>) returns (error: Option<Error>)
    ensures error == FirstUnknown(ids, clients)
  {
    for i := 0 to |ids|
      invariant FirstUnknown(ids, clients) == FirstUnknown(ids[i..], clients)
    {
      assert ids[i..][1..] == ids[i + 1..];
      if ids[i] !in clients {
        return Some(UnknownClient(ids[i]));
      }
    }
    error := None;
  }

  method CheckResources<S(==)>(env: Env<S>, resources: seq<Resource<S>>, clients: set<Uuid>)
    returns (error: Option<Error>, seen: set<Uuid>)
    ensures error == ResourcesError(env, resources, clients)
    ensures error.None? ==> seen == ResourceIds(resources)
  {
    seen := {};
    for i := 0 to |resources|
      invariant ResourcesError(env, resources[..i], clients) == None && seen == ResourceIds(resources[..i])
    {
      var resource := resources[i];
      assert resources[..i + 1] == resources[..i] + [resource] && resources[..i + 1][..i] == resources[..i];
      if resource.id == NIL_UUID {
        error := Some(InvalidField("resources.resource_id"));
      } else if resource.id in seen {
        error := Some(DuplicateResource(resource.id));
      } else {
        error := env.specError(resource.spec);
        if error.None? {
          error := CheckReferences(env.referenced(resource.spec), clients);
        }
      }
      if error.Some? {
        ResourcesFail(env, resources, clients, i + 1);
        return;
      }
      ResourceIdMembers(resources[..i]);
      ResourceIdMembers(resources[..i + 1]);
      seen := seen + {resource.id};
    }
    assert resources[..|resources|] == resources;
    error := None;
  }

  lemma {:induction false} NoControls(text: AddressText, controls: seq<Control>, resources: set<Uuid>)
    ensures ControlsError(text, controls[..0], resources) == None && ControlIds(controls[..0]) == {}
  {
  }

  lemma {:induction false} ControlsStep(text: AddressText, controls: seq<Control>, resources: set<Uuid>, i: nat)
    requires i < |controls| && ControlsError(text, controls[..i], resources) == None
    ensures ControlsError(text, controls[..i + 1], resources) ==
            ControlError(text, controls[i], resources, ControlIds(controls[..i]))
    ensures ControlIds(controls[..i + 1]) == ControlIds(controls[..i]) + {controls[i].id}
  {
    hide ControlError;
    assert controls[..i + 1] == controls[..i] + [controls[i]] && controls[..i + 1][..i] == controls[..i];
  }

  method CheckControls(text: AddressText, controls: seq<Control>, resources: set<Uuid>) returns (error: Option<Error>)
    ensures error == ControlsError(text, controls, resources)
  {
    hide ControlError, ControlsError, ControlIds;
    var seen: set<Uuid> := {};
    NoControls(text, controls, resources);
    for i := 0 to |controls|
      invariant ControlsError(text, controls[..i], resources) == None && seen == ControlIds(controls[..i])
    {
      var control := controls[i];
      ControlsStep(text, controls, resources, i);
      error := ControlError(text, control, resources, seen);
      if error.Some? {
        ControlsFail(text, controls, resources, i + 1);
        return;
      }
      seen := seen + {control.id};
    }
    assert controls[..|controls|] == controls;
    error := None;
  }

  method ValidateStructure<S(==)>(env: Env<S>, c: Content<S>) returns (error: Option<Error>)
    ensures error == StructureError(env, c)
  {
    hide ClientsError, ResourcesError, ControlsError, HeaderError, ClientIds, ResourceIds;
    error := HeaderError(c);
    if error.Some? {
      return;
    }
    var clients, resources;
    error, clients := CheckClients(c.clients);
    if error.Some? {
      return;
    }
    error, resources := CheckResources(env, c.resources, clients);
    if error.Some? {
      return;
    }
    error := CheckControls(env.addresses, c.controls, resources);
  }

  method Canonicalize<S>(env: Env<S>, c: Content<S>) returns (canonical: Content<S>)
    requires Readable(env, c)
    ensures canonical == CanonicalContent(env, c)
  {
    hide CanonicalControl, SortByKey;
    var controls := c.controls;
    for i := 0 to |controls|
      invariant |controls| == |c.controls|
      invariant forall j :: 0 <= j < i ==> controls[j] == CanonicalControl(env.addresses, c.controls[j])
      invariant forall j :: i <= j < |controls| ==> controls[j] == c.controls[j]
    {
      controls := controls[i := CanonicalControl(env.addresses, controls[i])];
    }
    assert controls == CanonicalControls(env, c);
    canonical := c.(
      clients := SortByKey(c.clients, ClientKey),
      resources := SortByKey(c.resources, ResourceKey),
      controls := SortByKey(controls, ControlKey));
  }

  /** Recomputes digest and revision; fails, changing nothing, exactly on unsound content. */
  method RefreshIntegrity<S(==)>(env: Env<S>, b: Bundle<S>) returns (r: Result<Bundle<S>, Error>)
    ensures r.Err? <==> StructureError(env, b.content).Some?
    ensures r.Err? ==> Some(r.error) == StructureError(env, b.content)
    ensures r.Ok? ==> Readable(env, b.content) && r.value == Sealed(env, b.content)
  {
    hide StructureError, Readable, CanonicalContent;
    var error := ValidateStructure(env, b.content);
    if error.Some? {
      return Err(error.value);
    }
    AcceptedIsReadable(env, b.content);
    var canonical := Canonicalize(env, b.content);
    var digest := env.sha256(canonical);
    r := Ok(b.(digest := digest, revision := REVISION_PREFIX + digest));
  }

  method ValidateBundle<S(==)>(env: Env<S>, b: Bundle<S>) returns (error: Option<Error>)
    ensures error == Validate(env, b)
  {
    hide StructureError, Readable, CanonicalContent, ValidHex;
    error := ValidateStructure(env, b.content);
    if error.Some? {
      return;
    }
    if !ValidHex(b.digest, 32) {
      return Some(InvalidContentSha256);
    }
    AcceptedIsReadable(env, b.content);
    var canonical := Canonicalize(env, b.content);
    var expected := env.sha256(canonical);
    if b.digest != expected {
      return Some(ContentSha256Mismatch);
    }
    if b.revision != REVISION_PREFIX + expected {
      return Some(RevisionMismatch);
    }
    error := None;
  }

  /** A new bundle is accepted exactly when its content is sound, and is then valid. */
  method New<S(==, !new)>(env: Env<S>, c: Content<S>) returns (r: Result<Bundle<S>, Error>)
    requires EnvOk(env) && c.schema == SCHEMA_VERSION
    ensures r.Ok? <==> Structured(env, c)
    ensures r.Ok? ==> r.value.content == c && Validate(env, r.value).None?
    ensures r.Err? ==> Some(r.error) == StructureError(env, c)
  {
    hide StructureError, Structured, Readable, CanonicalContent, Validate, Faithful;
    StructureExact(env, c);
    var error := ValidateStructure(env, c);
    if error.Some? {
      return Err(error.value);
    }
    var refreshed := RefreshIntegrity(env, Bundle(c, "", ""));
    if refreshed.Err? {
      return refreshed;
    }
    ValidExactly(env, refreshed.value);
    error := ValidateBundle(env, refreshed.value);
    r := match error
      case Some(e) => Err(e)
      case None => refreshed;
  }
}
