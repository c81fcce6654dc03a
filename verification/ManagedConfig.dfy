/** Validation of the managed configuration: loops over hash sets against the order-free definition. */
module ManagedConfig {
  import opened Bytes
  import opened AgentSpecs
  import opened Sequences

  ghost predicate Fresh<T>(s: seq<T>, taken: set<T>)
  {
    Distinct(s) && forall x :: x in s ==> x !in taken
  }

  ghost function Members<T>(s: seq<T>): set<T>
  {
    set x | x in s
  }

  lemma {:induction false} FreshLast<T>(s: seq<T>, x: T, taken: set<T>)
    ensures Fresh(s + [x], taken) <==> Fresh(s, taken) && x !in taken + Members(s)
    ensures Members(s + [x]) == Members(s) + {x}
  {
    DistinctLast(s, x);
    assert x in s + [x];
    assert forall y :: y in s ==> y in s + [x];
  }

  lemma {:induction false} FreshPrefix<T>(a: seq<T>, b: seq<T>, taken: set<T>)
    ensures Fresh(a + b, taken) ==> Fresh(a, taken)
  {
    if Fresh(a + b, taken) {
      DistinctFront(a, b);
      assert forall x :: x in a ==> x in a + b;
    }
  }

  /** Distinctness of a concatenation, checked list by list with one shared set. */
  lemma {:induction false} FreshConcat<T>(a: seq<T>, b: seq<T>)
    ensures Distinct(a + b) <==> Distinct(a) && Fresh(b, Members(a))
    ensures Members(a + b) == Members(a) + Members(b)
  {
    var n := |b|;
    if n == 0 {
      assert a + b == a;
    } else {
      FreshConcat(a, b[..n - 1]);
      assert b == b[..n - 1] + [b[n - 1]] && a + b == (a + b[..n - 1]) + [b[n - 1]];
      DistinctLast(a + b[..n - 1], b[n - 1]);
      FreshLast(b[..n - 1], b[n - 1], Members(a));
      FreshLast(a + b[..n - 1], b[n - 1], {});
    }
  }

  lemma {:induction false} FreshFromNothing<T>(s: seq<T>)
    ensures Fresh(s, {}) <==> Distinct(s)
  {
  }

  lemma {:induction false} NothingTaken<T>(taken: set<T>)
    ensures Fresh([], taken) && taken + Members([]) == taken
  {
  }

  /** One list: every entry in order, and no mark repeated or already taken. */
  method CheckList<T, M(==)>(s: seq<T>, fine: T -> bool, mark: T -> M, taken: set<M>)
    returns (ok: bool, seen: set<M>)
    ensures ok <==> (forall i :: 0 <= i < |s| ==> fine(s[i])) && Fresh(Mapped(s, mark), taken)
    ensures ok ==> seen == taken + Members(Mapped(s, mark))
  {
    hide Fresh, Members, Mapped;
    seen := taken;
    NothingTaken(taken);
    MappedNothing(s, mark);
    for i := 0 to |s|
      invariant forall j :: 0 <= j < i ==> fine(s[j])
      invariant Fresh(Mapped(s[..i], mark), taken) && seen == taken + Members(Mapped(s[..i], mark))
    {
      FreshLast(Mapped(s[..i], mark), mark(s[i]), taken);
      MappedCut(s, mark, i);
      if !fine(s[i]) || mark(s[i]) in seen {
        FreshPrefix(Mapped(s[..i + 1], mark), Mapped(s[i + 1..], mark), taken);
        return false, seen;
      }
      seen := seen + {mark(s[i])};
    }
    assert s[..|s|] == s;
    ok := true;
  }

  method CheckProxies(ps: seq<Proxy>, taken: set<U16>) returns (ok: bool, ports: set<U16>)
    ensures ok <==>
            && (forall i :: 0 <= i < |ps| ==> ProxyOk(ps[i]))
            && Fresh(Mapped(ps, ProxyPort), taken) && Distinct(Mapped(ps, ProxyName))
    ensures ok ==> ports == taken + Members(Mapped(ps, ProxyPort))
  {
    hide ProxyOk, Fresh, Members, Distinct, Mapped;
    ports := taken;
    var names: set<string> := {};
    NothingTaken(taken);
    NothingTaken(names);
    FreshFromNothing(Mapped(ps, ProxyName));
    MappedNothing(ps, ProxyPort);
    MappedNothing(ps, ProxyName);
    for i := 0 to |ps|
      invariant forall j :: 0 <= j < i ==> ProxyOk(ps[j])
      invariant Fresh(Mapped(ps[..i], ProxyPort), taken) && ports == taken + Members(Mapped(ps[..i], ProxyPort))
      invariant Fresh(Mapped(ps[..i], ProxyName), {}) && names == Members(Mapped(ps[..i], ProxyName))
    {
      FreshLast(Mapped(ps[..i], ProxyPort), ps[i].publicPort, taken);
      FreshLast(Mapped(ps[..i], ProxyName), ps[i].name, {});
      MappedCut(ps, ProxyPort, i);
      MappedCut(ps, ProxyName, i);
      if !ProxyOk(ps[i]) || ps[i].publicPort in ports || ps[i].name in names {
        FreshPrefix(Mapped(ps[..i + 1], ProxyPort), Mapped(ps[i + 1..], ProxyPort), taken);
        FreshPrefix(Mapped(ps[..i + 1], ProxyName), Mapped(ps[i + 1..], ProxyName), {});
        return false, ports;
      }
      ports := ports + {ps[i].publicPort};
      names := names + {ps[i].name};
    }
    assert ps[..|ps|] == ps;
    ok := true;
  }

  method Validate(c: Config, revisionOf: Config -> string) returns (ok: bool)
    ensures ok <==> ConfigValid(c, revisionOf)
  {
    hide Fresh, Members, Distinct, Mapped;
    hide TunnelOk, RouteOk, SecretOk, ProxyOk;
    SharedPorts(c);
    FreshFromNothing(Mapped(c.udp, TunnelPort));
    FreshFromNothing(Mapped(c.http, Hostname));
    FreshFromNothing(Mapped(c.tls, Hostname));
    FreshFromNothing(Mapped(c.secrets, SecretName));
    if c.revision != revisionOf(c) {
      return false;
    }
    var ports, udpPorts, names;
    ok, ports := CheckList(c.tcp, TunnelOk, TunnelPort, {});
    if !ok {
      return;
    }
    ok, udpPorts := CheckList(c.udp, TunnelOk, TunnelPort, {});
    if !ok {
      return;
    }
    ok, names := CheckList(c.http, RouteOk, Hostname, {});
    if !ok {
      return;
    }
    ok, names := CheckList(c.tls, RouteOk, Hostname, {});
    if !ok {
      return;
    }
    ok, names := CheckList(c.secrets, SecretOk, SecretName, {});
    if !ok {
      return;
    }
    ok, ports := CheckProxies(c.socks5, ports);
    if !ok {
      return;
    }
    ok, ports := CheckProxies(c.httpProxies, ports);
  }

  lemma {:induction false} SharedPorts(c: Config)
    ensures var tcp, socks := Mapped(c.tcp, TunnelPort), Mapped(c.socks5, ProxyPort);
            var http := Mapped(c.httpProxies, ProxyPort);
            Distinct(tcp + socks + http) <==>
            Fresh(tcp, {}) && Fresh(socks, {} + Members(tcp)) && Fresh(http, {} + Members(tcp) + Members(socks))
  {
    hide Fresh, Members, Distinct;
    var tcp, socks := Mapped(c.tcp, TunnelPort), Mapped(c.socks5, ProxyPort);
    var http := Mapped(c.httpProxies, ProxyPort);
    FreshFromNothing(tcp);
    FreshConcat(tcp, socks);
    FreshConcat(tcp + socks, http);
    assert {} + Members(tcp) == Members(tcp);
  }
}
