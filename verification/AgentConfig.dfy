/** Which managed configurations are accepted, said of their entries two at a time. */
module AgentConfig {
  import opened Sequences
  import opened Text
  import opened AgentSpecs
  import opened AgentDemand
  import opened ManagedConfig

  /** Something other than white space stands there. */
  predicate Filled(s: string)
  {
    exists i :: 0 <= i < |s| && !Whitespace(s[i])
  }

  ghost predicate EntriesFilled(c: Config)
  {
    && (forall t :: t in c.tcp || t in c.udp ==> Filled(t.name) && t.publicPort > 0 && Filled(t.target))
    && (forall r :: r in c.http || r in c.tls ==> Filled(r.name) && Filled(r.hostname) && Filled(r.target))
    && (forall s :: s in c.secrets ==> Filled(s.name) && Filled(s.target))
    && (forall p :: p in c.socks5 || p in c.httpProxies ==> Filled(p.name) && p.publicPort > 0)
  }

  predicate TunnelsApart(ts: seq<Tunnel>)
  {
    forall i, j :: 0 <= i < j < |ts| ==> ts[i].publicPort != ts[j].publicPort
  }

  predicate ProxiesApart(ps: seq<Proxy>)
  {
    forall i, j :: 0 <= i < j < |ps| ==> ps[i].publicPort != ps[j].publicPort && ps[i].name != ps[j].name
  }

  /** The hostnames differ by more than the case of their letters from A to Z. */
  ghost predicate RoutesApart(rs: seq<Route>)
  {
    forall i, j, h :: 0 <= i < j < |rs| && Lowered(h, rs[i].hostname) ==> !Lowered(h, rs[j].hostname)
  }

  /** TCP tunnels and proxies of both kinds share one space of ports. */
  ghost predicate PortsShared(c: Config)
  {
    && (forall t, p :: t in c.tcp && (p in c.socks5 || p in c.httpProxies) ==> t.publicPort != p.publicPort)
    && (forall p, q :: p in c.socks5 && q in c.httpProxies ==> p.publicPort != q.publicPort)
  }

  ghost predicate Acceptable(c: Config, revisionOf: Config -> string)
  {
    && c.revision == revisionOf(c) && EntriesFilled(c)
    && TunnelsApart(c.tcp) && TunnelsApart(c.udp) && RoutesApart(c.http) && RoutesApart(c.tls)
    && (forall i, j :: 0 <= i < j < |c.secrets| ==> c.secrets[i].name != c.secrets[j].name)
    && ProxiesApart(c.socks5) && ProxiesApart(c.httpProxies) && PortsShared(c)
  }

  lemma {:induction false} BlankExact(s: string)
    ensures Blank(s) <==> !Filled(s)
  {
    hide Trim, Whitespace;
    TrimExact(s, "");
    assert s == s + "" + "";
    assert AllWhite("");
  }

  lemma {:induction false} MappedApart<T, K>(s: seq<T>, f: T -> K)
    ensures Distinct(Mapped(s, f)) <==> forall i, j :: 0 <= i < j < |s| ==> f(s[i]) != f(s[j])
  {
    var m := Mapped(s, f);
    assert forall i :: 0 <= i < |s| ==> m[i] == f(s[i]);
  }

  lemma {:induction false} RoutesExact(rs: seq<Route>)
    ensures Distinct(Mapped(rs, Hostname)) <==> RoutesApart(rs)
  {
    hide Lower, Lowered, Mapped;
    MappedApart(rs, Hostname);
    forall i, j | 0 <= i < j < |rs|
      ensures Hostname(rs[i]) != Hostname(rs[j]) <==>
        forall h :: Lowered(h, rs[i].hostname) ==> !Lowered(h, rs[j].hostname)
    {
      NamesApart(rs[i].hostname, rs[j].hostname);
    }
  }

  lemma {:induction false} NamesApart(a: string, b: string)
    ensures Lower(a) != Lower(b) <==> forall h :: Lowered(h, a) ==> !Lowered(h, b)
  {
    hide Lower, Lowered;
    LowerExact(Lower(a), a);
    LowerExact(Lower(a), b);
    forall h ensures (Lower(a) == h <==> Lowered(h, a)) && (Lower(b) == h <==> Lowered(h, b)) {
      LowerExact(h, a);
      LowerExact(h, b);
    }
  }

  lemma {:induction false} MappedOverlap<S(!new), T(!new), K>(s: seq<S>, f: S -> K, t: seq<T>, g: T -> K)
    ensures (forall k :: k in Mapped(t, g) ==> k !in Mapped(s, f)) <==>
      forall x, y :: x in s && y in t ==> f(x) != g(y)
  {
    var a, b := Mapped(s, f), Mapped(t, g);
    if forall k :: k in b ==> k !in a {
      forall x, y | x in s && y in t ensures f(x) != g(y) {
        var i :| 0 <= i < |s| && s[i] == x;
        var j :| 0 <= j < |t| && t[j] == y;
        assert a[i] in a && b[j] in b;
      }
    }
    assert forall i :: 0 <= i < |s| ==> s[i] in s && a[i] == f(s[i]);
    assert forall j :: 0 <= j < |t| ==> t[j] in t && b[j] == g(t[j]);
  }

  lemma {:induction false} PortsExact(c: Config)
    ensures Distinct(Mapped(c.tcp, TunnelPort) + Mapped(c.socks5, ProxyPort) + Mapped(c.httpProxies, ProxyPort)) <==>
      && TunnelsApart(c.tcp) && PortsShared(c)
      && Distinct(Mapped(c.socks5, ProxyPort)) && Distinct(Mapped(c.httpProxies, ProxyPort))
  {
    hide Mapped, Distinct, TunnelsApart;
    var tcp, socks, http := Mapped(c.tcp, TunnelPort), Mapped(c.socks5, ProxyPort), Mapped(c.httpProxies, ProxyPort);
    SharedPorts(c);
    TunnelsExact(c.tcp);
    MappedOverlap(c.tcp, TunnelPort, c.socks5, ProxyPort);
    MappedOverlap(c.tcp, TunnelPort, c.httpProxies, ProxyPort);
    MappedOverlap(c.socks5, ProxyPort, c.httpProxies, ProxyPort);
    assert PortsShared(c) <==>
        (forall k :: k in socks ==> k !in tcp) && (forall k :: k in http ==> k !in tcp && k !in socks);
  }

  lemma {:induction false} TunnelsExact(ts: seq<Tunnel>)
    ensures Distinct(Mapped(ts, TunnelPort)) <==> TunnelsApart(ts)
  {
    MappedApart(ts, TunnelPort);
  }

  lemma {:induction false} FilledExact(c: Config)
    ensures EntriesFilled(c) <==>
      && (forall i :: 0 <= i < |c.tcp| ==> TunnelOk(c.tcp[i]))
      && (forall i :: 0 <= i < |c.udp| ==> TunnelOk(c.udp[i]))
      && (forall i :: 0 <= i < |c.http| ==> RouteOk(c.http[i]))
      && (forall i :: 0 <= i < |c.tls| ==> RouteOk(c.tls[i]))
      && (forall i :: 0 <= i < |c.secrets| ==> SecretOk(c.secrets[i]))
      && (forall i :: 0 <= i < |c.socks5| ==> ProxyOk(c.socks5[i]))
      && (forall i :: 0 <= i < |c.httpProxies| ==> ProxyOk(c.httpProxies[i]))
  {
    hide Blank, Filled;
    forall s ensures Blank(s) <==> !Filled(s) {
      BlankExact(s);
    }
    assert forall i :: 0 <= i < |c.tcp| ==> c.tcp[i] in c.tcp;
    assert forall i :: 0 <= i < |c.udp| ==> c.udp[i] in c.udp;
    assert forall i :: 0 <= i < |c.http| ==> c.http[i] in c.http;
    assert forall i :: 0 <= i < |c.tls| ==> c.tls[i] in c.tls;
    assert forall i :: 0 <= i < |c.secrets| ==> c.secrets[i] in c.secrets;
    assert forall i :: 0 <= i < |c.socks5| ==> c.socks5[i] in c.socks5;
    assert forall i :: 0 <= i < |c.httpProxies| ==> c.httpProxies[i] in c.httpProxies;
  }

  /** Valid are exactly the configurations of the right revision whose entries are filled in and kept apart. */
  lemma {:induction false} ValidExact(c: Config, revisionOf: Config -> string)
    ensures ConfigValid(c, revisionOf) <==> Acceptable(c, revisionOf)
  {
    hide TunnelOk, RouteOk, SecretOk, ProxyOk, EntriesFilled, TunnelsApart, RoutesApart, PortsShared, Mapped, Distinct;
    FilledExact(c);
    PortsExact(c);
    TunnelsExact(c.udp);
    MappedApart(c.secrets, SecretName);
    RoutesExact(c.http);
    RoutesExact(c.tls);
    MappedApart(c.socks5, ProxyPort);
    MappedApart(c.socks5, ProxyName);
    MappedApart(c.httpProxies, ProxyPort);
    MappedApart(c.httpProxies, ProxyName);
  }
}
