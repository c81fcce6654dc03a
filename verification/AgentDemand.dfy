/**
 * Which agents a configuration calls for, read off its own lists: one for each enabled entry and each
 * visitor, with the settings of that entry, and no others.
 */
module AgentDemand {
  import opened Wrappers
  import opened Sequences
  import opened AgentSpecs

  /** `h` is `s` with its capital letters from A to Z made small. */
  predicate Lowered(h: string, s: string)
  {
    && |h| == |s|
    && forall i :: 0 <= i < |s| ==>
         if 'A' <= s[i] <= 'Z' then h[i] as int - 'a' as int == s[i] as int - 'A' as int else h[i] == s[i]
  }

  /** How many entries of the list satisfy `p`. */
  ghost function Many<T>(s: seq<T>, p: T -> bool): nat
  {
    |Places(s, p)|
  }

  ghost function Places<T>(s: seq<T>, p: T -> bool): set<nat>
  {
    set i | 0 <= i < |s| && p(s[i])
  }

  lemma {:induction false} LowerExact(h: string, s: string)
    ensures Lower(s) == h <==> Lowered(h, s)
  {
  }

  // ---------------------------------------------------------------- one list

  lemma {:induction false} ItemsOfExact<T(!new)>(s: seq<T>, enabled: T -> bool, item: T -> Item, i: Item)
    ensures i in ItemsOf(s, enabled, item) <==> exists x :: x in s && enabled(x) && item(x) == i
    decreases |s|
  {
    if s == [] {
    } else {
      var init, last := s[..|s| - 1], s[|s| - 1];
      ItemsOfExact(init, enabled, item, i);
      assert forall x :: x in s <==> x in init || x == last;
    }
  }

  lemma {:induction false} ItemsOfCount<T>(s: seq<T>, enabled: T -> bool, item: T -> Item)
    ensures |ItemsOf(s, enabled, item)| == Many(s, enabled)
    decreases |s|
  {
    if s == [] {
      assert Places(s, enabled) == {};
    } else {
      var n := |s| - 1;
      ItemsOfCount(s[..n], enabled, item);
      assert Places(s, enabled) == Places(s[..n], enabled) + if enabled(s[n]) then {n} else {};
    }
  }

  // ---------------------------------------------------------------- all lists

  /** The map holds exactly the items, once their keys are distinct. */
  lemma {:induction false} EntriesAreItems(c: Config, visitors: seq<Visitor>, revisionOf: Config -> string, i: Item)
    requires ConfigValid(c, revisionOf) && Distinct(Mapped(visitors, VisitorName))
    ensures var specs := Inserted(map[], Items(c, visitors));
      i in Items(c, visitors) <==> i.key in specs && specs[i.key] == i.spec
  {
    hide Items, ConfigValid, Inserted;
    SpecsAreItems(c, visitors, revisionOf);
    var items, specs := Items(c, visitors), Inserted(map[], Items(c, visitors));
    if i in items {
      var j :| 0 <= j < |items| && items[j] == i;
    }
    if i.key in specs && specs[i.key] == i.spec {
      assert HasKey(items, i.key);
      var j :| 0 <= j < |items| && items[j].key == i.key;
      assert items[j] == i;
    }
  }

  /** Where an item may come from: the entry of the one list whose kind its key has. */
  lemma {:induction false} ItemSource(c: Config, visitors: seq<Visitor>, i: Item)
    ensures i in Items(c, visitors) <==>
      match i.key
      case TcpKey(_, _) => exists t :: t in c.tcp && t.enabled && TcpItem(t) == i
      case UdpKey(_, _) => exists t :: t in c.udp && t.enabled && UdpItem(t) == i
      case HttpKey(_) => exists r :: r in c.http && r.enabled && HttpItem(r) == i
      case TlsKey(_) => exists r :: r in c.tls && r.enabled && TlsItem(r) == i
      case SecretTargetKey(_) => exists s :: s in c.secrets && s.enabled && SecretItem(s) == i
      case SecretVisitorKey(_) => exists v :: v in visitors && VisitorItem(v) == i
      case Socks5Key(_, _) => exists p :: p in c.socks5 && p.enabled && Socks5Item(p) == i
      case HttpProxyKey(_, _) => exists p :: p in c.httpProxies && p.enabled && HttpProxyItem(p) == i
  {
    hide ItemsOf, Lower;
    ItemsOfExact(c.tcp, (t: Tunnel) => t.enabled, TcpItem, i);
    ItemsOfExact(c.udp, (t: Tunnel) => t.enabled, UdpItem, i);
    ItemsOfExact(c.http, (r: Route) => r.enabled, HttpItem, i);
    ItemsOfExact(c.tls, (r: Route) => r.enabled, TlsItem, i);
    ItemsOfExact(c.secrets, (s: Secret) => s.enabled, SecretItem, i);
    ItemsOfExact(visitors, (v: Visitor) => true, VisitorItem, i);
    ItemsOfExact(c.socks5, (p: Proxy) => p.enabled, Socks5Item, i);
    ItemsOfExact(c.httpProxies, (p: Proxy) => p.enabled, HttpProxyItem, i);
  }

  /** The configuration or the visitors ask for an agent of this very key and these very settings. */
  ghost predicate Demanded(c: Config, visitors: seq<Visitor>, key: Key, spec: Spec)
  {
    match (key, spec)
    case (TcpKey(n, p), Tcp(name, port, target)) => n == name && p == port && Tunnel(n, p, target, true) in c.tcp
    case (UdpKey(n, p), Udp(name, port, target)) => n == name && p == port && Tunnel(n, p, target, true) in c.udp
    case (HttpKey(h), Http(name, hostname, target)) =>
      h == hostname && exists s :: Lowered(h, s) && Route(name, s, target, true) in c.http
    case (TlsKey(h), Tls(name, hostname, target)) =>
      h == hostname && exists s :: Lowered(h, s) && Route(name, s, target, true) in c.tls
    case (SecretTargetKey(n), SecretTarget(name, target)) => n == name && Secret(n, target, true) in c.secrets
    case (SecretVisitorKey(n), SecretVisitor(name, bind, accessKey, policy)) =>
      n == name && exists direct, chosen ::
        && Visitor(n, bind, accessKey, direct, chosen) in visitors
        && (chosen.Some? ==> policy == chosen.value)
        && (chosen.None? ==> policy == if direct then PreferDirect else RelayOnly)
    case (Socks5Key(n, p), Socks5(name, port, allow)) => n == name && p == port && Proxy(n, p, allow, true) in c.socks5
    case (HttpProxyKey(n, p), HttpProxy(name, port, allow)) =>
      n == name && p == port && Proxy(n, p, allow, true) in c.httpProxies
    case _ => false
  }

  lemma {:induction false} RouteDemand(rs: seq<Route>, h: string, name: string, target: string)
    ensures (exists r :: r in rs && r.enabled && Lower(r.hostname) == h && r.name == name && r.target == target) <==>
      exists s :: Lowered(h, s) && Route(name, s, target, true) in rs
  {
    hide Lower, Lowered;
    if r :| r in rs && r.enabled && Lower(r.hostname) == h && r.name == name && r.target == target {
      LowerExact(h, r.hostname);
      assert Route(name, r.hostname, target, true) == r;
    }
    if s :| Lowered(h, s) && Route(name, s, target, true) in rs {
      LowerExact(h, s);
      assert Route(name, s, target, true).enabled;
    }
  }

  lemma {:induction false} ItemIsDemanded(c: Config, visitors: seq<Visitor>, key: Key, spec: Spec)
    ensures Item(key, spec) in Items(c, visitors) <==> Demanded(c, visitors, key, spec)
  {
    hide Items, Lower, Lowered;
    var i := Item(key, spec);
    ItemSource(c, visitors, i);
    match (key, spec)
    case (TcpKey(n, p), Tcp(_, _, target)) => assert TcpItem(Tunnel(n, p, target, true)).key == key;
    case (UdpKey(n, p), Udp(_, _, target)) => assert UdpItem(Tunnel(n, p, target, true)).key == key;
    case (HttpKey(h), Http(name, _, target)) => RouteDemand(c.http, h, name, target);
    case (TlsKey(h), Tls(name, _, target)) => RouteDemand(c.tls, h, name, target);
    case (SecretTargetKey(n), SecretTarget(_, target)) => assert SecretItem(Secret(n, target, true)).key == key;
    case (SecretVisitorKey(n), SecretVisitor(_, _, _, _)) =>
    case (Socks5Key(n, p), Socks5(_, _, allow)) => assert Socks5Item(Proxy(n, p, allow, true)).key == key;
    case (HttpProxyKey(n, p), HttpProxy(_, _, allow)) => assert HttpProxyItem(Proxy(n, p, allow, true)).key == key;
    case _ =>
  }

  /** An agent is specified exactly if it is asked for. */
  lemma {:induction false} SpecsAreDemanded(
    c: Config, visitors: seq<Visitor>, revisionOf: Config -> string, key: Key, spec: Spec)
    requires ConfigValid(c, revisionOf) && Distinct(Mapped(visitors, VisitorName))
    ensures var specs := Inserted(map[], Items(c, visitors));
      key in specs && specs[key] == spec <==> Demanded(c, visitors, key, spec)
  {
    hide Items, ConfigValid, Inserted, Demanded;
    EntriesAreItems(c, visitors, revisionOf, Item(key, spec));
    ItemIsDemanded(c, visitors, key, spec);
  }

  /** There are as many agents as enabled entries and visitors. */
  lemma {:induction false} SpecsAreCounted(c: Config, visitors: seq<Visitor>, revisionOf: Config -> string)
    requires ConfigValid(c, revisionOf) && Distinct(Mapped(visitors, VisitorName))
    ensures |Inserted(map[], Items(c, visitors))|
         == Many(c.tcp, (t: Tunnel) => t.enabled) + Many(c.udp, (t: Tunnel) => t.enabled)
          + Many(c.http, (r: Route) => r.enabled) + Many(c.tls, (r: Route) => r.enabled)
          + Many(c.secrets, (s: Secret) => s.enabled) + |visitors|
          + Many(c.socks5, (p: Proxy) => p.enabled) + Many(c.httpProxies, (p: Proxy) => p.enabled)
  {
    hide ConfigValid, Inserted, ItemsOf, Many;
    SpecsAreItems(c, visitors, revisionOf);
    ItemsOfCount(c.tcp, (t: Tunnel) => t.enabled, TcpItem);
    ItemsOfCount(c.udp, (t: Tunnel) => t.enabled, UdpItem);
    ItemsOfCount(c.http, (r: Route) => r.enabled, HttpItem);
    ItemsOfCount(c.tls, (r: Route) => r.enabled, TlsItem);
    ItemsOfCount(c.secrets, (s: Secret) => s.enabled, SecretItem);
    ItemsOfCount(visitors, (v: Visitor) => true, VisitorItem);
    AllPlaces(visitors);
    ItemsOfCount(c.socks5, (p: Proxy) => p.enabled, Socks5Item);
    ItemsOfCount(c.httpProxies, (p: Proxy) => p.enabled, HttpProxyItem);
  }

  lemma {:induction false} AllPlaces<T>(s: seq<T>)
    ensures Many(s, (x: T) => true) == |s|
    decreases |s|
  {
    var all := (x: T) => true;
    if s == [] {
      assert Places(s, all) == {};
    } else {
      var n := |s| - 1;
      AllPlaces(s[..n]);
      assert Places(s, all) == Places(s[..n], all) + {n};
    }
  }
}
