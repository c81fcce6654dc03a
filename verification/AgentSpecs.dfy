/** The managed client configuration, its validation, and the agents it calls for. */
module AgentSpecs {
  import opened Wrappers
  import opened Bytes
  import opened Sequences
  import opened Text

  datatype Tunnel = Tunnel(name: string, publicPort: U16, target: string, enabled: bool)
  datatype Route = Route(name: string, hostname: string, target: string, enabled: bool)
  datatype Secret = Secret(name: string, target: string, enabled: bool)
  datatype Proxy = Proxy(name: string, publicPort: U16, allowPrivate: bool, enabled: bool)
  datatype PathPolicy = PreferDirect | DirectOnly | RelayOnly
  datatype Visitor = Visitor(
    name: string, localBind: string, accessKey: string, preferDirect: bool, pathPolicy: Option<PathPolicy>)

  datatype Config = Config(
    revision: string, tcp: seq<Tunnel>, udp: seq<Tunnel>, http: seq<Route>, tls: seq<Route>,
    secrets: seq<Secret>, socks5: seq<Proxy>, httpProxies: seq<Proxy>)

  datatype Key =
    | TcpKey(name: string, port: U16)
    | UdpKey(name: string, port: U16)
    | HttpKey(hostname: string)
    | TlsKey(hostname: string)
    | SecretTargetKey(name: string)
    | SecretVisitorKey(name: string)
    | Socks5Key(name: string, port: U16)
    | HttpProxyKey(name: string, port: U16)

  datatype Spec =
    | Tcp(name: string, port: U16, target: string)
    | Udp(name: string, port: U16, target: string)
    | Http(name: string, hostname: string, target: string)
    | Tls(name: string, hostname: string, target: string)
    | SecretTarget(name: string, target: string)
    | SecretVisitor(name: string, localBind: string, accessKey: string, policy: PathPolicy)
    | Socks5(name: string, port: U16, allowPrivate: bool)
    | HttpProxy(name: string, port: U16, allowPrivate: bool)

  datatype Item = Item(key: Key, spec: Spec)

  function LowerChar(c: char): char
  {
    if 'A' <= c <= 'Z' then (c as int + 32) as char else c
  }

  function Lower(s: string): string
  {
    seq(|s|, i requires 0 <= i < |s| => LowerChar(s[i]))
  }

  // ---------------------------------------------------------------- the enabled items

  function TcpItem(t: Tunnel): Item
  {
    Item(TcpKey(t.name, t.publicPort), Tcp(t.name, t.publicPort, t.target))
  }

  function UdpItem(t: Tunnel): Item
  {
    Item(UdpKey(t.name, t.publicPort), Udp(t.name, t.publicPort, t.target))
  }

  function HttpItem(r: Route): Item
  {
    Item(HttpKey(Lower(r.hostname)), Http(r.name, Lower(r.hostname), r.target))
  }

  function TlsItem(r: Route): Item
  {
    Item(TlsKey(Lower(r.hostname)), Tls(r.name, Lower(r.hostname), r.target))
  }

  function SecretItem(s: Secret): Item
  {
    Item(SecretTargetKey(s.name), SecretTarget(s.name, s.target))
  }

  function Policy(v: Visitor): PathPolicy
  {
    match v.pathPolicy
    case Some(p) => p
    case None => if v.preferDirect then PreferDirect else RelayOnly
  }

  function VisitorItem(v: Visitor): Item
  {
    Item(SecretVisitorKey(v.name), SecretVisitor(v.name, v.localBind, v.accessKey, Policy(v)))
  }

  function Socks5Item(p: Proxy): Item
  {
    Item(Socks5Key(p.name, p.publicPort), Socks5(p.name, p.publicPort, p.allowPrivate))
  }

  function HttpProxyItem(p: Proxy): Item
  {
    Item(HttpProxyKey(p.name, p.publicPort), HttpProxy(p.name, p.publicPort, p.allowPrivate))
  }

  /** The items of the enabled entries of a list, in order. */
  function ItemsOf<T>(s: seq<T>, enabled: T -> bool, item: T -> Item): seq<Item>
  {
    if s == [] then []
    else
      var items, last := ItemsOf(s[..|s| - 1], enabled, item), s[|s| - 1];
      if enabled(last) then items + [item(last)] else items
  }

  function TcpItems(ts: seq<Tunnel>): seq<Item>
  {
    ItemsOf(ts, (t: Tunnel) => t.enabled, TcpItem)
  }

  function UdpItems(ts: seq<Tunnel>): seq<Item>
  {
    ItemsOf(ts, (t: Tunnel) => t.enabled, UdpItem)
  }

  function HttpItems(rs: seq<Route>): seq<Item>
  {
    ItemsOf(rs, (r: Route) => r.enabled, HttpItem)
  }

  function TlsItems(rs: seq<Route>): seq<Item>
  {
    ItemsOf(rs, (r: Route) => r.enabled, TlsItem)
  }

  function SecretItems(ss: seq<Secret>): seq<Item>
  {
    ItemsOf(ss, (s: Secret) => s.enabled, SecretItem)
  }

  function VisitorItems(vs: seq<Visitor>): seq<Item>
  {
    ItemsOf(vs, (v: Visitor) => true, VisitorItem)
  }

  function Socks5Items(ps: seq<Proxy>): seq<Item>
  {
    ItemsOf(ps, (p: Proxy) => p.enabled, Socks5Item)
  }

  function HttpProxyItems(ps: seq<Proxy>): seq<Item>
  {
    ItemsOf(ps, (p: Proxy) => p.enabled, HttpProxyItem)
  }

  /** Everything that should run, one item for each enabled entry and each visitor. */
  function Items(c: Config, visitors: seq<Visitor>): seq<Item>
  {
    TcpItems(c.tcp) + UdpItems(c.udp) + HttpItems(c.http) + TlsItems(c.tls)
    + SecretItems(c.secrets) + VisitorItems(visitors) + Socks5Items(c.socks5) + HttpProxyItems(c.httpProxies)
  }

  function Inserted(specs: map<Key, Spec>, items: seq<Item>): map<Key, Spec>
  {
    if items == [] then specs
    else
      var last := items[|items| - 1];
      Inserted(specs, items[..|items| - 1])[last.key := last.spec]
  }

  // ---------------------------------------------------------------- validation

  predicate Blank(s: string)
  {
    Trim(s) == ""
  }

  function TunnelPort(t: Tunnel): U16
  {
    t.publicPort
  }

  function ProxyPort(p: Proxy): U16
  {
    p.publicPort
  }

  function ProxyName(p: Proxy): string
  {
    p.name
  }

  function Hostname(r: Route): string
  {
    Lower(r.hostname)
  }

  function SecretName(s: Secret): string
  {
    s.name
  }

  function VisitorName(v: Visitor): string
  {
    v.name
  }

  predicate TunnelOk(t: Tunnel)
  {
    !Blank(t.name) && t.publicPort != 0 && !Blank(t.target)
  }

  predicate RouteOk(r: Route)
  {
    !Blank(r.name) && !Blank(r.hostname) && !Blank(r.target)
  }

  predicate SecretOk(s: Secret)
  {
    !Blank(s.name) && !Blank(s.target)
  }

  predicate ProxyOk(p: Proxy)
  {
    !Blank(p.name) && p.publicPort != 0
  }

  /** TCP tunnels and both kinds of proxy share the TCP port space; UDP tunnels have their own. */
  ghost predicate ConfigValid(c: Config, revisionOf: Config -> string)
  {
    && c.revision == revisionOf(c)
    && (forall i :: 0 <= i < |c.tcp| ==> TunnelOk(c.tcp[i]))
    && (forall i :: 0 <= i < |c.udp| ==> TunnelOk(c.udp[i]))
    && (forall i :: 0 <= i < |c.http| ==> RouteOk(c.http[i]))
    && (forall i :: 0 <= i < |c.tls| ==> RouteOk(c.tls[i]))
    && (forall i :: 0 <= i < |c.secrets| ==> SecretOk(c.secrets[i]))
    && (forall i :: 0 <= i < |c.socks5| ==> ProxyOk(c.socks5[i]))
    && (forall i :: 0 <= i < |c.httpProxies| ==> ProxyOk(c.httpProxies[i]))
    && Distinct(Mapped(c.tcp, TunnelPort) + Mapped(c.socks5, ProxyPort) + Mapped(c.httpProxies, ProxyPort))
    && Distinct(Mapped(c.udp, TunnelPort)) && Distinct(Mapped(c.secrets, SecretName))
    && Distinct(Mapped(c.http, Hostname)) && Distinct(Mapped(c.tls, Hostname))
    && Distinct(Mapped(c.socks5, ProxyName)) && Distinct(Mapped(c.httpProxies, ProxyName))
  }

  // ---------------------------------------------------------------- one entry per item

  function Kind(k: Key): nat
  {
    match k
    case TcpKey(_, _) => 0
    case UdpKey(_, _) => 1
    case HttpKey(_) => 2
    case TlsKey(_) => 3
    case SecretTargetKey(_) => 4
    case SecretVisitorKey(_) => 5
    case Socks5Key(_, _) => 6
    case HttpProxyKey(_, _) => 7
  }

  function ItemKey(item: Item): Key
  {
    item.key
  }

  predicate HasKey(items: seq<Item>, key: Key)
  {
    exists i :: 0 <= i < |items| && items[i].key == key
  }

  predicate OfKind(items: seq<Item>, kind: nat)
  {
    forall i :: 0 <= i < |items| ==> Kind(items[i].key) == kind
  }

  predicate BelowKind(items: seq<Item>, kind: nat)
  {
    forall i :: 0 <= i < |items| ==> Kind(items[i].key) < kind
  }

  lemma {:induction false} Appended(a: seq<Item>, b: seq<Item>, kind: nat)
    requires KeysDistinct(a, ItemKey) && BelowKind(a, kind) && KeysDistinct(b, ItemKey) && OfKind(b, kind)
    ensures KeysDistinct(a + b, ItemKey) && BelowKind(a + b, kind + 1)
  {
    hide Kind;
    forall i, j | 0 <= i < |a| && 0 <= j < |b| ensures a[i].key != b[j].key {
      assert Kind(a[i].key) < Kind(b[j].key);
    }
  }

  /** Items of one kind, whose keys tell their marks. */
  ghost predicate Identifies<T(!new), M>(item: T -> Item, mark: T -> M, kind: nat)
  {
    && (forall x :: Kind(item(x).key) == kind)
    && (forall x, y :: item(x).key == item(y).key ==> mark(x) == mark(y))
  }

  ghost predicate StemsFrom<T>(i: Item, s: seq<T>, item: T -> Item)
  {
    exists x :: x in s && item(x) == i
  }

  /** Each item stems from an entry, and entries with distinct marks give items with distinct keys. */
  lemma {:induction false} ItemsOfDistinct<T(!new), M>(
    s: seq<T>, enabled: T -> bool, item: T -> Item, mark: T -> M, kind: nat)
    requires Distinct(Mapped(s, mark)) && Identifies(item, mark, kind)
    ensures KeysDistinct(ItemsOf(s, enabled, item), ItemKey) && OfKind(ItemsOf(s, enabled, item), kind)
    ensures forall i :: i in ItemsOf(s, enabled, item) ==> StemsFrom(i, s, item)
    decreases |s|
  {
    hide Kind;
    var n := |s|;
    if n == 0 {
    } else {
      var init, last := s[..n - 1], s[n - 1];
      assert Mapped(s, mark) == Mapped(init, mark) + [mark(last)];
      DistinctLast(Mapped(init, mark), mark(last));
      ItemsOfDistinct(init, enabled, item, mark, kind);
      var items := ItemsOf(init, enabled, item);
      forall i | i in items ensures i.key != item(last).key && StemsFrom(i, s, item) {
        var x :| x in init && item(x) == i;
        MarkOf(init, mark, x);
      }
    }
  }

  lemma {:induction false} MarkOf<T, M>(s: seq<T>, mark: T -> M, x: T)
    requires x in s
    ensures mark(x) in Mapped(s, mark)
  {
    var i :| 0 <= i < |s| && s[i] == x;
    assert Mapped(s, mark)[i] == mark(x);
  }

  /** The lists of a valid configuration, each with items of its own kind and distinct keys. */
  lemma {:induction false} ListsDistinct(c: Config, visitors: seq<Visitor>, revisionOf: Config -> string)
    requires ConfigValid(c, revisionOf) && Distinct(Mapped(visitors, VisitorName))
    ensures KeysDistinct(TcpItems(c.tcp), ItemKey) && OfKind(TcpItems(c.tcp), 0)
    ensures KeysDistinct(UdpItems(c.udp), ItemKey) && OfKind(UdpItems(c.udp), 1)
    ensures KeysDistinct(HttpItems(c.http), ItemKey) && OfKind(HttpItems(c.http), 2)
    ensures KeysDistinct(TlsItems(c.tls), ItemKey) && OfKind(TlsItems(c.tls), 3)
    ensures KeysDistinct(SecretItems(c.secrets), ItemKey) && OfKind(SecretItems(c.secrets), 4)
    ensures KeysDistinct(VisitorItems(visitors), ItemKey) && OfKind(VisitorItems(visitors), 5)
    ensures KeysDistinct(Socks5Items(c.socks5), ItemKey) && OfKind(Socks5Items(c.socks5), 6)
    ensures KeysDistinct(HttpProxyItems(c.httpProxies), ItemKey) && OfKind(HttpProxyItems(c.httpProxies), 7)
  {
    hide KeysDistinct, OfKind, Distinct, Mapped, ItemsOf, Lower;
    DistinctFront(Mapped(c.tcp, TunnelPort) + Mapped(c.socks5, ProxyPort), Mapped(c.httpProxies, ProxyPort));
    DistinctFront(Mapped(c.tcp, TunnelPort), Mapped(c.socks5, ProxyPort));
    ItemsOfDistinct(c.tcp, (t: Tunnel) => t.enabled, TcpItem, TunnelPort, 0);
    ItemsOfDistinct(c.udp, (t: Tunnel) => t.enabled, UdpItem, TunnelPort, 1);
    ItemsOfDistinct(c.http, (r: Route) => r.enabled, HttpItem, Hostname, 2);
    ItemsOfDistinct(c.tls, (r: Route) => r.enabled, TlsItem, Hostname, 3);
    ItemsOfDistinct(c.secrets, (s: Secret) => s.enabled, SecretItem, SecretName, 4);
    ItemsOfDistinct(visitors, (v: Visitor) => true, VisitorItem, VisitorName, 5);
    ItemsOfDistinct(c.socks5, (p: Proxy) => p.enabled, Socks5Item, ProxyName, 6);
    ItemsOfDistinct(c.httpProxies, (p: Proxy) => p.enabled, HttpProxyItem, ProxyName, 7);
  }

  lemma {:induction false} ItemsDistinct(c: Config, visitors: seq<Visitor>, revisionOf: Config -> string)
    requires ConfigValid(c, revisionOf) && Distinct(Mapped(visitors, VisitorName))
    ensures KeysDistinct(Items(c, visitors), ItemKey)
  {
    hide KeysDistinct, OfKind, BelowKind, ConfigValid, TcpItems, UdpItems, HttpItems, TlsItems, SecretItems,
         VisitorItems, Socks5Items, HttpProxyItems;
    ListsDistinct(c, visitors, revisionOf);
    var all := TcpItems(c.tcp);
    FirstKind(all);
    Appended(all, UdpItems(c.udp), 1);
    all := all + UdpItems(c.udp);
    Appended(all, HttpItems(c.http), 2);
    all := all + HttpItems(c.http);
    Appended(all, TlsItems(c.tls), 3);
    all := all + TlsItems(c.tls);
    Appended(all, SecretItems(c.secrets), 4);
    all := all + SecretItems(c.secrets);
    Appended(all, VisitorItems(visitors), 5);
    all := all + VisitorItems(visitors);
    Appended(all, Socks5Items(c.socks5), 6);
    all := all + Socks5Items(c.socks5);
    Appended(all, HttpProxyItems(c.httpProxies), 7);
  }

  lemma {:induction false} FirstKind(items: seq<Item>)
    requires OfKind(items, 0)
    ensures BelowKind(items, 1)
  {
  }

  /** With distinct keys the map has one entry for each item; otherwise it has fewer entries than items. */
  lemma {:induction false} OneEntryEach(items: seq<Item>)
    ensures forall k :: k in Inserted(map[], items) <==> HasKey(items, k)
    ensures |Inserted(map[], items)| == |items| <==> KeysDistinct(items, ItemKey)
    ensures |Inserted(map[], items)| <= |items|
    ensures KeysDistinct(items, ItemKey) ==> forall i :: 0 <= i < |items| ==>
      items[i].key in Inserted(map[], items) && Inserted(map[], items)[items[i].key] == items[i].spec
  {
    hide Inserted, KeysDistinct;
    InsertedKeys(items);
    InsertedSize(items);
    if KeysDistinct(items, ItemKey) {
      InsertedSpecs(items);
    }
  }

  lemma {:induction false} InsertedKeys(items: seq<Item>)
    ensures forall k :: k in Inserted(map[], items) <==> HasKey(items, k)
  {
    var n := |items|;
    if n == 0 {
    } else {
      InsertedKeys(items[..n - 1]);
      assert forall i :: 0 <= i < n - 1 ==> items[..n - 1][i] == items[i];
      forall k ensures k in Inserted(map[], items) <==> HasKey(items, k) {
      }
    }
  }

  lemma {:induction false} InsertedSize(items: seq<Item>)
    ensures |Inserted(map[], items)| <= |items|
    ensures |Inserted(map[], items)| == |items| <==> KeysDistinct(items, ItemKey)
  {
    hide KeysDistinct;
    if items == [] {
      NoItems();
    } else {
      var init, last := items[..|items| - 1], items[|items| - 1];
      InsertedSize(init);
      InsertedKeys(init);
      KeysLast(items);
      var specs := Inserted(map[], init);
      assert last.key in specs ==> specs[last.key := last.spec].Keys == specs.Keys;
      assert last.key !in specs ==> specs[last.key := last.spec].Keys == specs.Keys + {last.key};
    }
  }

  lemma {:induction false} NoItems()
    ensures KeysDistinct([], ItemKey)
  {
  }

  lemma {:induction false} InsertedSpecs(items: seq<Item>)
    requires KeysDistinct(items, ItemKey)
    ensures forall i :: 0 <= i < |items| ==>
      items[i].key in Inserted(map[], items) && Inserted(map[], items)[items[i].key] == items[i].spec
  {
    var n := |items|;
    if n == 0 {
    } else {
      InsertedSpecs(items[..n - 1]);
      assert forall i :: 0 <= i < n - 1 ==> items[..n - 1][i] == items[i];
    }
  }

  lemma {:induction false} KeysLast(items: seq<Item>)
    requires items != []
    ensures KeysDistinct(items, ItemKey) <==>
            KeysDistinct(items[..|items| - 1], ItemKey) && !HasKey(items[..|items| - 1], items[|items| - 1].key)
  {
    assert forall i :: 0 <= i < |items| - 1 ==> items[..|items| - 1][i] == items[i];
  }

  /** A valid configuration with distinctly named visitors calls for exactly one agent per item. */
  lemma {:induction false} SpecsAreItems(c: Config, visitors: seq<Visitor>, revisionOf: Config -> string)
    requires ConfigValid(c, revisionOf) && Distinct(Mapped(visitors, VisitorName))
    ensures var specs, items := Inserted(map[], Items(c, visitors)), Items(c, visitors);
            && |specs| == |items|
            && (forall k :: k in specs <==> HasKey(items, k))
            && (forall i :: 0 <= i < |items| ==> items[i].key in specs && specs[items[i].key] == items[i].spec)
  {
    hide Items, ConfigValid, Inserted;
    ItemsDistinct(c, visitors, revisionOf);
    OneEntryEach(Items(c, visitors));
  }

  // ---------------------------------------------------------------- the code

  lemma {:induction false} InsertedMore(specs: map<Key, Spec>, a: seq<Item>, b: seq<Item>)
    ensures Inserted(specs, a + b) == Inserted(Inserted(specs, a), b)
  {
    if b == [] {
      assert a + b == a;
    } else {
      InsertedMore(specs, a, b[..|b| - 1]);
      assert (a + b)[..|a + b| - 1] == a + b[..|b| - 1];
    }
  }

  method AddItems<T>(specs: map<Key, Spec>, s: seq<T>, enabled: T -> bool, item: T -> Item)
    returns (more: map<Key, Spec>)
    ensures more == Inserted(specs, ItemsOf(s, enabled, item))
  {
    more := specs;
    for i := 0 to |s|
      invariant more == Inserted(specs, ItemsOf(s[..i], enabled, item))
    {
      assert s[..i + 1][..i] == s[..i];
      if enabled(s[i]) {
        var next := item(s[i]);
        InsertedMore(specs, ItemsOf(s[..i], enabled, item), [next]);
        more := more[next.key := next.spec];
      }
    }
    assert s[..|s|] == s;
  }

  method SpecsOf(c: Config, visitors: seq<Visitor>) returns (specs: map<Key, Spec>)
    ensures specs == Inserted(map[], Items(c, visitors))
  {
    hide Inserted, ItemsOf;
    ghost var done := TcpItems(c.tcp);
    specs := AddItems(map[], c.tcp, (t: Tunnel) => t.enabled, TcpItem);
    InsertedMore(map[], done, UdpItems(c.udp));
    specs := AddItems(specs, c.udp, (t: Tunnel) => t.enabled, UdpItem);
    done := done + UdpItems(c.udp);
    InsertedMore(map[], done, HttpItems(c.http));
    specs := AddItems(specs, c.http, (r: Route) => r.enabled, HttpItem);
    done := done + HttpItems(c.http);
    InsertedMore(map[], done, TlsItems(c.tls));
    specs := AddItems(specs, c.tls, (r: Route) => r.enabled, TlsItem);
    done := done + TlsItems(c.tls);
    InsertedMore(map[], done, SecretItems(c.secrets));
    specs := AddItems(specs, c.secrets, (s: Secret) => s.enabled, SecretItem);
    done := done + SecretItems(c.secrets);
    InsertedMore(map[], done, VisitorItems(visitors));
    specs := AddItems(specs, visitors, (v: Visitor) => true, VisitorItem);
    done := done + VisitorItems(visitors);
    InsertedMore(map[], done, Socks5Items(c.socks5));
    specs := AddItems(specs, c.socks5, (p: Proxy) => p.enabled, Socks5Item);
    done := done + Socks5Items(c.socks5);
    InsertedMore(map[], done, HttpProxyItems(c.httpProxies));
    specs := AddItems(specs, c.httpProxies, (p: Proxy) => p.enabled, HttpProxyItem);
  }
}
