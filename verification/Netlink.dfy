/** One read of a node's links, addresses, routes and neighbours, and the lookups on it (internal/netlink/view.go). */
module Netlink {
  import opened Sample
  import opened Text

  datatype VxlanInfo = VxlanInfo(vni: int, local: string, port: int)

  datatype Link = Link(
    name: string, index: int, kind: string, up: bool, carrier: bool, mtu: int, master: string, vxlan: Option<VxlanInfo>)

  datatype Addr = Addr(link: string, ip: string, prefix: int, family: int)

  datatype Route = Route(dst: string, gateway: string, dev: string, src: string, family: int) {
    /** Recent kernels report the default destination as a zero prefix, older ones as nothing. */
    predicate IsDefault() {
      dst == "" || dst == "0.0.0.0/0" || dst == "::/0"
    }
  }

  datatype Neigh = Neigh(dev: string, ip: string, mac: string, state: string)

  datatype View = View(links: seq<Link>, addrs: seq<Addr>, routes: seq<Route>, neighs: seq<Neigh>)

  /** The first element that satisfies `p`. */
  function First<T(!new)>(s: seq<T>, p: T -> bool): (r: Option<T>)
    ensures r == None <==> forall x :: x in s ==> !p(x)
    ensures r.Some? ==> exists i :: 0 <= i < |s| && s[i] == r.value && p(s[i]) && forall j :: 0 <= j < i ==> !p(s[j])
  {
    if s == [] then None
    else if p(s[0]) then Some(s[0])
    else
      var r := First(s[1..], p);
      assert forall x :: x in s ==> x == s[0] || x in s[1..];
      assert r.Some? ==>
        exists i ::
          0 <= i < |s[1..]| && s[1..][i] == r.value && p(s[1..][i]) && forall j :: 0 <= j < i ==> !p(s[1..][j]);
      r
  }

  function LinkOf(v: View, name: string): (r: Option<Link>)
    ensures r.Some? ==> r.value.name == name
  {
    First(v.links, (l: Link) => l.name == name)
  }

  predicate Has(v: View, name: string) { LinkOf(v, name).Some? }

  /** The first IPv4 address of a link, or nothing. */
  function IPv4(v: View, link: string): string {
    match First(v.addrs, (a: Addr) => a.link == link && a.family == 4)
    case None => ""
    case Some(a) => a.ip
  }

  /** The device of the first IPv4 default route, or nothing. */
  function DefaultDev(v: View): string {
    match First(v.routes, (r: Route) => r.IsDefault() && r.family == 4)
    case None => ""
    case Some(r) => r.dev
  }

  function Names(links: seq<Link>): seq<string> {
    if links == [] then [] else Names(links[..|links| - 1]) + [links[|links| - 1].name]
  }

  lemma {:induction false} NamesMembers(links: seq<Link>, name: string)
    ensures name in Names(links) <==> exists l :: l in links && l.name == name
  {
    if links != [] {
      var front, x := links[..|links| - 1], links[|links| - 1];
      assert links == front + [x];
      NamesMembers(front, name);
      assert forall l :: l in links <==> l in front || l == x;
    }
  }

  method LinkNames(v: View) returns (names: seq<string>)
    ensures names == SortStrings(Names(v.links))
  {
    names := [];
    for i := 0 to |v.links|
      invariant names == Names(v.links[..i])
    {
      assert v.links[..i + 1][..i] == v.links[..i];
      names := names + [v.links[i].name];
    }
    assert v.links[..|v.links|] == v.links;
    names := SortStrings(names);
  }
}
