/** CNI drivers: from one read of a node to the generic fields, with a mode that is pinned on the first successful
    read (internal/cni). */
module Cni {
  import opened Sample
  import opened Text
  import opened Netlink

  // --- generic keys ------------------------------------------------------------------

  /** The keys that describe one link. */
  datatype LinkKeys = LinkKeys(link: string, ipv4: string, mtu: string, state: string)

  const BRIDGE := LinkKeys("pod_bridge", "pod_bridge.ipv4", "pod_bridge.mtu", "pod_bridge.state")
  const OVERLAY := LinkKeys("overlay_tunnel", "overlay_tunnel.ipv4", "overlay_tunnel.mtu", "overlay_tunnel.state")
  const OVERLAY_VNI := "overlay_tunnel.vni"
  const OVERLAY_LOCAL := "overlay_tunnel.local_addr"
  const ROUTES := "pod_cidr_routes"
  const NEIGHBOURS := "neighbour_table"
  const NIC_STATE := "primary_nic.state"
  const NIC_CARRIER := "primary_nic.carrier"
  const INTERFACES := "interfaces"

  const BRIDGE_KEYS := {BRIDGE.link, BRIDGE.ipv4, BRIDGE.mtu, BRIDGE.state}
  const OVERLAY_KEYS := {OVERLAY.link, OVERLAY.ipv4, OVERLAY.mtu, OVERLAY.state, OVERLAY_VNI, OVERLAY_LOCAL}
  const COMMON_KEYS := {ROUTES, NIC_STATE, NIC_CARRIER, INTERFACES}

  /** Every generic key. */
  const KEYS := BRIDGE_KEYS + OVERLAY_KEYS + {NEIGHBOURS} + COMMON_KEYS

  // --- what the helpers report -----------------------------------------------------------

  function UpDown(up: bool): string { if up then "up" else "down" }

  function TextOrAbsent(s: string): Field { if s != "" then Present(JString(s)) else Absent() }

  /** The fields of a named link: absent, not unknown, when the read succeeded and the link is not there. */
  function LinkFields(v: View, k: LinkKeys, name: string): Fields {
    match LinkOf(v, name)
    case None => map[k.link := Absent(), k.ipv4 := Absent(), k.mtu := Absent(), k.state := Absent()]
    case Some(l) => map[
      k.link := Present(JString(name)), k.ipv4 := TextOrAbsent(IPv4(v, name)),
      k.mtu := Present(JNumber(l.mtu)), k.state := Present(JString(UpDown(l.up)))]
  }

  const NOT_VXLAN := "not a VXLAN device"

  /** The two fields only an overlay link has. */
  function VxlanFields(v: View, name: string): Fields {
    match LinkOf(v, name)
    case None => map[OVERLAY_VNI := Absent(), OVERLAY_LOCAL := Absent()]
    case Some(l) =>
      match l.vxlan
      case None => map[OVERLAY_VNI := NotApplicable(NOT_VXLAN), OVERLAY_LOCAL := NotApplicable(NOT_VXLAN)]
      case Some(x) => map[OVERLAY_VNI := Present(JNumber(x.vni)), OVERLAY_LOCAL := TextOrAbsent(x.local)]
  }

  function NeighbourText(n: Neigh): string { n.ip + " " + n.mac + " " + n.state }

  function NeighbourTexts(ns: seq<Neigh>, dev: string): seq<string> {
    if ns == [] then [] else
      var n := ns[|ns| - 1];
      NeighbourTexts(ns[..|ns| - 1], dev) +
      if n.dev == dev && n.state != "NOARP" then [NeighbourText(n)] else []
  }

  function NeighbourField(v: View, dev: string): Field {
    if !Has(v, dev) then Absent() else Present(JStrings(SortStrings(NeighbourTexts(v.neighs, dev))))
  }

  /** Whether a route's destination parses and lies in a CIDR that parses. */
  type Inside = (string, string) -> bool

  function RouteText(r: Route): string {
    r.dst + (if r.gateway != "" then " via " + r.gateway else "") + " dev " + r.dev
  }

  predicate InAny(dst: string, cidrs: seq<string>, inside: Inside) {
    exists i :: 0 <= i < |cidrs| && inside(dst, cidrs[i])
  }

  function RouteTexts(rs: seq<Route>, cidrs: seq<string>, inside: Inside): seq<string> {
    if rs == [] then [] else
      var r := rs[|rs| - 1];
      RouteTexts(rs[..|rs| - 1], cidrs, inside) +
      if !r.IsDefault() && InAny(r.dst, cidrs, inside) then [RouteText(r)] else []
  }

  function RoutesField(v: View, cidrs: seq<string>, inside: Inside): Field {
    if cidrs == [] then Unknown("pod CIDR not discovered; set POD_CIDR to override")
    else Present(JStrings(SortStrings(RouteTexts(v.routes, cidrs, inside))))
  }

  function NicFields(v: View): (r: Fields)
    ensures r.Keys == {NIC_STATE, NIC_CARRIER}
  {
    var dev := DefaultDev(v);
    match LinkOf(v, dev)
    case None => map[NIC_STATE := Absent(), NIC_CARRIER := Absent()]
    case Some(l) =>
      if dev == "" then map[NIC_STATE := Absent(), NIC_CARRIER := Absent()]
      else map[NIC_STATE := Present(JString(dev + " " + UpDown(l.up))), NIC_CARRIER := Present(JBool(l.carrier))]
  }

  function InterfaceText(v: View, l: Link): string {
    l.name + " " + l.kind + " " + UpDown(l.up) + " " + if IPv4(v, l.name) == "" then "-" else IPv4(v, l.name)
  }

  /** Every link but the loopback and the pods' own. */
  function InterfaceTexts(v: View, ls: seq<Link>): seq<string> {
    if ls == [] then [] else
      var l := ls[|ls| - 1];
      InterfaceTexts(v, ls[..|ls| - 1]) + if l.name == "lo" || l.kind == "veth" then [] else [InterfaceText(v, l)]
  }

  function InterfacesField(v: View): Field {
    Present(JStrings(SortStrings(InterfaceTexts(v, v.links))))
  }

  /** What every driver reports alike. */
  function CommonFields(v: View, cidrs: seq<string>, inside: Inside): Fields {
    map[ROUTES := RoutesField(v, cidrs, inside)] + NicFields(v) + map[INTERFACES := InterfacesField(v)]
  }

  // --- what the lists hold ---------------------------------------------------------------------

  lemma {:induction false} NeighbourMembers(ns: seq<Neigh>, dev: string, x: string)
    ensures x in NeighbourTexts(ns, dev) <==>
            exists n :: n in ns && n.dev == dev && n.state != "NOARP" && x == NeighbourText(n)
  {
    if ns != [] {
      var front, last := ns[..|ns| - 1], ns[|ns| - 1];
      NeighbourMembers(front, dev, x);
      assert forall n :: n in ns <==> n in front || n == last;
    }
  }

  lemma {:induction false} RouteMembers(rs: seq<Route>, cidrs: seq<string>, inside: Inside, x: string)
    ensures x in RouteTexts(rs, cidrs, inside) <==>
            exists r :: r in rs && !r.IsDefault() && InAny(r.dst, cidrs, inside) && x == RouteText(r)
  {
    hide InAny, RouteText;
    if rs != [] {
      var front, last := rs[..|rs| - 1], rs[|rs| - 1];
      RouteMembers(front, cidrs, inside, x);
      assert forall r :: r in rs <==> r in front || r == last;
    }
  }

  lemma {:induction false} InterfaceMembers(v: View, ls: seq<Link>, x: string)
    ensures x in InterfaceTexts(v, ls) <==>
            exists l :: l in ls && l.name != "lo" && l.kind != "veth" && x == InterfaceText(v, l)
  {
    hide InterfaceText;
    if ls != [] {
      var front, last := ls[..|ls| - 1], ls[|ls| - 1];
      InterfaceMembers(v, front, x);
      assert forall l :: l in ls <==> l in front || l == last;
    }
  }

  /** The field lists exactly these texts, sorted. */
  ghost predicate Lists(f: Field, texts: iset<string>) {
    exists l :: f == Present(JStrings(l)) && Sorted(l) && forall x :: x in l <==> x in texts
  }

  lemma ListsSorted(s: seq<string>, texts: iset<string>)
    requires forall x :: x in s <==> x in texts
    ensures Lists(Present(JStrings(SortStrings(s))), texts)
  {
    hide SortStrings;
    SortStringsSorted(s);
    assert forall x :: x in SortStrings(s) <==> x in multiset(SortStrings(s));
    assert forall x :: x in s <==> x in multiset(s);
  }

  /** Every neighbour of the device that resolves addresses, and nothing else; absent when there is no such device. */
  lemma NeighboursTell(v: View, dev: string)
    ensures if !Has(v, dev) then NeighbourField(v, dev) == Absent() else
              Lists(NeighbourField(v, dev),
                iset n | n in v.neighs && n.dev == dev && n.state != "NOARP" :: n.ip + " " + n.mac + " " + n.state)
  {
    hide NeighbourTexts, SortStrings, Lists;
    if Has(v, dev) {
      var texts := iset n | n in v.neighs && n.dev == dev && n.state != "NOARP" :: n.ip + " " + n.mac + " " + n.state;
      forall x ensures x in NeighbourTexts(v.neighs, dev) <==> x in texts { NeighbourMembers(v.neighs, dev, x); }
      ListsSorted(NeighbourTexts(v.neighs, dev), texts);
    }
  }

  /** Every route into the pods' CIDRs but the default ones, and nothing else; unknown when no CIDR is known. */
  lemma RoutesTell(v: View, cidrs: seq<string>, inside: Inside)
    ensures if cidrs == [] then RoutesField(v, cidrs, inside).state == StateUnknown else
              Lists(RoutesField(v, cidrs, inside),
                iset r | r in v.routes && r.dst !in {"", "0.0.0.0/0", "::/0"} && InAny(r.dst, cidrs, inside) ::
                  r.dst + (if r.gateway == "" then "" else " via " + r.gateway) + " dev " + r.dev)
  {
    hide RouteTexts, SortStrings, Lists, InAny;
    if cidrs != [] {
      var texts := iset r | r in v.routes && r.dst !in {"", "0.0.0.0/0", "::/0"} && InAny(r.dst, cidrs, inside) ::
        r.dst + (if r.gateway == "" then "" else " via " + r.gateway) + " dev " + r.dev;
      forall x ensures x in RouteTexts(v.routes, cidrs, inside) <==> x in texts {
        RouteMembers(v.routes, cidrs, inside, x);
      }
      ListsSorted(RouteTexts(v.routes, cidrs, inside), texts);
    }
  }

  /** Every link of the node but the loopback and the pods' own, and nothing else. */
  lemma InterfacesTell(v: View)
    ensures Lists(InterfacesField(v),
              iset l | l in v.links && l.name != "lo" && l.kind != "veth" ::
                l.name + " " + l.kind + (if l.up then " up " else " down ") +
                (if IPv4(v, l.name) == "" then "-" else IPv4(v, l.name)))
  {
    hide InterfaceTexts, SortStrings, Lists, IPv4;
    var texts := iset l | l in v.links && l.name != "lo" && l.kind != "veth" ::
      l.name + " " + l.kind + (if l.up then " up " else " down ") +
      (if IPv4(v, l.name) == "" then "-" else IPv4(v, l.name));
    forall l: Link ensures InterfaceText(v, l) == l.name + " " + l.kind + (if l.up then " up " else " down ") +
                                             (if IPv4(v, l.name) == "" then "-" else IPv4(v, l.name)) {
      InterfaceReads(v, l);
    }
    forall x ensures x in InterfaceTexts(v, v.links) <==> x in texts { InterfaceMembers(v, v.links, x); }
    ListsSorted(InterfaceTexts(v, v.links), texts);
  }

  lemma InterfaceReads(v: View, l: Link)
    ensures InterfaceText(v, l) == l.name + " " + l.kind + (if l.up then " up " else " down ") +
                                   (if IPv4(v, l.name) == "" then "-" else IPv4(v, l.name))
  {
    hide IPv4;
    assert " " + UpDown(l.up) + " " == if l.up then " up " else " down ";
  }

  // --- the helpers as loops ------------------------------------------------------------------

  method AddLinkFields(out: Fields, v: View, k: LinkKeys, name: string) returns (r: Fields)
    ensures r == out + LinkFields(v, k, name)
  {
    hide LinkOf, IPv4;
    r := out;
    var l := LinkOf(v, name);
    if l == None {
      r := r[k.link := Absent()][k.ipv4 := Absent()][k.mtu := Absent()][k.state := Absent()];
      return;
    }
    r := r[k.link := Present(JString(name))];
    var ip := IPv4(v, name);
    r := r[k.ipv4 := if ip != "" then Present(JString(ip)) else Absent()];
    r := r[k.mtu := Present(JNumber(l.value.mtu))];
    r := r[k.state := Present(JString(if l.value.up then "up" else "down"))];
  }

  method AddVxlanFields(out: Fields, v: View, name: string) returns (r: Fields)
    ensures r == out + VxlanFields(v, name)
  {
    r := out;
    var l := LinkOf(v, name);
    if l == None {
      r := r[OVERLAY_VNI := Absent()][OVERLAY_LOCAL := Absent()];
    } else if l.value.vxlan == None {
      r := r[OVERLAY_VNI := NotApplicable(NOT_VXLAN)][OVERLAY_LOCAL := NotApplicable(NOT_VXLAN)];
    } else {
      var x := l.value.vxlan.value;
      r := r[OVERLAY_VNI := Present(JNumber(x.vni))];
      r := r[OVERLAY_LOCAL := if x.local != "" then Present(JString(x.local)) else Absent()];
    }
  }

  method Neighbours(v: View, dev: string) returns (f: Field)
    ensures f == NeighbourField(v, dev)
  {
    if LinkOf(v, dev) == None { return Absent(); }
    var out := [];
    for i := 0 to |v.neighs|
      invariant out == NeighbourTexts(v.neighs[..i], dev)
    {
      var n := v.neighs[i];
      assert v.neighs[..i + 1][..i] == v.neighs[..i];
      if n.dev == dev && n.state != "NOARP" { out := out + [NeighbourText(n)]; }
    }
    assert v.neighs[..|v.neighs|] == v.neighs;
    f := Present(JStrings(SortStrings(out)));
  }

  method PodCidrRoutes(v: View, cidrs: seq<string>, inside: Inside) returns (f: Field)
    ensures f == RoutesField(v, cidrs, inside)
  {
    if |cidrs| == 0 { return Unknown("pod CIDR not discovered; set POD_CIDR to override"); }
    var out := [];
    for i := 0 to |v.routes|
      invariant out == RouteTexts(v.routes[..i], cidrs, inside)
    {
      var r := v.routes[i];
      assert v.routes[..i + 1][..i] == v.routes[..i];
      if !r.IsDefault() {
        var found := false;
        for j := 0 to |cidrs|
          invariant !found && forall x :: 0 <= x < j ==> !inside(r.dst, cidrs[x])
        {
          if inside(r.dst, cidrs[j]) { found := true; break; }
        }
        assert found == InAny(r.dst, cidrs, inside);
        if found { out := out + [RouteText(r)]; }
      }
    }
    assert v.routes[..|v.routes|] == v.routes;
    f := Present(JStrings(SortStrings(out)));
  }

  method AddNicFields(out: Fields, v: View) returns (r: Fields)
    ensures r == out + NicFields(v)
  {
    var dev := DefaultDev(v);
    var l := LinkOf(v, dev);
    if dev == "" || l == None {
      return out[NIC_STATE := Absent()][NIC_CARRIER := Absent()];
    }
    r := out[NIC_STATE := Present(JString(dev + " " + if l.value.up then "up" else "down"))];
    r := r[NIC_CARRIER := Present(JBool(l.value.carrier))];
  }

  method Interfaces(v: View) returns (f: Field)
    ensures f == InterfacesField(v)
  {
    hide InterfaceText, SortStrings;
    var out := [];
    for i := 0 to |v.links|
      invariant out == InterfaceTexts(v, v.links[..i])
    {
      var l := v.links[i];
      assert v.links[..i + 1][..i] == v.links[..i];
      if l.name != "lo" && l.kind != "veth" { out := out + [InterfaceText(v, l)]; }
    }
    assert v.links[..|v.links|] == v.links;
    f := Present(JStrings(SortStrings(out)));
  }

  method AddCommon(out: Fields, v: View, cidrs: seq<string>, inside: Inside) returns (r: Fields)
    ensures r == out + CommonFields(v, cidrs, inside)
  {
    hide RoutesField, NicFields, InterfacesField;
    var routes := PodCidrRoutes(v, cidrs, inside);
    r := out[ROUTES := routes];
    r := AddNicFields(r, v);
    var interfaces := Interfaces(v);
    r := r[INTERFACES := interfaces];
  }
}
