/** What a driver reports over any sequence of successful and failed reads: a vanished overlay is an alert, never a
    silent change of mode, if the overlay was in use when the mode was pinned. */
module CniRuns {
  import opened Sample
  import opened Differ
  import opened Netlink
  import opened Cni
  import opened Drivers

  // --- the pin -----------------------------------------------------------------------------

  /** The driver after some reads. */
  function PinThrough(p: Pin, rs: seq<Read>): Pin {
    if rs == [] then p else PinAfter(PinThrough(p, rs[..|rs| - 1]), rs[|rs| - 1])
  }

  predicate IsPinned(p: Pin) { p.kind != GenericKind && p.mode != Unset }

  /** A pinned mode is never given up. */
  lemma {:induction false} PinIsKept(p: Pin, rs: seq<Read>)
    requires IsPinned(p)
    ensures PinThrough(p, rs) == p
  {
    if rs != [] { PinIsKept(p, rs[..|rs| - 1]); }
  }

  ghost predicate FirstSuccess(rs: seq<Read>, s: int) {
    0 <= s < |rs| && rs[s].Seen? && forall i :: 0 <= i < s ==> rs[i].Failed?
  }

  lemma {:induction false} NothingPinned(kind: Kind, rs: seq<Read>)
    requires kind != GenericKind && forall i :: 0 <= i < |rs| ==> rs[i].Failed?
    ensures PinThrough(Pin(kind, Unset), rs) == Pin(kind, Unset)
  {
    if rs != [] { NothingPinned(kind, rs[..|rs| - 1]); }
  }

  lemma {:induction false} PinIsInferred(kind: Kind, rs: seq<Read>, s: int)
    requires kind != GenericKind && FirstSuccess(rs, s)
    ensures PinThrough(Pin(kind, Unset), rs) == Pin(kind, Inferred(kind, rs[s].view))
  {
    var front := rs[..|rs| - 1];
    if s == |rs| - 1 {
      NothingPinned(kind, front);
    } else {
      PinIsInferred(kind, front, s);
    }
  }

  /** A new driver's mode is the one its first successful read shows, whatever comes after: its overlay is the link that
      read shows in use, and it has none exactly when that read shows none. */
  lemma PinIsFirstSuccess(kind: Kind, rs: seq<Read>, s: int, name: string)
    requires kind != GenericKind && FirstSuccess(rs, s)
    ensures var p := PinThrough(Pin(kind, Unset), rs);
            && IsPinned(p) && p.kind == kind
            && (Overlay(p) == Some(name) <==> ShowsOverlay(kind, rs[s].view, name))
            && (NoOverlay(p) <==> forall n :: !ShowsOverlay(kind, rs[s].view, n))
  {
    hide PinThrough, Inferred, ShowsOverlay, Overlay, NoOverlay;
    PinIsInferred(kind, rs, s);
    PinnedOverlayIsShown(kind, rs[s].view, name);
    InferredOverlay(kind, rs[s].view);
  }

  /** The link a view shows in use as this kind's overlay: Flannel's VXLAN device; Calico's, or else its IPIP device
      if that has an address; Cilium's VXLAN device, or else its Geneve device. */
  ghost predicate ShowsOverlay(kind: Kind, v: View, name: string) {
    match kind
    case FlannelKind => name == "flannel.1" && Has(v, "flannel.1")
    case CalicoKind =>
      || (name == "vxlan.calico" && Has(v, "vxlan.calico"))
      || (name == "tunl0" && !Has(v, "vxlan.calico") && Has(v, "tunl0") && HasAddress(v, "tunl0"))
    case CiliumKind =>
      || (name == "cilium_vxlan" && Has(v, "cilium_vxlan"))
      || (name == "cilium_geneve" && !Has(v, "cilium_vxlan") && Has(v, "cilium_geneve"))
    case GenericKind => false
  }

  /** The link's first IPv4 address is not empty. */
  ghost predicate HasAddress(v: View, link: string) {
    exists i :: 0 <= i < |v.addrs| && IsFirstIPv4(v, link, i) && v.addrs[i].ip != ""
  }

  ghost predicate IsFirstIPv4(v: View, link: string, i: int) {
    && 0 <= i < |v.addrs| && v.addrs[i].link == link && v.addrs[i].family == 4
    && forall j :: 0 <= j < i ==> !(v.addrs[j].link == link && v.addrs[j].family == 4)
  }

  lemma OneFirstIPv4(v: View, link: string, i: int, j: int)
    requires IsFirstIPv4(v, link, i) && IsFirstIPv4(v, link, j)
    ensures i == j
  {
  }

  lemma IPv4Tells(v: View, link: string)
    ensures IPv4(v, link) == "" || exists i :: IsFirstIPv4(v, link, i) && v.addrs[i].ip == IPv4(v, link)
    ensures forall i :: IsFirstIPv4(v, link, i) ==> IPv4(v, link) == v.addrs[i].ip
    ensures IPv4(v, link) != "" <==> HasAddress(v, link)
  {
    hide First;
    var found := First(v.addrs, (a: Addr) => a.link == link && a.family == 4);
    if found.Some? {
      var i :| 0 <= i < |v.addrs| && v.addrs[i] == found.value && IsFirstIPv4(v, link, i);
      forall j | IsFirstIPv4(v, link, j) ensures j == i { OneFirstIPv4(v, link, i, j); }
    } else {
      forall i | 0 <= i < |v.addrs| ensures !IsFirstIPv4(v, link, i) { assert v.addrs[i] in v.addrs; }
    }
  }

  /** The mode a driver pins is that of the overlay its first successful read shows in use, if any. */
  lemma PinnedOverlayIsShown(kind: Kind, v: View, name: string)
    requires kind != GenericKind
    ensures Overlay(Pin(kind, Inferred(kind, v))) == Some(name) <==> ShowsOverlay(kind, v, name)
    ensures NoOverlay(Pin(kind, Inferred(kind, v))) <==> forall n :: !ShowsOverlay(kind, v, n)
  {
    hide LinkOf, IPv4, HasAddress;
    IPv4Tells(v, "tunl0");
    assert ShowsOverlay(FlannelKind, v, "flannel.1") <==> Has(v, "flannel.1");
    assert ShowsOverlay(CalicoKind, v, "vxlan.calico") <==> Has(v, "vxlan.calico");
    assert ShowsOverlay(CalicoKind, v, "tunl0") <==>
           !Has(v, "vxlan.calico") && Has(v, "tunl0") && HasAddress(v, "tunl0");
    assert ShowsOverlay(CiliumKind, v, "cilium_vxlan") <==> Has(v, "cilium_vxlan");
    assert ShowsOverlay(CiliumKind, v, "cilium_geneve") <==> !Has(v, "cilium_vxlan") && Has(v, "cilium_geneve");
  }

  /** The mode as the agent reports it. */
  lemma PinnedModeTells(kind: Kind, v: View)
    requires kind != GenericKind
    ensures Inferred(kind, v).Text() ==
            match kind
            case FlannelKind => if Has(v, "flannel.1") then "vxlan" else "host-gw"
            case CalicoKind =>
              if Has(v, "vxlan.calico") then "vxlan"
              else if Has(v, "tunl0") && IPv4(v, "tunl0") != "" then "ipip" else "routing"
            case CiliumKind =>
              if Has(v, "cilium_vxlan") then "vxlan" else if Has(v, "cilium_geneve") then "geneve" else "native"
            case GenericKind => ""
  {
  }

  // --- one read ------------------------------------------------------------------------------

  predicate Shows(r: Read, name: string) { r.Seen? && Has(r.view, name) }

  predicate Lacks(r: Read, name: string) { r.Seen? && !Has(r.view, name) }

  lemma OverlayLinkField(v: View, name: string)
    ensures OVERLAY.link in OverlayFields(v, name)
    ensures OverlayFields(v, name)[OVERLAY.link] == if Has(v, name) then Present(JString(name)) else Absent()
  {
    hide NeighbourField, VxlanFields, LinkFields;
    OverlayKeyAlone();
    VxlanKeys(v, name);
    LinkFieldOfLink(v, name);
  }

  lemma LinkFieldOfLink(v: View, name: string)
    ensures OVERLAY.link in LinkFields(v, OVERLAY, name)
    ensures LinkFields(v, OVERLAY, name)[OVERLAY.link] == if Has(v, name) then Present(JString(name)) else Absent()
  {
    hide LinkOf, IPv4;
  }

  lemma VxlanKeys(v: View, name: string)
    ensures VxlanFields(v, name).Keys == {OVERLAY_VNI, OVERLAY_LOCAL}
  {
  }

  lemma OverlayKeyAlone()
    ensures OVERLAY.link !in {OVERLAY_VNI, OVERLAY_LOCAL, NEIGHBOURS}
    ensures OVERLAY.link !in COMMON_KEYS && OVERLAY.link !in BRIDGE_KEYS
  {
  }

  lemma CommonKeys(v: View, c: Cidrs)
    ensures CommonFields(v, c.list, c.inside).Keys == COMMON_KEYS
  {
    hide RoutesField, NicFields, InterfacesField;
  }

  lemma OverlayNotMissing(p: Pin)
    requires Overlay(p).Some?
    ensures OVERLAY.link !in Missing(p)
  {
    hide Missing;
    OverlayKeyAlone();
    OverlayNeverMissing(p);
  }

  lemma OverlayIsSampled(p: Pin, v: View, c: Cidrs, name: string)
    requires Overlay(p) == Some(name)
    ensures OVERLAY.link in Reported(p, v, c)
    ensures Reported(p, v, c)[OVERLAY.link] == if Has(v, name) then Present(JString(name)) else Absent()
  {
    hide OverlayFields, CommonFields, LinkFields;
    OverlayKeyAlone();
    CommonKeys(v, c);
    OverlayLinkField(v, name);
  }

  /** In an overlay mode the overlay field is unknown after a failed read, else present or absent as the link is. */
  lemma OverlayField(p: Pin, r: Read, c: Cidrs, name: string)
    requires Overlay(p) == Some(name)
    ensures var f := FieldsOf(p, r, c)[OVERLAY.link];
            f == match r
                 case Failed(err) => Unknown("netlink: " + err)
                 case Seen(v) => if Has(v, name) then Present(JString(name)) else Absent()
  {
    hide Reported, Missing;
    OverlayNotMissing(p);
    if r.Seen? { OverlayIsSampled(p, r.view, c, name); }
  }

  /** In a mode without overlay it is not_applicable, or unknown after a failed read. */
  lemma NoOverlayField(p: Pin, r: Read, c: Cidrs)
    requires NoOverlay(p)
    ensures FieldsOf(p, r, c)[OVERLAY.link].state == if r.Seen? then StateNotApplicable else StateUnknown
  {
    hide Reported;
    assert OVERLAY.link in Missing(p) by { OverlayMissing(p); }
  }

  lemma OverlayMissing(p: Pin)
    requires NoOverlay(p)
    ensures OVERLAY.link in Missing(p)
  {
    assert OVERLAY.link in OVERLAY_KEYS;
  }

  /** A mode inferred from a read says there is an overlay exactly when its link is in that read. */
  lemma InferredOverlay(kind: Kind, v: View)
    requires kind != GenericKind
    ensures var p := Pin(kind, Inferred(kind, v));
            IsPinned(p) && (NoOverlay(p) <==> Overlay(p) == None) && (Overlay(p).Some? ==> Has(v, Overlay(p).value))
  {
  }

  // --- the fields only a VXLAN device has -------------------------------------------------------

  /** The read shows the link as a VXLAN device. */
  predicate ShowsVxlan(r: Read, name: string) {
    r.Seen? && LinkOf(r.view, name).Some? && LinkOf(r.view, name).value.vxlan.Some?
  }

  predicate ShowsLocal(r: Read, name: string) {
    ShowsVxlan(r, name) && LinkOf(r.view, name).value.vxlan.value.local != ""
  }

  lemma VxlanKeysAlone()
    ensures forall k :: k in {OVERLAY_VNI, OVERLAY_LOCAL} ==>
              k !in COMMON_KEYS && k !in BRIDGE_KEYS && k != NEIGHBOURS && k in OVERLAY_KEYS
  {
  }

  lemma VxlanIsSampled(p: Pin, v: View, c: Cidrs, name: string, k: string)
    requires Overlay(p) == Some(name) && (k == OVERLAY_VNI || k == OVERLAY_LOCAL)
    ensures k in Reported(p, v, c) && k in VxlanFields(v, name) && Reported(p, v, c)[k] == VxlanFields(v, name)[k]
  {
    hide CommonFields, OverlayFields, LinkFields, VxlanFields;
    VxlanKeysAlone();
    CommonKeys(v, c);
    VxlanInOverlay(v, name, k);
  }

  lemma VxlanInOverlay(v: View, name: string, k: string)
    requires k == OVERLAY_VNI || k == OVERLAY_LOCAL
    ensures k in VxlanFields(v, name) && k in OverlayFields(v, name)
    ensures OverlayFields(v, name)[k] == VxlanFields(v, name)[k]
  {
    hide LinkFields, NeighbourField;
    VxlanKeysAlone();
  }

  lemma VxlanNotMissing(p: Pin, k: string)
    requires Overlay(p).Some? && (k == OVERLAY_VNI || k == OVERLAY_LOCAL)
    ensures k !in Missing(p) && k in KEYS
  {
    hide Missing;
    VxlanKeysAlone();
    OverlayNeverMissing(p);
  }

  /** In an overlay mode a driver only ever lacks a pod bridge. */
  lemma OverlayNeverMissing(p: Pin)
    requires Overlay(p).Some?
    ensures Missing(p).Keys <= BRIDGE_KEYS
  {
    hide Reasons, WithoutOverlay;
    ReasonKeys(BRIDGE_KEYS, if p.kind == CalicoKind then NO_BRIDGE else WithoutOverlay(p));
  }

  lemma ReasonKeys(keys: set<string>, why: string)
    ensures Reasons(keys, why).Keys == keys
  {
  }

  /** In an overlay mode each of the two is unknown after a failed read and not_applicable for a link that is no VXLAN
      device; otherwise present exactly when the device has it. */
  lemma VxlanStates(p: Pin, r: Read, c: Cidrs, name: string)
    requires Overlay(p) == Some(name)
    ensures var f := FieldsOf(p, r, c)[OVERLAY_VNI].state;
            && (f == StateUnknown <==> r.Failed?)
            && (f == StateNotApplicable <==> Shows(r, name) && !ShowsVxlan(r, name))
            && (f == StatePresent <==> ShowsVxlan(r, name)) && (f == StateAbsent <==> Lacks(r, name))
    ensures var f := FieldsOf(p, r, c)[OVERLAY_LOCAL].state;
            && (f == StateUnknown <==> r.Failed?)
            && (f == StateNotApplicable <==> Shows(r, name) && !ShowsVxlan(r, name))
            && (f == StatePresent <==> ShowsLocal(r, name))
            && (f == StateAbsent <==> Lacks(r, name) || (ShowsVxlan(r, name) && !ShowsLocal(r, name)))
  {
    hide Reported, Missing;
    VxlanNotMissing(p, OVERLAY_VNI);
    VxlanNotMissing(p, OVERLAY_LOCAL);
    if r.Seen? {
      VxlanIsSampled(p, r.view, c, name, OVERLAY_VNI);
      VxlanIsSampled(p, r.view, c, name, OVERLAY_LOCAL);
    }
  }

  /** And what they hold: the network identifier of the device and its local address. */
  lemma VxlanIsDescribed(p: Pin, v: View, c: Cidrs, name: string)
    requires Overlay(p) == Some(name) && ShowsVxlan(Seen(v), name)
    ensures var f, x := FieldsOf(p, Seen(v), c), LinkOf(v, name).value.vxlan.value;
            && f[OVERLAY_VNI] == Present(JNumber(x.vni))
            && (x.local != "" ==> f[OVERLAY_LOCAL] == Present(JString(x.local)))
  {
    hide Reported, Missing, LinkOf;
    VxlanNotMissing(p, OVERLAY_VNI);
    VxlanNotMissing(p, OVERLAY_LOCAL);
    VxlanIsSampled(p, v, c, name, OVERLAY_VNI);
    VxlanIsSampled(p, v, c, name, OVERLAY_LOCAL);
  }

  /** A failed read leaves every field unknown, with the error. */
  lemma FailedReadIsUnknown(p: Pin, err: string, c: Cidrs, k: string)
    requires k in KEYS
    ensures FieldsOf(p, Failed(err), c)[k] == Field(StateUnknown, None, "netlink: " + err)
  {
  }

  /** So in an overlay mode the network id alerts exactly when a VXLAN device was there and the link is gone, and the
      local address exactly when there was one and the device is gone or has none any more. A link that is no VXLAN
      device, as in Calico's IPIP mode, never alerts on either. */
  lemma VxlanAlertsExactly(p: Pin, a: Observation, b: Observation, name: string)
    requires Overlay(p) == Some(name)
    ensures var before, after := FieldsOf(p, a.read, a.cidrs), FieldsOf(p, b.read, b.cidrs);
            && (Classify(before[OVERLAY_VNI], after[OVERLAY_VNI]) == Some(Alert) <==>
                ShowsVxlan(a.read, name) && Lacks(b.read, name))
            && (Classify(before[OVERLAY_LOCAL], after[OVERLAY_LOCAL]) == Some(Alert) <==>
                ShowsLocal(a.read, name) &&
                (Lacks(b.read, name) || (ShowsVxlan(b.read, name) && !ShowsLocal(b.read, name))))
  {
    hide FieldsOf, ShowsVxlan, ShowsLocal, Has;
    VxlanStates(p, a.read, a.cidrs, name);
    VxlanStates(p, b.read, b.cidrs, name);
  }

  // --- what the fields of a successful read say ---------------------------------------------------

  const LINK_KEYS := {OVERLAY.link, OVERLAY.ipv4, OVERLAY.mtu, OVERLAY.state}

  /** The four fields of a link: all absent without it; else its name, its first IPv4 address or absent, its MTU and
      whether it is up. */
  ghost predicate Describes(f: Fields, k: LinkKeys, v: View, name: string) {
    && k.link in f && k.ipv4 in f && k.mtu in f && k.state in f
    && match LinkOf(v, name)
       case None => f[k.link] == f[k.ipv4] == f[k.mtu] == f[k.state] == Absent()
       case Some(l) =>
         && f[k.link] == Present(JString(name))
         && (forall i :: IsFirstIPv4(v, name, i) && v.addrs[i].ip != "" ==>
               f[k.ipv4] == Present(JString(v.addrs[i].ip)))
         && (!HasAddress(v, name) ==> f[k.ipv4] == Absent())
         && f[k.mtu] == Present(JNumber(l.mtu))
         && f[k.state] == Present(JString(if l.up then "up" else "down"))
  }

  lemma LinkFieldsDescribe(v: View, k: LinkKeys, name: string)
    requires k == BRIDGE || k == OVERLAY
    ensures Describes(LinkFields(v, k, name), k, v, name)
    ensures LinkFields(v, k, name).Keys == {k.link, k.ipv4, k.mtu, k.state}
  {
    hide LinkOf, IPv4, HasAddress;
    IPv4Tells(v, name);
  }

  lemma SameDescription(f: Fields, g: Fields, k: LinkKeys, v: View, name: string)
    requires Describes(f, k, v, name) && forall x :: x in {k.link, k.ipv4, k.mtu, k.state} ==> x in g && g[x] == f[x]
    ensures Describes(g, k, v, name)
  {
    hide LinkOf, HasAddress, IsFirstIPv4;
  }

  lemma KeysApart()
    ensures BRIDGE_KEYS !! OVERLAY_KEYS + {NEIGHBOURS} && BRIDGE_KEYS !! COMMON_KEYS
    ensures OVERLAY_KEYS + {NEIGHBOURS} !! COMMON_KEYS && LINK_KEYS <= OVERLAY_KEYS
    ensures LINK_KEYS !! {OVERLAY_VNI, OVERLAY_LOCAL} && NEIGHBOURS !in OVERLAY_KEYS
  {
  }

  lemma OverlayFieldKeys(v: View, name: string)
    ensures OverlayFields(v, name).Keys == OVERLAY_KEYS + {NEIGHBOURS}
    ensures forall k :: k in LINK_KEYS ==> OverlayFields(v, name)[k] == LinkFields(v, OVERLAY, name)[k]
    ensures OverlayFields(v, name)[NEIGHBOURS] == NeighbourField(v, name)
  {
    hide LinkFields, VxlanFields, NeighbourField;
    LinkFieldsDescribe(v, OVERLAY, name);
    VxlanKeys(v, name);
    KeysApart();
  }

  lemma ReportedParts(p: Pin, v: View, c: Cidrs, k: string)
    requires k in KEYS
    ensures k in COMMON_KEYS ==>
              k in Reported(p, v, c) && k in CommonFields(v, c.list, c.inside) &&
              Reported(p, v, c)[k] == CommonFields(v, c.list, c.inside)[k]
    ensures Sampled(p).Some? && k in OVERLAY_KEYS + {NEIGHBOURS} ==>
              k in Reported(p, v, c) && k in OverlayFields(v, Sampled(p).value) &&
              Reported(p, v, c)[k] == OverlayFields(v, Sampled(p).value)[k]
    ensures Bridge(p).Some? && k in BRIDGE_KEYS ==>
              k in Reported(p, v, c) && k in LinkFields(v, BRIDGE, Bridge(p).value) &&
              Reported(p, v, c)[k] == LinkFields(v, BRIDGE, Bridge(p).value)[k]
  {
    hide CommonFields, OverlayFields, LinkFields, KEYS;
    KeysApart();
    CommonKeys(v, c);
    if Sampled(p).Some? { OverlayFieldKeys(v, Sampled(p).value); }
    if Bridge(p).Some? { LinkFieldsDescribe(v, BRIDGE, Bridge(p).value); }
  }

  /** The keys a driver lacks: the bridge for Calico and the generic driver, the overlay and its neighbours without
      one. */
  lemma MissingKeys(p: Pin)
    ensures Missing(p).Keys == (if p.kind == CalicoKind || p.kind == GenericKind then BRIDGE_KEYS else {}) +
                               (if NoOverlay(p) then OVERLAY_KEYS + {NEIGHBOURS} else {})
  {
    hide Reasons, WithoutOverlay, NoOverlay;
    ReasonKeys(BRIDGE_KEYS, if p.kind == CalicoKind then NO_BRIDGE else WithoutOverlay(p));
    ReasonKeys(OVERLAY_KEYS, WithoutOverlay(p));
  }

  /** Flannel's bridge is cni0 and Cilium's cilium_host; Calico and the generic driver have none. */
  lemma BridgeIsDescribed(p: Pin, v: View, c: Cidrs)
    ensures var f := FieldsOf(p, Seen(v), c);
            match p.kind
            case FlannelKind => Describes(f, BRIDGE, v, "cni0")
            case CiliumKind => Describes(f, BRIDGE, v, "cilium_host")
            case _ => forall k :: k in BRIDGE_KEYS ==> f[k].state == StateNotApplicable
  {
    hide Missing, Reported, LinkFields, Describes, NoOverlay, KEYS;
    MissingKeys(p);
    KeysApart();
    BridgeKeysKnown();
    forall k | k in BRIDGE_KEYS
      ensures Bridge(p).Some? ==> k in LinkFields(v, BRIDGE, Bridge(p).value) &&
                                  FieldsOf(p, Seen(v), c)[k] == LinkFields(v, BRIDGE, Bridge(p).value)[k]
    {
      ReportedParts(p, v, c, k);
    }
    if Bridge(p).Some? {
      LinkFieldsDescribe(v, BRIDGE, Bridge(p).value);
      SameDescription(LinkFields(v, BRIDGE, Bridge(p).value), FieldsOf(p, Seen(v), c), BRIDGE, v, Bridge(p).value);
    }
  }

  lemma BridgeKeysKnown()
    ensures BRIDGE_KEYS + OVERLAY_KEYS + {NEIGHBOURS} + COMMON_KEYS == KEYS
  {
  }

  lemma OverlayKeyNotMissing(p: Pin, k: string)
    requires Overlay(p).Some? && k in OVERLAY_KEYS + {NEIGHBOURS}
    ensures k !in Missing(p) && k in KEYS && Sampled(p) == Overlay(p)
  {
    hide Missing, KEYS;
    MissingKeys(p);
    KeysApart();
    BridgeKeysKnown();
  }

  lemma OverlayIsReported(p: Pin, v: View, c: Cidrs, name: string, k: string)
    requires Overlay(p) == Some(name) && k in OVERLAY_KEYS + {NEIGHBOURS}
    ensures k in KEYS && k in OverlayFields(v, name) && FieldsOf(p, Seen(v), c)[k] == OverlayFields(v, name)[k]
  {
    hide Missing, Reported, OverlayFields, KEYS, Overlay, Sampled;
    OverlayKeyNotMissing(p, k);
    ReportedParts(p, v, c, k);
  }

  /** In an overlay mode the overlay fields describe its link, and the neighbour table is that link's; in a mode without
      overlay they are all not_applicable. */
  lemma OverlayIsDescribed(p: Pin, v: View, c: Cidrs)
    ensures var f := FieldsOf(p, Seen(v), c);
            && (Overlay(p).Some? ==>
                  Describes(f, OVERLAY, v, Overlay(p).value) && f[NEIGHBOURS] == NeighbourField(v, Overlay(p).value))
            && (NoOverlay(p) ==> forall k :: k in OVERLAY_KEYS + {NEIGHBOURS} ==> f[k].state == StateNotApplicable)
  {
    hide Missing, Reported, LinkFields, OverlayFields, NeighbourField, Describes, KEYS;
    MissingKeys(p);
    KeysApart();
    BridgeKeysKnown();
    if Overlay(p).Some? {
      var name := Overlay(p).value;
      OverlayFieldKeys(v, name);
      LinkFieldsDescribe(v, OVERLAY, name);
      forall k | k in OVERLAY_KEYS + {NEIGHBOURS}
        ensures k in OverlayFields(v, name) && k in FieldsOf(p, Seen(v), c)
        ensures FieldsOf(p, Seen(v), c)[k] == OverlayFields(v, name)[k]
      {
        OverlayIsReported(p, v, c, name, k);
      }
      SameDescription(LinkFields(v, OVERLAY, name), FieldsOf(p, Seen(v), c), OVERLAY, v, name);
    }
  }

  /** The device of the first IPv4 default route, if any. */
  ghost predicate IsDefaultDev(v: View, dev: string) {
    exists i :: 0 <= i < |v.routes| && IsFirstDefault(v, i) && v.routes[i].dev == dev
  }

  predicate GoesAnywhere(r: Route) { r.family == 4 && (r.dst == "" || r.dst == "0.0.0.0/0" || r.dst == "::/0") }

  ghost predicate IsFirstDefault(v: View, i: int) {
    0 <= i < |v.routes| && GoesAnywhere(v.routes[i]) && forall j :: 0 <= j < i ==> !GoesAnywhere(v.routes[j])
  }

  lemma DefaultDevTells(v: View)
    ensures DefaultDev(v) != "" ==> IsDefaultDev(v, DefaultDev(v))
    ensures DefaultDev(v) == "" ==>
              IsDefaultDev(v, "") || forall i :: 0 <= i < |v.routes| ==> !GoesAnywhere(v.routes[i])
  {
    hide First;
    var found := First(v.routes, (r: Route) => r.IsDefault() && r.family == 4);
    if found.Some? {
      var i :| 0 <= i < |v.routes| && v.routes[i] == found.value && IsFirstDefault(v, i);
    } else {
      forall i | 0 <= i < |v.routes| ensures !GoesAnywhere(v.routes[i]) { assert v.routes[i] in v.routes; }
    }
  }

  /** What every driver reports alike: the routes into the pods' CIDRs, the other interfaces, and state and carrier of
      the link with the default route, absent if there is none. */
  lemma CommonIsReported(p: Pin, v: View, c: Cidrs)
    ensures var f, dev := FieldsOf(p, Seen(v), c), DefaultDev(v);
            && f[ROUTES] == RoutesField(v, c.list, c.inside) && f[INTERFACES] == InterfacesField(v)
            && match (if dev == "" then None else LinkOf(v, dev))
               case None => f[NIC_STATE] == f[NIC_CARRIER] == Absent()
               case Some(l) =>
                 && f[NIC_STATE] == Present(JString(dev + " " + if l.up then "up" else "down"))
                 && f[NIC_CARRIER] == Present(JBool(l.carrier))
  {
    hide Missing, Reported, RoutesField, InterfacesField, NoOverlay, DefaultDev, LinkOf, KEYS;
    MissingKeys(p);
    KeysApart();
    BridgeKeysKnown();
    forall k | k in COMMON_KEYS
      ensures k in CommonFields(v, c.list, c.inside) &&
              FieldsOf(p, Seen(v), c)[k] == CommonFields(v, c.list, c.inside)[k]
    {
      ReportedParts(p, v, c, k);
    }
    CommonParts(v, c);
  }

  lemma CommonParts(v: View, c: Cidrs)
    ensures var f := CommonFields(v, c.list, c.inside);
            && ROUTES in f && INTERFACES in f && NIC_STATE in f && NIC_CARRIER in f
            && f[ROUTES] == RoutesField(v, c.list, c.inside) && f[INTERFACES] == InterfacesField(v)
            && f[NIC_STATE] == NicFields(v)[NIC_STATE] && f[NIC_CARRIER] == NicFields(v)[NIC_CARRIER]
  {
    hide RoutesField, InterfacesField, NicFields;
  }

  // --- consecutive reads ------------------------------------------------------------------------

  /** A read and the pod CIDRs known at the time. */
  datatype Observation = Observation(read: Read, cidrs: Cidrs)

  function ReadsOf(obs: seq<Observation>): (r: seq<Read>)
    ensures |r| == |obs|
    ensures forall i :: 0 <= i < |obs| ==> r[i] == obs[i].read
  {
    seq(|obs|, i requires 0 <= i < |obs| => obs[i].read)
  }

  /** The overlay field of one sample of a driver with this mode. */
  function Reading(p: Pin, o: Observation): Field { FieldsOf(p, o.read, o.cidrs)[OVERLAY.link] }

  /** The overlay field of every sample of a driver that starts as `p`. */
  function OverlayReadings(p: Pin, obs: seq<Observation>): (r: seq<Field>)
    ensures |r| == |obs|
  {
    seq(|obs|, i requires 0 <= i < |obs| => Reading(PinThrough(p, ReadsOf(obs)[..i + 1]), obs[i]))
  }

  /** The record two readings of the overlay field emit when its link is `name`. */
  ghost predicate TellsLink(r: Option<Severity>, before: Read, after: Read, name: string) {
    && (r == Some(Alert) <==> Shows(before, name) && Lacks(after, name))
    && (r == Some(Recovery) <==> Lacks(before, name) && Shows(after, name))
    && (r == Some(Degraded) <==> before.Seen? && after.Failed?)
    && r != Some(Info)
  }

  lemma TwoReadings(p: Pin, a: Observation, b: Observation, name: string)
    requires Overlay(p) == Some(name)
    ensures TellsLink(Classify(Reading(p, a), Reading(p, b)), a.read, b.read, name)
  {
    hide FieldsOf;
    OverlayField(p, a.read, a.cidrs, name);
    OverlayField(p, b.read, b.cidrs, name);
  }

  /** A driver pinned to an overlay mode, over any reads, successful or failed: the overlay field is never
      not_applicable, and consecutive samples alert exactly when two adjacent reads succeeded with the link there and
      then gone. */
  lemma PinnedOverlayAlertsExactlyOnLoss(p: Pin, obs: seq<Observation>, i: int, name: string)
    requires IsPinned(p) && Overlay(p) == Some(name)
    requires 0 <= i < |obs|
    ensures OverlayReadings(p, obs)[i].state != StateNotApplicable
    ensures i > 0 ==> TellsLink(Emitted(OverlayReadings(p, obs), i), obs[i - 1].read, obs[i].read, name)
  {
    hide FieldsOf, Classify;
    PinIsKept(p, ReadsOf(obs)[..i + 1]);
    OverlayField(p, obs[i].read, obs[i].cidrs, name);
    if i > 0 {
      PinIsKept(p, ReadsOf(obs)[..i]);
      TwoReadings(p, obs[i - 1], obs[i], name);
    }
  }

  /** After the first successful read a record compares two readings in the mode that read pinned. */
  lemma RecordsInPinnedMode(kind: Kind, obs: seq<Observation>, s: int, i: int)
    requires kind != GenericKind && FirstSuccess(ReadsOf(obs), s) && s < i < |obs|
    ensures var p, a, b := Pin(kind, Inferred(kind, obs[s].read.view)), obs[i - 1], obs[i];
            Emitted(OverlayReadings(Pin(kind, Unset), obs), i) == Classify(Reading(p, a), Reading(p, b))
  {
    hide Reading, Classify, Inferred, PinThrough;
    var rs := ReadsOf(obs);
    PinIsInferred(kind, rs[..i], s);
    PinIsInferred(kind, rs[..i + 1], s);
  }

  /** From a new driver object on: whether a later loss of the overlay is an alert is decided by the first successful
      read. If it showed the overlay, losses and returns of that very link are reported and nothing else is; if not,
      nothing about the overlay is ever reported. */
  lemma FirstReadDecides(kind: Kind, obs: seq<Observation>, s: int, i: int)
    requires kind != GenericKind && FirstSuccess(ReadsOf(obs), s) && s < i < |obs|
    ensures var r := Emitted(OverlayReadings(Pin(kind, Unset), obs), i);
            && (forall name :: ShowsOverlay(kind, obs[s].read.view, name) ==>
                  TellsLink(r, obs[i - 1].read, obs[i].read, name))
            && ((forall name :: !ShowsOverlay(kind, obs[s].read.view, name)) ==> r == None)
  {
    hide Reading, Classify, Inferred, ShowsOverlay, Overlay, NoOverlay, OverlayReadings, Emitted, TellsLink;
    var p := Pin(kind, Inferred(kind, obs[s].read.view));
    RecordsInPinnedMode(kind, obs, s, i);
    forall name | ShowsOverlay(kind, obs[s].read.view, name)
      ensures TellsLink(Emitted(OverlayReadings(Pin(kind, Unset), obs), i), obs[i - 1].read, obs[i].read, name)
    {
      PinnedOverlayIsShown(kind, obs[s].read.view, name);
      TwoReadings(p, obs[i - 1], obs[i], name);
    }
    if forall name :: !ShowsOverlay(kind, obs[s].read.view, name) {
      PinnedOverlayIsShown(kind, obs[s].read.view, "");
      NothingToTell(p, obs[i - 1], obs[i]);
    }
  }

  /** What the two reads before a record tell, by what the first read showed, driver by driver. */
  ghost predicate ToldByLinks(kind: Kind, first: View, r: Option<Severity>, before: Read, after: Read) {
    match kind
    case FlannelKind =>
      if Has(first, "flannel.1") then TellsLink(r, before, after, "flannel.1") else r == None
    case CalicoKind =>
      if Has(first, "vxlan.calico") then TellsLink(r, before, after, "vxlan.calico")
      else if Has(first, "tunl0") && HasAddress(first, "tunl0") then TellsLink(r, before, after, "tunl0")
      else r == None
    case CiliumKind =>
      if Has(first, "cilium_vxlan") then TellsLink(r, before, after, "cilium_vxlan")
      else if Has(first, "cilium_geneve") then TellsLink(r, before, after, "cilium_geneve")
      else r == None
    case GenericKind => true
  }

  /** In the words of the first read, driver by driver. */
  lemma FirstReadDecidesByLinks(kind: Kind, obs: seq<Observation>, s: int, i: int)
    requires kind != GenericKind && FirstSuccess(ReadsOf(obs), s) && s < i < |obs|
    ensures ToldByLinks(kind, obs[s].read.view, Emitted(OverlayReadings(Pin(kind, Unset), obs), i),
              obs[i - 1].read, obs[i].read)
  {
    hide OverlayReadings, TellsLink, Emitted, ShowsOverlay, ToldByLinks;
    FirstReadDecides(kind, obs, s, i);
    var r := Emitted(OverlayReadings(Pin(kind, Unset), obs), i);
    ByLinks(kind, obs[s].read.view, r, obs[i - 1].read, obs[i].read);
  }

  lemma ByLinks(kind: Kind, first: View, r: Option<Severity>, before: Read, after: Read)
    requires forall name :: ShowsOverlay(kind, first, name) ==> TellsLink(r, before, after, name)
    requires (forall name :: !ShowsOverlay(kind, first, name)) ==> r == None
    ensures ToldByLinks(kind, first, r, before, after)
  {
    hide TellsLink, LinkOf, HasAddress;
    match kind
    case FlannelKind => assert ShowsOverlay(kind, first, "flannel.1") <==> Has(first, "flannel.1");
    case CalicoKind =>
      assert Has(first, "vxlan.calico") ==> ShowsOverlay(kind, first, "vxlan.calico");
      assert !Has(first, "vxlan.calico") && Has(first, "tunl0") && HasAddress(first, "tunl0") ==>
             ShowsOverlay(kind, first, "tunl0");
    case CiliumKind =>
      assert Has(first, "cilium_vxlan") ==> ShowsOverlay(kind, first, "cilium_vxlan");
      assert !Has(first, "cilium_vxlan") && Has(first, "cilium_geneve") ==> ShowsOverlay(kind, first, "cilium_geneve");
    case GenericKind =>
  }

  lemma NothingToTell(p: Pin, a: Observation, b: Observation)
    requires NoOverlay(p)
    ensures Classify(Reading(p, a), Reading(p, b)) == None
  {
    hide FieldsOf;
    NoOverlayField(p, a.read, a.cidrs);
    NoOverlayField(p, b.read, b.cidrs);
  }

  /** So an overlay that shows up after the first successful read and then disappears raises no alert. */
  lemma LateOverlayLossIsSilent(bare: View, tunnelled: View, c: Cidrs)
    requires !Has(bare, "flannel.1") && Has(tunnelled, "flannel.1")
    ensures var obs := [Observation(Seen(bare), c), Observation(Seen(tunnelled), c), Observation(Seen(bare), c)];
            Shows(obs[1].read, "flannel.1") && Lacks(obs[2].read, "flannel.1") &&
            Emitted(OverlayReadings(Pin(FlannelKind, Unset), obs), 2) == None
  {
    hide FieldsOf, Classify;
    var obs := [Observation(Seen(bare), c), Observation(Seen(tunnelled), c), Observation(Seen(bare), c)];
    assert FirstSuccess(ReadsOf(obs), 0);
    FirstReadDecides(FlannelKind, obs, 0, 2);
  }

  // --- other promises of the framework --------------------------------------------------------------

  /** Calico has no pod bridge: the field is not_applicable or, after a failed read, unknown, so it never alerts. */
  lemma CalicoBridgeNeverAlerts(p: Pin, before: Field, r: Read, c: Cidrs)
    requires p.kind == CalicoKind
    ensures FieldsOf(p, r, c)[BRIDGE.link].state == if r.Seen? then StateNotApplicable else StateUnknown
    ensures Classify(before, FieldsOf(p, r, c)[BRIDGE.link]) != Some(Alert)
  {
    hide Reported;
    assert BRIDGE.link in BRIDGE_KEYS;
    assert BRIDGE.link in Missing(p);
  }

  ghost predicate AllValid(f: Fields) {
    forall k :: k in f ==> f[k].Validate() == None
  }

  lemma LinkFieldsValid(v: View, k: LinkKeys, name: string)
    ensures AllValid(LinkFields(v, k, name))
  {
  }

  lemma VxlanFieldsValid(v: View, name: string)
    ensures AllValid(VxlanFields(v, name))
  {
  }

  lemma OverlayFieldsValid(v: View, name: string)
    ensures AllValid(OverlayFields(v, name))
  {
    hide LinkFields, VxlanFields;
    LinkFieldsValid(v, OVERLAY, name);
    VxlanFieldsValid(v, name);
  }

  lemma NicFieldsValid(v: View)
    ensures AllValid(NicFields(v))
  {
  }

  lemma CommonFieldsValid(v: View, cidrs: seq<string>, inside: Inside)
    ensures AllValid(CommonFields(v, cidrs, inside))
  {
    hide NicFields;
    NicFieldsValid(v);
  }

  lemma ReportedValid(p: Pin, v: View, c: Cidrs)
    ensures AllValid(Reported(p, v, c))
  {
    hide LinkFields, OverlayFields, CommonFields;
    if Bridge(p).Some? { LinkFieldsValid(v, BRIDGE, Bridge(p).value); }
    if Sampled(p).Some? { OverlayFieldsValid(v, Sampled(p).value); }
    CommonFieldsValid(v, c.list, c.inside);
  }

  /** Whatever the driver and the read, every generic key is there with a well-formed field. */
  lemma FieldsComplete(p: Pin, r: Read, c: Cidrs)
    ensures FieldsOf(p, r, c).Keys == KEYS && AllValid(FieldsOf(p, r, c))
  {
    hide Reported, Missing;
    if r.Seen? { ReportedValid(p, r.view, c); }
  }
}
