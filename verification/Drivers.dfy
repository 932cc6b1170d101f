/** The four drivers: objects that pin a mode on their first successful read, and the sampling framework that
    completes what they report (internal/cni/driver.go, flannel.go, calico.go, cilium.go, generic.go). */
module Drivers {
  import opened Sample
  import opened Netlink
  import opened Cni

  datatype Kind = FlannelKind | CalicoKind | CiliumKind | GenericKind {
    function Name(): string {
      match this
      case FlannelKind => "flannel"
      case CalicoKind => "calico"
      case CiliumKind => "cilium"
      case GenericKind => "generic"
    }
  }

  datatype Mode = Unset | Vxlan | HostGw | Ipip | Routing | Geneve | Native | NoMode {
    function Text(): string {
      match this
      case Unset => ""
      case Vxlan => "vxlan"
      case HostGw => "host-gw"
      case Ipip => "ipip"
      case Routing => "routing"
      case Geneve => "geneve"
      case Native => "native"
      case NoMode => "unknown"
    }
  }

  // --- modes ---------------------------------------------------------------------------

  /** The mode inferred from one read by a driver that has pinned none. */
  function Inferred(kind: Kind, v: View): Mode {
    match kind
    case FlannelKind => if Has(v, "flannel.1") then Vxlan else HostGw
    case CalicoKind =>
      if Has(v, "vxlan.calico") then Vxlan
      else if Has(v, "tunl0") && IPv4(v, "tunl0") != "" then Ipip
      else Routing
    case CiliumKind =>
      if Has(v, "cilium_vxlan") then Vxlan else if Has(v, "cilium_geneve") then Geneve else Native
    case GenericKind => NoMode
  }

  /** A driver as a value: what it is and the mode it has pinned. */
  datatype Pin = Pin(kind: Kind, mode: Mode)

  /** Pins the mode on the first read and keeps it from then on. */
  function Pinned(p: Pin, v: View): Pin {
    if p.kind == GenericKind || p.mode == Unset then p.(mode := Inferred(p.kind, v)) else p
  }

  /** The mode says there is an overlay, and which link it is. */
  function Overlay(p: Pin): Option<string> {
    match (p.kind, p.mode)
    case (FlannelKind, Vxlan) => Some("flannel.1")
    case (CalicoKind, Vxlan) => Some("vxlan.calico")
    case (CalicoKind, Ipip) => Some("tunl0")
    case (CiliumKind, Vxlan) => Some("cilium_vxlan")
    case (CiliumKind, Geneve) => Some("cilium_geneve")
    case _ => None
  }

  function WithoutOverlay(p: Pin): string {
    match p.kind
    case FlannelKind => "flannel host-gw backend: no overlay tunnel"
    case CalicoKind => "calico routing (BGP) mode: no overlay tunnel"
    case CiliumKind => "cilium native routing mode: no overlay tunnel"
    case GenericKind => "unrecognised CNI"
  }

  const NO_BRIDGE := "calico routes to veths directly: no pod bridge"
  const NO_NEIGHBOURS := "unrecognised CNI: no overlay device to inspect"

  predicate NoOverlay(p: Pin) {
    match p.kind
    case FlannelKind => p.mode == HostGw
    case CalicoKind => p.mode == Routing
    case CiliumKind => p.mode == Native
    case GenericKind => true
  }

  predicate NoBridge(p: Pin) { p.kind == CalicoKind || p.kind == GenericKind }

  /** The keys a driver in this mode does not have at all, and why. */
  function Missing(p: Pin): map<string, string> {
    (if NoBridge(p) then Reasons(BRIDGE_KEYS, if p.kind == CalicoKind then NO_BRIDGE else WithoutOverlay(p))
      else map[]) +
    (if NoOverlay(p) then
       Reasons(OVERLAY_KEYS, WithoutOverlay(p))
         [NEIGHBOURS := if p.kind == GenericKind then NO_NEIGHBOURS else WithoutOverlay(p)]
     else map[])
  }

  function Reasons(keys: set<string>, why: string): map<string, string> {
    map k | k in keys :: why
  }

  // --- what a driver reports --------------------------------------------------------------

  /** Where the pods' CIDRs come from and which routes lie in them. */
  datatype Cidrs = Cidrs(list: seq<string>, inside: Inside)

  function OverlayFields(v: View, name: string): Fields {
    LinkFields(v, OVERLAY, name) + VxlanFields(v, name) + map[NEIGHBOURS := NeighbourField(v, name)]
  }

  /** The link a driver samples as the overlay: Flannel always looks, the others only in an overlay mode. */
  function Sampled(p: Pin): Option<string> {
    if p.kind == FlannelKind then Some("flannel.1") else Overlay(p)
  }

  function Bridge(p: Pin): Option<string> {
    match p.kind
    case FlannelKind => Some("cni0")
    case CiliumKind => Some("cilium_host")
    case _ => None
  }

  function Reported(p: Pin, v: View, c: Cidrs): Fields {
    (match Bridge(p) case None => map[] case Some(name) => LinkFields(v, BRIDGE, name)) +
    (match Sampled(p) case None => map[] case Some(name) => OverlayFields(v, name)) +
    CommonFields(v, c.list, c.inside)
  }

  function NotReported(kind: Kind, k: string): Field {
    Unknown("driver " + kind.Name() + " did not report " + k)
  }

  function Completed(kind: Kind, missing: map<string, string>, got: Fields, k: string): Field {
    if k in missing then NotApplicable(missing[k]) else if k in got then got[k] else NotReported(kind, k)
  }

  /** A successful read, or the error it failed with. */
  datatype Read = Seen(view: View) | Failed(err: string)

  /** The driver after a read. */
  function PinAfter(p: Pin, r: Read): Pin {
    match r case Seen(v) => Pinned(p, v) case Failed(_) => p
  }

  /** The generic fields of one read by a driver that has pinned its mode. */
  function FieldsOf(p: Pin, r: Read, c: Cidrs): (f: Fields)
    ensures f.Keys == KEYS
  {
    match r
    case Failed(err) => map k | k in KEYS :: Unknown("netlink: " + err)
    case Seen(v) => map k | k in KEYS :: Completed(p.kind, Missing(p), Reported(p, v, c), k)
  }

  // --- the drivers as objects ----------------------------------------------------------------

  class Flannel {
    var mode: Mode

    constructor ()
      ensures mode == Unset
    {
      mode := Unset;
    }

    method Topology(v: View) returns (missing: map<string, string>)
      modifies this
      ensures Pin(FlannelKind, mode) == Pinned(Pin(FlannelKind, old(mode)), v)
      ensures missing == Missing(Pin(FlannelKind, mode))
    {
      hide LinkOf, Reasons, WithoutOverlay;
      if mode == Unset {
        mode := if LinkOf(v, "flannel.1") != None then Vxlan else HostGw;
      }
      missing := map[];
      if mode == HostGw {
        missing := Reasons(OVERLAY_KEYS, WithoutOverlay(Pin(FlannelKind, mode)));
        missing := missing[NEIGHBOURS := WithoutOverlay(Pin(FlannelKind, mode))];
      }
    }

    method Sample(v: View, c: Cidrs) returns (out: Fields)
      ensures out == Reported(Pin(FlannelKind, mode), v, c)
    {
      hide LinkFields, VxlanFields, NeighbourField, CommonFields;
      out := AddLinkFields(map[], v, BRIDGE, "cni0");
      out := AddOverlay(out, v, "flannel.1");
      out := AddCommon(out, v, c.list, c.inside);
    }
  }

  /** The overlay's link fields and its neighbour table. */
  method AddOverlay(out: Fields, v: View, name: string) returns (r: Fields)
    ensures r == out + OverlayFields(v, name)
  {
    hide LinkFields, VxlanFields, NeighbourField;
    r := AddLinkFields(out, v, OVERLAY, name);
    r := AddVxlanFields(r, v, name);
    var table := Neighbours(v, name);
    r := r[NEIGHBOURS := table];
  }

  class Calico {
    var mode: Mode

    constructor ()
      ensures mode == Unset
    {
      mode := Unset;
    }

    method Topology(v: View) returns (missing: map<string, string>)
      modifies this
      ensures Pin(CalicoKind, mode) == Pinned(Pin(CalicoKind, old(mode)), v)
      ensures missing == Missing(Pin(CalicoKind, mode))
    {
      hide LinkOf, IPv4, Reasons, WithoutOverlay;
      if mode == Unset {
        if LinkOf(v, "vxlan.calico") != None { mode := Vxlan; }
        else if LinkOf(v, "tunl0") != None && IPv4(v, "tunl0") != "" { mode := Ipip; }
        else { mode := Routing; }
      }
      missing := Reasons(BRIDGE_KEYS, NO_BRIDGE);
      if mode == Routing {
        missing := missing + Reasons(OVERLAY_KEYS, WithoutOverlay(Pin(CalicoKind, mode)));
        missing := missing[NEIGHBOURS := WithoutOverlay(Pin(CalicoKind, mode))];
      }
    }

    method Sample(v: View, c: Cidrs) returns (out: Fields)
      ensures out == Reported(Pin(CalicoKind, mode), v, c)
    {
      hide OverlayFields, CommonFields;
      out := map[];
      var tunnel := Overlay(Pin(CalicoKind, mode));
      if tunnel.Some? { out := AddOverlay(out, v, tunnel.value); }
      out := AddCommon(out, v, c.list, c.inside);
    }
  }

  class Cilium {
    var mode: Mode

    constructor ()
      ensures mode == Unset
    {
      mode := Unset;
    }

    method Topology(v: View) returns (missing: map<string, string>)
      modifies this
      ensures Pin(CiliumKind, mode) == Pinned(Pin(CiliumKind, old(mode)), v)
      ensures missing == Missing(Pin(CiliumKind, mode))
    {
      hide LinkOf, Reasons, WithoutOverlay;
      if mode == Unset {
        if LinkOf(v, "cilium_vxlan") != None { mode := Vxlan; }
        else if LinkOf(v, "cilium_geneve") != None { mode := Geneve; }
        else { mode := Native; }
      }
      missing := map[];
      if mode == Native {
        missing := Reasons(OVERLAY_KEYS, WithoutOverlay(Pin(CiliumKind, mode)));
        missing := missing[NEIGHBOURS := WithoutOverlay(Pin(CiliumKind, mode))];
      }
    }

    method Sample(v: View, c: Cidrs) returns (out: Fields)
      ensures out == Reported(Pin(CiliumKind, mode), v, c)
    {
      hide LinkFields, OverlayFields, CommonFields;
      out := AddLinkFields(map[], v, BRIDGE, "cilium_host");
      var tunnel := Overlay(Pin(CiliumKind, mode));
      if tunnel.Some? { out := AddOverlay(out, v, tunnel.value); }
      out := AddCommon(out, v, c.list, c.inside);
    }
  }

  // --- any driver --------------------------------------------------------------------------------

  /** A driver in use; the generic one has no state. */
  datatype Driver = FlannelDriver(flannel: Flannel) | CalicoDriver(calico: Calico) | CiliumDriver(cilium: Cilium) |
    GenericDriver {
    function Objects(): set<object> {
      match this
      case FlannelDriver(d) => {d}
      case CalicoDriver(d) => {d}
      case CiliumDriver(d) => {d}
      case GenericDriver => {}
    }

    function Kind(): Kind {
      match this
      case FlannelDriver(_) => FlannelKind
      case CalicoDriver(_) => CalicoKind
      case CiliumDriver(_) => CiliumKind
      case GenericDriver => GenericKind
    }

    /** The driver as a value. The generic driver's mode is the one it always reports. */
    function Value(): Pin
      reads Objects()
    {
      match this
      case FlannelDriver(d) => Pin(FlannelKind, d.mode)
      case CalicoDriver(d) => Pin(CalicoKind, d.mode)
      case CiliumDriver(d) => Pin(CiliumKind, d.mode)
      case GenericDriver => Pin(GenericKind, NoMode)
    }

    method Topology(v: View) returns (missing: map<string, string>)
      modifies Objects()
      ensures Value() == Pinned(old(Value()), v)
      ensures missing == Missing(Value())
    {
      match this
      case FlannelDriver(d) => missing := d.Topology(v);
      case CalicoDriver(d) => missing := d.Topology(v);
      case CiliumDriver(d) => missing := d.Topology(v);
      case GenericDriver =>
        missing := Reasons(BRIDGE_KEYS, "unrecognised CNI") + Reasons(OVERLAY_KEYS, "unrecognised CNI");
        missing := missing[NEIGHBOURS := NO_NEIGHBOURS];
    }

    method Sample(v: View, c: Cidrs) returns (out: Fields)
      ensures out == Reported(Value(), v, c)
    {
      hide LinkFields, OverlayFields, CommonFields;
      match this
      case FlannelDriver(d) => out := d.Sample(v, c);
      case CalicoDriver(d) => out := d.Sample(v, c);
      case CiliumDriver(d) => out := d.Sample(v, c);
      case GenericDriver => out := AddCommon(map[], v, c.list, c.inside);
    }

    /** Runs the driver against one read, and completes the fields. */
    method Run(r: Read, c: Cidrs) returns (f: Fields)
      modifies Objects()
      ensures Value() == PinAfter(old(Value()), r)
      ensures f == FieldsOf(Value(), r, c)
    {
      hide Missing, Reported, Pinned, Completed, KEYS;
      if r.Failed? {
        f := AllUnknown(KEYS, "netlink: " + r.err);
        return;
      }
      var missing := Topology(r.view);
      var got := Sample(r.view, c);
      f := CompleteKeys(KEYS, Kind(), missing, got);
    }
  }

  method AllUnknown(keys: set<string>, why: string) returns (f: Fields)
    ensures f == map k | k in keys :: Unknown(why)
  {
    f := map[];
    var rest := keys;
    while rest != {}
      invariant rest <= keys && f.Keys == keys - rest
      invariant forall k :: k in f ==> f[k] == Unknown(why)
      decreases rest
    {
      var k :| k in rest;
      f := f[k := Unknown(why)];
      rest := rest - {k};
    }
  }

  /** Every key, in any order: what the topology rules out, else what the driver reported, else unknown. */
  method CompleteKeys(keys: set<string>, kind: Kind, missing: map<string, string>, got: Fields) returns (f: Fields)
    ensures f == map k | k in keys :: Completed(kind, missing, got, k)
  {
    f := map[];
    var rest := keys;
    while rest != {}
      invariant rest <= keys && f.Keys == keys - rest
      invariant forall k :: k in f ==> f[k] == Completed(kind, missing, got, k)
      decreases rest
    {
      var k :| k in rest;
      if k in missing {
        f := f[k := NotApplicable(missing[k])];
      } else {
        f := f[k := if k in got then got[k] else Unknown("driver " + kind.Name() + " did not report " + k)];
      }
      rest := rest - {k};
    }
  }
}
