/** The worker policy over a decoded compose config: one extraction, a checker that stops
    at the first violation and one that collects them all. */
module ComposePolicy {
  import opened Prelude
  import opened Sealing
  import opened Ordering
  import opened PolicyChecks
  import opened Text
  import PathPolicy

  datatype Json =
    | Null
    | Bool(b: bool)
    | Num(n: int)
    | Str(s: string)
    | List(items: seq<Json>)
    | Map(fields: map<string, Json>)

  type Object = map<string, Json>

  /** The text of a violation: the check's prefix and the reason. */
  datatype Message = Message(check: Check, reason: Reason)

  datatype Ref = Ref(service: string, value: string)

  datatype Violation = Violation(check: Check, service: string, subject: string, message: Message)

  // ------------------------------------------------------------- what is extracted

  function Field(o: Object, key: string): Json {
    if key in o then o[key] else Null
  }

  function TextAt(o: Object, key: string): string {
    if Field(o, key).Str? then Field(o, key).s else ""
  }

  function ItemsAt(o: Object, key: string): seq<Json> {
    if Field(o, key).List? then Field(o, key).items else []
  }

  function ObjectAt(o: Object, key: string): Object {
    if Field(o, key).Map? then Field(o, key).fields else map[]
  }

  function One(service: string, value: string, when: bool): seq<Ref> {
    if when then [Ref(service, value)] else []
  }

  /** The non-empty strings of a list. */
  function Strings(service: string, items: seq<Json>): seq<Ref> {
    if items == [] then []
    else
      var last := items[|items| - 1];
      Strings(service, items[..|items| - 1])
      + (if last.Str? then One(service, last.s, last.s != "") else [])
  }

  /** The host side of each device mapping. */
  function DeviceRefs(service: string, items: seq<Json>): seq<Ref> {
    if items == [] then []
    else
      var last := items[|items| - 1];
      DeviceRefs(service, items[..|items| - 1])
      + (if last.Str? && last.s != "" then
           var src := Trim(PathPolicy.HostPart(last.s)); One(service, src, src != "")
         else [])
  }

  predicate Quote(c: char) {
    c == '"' || c == '\''
  }

  function Unquoted(s: string): string {
    if s == "" then ""
    else if Quote(s[0]) then Unquoted(s[1..])
    else if Quote(s[|s| - 1]) then Unquoted(s[..|s| - 1])
    else s
  }

  /** The source of a short-syntax volume: the part before the first colon, or a lone host path. */
  function VolumeSource(v: string): string {
    var t := Trim(v);
    var u := Trim(if HasPrefix(t, "-") then t[1..] else t);
    var parts := Split(Unquoted(u), ':');
    var src := Trim(parts[0]);
    if |parts| > 1 || PathPolicy.BindMount(src) then src else ""
  }

  function VolumeSourceOf(item: Json): string {
    match item
    case Str(s) => VolumeSource(s)
    case Map(fields) => TextAt(fields, "source")
    case _ => ""
  }

  function VolumeRefs(service: string, items: seq<Json>): seq<Ref> {
    if items == [] then []
    else
      var src := VolumeSourceOf(items[|items| - 1]);
      VolumeRefs(service, items[..|items| - 1]) + One(service, src, src != "")
  }

  ghost function Named(service: string, names: seq<string>): seq<Ref> {
    seq(|names|, i requires 0 <= i < |names| => Ref(service, names[i]))
  }

  ghost function NetworkRefs(service: string, svc: Object): seq<Ref> {
    if Field(svc, "networks").Map? then Named(service, Sorted(Field(svc, "networks").fields.Keys))
    else Strings(service, ItemsAt(svc, "networks"))
  }

  /** What one service contributes to a check. */
  ghost function OwnRefs(check: Check, name: string, svc: Object): seq<Ref> {
    match check
    case Images => One(name, TextAt(svc, "image"), TextAt(svc, "image") != "")
    case Volumes => VolumeRefs(name, ItemsAt(svc, "volumes"))
    case Networks => NetworkRefs(name, svc)
    case Privileged => One(name, name, Field(svc, "privileged") == Bool(true))
    case HostNetwork => One(name, name, TextAt(svc, "network_mode") == "host")
    case HostPid => One(name, name, TextAt(svc, "pid") == "host")
    case HostIpc => One(name, name, TextAt(svc, "ipc") == "host")
    case DockerSocket => []
    case CapAdd => Strings(name, ItemsAt(svc, "cap_add"))
    case Devices => DeviceRefs(name, ItemsAt(svc, "devices"))
    case SecurityOpt => Strings(name, ItemsAt(svc, "security_opt"))
  }

  /** The contributions of the services, in the order given. */
  ghost function AllRefs(check: Check, services: Object, names: seq<string>): seq<Ref> {
    if names == [] then []
    else
      var name := names[|names| - 1];
      AllRefs(check, services, names[..|names| - 1])
      + (if Field(services, name).Map? then OwnRefs(check, name, Field(services, name).fields) else [])
  }

  /** The host path behind a named volume bound by its driver options. */
  function DeviceOf(cfg: Object, volume: string): string {
    TextAt(ObjectAt(ObjectAt(ObjectAt(cfg, "volumes"), volume), "driver_opts"), "device")
  }

  function BehindNamed(cfg: Object, refs: seq<Ref>): seq<Ref> {
    if refs == [] then []
    else
      BehindNamed(cfg, refs[..|refs| - 1]) + Behind(cfg, refs[|refs| - 1])
  }

  /** The host path behind one reference, when it names a volume bound to one. */
  function Behind(cfg: Object, r: Ref): seq<Ref> {
    var device := DeviceOf(cfg, r.value);
    One(r.service, device, !PathPolicy.BindMount(r.value) && device != "")
  }

  lemma BehindNext(cfg: Object, refs: seq<Ref>, i: nat)
    requires i < |refs|
    ensures BehindNamed(cfg, refs[..i + 1]) == BehindNamed(cfg, refs[..i]) + Behind(cfg, refs[i])
  {
    assert refs[..i + 1][..i] == refs[..i];
  }

  /** Every value a check looks at, services in name order; the socket check looks at the
      volumes, the devices and the host paths behind named volumes. */
  ghost function Extracted(cfg: Object, check: Check): seq<Ref> {
    var services := ObjectAt(cfg, "services");
    var names := Sorted(services.Keys);
    if check.DockerSocket? then
      var volumes := AllRefs(Volumes, services, names);
      volumes + AllRefs(Devices, services, names) + BehindNamed(cfg, volumes)
    else AllRefs(check, services, names)
  }

  // ---------------------------------------------------------------- the extraction

  method CollectStrings(service: string, items: seq<Json>) returns (refs: seq<Ref>)
    ensures refs == Strings(service, items)
  {
    refs := [];
    for i := 0 to |items|
      invariant refs == Strings(service, items[..i])
    {
      assert items[..i + 1][..i] == items[..i];
      if items[i].Str? && items[i].s != "" {
        refs := refs + [Ref(service, items[i].s)];
      }
    }
    assert items[..|items|] == items;
  }

  method CollectDevices(service: string, items: seq<Json>) returns (refs: seq<Ref>)
    ensures refs == DeviceRefs(service, items)
  {
    refs := [];
    for i := 0 to |items|
      invariant refs == DeviceRefs(service, items[..i])
    {
      assert items[..i + 1][..i] == items[..i];
      if items[i].Str? && items[i].s != "" {
        var src := Trim(PathPolicy.HostPart(items[i].s));
        if src != "" {
          refs := refs + [Ref(service, src)];
        }
      }
    }
    assert items[..|items|] == items;
  }

  method CollectVolumes(service: string, items: seq<Json>) returns (refs: seq<Ref>)
    ensures refs == VolumeRefs(service, items)
  {
    refs := [];
    for i := 0 to |items|
      invariant refs == VolumeRefs(service, items[..i])
    {
      assert items[..i + 1][..i] == items[..i];
      var src := VolumeSourceOf(items[i]);
      if src != "" {
        refs := refs + [Ref(service, src)];
      }
    }
    assert items[..|items|] == items;
  }

  method CollectNetworks(service: string, svc: Object) returns (refs: seq<Ref>)
    ensures refs == NetworkRefs(service, svc)
  {
    if Field(svc, "networks").Map? {
      var names := SortKeys(Field(svc, "networks").fields.Keys);
      refs := [];
      for i := 0 to |names|
        invariant refs == Named(service, names[..i])
      {
        assert Named(service, names[..i + 1]) == Named(service, names[..i]) + [Ref(service, names[i])];
        refs := refs + [Ref(service, names[i])];
      }
      assert names[..|names|] == names;
    } else {
      refs := CollectStrings(service, ItemsAt(svc, "networks"));
    }
  }

  /** `composeRefs`: everything the checks look at. */
  datatype Refs = Refs(images: seq<Ref>, volumes: seq<Ref>, networks: seq<Ref>, privileged: seq<Ref>,
                       hostNetwork: seq<Ref>, hostPid: seq<Ref>, hostIpc: seq<Ref>, mounts: seq<Ref>,
                       capAdds: seq<Ref>, devices: seq<Ref>, securityOpts: seq<Ref>)
  {
    function Of(c: Check): seq<Ref> {
      match c
      case Images => images
      case Volumes => volumes
      case Networks => networks
      case Privileged => privileged
      case HostNetwork => hostNetwork
      case HostPid => hostPid
      case HostIpc => hostIpc
      case DockerSocket => mounts
      case CapAdd => capAdds
      case Devices => devices
      case SecurityOpt => securityOpts
    }

    function Plus(r: Refs): Refs {
      Refs(images + r.images, volumes + r.volumes, networks + r.networks, privileged + r.privileged,
           hostNetwork + r.hostNetwork, hostPid + r.hostPid, hostIpc + r.hostIpc, mounts + r.mounts,
           capAdds + r.capAdds, devices + r.devices, securityOpts + r.securityOpts)
    }
  }

  const NO_REFS := Refs([], [], [], [], [], [], [], [], [], [], [])

  method CollectService(name: string, svc: Object) returns (own: Refs)
    ensures forall c: Check :: own.Of(c) == OwnRefs(c, name, svc)
  {
    var volumes, networks, caps, devices, opts := CollectLists(name, svc);
    var image, privileged, network, pid, ipc := CollectFlags(name, svc);
    own := Refs(image, volumes, networks, privileged, network, pid, ipc, [], caps, devices, opts);
    FieldByField(own, c => OwnRefs(c, name, svc));
  }

  method CollectLists(name: string, svc: Object)
    returns (volumes: seq<Ref>, networks: seq<Ref>, caps: seq<Ref>, devices: seq<Ref>, opts: seq<Ref>)
    ensures volumes == OwnRefs(Volumes, name, svc) && networks == OwnRefs(Networks, name, svc)
    ensures caps == OwnRefs(CapAdd, name, svc) && devices == OwnRefs(Devices, name, svc)
    ensures opts == OwnRefs(SecurityOpt, name, svc)
  {
    volumes := CollectVolumes(name, ItemsAt(svc, "volumes"));
    networks := CollectNetworks(name, svc);
    caps := CollectStrings(name, ItemsAt(svc, "cap_add"));
    devices := CollectDevices(name, ItemsAt(svc, "devices"));
    opts := CollectStrings(name, ItemsAt(svc, "security_opt"));
  }

  method CollectFlags(name: string, svc: Object)
    returns (image: seq<Ref>, privileged: seq<Ref>, network: seq<Ref>, pid: seq<Ref>, ipc: seq<Ref>)
    ensures image == OwnRefs(Images, name, svc) && privileged == OwnRefs(Privileged, name, svc)
    ensures network == OwnRefs(HostNetwork, name, svc) && pid == OwnRefs(HostPid, name, svc)
    ensures ipc == OwnRefs(HostIpc, name, svc)
  {
    image := One(name, TextAt(svc, "image"), TextAt(svc, "image") != "");
    privileged := One(name, name, Field(svc, "privileged") == Bool(true));
    network := One(name, name, TextAt(svc, "network_mode") == "host");
    pid := One(name, name, TextAt(svc, "pid") == "host");
    ipc := One(name, name, TextAt(svc, "ipc") == "host");
  }

  lemma FieldByField(r: Refs, f: Check -> seq<Ref>)
    requires r.images == f(Images) && r.volumes == f(Volumes) && r.networks == f(Networks)
    requires r.privileged == f(Privileged) && r.hostNetwork == f(HostNetwork)
    requires r.hostPid == f(HostPid) && r.hostIpc == f(HostIpc) && r.mounts == f(DockerSocket)
    requires r.capAdds == f(CapAdd) && r.devices == f(Devices) && r.securityOpts == f(SecurityOpt)
    ensures forall c: Check :: r.Of(c) == f(c)
  {}

  lemma PlusOf(a: Refs, b: Refs, c: Check)
    ensures a.Plus(b).Of(c) == a.Of(c) + b.Of(c)
  {}

  method CollectServices(services: Object, names: seq<string>) returns (refs: Refs)
    ensures forall c: Check :: refs.Of(c) == AllRefs(c, services, names)
  {
    refs := NO_REFS;
    for i := 0 to |names|
      invariant forall c: Check :: refs.Of(c) == AllRefs(c, services, names[..i])
    {
      assert names[..i + 1][..i] == names[..i];
      if Field(services, names[i]).Map? {
        var own := CollectService(names[i], Field(services, names[i]).fields);
        forall c: Check
          ensures refs.Plus(own).Of(c) == refs.Of(c) + own.Of(c)
        {
          PlusOf(refs, own, c);
        }
        refs := refs.Plus(own);
      }
    }
    assert names[..|names|] == names;
  }

  /** `extractComposeRefs`. */
  method Extract(cfg: Object) returns (refs: Refs)
    ensures forall c: Check :: refs.Of(c) == Extracted(cfg, c)
  {
    var services := ObjectAt(cfg, "services");
    var names := SortKeys(services.Keys);
    var own := CollectServices(services, names);
    assert own.volumes == own.Of(Volumes) && own.devices == own.Of(Devices);
    var behind := CollectBehind(cfg, own.volumes);
    refs := own.(mounts := own.volumes + own.devices + behind);
    forall c: Check
      ensures refs.Of(c) == Extracted(cfg, c)
    {
      MountsOf(own, refs.mounts, c);
    }
  }

  lemma MountsOf(own: Refs, mounts: seq<Ref>, c: Check)
    ensures own.(mounts := mounts).Of(c) == if c.DockerSocket? then mounts else own.Of(c)
  {}

  /** Resolves the named volumes among the references to the host paths behind them. */
  method CollectBehind(cfg: Object, volumes: seq<Ref>) returns (refs: seq<Ref>)
    ensures refs == BehindNamed(cfg, volumes)
  {
    refs := [];
    for i := 0 to |volumes|
      invariant refs == BehindNamed(cfg, volumes[..i])
    {
      BehindNext(cfg, volumes, i);
      var device := DeviceOf(cfg, volumes[i].value);
      if !PathPolicy.BindMount(volumes[i].value) && device != "" {
        refs := refs + [Ref(volumes[i].service, device)];
      }
    }
    assert volumes[..|volumes|] == volumes;
  }

  // ---------------------------------------------------------------- the two checkers

  /** The violations of one check, in order. */
  function Breaches(p: Policy, check: Check, refs: seq<Ref>): seq<Violation> {
    if refs == [] then []
    else
      var last := refs[|refs| - 1];
      var v := Verdict(p, check, last.value);
      Breaches(p, check, refs[..|refs| - 1])
      + (if v.Some? then [Violation(check, last.service, last.value, Message(check, v.value))] else [])
  }

  /** The violations of the first k checks, in order. */
  function BreachesUpTo(p: Policy, refs: Check -> seq<Ref>, k: nat): seq<Violation>
    requires k <= |CHECKS|
  {
    if k == 0 then [] else BreachesUpTo(p, refs, k - 1) + Breaches(p, CHECKS[k - 1], refs(CHECKS[k - 1]))
  }

  /** Every violation of a config, in order. */
  ghost function Violations(p: Policy, cfg: Object): seq<Violation> {
    if p.disabled then [] else BreachesUpTo(p, c => Extracted(cfg, c), |CHECKS|)
  }

  lemma {:induction false} SameRefsSameBreaches(p: Policy, f: Check -> seq<Ref>, g: Check -> seq<Ref>, k: nat)
    requires k <= |CHECKS| && forall c :: f(c) == g(c)
    ensures BreachesUpTo(p, f, k) == BreachesUpTo(p, g, k)
  {
    if k > 0 {
      SameRefsSameBreaches(p, f, g, k - 1);
    }
  }

  function Values(refs: seq<Ref>): seq<string> {
    seq(|refs|, i requires 0 <= i < |refs| => refs[i].value)
  }

  /** The check's `Validate` method on the values of some references. */
  method Validate(p: Policy, check: Check, refs: seq<Ref>) returns (e: Option<Message>)
    ensures p.disabled ==> e.None?
    ensures !p.disabled ==>
              e == if Breaches(p, check, refs) == [] then None else Some(Breaches(p, check, refs)[0].message)
  {
    var r := ValidateValues(p, check, Values(refs));
    if !p.disabled {
      FirstRefusalIsFirstBreach(p, check, refs, r);
    }
    e := if r.None? then None else Some(Message(check, r.value));
  }

  lemma FirstRefusalIsFirstBreach(p: Policy, check: Check, refs: seq<Ref>, r: Option<Reason>)
    requires FirstRefusal(p, check, Values(refs), r)
    ensures
      var all := Breaches(p, check, refs);
      match r
      case None => all == []
      case Some(reason) => all != [] && all[0].message == Message(check, reason)
  {
    var vs := Values(refs);
    if r.None? {
      NoBreaches(p, check, refs, |refs|);
      assert refs[..|refs|] == refs;
    } else {
      var i :| 0 <= i < |vs| && Verdict(p, check, vs[i]) == r && NoRefusal(p, check, vs, i);
      NoBreaches(p, check, refs, i);
      FirstBreachAt(p, check, refs, i);
    }
  }

  /** The first reference with a verdict against it gives the first breach. */
  lemma FirstBreachAt(p: Policy, check: Check, refs: seq<Ref>, i: nat)
    requires i < |refs| && Breaches(p, check, refs[..i]) == [] && Verdict(p, check, refs[i].value).Some?
    ensures Breaches(p, check, refs) != []
    ensures Breaches(p, check, refs)[0].message == Message(check, Verdict(p, check, refs[i].value).value)
  {
    assert refs[..i + 1][..i] == refs[..i];
    BreachesGrow(p, check, refs, i + 1);
  }

  lemma {:induction false} NoBreaches(p: Policy, check: Check, refs: seq<Ref>, i: nat)
    requires i <= |refs| && forall j | 0 <= j < i :: Verdict(p, check, Values(refs)[j]).None?
    ensures Breaches(p, check, refs[..i]) == []
    decreases i
  {
    if i > 0 {
      NoBreaches(p, check, refs, i - 1);
      assert refs[..i][..i - 1] == refs[..i - 1];
      assert Values(refs)[i - 1] == refs[i - 1].value;
    }
  }

  lemma {:induction false} BreachesGrow(p: Policy, check: Check, refs: seq<Ref>, i: nat)
    requires i <= |refs|
    ensures Breaches(p, check, refs[..i]) <= Breaches(p, check, refs)
    decreases |refs| - i
  {
    if i < |refs| {
      BreachesGrow(p, check, refs, i + 1);
      assert refs[..i + 1][..i] == refs[..i];
    } else {
      assert refs[..i] == refs;
    }
  }

  lemma {:induction false} BreachesUpToGrow(p: Policy, refs: Check -> seq<Ref>, i: nat, k: nat)
    requires i <= k <= |CHECKS|
    ensures BreachesUpTo(p, refs, i) <= BreachesUpTo(p, refs, k)
    decreases k
  {
    if i < k {
      BreachesUpToGrow(p, refs, i, k - 1);
    }
  }

  /** The chain of checks, left at the first that refuses something. */
  method FirstBreach(p: Policy, refs: Check -> seq<Ref>) returns (e: Option<Message>)
    requires !p.disabled
    ensures var all := BreachesUpTo(p, refs, |CHECKS|); e == if all == [] then None else Some(all[0].message)
  {
    for k := 0 to |CHECKS|
      invariant BreachesUpTo(p, refs, k) == []
    {
      e := Validate(p, CHECKS[k], refs(CHECKS[k]));
      if e.Some? {
        BreachesUpToGrow(p, refs, k + 1, |CHECKS|);
        return;
      }
    }
    e := None;
  }

  /** `ValidateComposeConfig` succeeds exactly when there is no violation, and otherwise
      returns the message of the first one. */
  method ValidateComposeConfig(p: Policy, cfg: Object) returns (e: Option<Message>)
    ensures e == if Violations(p, cfg) == [] then None else Some(Violations(p, cfg)[0].message)
  {
    if p.disabled {
      return None;
    }
    var refs := Extract(cfg);
    SameRefsSameBreaches(p, c => refs.Of(c), c => Extracted(cfg, c), |CHECKS|);
    e := FirstBreach(p, c => refs.Of(c));
  }

  /** Every violation of one check, each value checked on its own. */
  method CollectBreaches(p: Policy, check: Check, refs: seq<Ref>) returns (out: seq<Violation>)
    requires !p.disabled
    ensures out == Breaches(p, check, refs)
  {
    out := [];
    for i := 0 to |refs|
      invariant out == Breaches(p, check, refs[..i])
    {
      assert refs[..i + 1][..i] == refs[..i];
      assert [refs[i]][..0] == [];
      var e := Validate(p, check, [refs[i]]);
      if e.Some? {
        out := out + [Violation(check, refs[i].service, refs[i].value, e.value)];
      }
    }
    assert refs[..|refs|] == refs;
  }

  /** The loops over all checks and values. */
  method AllBreaches(p: Policy, refs: Check -> seq<Ref>) returns (out: seq<Violation>)
    requires !p.disabled
    ensures out == BreachesUpTo(p, refs, |CHECKS|)
  {
    out := [];
    for k := 0 to |CHECKS|
      invariant out == BreachesUpTo(p, refs, k)
    {
      var breaches := CollectBreaches(p, CHECKS[k], refs(CHECKS[k]));
      out := out + breaches;
    }
  }

  /** `ComposeViolations` collects all of them. */
  method ComposeViolations(p: Policy, cfg: Object) returns (out: seq<Violation>)
    ensures out == Violations(p, cfg)
  {
    if p.disabled {
      return [];
    }
    var refs := Extract(cfg);
    SameRefsSameBreaches(p, c => refs.Of(c), c => Extracted(cfg, c), |CHECKS|);
    out := AllBreaches(p, c => refs.Of(c));
  }
}
