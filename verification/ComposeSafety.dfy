/** What acceptance of a compose config means for the host: which mounts it can hold. */
module ComposeSafety {
  import opened Ordering
  import opened PolicyChecks
  import opened ComposePolicy
  import opened Sealing
  import opened Text
  import PathPolicy

  // -------------------------------------------------------- the config's own contents

  ghost predicate IsService(cfg: Object, name: string) {
    Field(ObjectAt(cfg, "services"), name).Map?
  }

  ghost function Service(cfg: Object, name: string): Object
    requires IsService(cfg, name)
  {
    Field(ObjectAt(cfg, "services"), name).fields
  }

  /** Some item has this source. */
  ghost predicate Yields(items: seq<Json>, sourceOf: Json -> string, src: string) {
    exists i | 0 <= i < |items| :: sourceOf(items[i]) == src
  }

  /** The service has a volume with that source. */
  ghost predicate HasVolume(svc: Object, src: string) {
    src != "" && Yields(ItemsAt(svc, "volumes"), VolumeSourceOf, src)
  }

  function DeviceSourceOf(item: Json): string {
    if item.Str? && item.s != "" then Trim(PathPolicy.HostPart(item.s)) else ""
  }

  /** The service maps that host device. */
  ghost predicate HasDevice(svc: Object, src: string) {
    src != "" && Yields(ItemsAt(svc, "devices"), DeviceSourceOf, src)
  }

  /** A named volume of the service is bound to that host path. */
  ghost predicate HasBoundVolume(cfg: Object, svc: Object, src: string) {
    src != "" && exists v: string :: HasVolume(svc, v) && !PathPolicy.BindMount(v) && DeviceOf(cfg, v) == src
  }

  /** Everything of the host the service can reach by path. */
  ghost predicate Mounts(cfg: Object, svc: Object, src: string) {
    HasVolume(svc, src) || HasDevice(svc, src) || HasBoundVolume(cfg, svc, src)
  }

  // ------------------------------------------------------- the extraction misses nothing

  lemma YieldsNext(items: seq<Json>, sourceOf: Json -> string, src: string)
    requires items != []
    ensures Yields(items, sourceOf, src) <==>
            Yields(items[..|items| - 1], sourceOf, src) || sourceOf(items[|items| - 1]) == src
  {
    var front := items[..|items| - 1];
    if i :| 0 <= i < |items| && sourceOf(items[i]) == src {
      assert i < |front| ==> sourceOf(front[i]) == src;
    }
  }

  lemma {:induction false} VolumeRefsAre(service: string, items: seq<Json>, r: Ref)
    ensures r in VolumeRefs(service, items) <==>
            r.service == service && r.value != "" && Yields(items, VolumeSourceOf, r.value)
    decreases |items|
  {
    if items != [] {
      VolumeRefsAre(service, items[..|items| - 1], r);
      YieldsNext(items, VolumeSourceOf, r.value);
    }
  }

  lemma DeviceRefsNext(service: string, items: seq<Json>)
    requires items != []
    ensures
      var src := DeviceSourceOf(items[|items| - 1]);
      DeviceRefs(service, items) == DeviceRefs(service, items[..|items| - 1]) + One(service, src, src != "")
  {}

  lemma {:induction false} DeviceRefsAre(service: string, items: seq<Json>, r: Ref)
    ensures r in DeviceRefs(service, items) <==>
            r.service == service && r.value != "" && Yields(items, DeviceSourceOf, r.value)
    decreases |items|
  {
    if items != [] {
      DeviceRefsAre(service, items[..|items| - 1], r);
      DeviceRefsNext(service, items);
      YieldsNext(items, DeviceSourceOf, r.value);
    }
  }

  lemma OwnRefsNameTheService(check: Check, name: string, svc: Object, r: Ref)
    requires check.Volumes? || check.Devices?
    ensures r in OwnRefs(check, name, svc) <==>
            r.service == name && if check.Volumes? then HasVolume(svc, r.value) else HasDevice(svc, r.value)
  {
    VolumeRefsAre(name, ItemsAt(svc, "volumes"), r);
    DeviceRefsAre(name, ItemsAt(svc, "devices"), r);
  }

  lemma {:induction false} AllRefsAre(check: Check, services: Object, names: seq<string>, r: Ref)
    requires check.Volumes? || check.Devices?
    ensures r in AllRefs(check, services, names) <==>
            && r.service in names && Field(services, r.service).Map?
            && r in OwnRefs(check, r.service, Field(services, r.service).fields)
    decreases |names|
  {
    if names != [] {
      var front, name := names[..|names| - 1], names[|names| - 1];
      AllRefsAre(check, services, front, r);
      assert r.service in names <==> r.service in front || r.service == name;
      if Field(services, name).Map? {
        OwnRefsNameTheService(check, name, Field(services, name).fields, r);
      }
    }
  }

  lemma {:induction false} BehindNamedAre(cfg: Object, refs: seq<Ref>, r: Ref)
    ensures r in BehindNamed(cfg, refs) <==>
            r.value != "" && exists v: string ::
              Ref(r.service, v) in refs && !PathPolicy.BindMount(v) && DeviceOf(cfg, v) == r.value
    decreases |refs|
  {
    if refs != [] {
      var front, last := refs[..|refs| - 1], refs[|refs| - 1];
      BehindNamedAre(cfg, front, r);
      assert forall v: string ::
          Ref(r.service, v) in refs <==> Ref(r.service, v) in front || Ref(r.service, v) == last;
      assert last.service == r.service ==> last == Ref(r.service, last.value);
    }
  }

  /** What the volume check looks at is exactly the volumes of the services. */
  lemma VolumesAreExtracted(cfg: Object, r: Ref)
    ensures r in Extracted(cfg, Volumes) <==>
            IsService(cfg, r.service) && HasVolume(Service(cfg, r.service), r.value)
  {
    var services := ObjectAt(cfg, "services");
    AllRefsAre(Volumes, services, Sorted(services.Keys), r);
    if IsService(cfg, r.service) {
      OwnRefsNameTheService(Volumes, r.service, Service(cfg, r.service), r);
    }
  }

  lemma DevicesAreExtracted(cfg: Object, r: Ref)
    ensures r in Extracted(cfg, Devices) <==>
            IsService(cfg, r.service) && HasDevice(Service(cfg, r.service), r.value)
  {
    var services := ObjectAt(cfg, "services");
    AllRefsAre(Devices, services, Sorted(services.Keys), r);
    if IsService(cfg, r.service) {
      OwnRefsNameTheService(Devices, r.service, Service(cfg, r.service), r);
    }
  }

  /** What the socket check looks at is exactly what the services can reach of the host. */
  lemma MountsAreExtracted(cfg: Object, r: Ref)
    ensures r in Extracted(cfg, DockerSocket) <==>
            IsService(cfg, r.service) && Mounts(cfg, Service(cfg, r.service), r.value)
  {
    var volumes := Extracted(cfg, Volumes);
    assert Extracted(cfg, DockerSocket) == volumes + Extracted(cfg, Devices) + BehindNamed(cfg, volumes);
    VolumesAreExtracted(cfg, r);
    DevicesAreExtracted(cfg, r);
    BehindNamedAre(cfg, volumes, r);
    forall v: string
      ensures Ref(r.service, v) in volumes <==>
              IsService(cfg, r.service) && HasVolume(Service(cfg, r.service), v)
    {
      VolumesAreExtracted(cfg, Ref(r.service, v));
    }
  }

  // -------------------------------------------------------------- acceptance, spelled out

  lemma {:induction false} NoBreachesIff(p: Policy, check: Check, refs: seq<Ref>)
    ensures Breaches(p, check, refs) == [] <==> forall r | r in refs :: Verdict(p, check, r.value).None?
    decreases |refs|
  {
    if refs != [] {
      var front, last := refs[..|refs| - 1], refs[|refs| - 1];
      NoBreachesIff(p, check, front);
      assert forall r :: r in refs <==> r in front || r == last;
    }
  }

  lemma {:induction false} NoBreachesUpToIff(p: Policy, refs: Check -> seq<Ref>, k: nat)
    requires k <= |CHECKS|
    ensures BreachesUpTo(p, refs, k) == [] <==>
            forall i | 0 <= i < k :: Breaches(p, CHECKS[i], refs(CHECKS[i])) == []
    decreases k
  {
    if k > 0 {
      NoBreachesUpToIff(p, refs, k - 1);
    }
  }

  lemma CheckHasPlace(check: Check)
    ensures Index(check) < |CHECKS| && CHECKS[Index(check)] == check
  {}

  lemma AcceptedHasNoBreach(p: Policy, cfg: Object, check: Check)
    requires !p.disabled && Violations(p, cfg) == []
    ensures Breaches(p, check, Extracted(cfg, check)) == []
  {
    var refs := c => Extracted(cfg, c);
    var i := Index(check);
    CheckHasPlace(check);
    NoBreachesUpToIff(p, refs, |CHECKS|);
    assert Breaches(p, CHECKS[i], refs(CHECKS[i])) == [];
  }

  /** In an accepted config no check has anything against what it looks at. */
  lemma AcceptedHasNoRefusal(p: Policy, cfg: Object, check: Check, r: Ref)
    requires !p.disabled && Violations(p, cfg) == [] && r in Extracted(cfg, check)
    ensures Verdict(p, check, r.value).None?
  {
    AcceptedHasNoBreach(p, cfg, check);
    NoBreachesIff(p, check, Extracted(cfg, check));
  }

  /** With an allowlist in force, every volume of an accepted config that names an absolute host
      path names one inside an allowed directory, once dots and repeated slashes are resolved; the
      root directory admits only itself. */
  lemma AcceptedVolumesAreContained(p: Policy, cfg: Object, name: string, src: string)
    requires !p.disabled && p.volumes != [] && Violations(p, cfg) == []
    requires IsService(cfg, name) && HasVolume(Service(cfg, name), src)
    requires PathPolicy.Absolute(PathPolicy.HostPart(src))
    ensures !p.blockHostVolumes
    ensures exists i | 0 <= i < |p.volumes| ::
              && PathPolicy.Inside(p.volumes[i], PathPolicy.HostPart(src))
              && (PathPolicy.Components(p.volumes[i]) == [] ==> PathPolicy.Components(PathPolicy.HostPart(src)) == [])
  {
    VolumesAreExtracted(cfg, Ref(name, src));
    AcceptedHasNoRefusal(p, cfg, Volumes, Ref(name, src));
    PathPolicy.AcceptedMountsAreContained(src, p.blockHostVolumes, p.volumes);
  }

  lemma SocketVerdict(p: Policy, mount: string)
    ensures Verdict(p, DockerSocket, mount).None? <==> !p.blockDockerSocket || !SocketExposed(mount)
  {}

  /** With sockets blocked, nothing a service of an accepted config mounts, directly, as a device or
      behind a named volume, is a docker socket or a directory above one. */
  lemma AcceptedMountsHideSockets(p: Policy, cfg: Object, name: string, src: string, k: nat)
    requires !p.disabled && p.blockDockerSocket && Violations(p, cfg) == []
    requires IsService(cfg, name) && Mounts(cfg, Service(cfg, name), src) && k < |PathPolicy.SOCKETS|
    ensures var host := PathPolicy.HostPart(src);
            !(PathPolicy.Absolute(host) && PathPolicy.Components(host) <= PathPolicy.SOCKET_PARTS[k])
  {
    MountsAreExtracted(cfg, Ref(name, src));
    AcceptedHasNoRefusal(p, cfg, DockerSocket, Ref(name, src));
    SocketVerdict(p, src);
    NotAboveSocket(src, k);
  }

  lemma NotAboveSocket(src: string, k: nat)
    requires !SocketExposed(src) && k < |PathPolicy.SOCKETS|
    ensures var host := PathPolicy.HostPart(src);
            !(PathPolicy.Absolute(host) && PathPolicy.Components(host) <= PathPolicy.SOCKET_PARTS[k])
  {
    assert !PathPolicy.Exposes(src, PathPolicy.SOCKETS[k]);
    PathPolicy.ExposesMeansAncestor(src, k);
  }

  /** And a config none of whose values any check has something against is accepted. */
  lemma AcceptedIff(p: Policy, cfg: Object)
    requires !p.disabled
    ensures Violations(p, cfg) == [] <==>
            forall check: Check, r: Ref | r in Extracted(cfg, check) :: Verdict(p, check, r.value).None?
  {
    if Violations(p, cfg) == [] {
      forall check: Check, r: Ref | r in Extracted(cfg, check)
        ensures Verdict(p, check, r.value).None?
      {
        AcceptedHasNoRefusal(p, cfg, check, r);
      }
    } else {
      var refs := c => Extracted(cfg, c);
      NoBreachesUpToIff(p, refs, |CHECKS|);
      var i :| 0 <= i < |CHECKS| && Breaches(p, CHECKS[i], refs(CHECKS[i])) != [];
      NoBreachesIff(p, CHECKS[i], Extracted(cfg, CHECKS[i]));
    }
  }

  // -------------------------------------------------------- host paths behind named volumes

  lemma OtherChecksIgnoreVolumes(cfg: Object, volumes: Json, check: Check)
    requires !check.DockerSocket?
    ensures Extracted(cfg["volumes" := volumes], check) == Extracted(cfg, check)
  {
    SameServices(cfg, volumes);
  }

  lemma SameServices(cfg: Object, volumes: Json)
    ensures ObjectAt(cfg["volumes" := volumes], "services") == ObjectAt(cfg, "services")
  {}

  /** What a reference of the socket check is when only the named volumes change. */
  lemma MountsBesideVolumes(cfg: Object, volumes: Json, r: Ref)
    ensures
      var next := cfg["volumes" := volumes];
      r in Extracted(next, DockerSocket) ==>
        || r in Extracted(cfg, DockerSocket)
        || (IsService(cfg, r.service) && HasBoundVolume(next, Service(cfg, r.service), r.value))
    ensures
      var next := cfg["volumes" := volumes];
      IsService(cfg, r.service) && HasBoundVolume(next, Service(cfg, r.service), r.value) ==>
        r in Extracted(next, DockerSocket)
  {
    SameServices(cfg, volumes);
    MountsAreExtracted(cfg, r);
    MountsAreExtracted(cfg["volumes" := volumes], r);
  }

  /** The socket check has nothing against a host path behind a named volume. */
  ghost predicate BoundPathsHideSockets(cfg: Object, next: Object) {
    forall r: Ref | IsService(cfg, r.service) && HasBoundVolume(next, Service(cfg, r.service), r.value) ::
      !SocketExposed(r.value)
  }

  /** Neither the allowlist nor the block on host volumes looks at the host path a named volume is
      bound to: whatever an accepted config's named volumes are bound to instead, the config is
      accepted still, if and only if the socket check, when on, has nothing against these paths. */
  lemma BoundPathsMeetOnlyTheSocketCheck(p: Policy, cfg: Object, volumes: Json)
    requires !p.disabled && Violations(p, cfg) == []
    ensures
      var next := cfg["volumes" := volumes];
      Violations(p, next) == [] <==> (p.blockDockerSocket ==> BoundPathsHideSockets(cfg, next))
  {
    var next := cfg["volumes" := volumes];
    if Violations(p, next) == [] && p.blockDockerSocket {
      AcceptedBoundPaths(p, cfg, volumes);
    }
    if p.blockDockerSocket ==> BoundPathsHideSockets(cfg, next) {
      forall check: Check, r: Ref | r in Extracted(next, check)
        ensures Verdict(p, check, r.value).None?
      {
        StillNoRefusal(p, cfg, volumes, check, r);
      }
      AcceptedIff(p, next);
    }
  }

  lemma AcceptedBoundPaths(p: Policy, cfg: Object, volumes: Json)
    requires !p.disabled && p.blockDockerSocket && Violations(p, cfg["volumes" := volumes]) == []
    ensures BoundPathsHideSockets(cfg, cfg["volumes" := volumes])
  {
    var next := cfg["volumes" := volumes];
    forall r: Ref | IsService(cfg, r.service) && HasBoundVolume(next, Service(cfg, r.service), r.value)
      ensures !SocketExposed(r.value)
    {
      MountsBesideVolumes(cfg, volumes, r);
      AcceptedHasNoRefusal(p, next, DockerSocket, r);
      SocketVerdict(p, r.value);
    }
  }

  lemma StillNoRefusal(p: Policy, cfg: Object, volumes: Json, check: Check, r: Ref)
    requires !p.disabled && Violations(p, cfg) == [] && r in Extracted(cfg["volumes" := volumes], check)
    requires p.blockDockerSocket ==> BoundPathsHideSockets(cfg, cfg["volumes" := volumes])
    ensures Verdict(p, check, r.value).None?
  {
    if check.DockerSocket? {
      MountsBesideVolumes(cfg, volumes, r);
      SocketVerdict(p, r.value);
    } else {
      OtherChecksIgnoreVolumes(cfg, volumes, check);
    }
    if r in Extracted(cfg, check) {
      AcceptedHasNoRefusal(p, cfg, check, r);
    }
  }

  /** A policy that blocks host volumes and allows one named volume. */
  ghost function NamedOnly(glob: (string, string) -> bool): Policy {
    Policy(false, ["data"], [], [], [], [], [], false, true, false, false, false, false, false, glob)
  }

  /** One service with that volume, bound to a host path. */
  ghost function BoundTo(path: string): Object {
    var volume := Map(map["source" := Str("data")]);
    var bound := Map(map["driver_opts" := Map(map["device" := Str(path)])]);
    map["services" := Map(map["web" := Map(map["volumes" := List([volume])])]), "volumes" := Map(map["data" := bound])]
  }

  lemma DataIsNamed()
    ensures PathPolicy.HostPart("data") == "data" && !PathPolicy.BindMount("data")
  {
    SplitNone("data", ':');
  }

  lemma NamedOnlyAllows(glob: (string, string) -> bool, check: Check, value: string)
    requires check.Volumes? ==> value == "data"
    ensures Verdict(NamedOnly(glob), check, value).None?
  {
    if check.Volumes? {
      DataIsNamed();
      assert PathPolicy.Admits(NamedOnly(glob).volumes[0], "data");
    }
  }

  lemma BoundToContents(path: string, name: string)
    ensures IsService(BoundTo(path), name) <==> name == "web"
    ensures ItemsAt(Service(BoundTo(path), "web"), "volumes") == [Map(map["source" := Str("data")])]
    ensures DeviceOf(BoundTo(path), "data") == path
  {}

  lemma BoundToVolumes(path: string, name: string, src: string)
    ensures IsService(BoundTo(path), "web")
    ensures IsService(BoundTo(path), name) ==> (HasVolume(Service(BoundTo(path), name), src) <==> src == "data")
  {
    BoundToContents(path, name);
    var items := ItemsAt(Service(BoundTo(path), "web"), "volumes");
    assert VolumeSourceOf(items[0]) == "data";
  }

  /** A config accepted by a policy that blocks host volumes, and that mounts a directory of the host. */
  lemma BoundVolumeIsAccepted(glob: (string, string) -> bool, path: string)
    requires path != ""
    ensures
      var p, cfg := NamedOnly(glob), BoundTo(path);
      && p.blockHostVolumes && Violations(p, cfg) == []
      && IsService(cfg, "web") && HasBoundVolume(cfg, Service(cfg, "web"), path)
  {
    var p, cfg := NamedOnly(glob), BoundTo(path);
    forall check: Check, r: Ref | r in Extracted(cfg, check)
      ensures Verdict(p, check, r.value).None?
    {
      if check.Volumes? {
        VolumesAreExtracted(cfg, r);
        BoundToVolumes(path, r.service, r.value);
      }
      NamedOnlyAllows(glob, check, r.value);
    }
    AcceptedIff(p, cfg);
    BoundToVolumes(path, "web", "data");
    BoundToContents(path, "web");
    DataIsNamed();
  }
}
