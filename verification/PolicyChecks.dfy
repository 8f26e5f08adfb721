/** The worker policy's checks: what each says about one value, and the method that walks a
    list of values. */
module PolicyChecks {
  import opened Prelude
  import opened Text
  import PathPolicy

  /** `glob` is `filepath.Match`, a malformed pattern matching nothing. */
  datatype Policy = Policy(
    disabled: bool,
    volumes: seq<string>, networks: seq<string>, images: seq<string>,
    capAdd: seq<string>, devices: seq<string>, securityOpt: seq<string>,
    preventLatest: bool, blockHostVolumes: bool, blockPrivileged: bool,
    blockHostNetwork: bool, blockHostPid: bool, blockHostIpc: bool, blockDockerSocket: bool,
    glob: (string, string) -> bool)

  datatype Check =
    | Images | Volumes | Networks | Privileged | HostNetwork | HostPid | HostIpc
    | DockerSocket | CapAdd | Devices | SecurityOpt

  /** The checks in the order both checkers apply them. */
  const CHECKS: seq<Check> :=
    [Images, Volumes, Networks, Privileged, HostNetwork, HostPid, HostIpc, DockerSocket, CapAdd, Devices, SecurityOpt]

  /** The place of a check among them. */
  function Index(c: Check): nat {
    match c
    case Images => 0
    case Volumes => 1
    case Networks => 2
    case Privileged => 3
    case HostNetwork => 4
    case HostPid => 5
    case HostIpc => 6
    case DockerSocket => 7
    case CapAdd => 8
    case Devices => 9
    case SecurityOpt => 10
  }

  lemma CheckAt(k: nat, c: Check)
    requires k < |CHECKS|
    ensures CHECKS[k] == c <==> Index(c) == k
  {}

  /** Why a value is refused; what the error text is made of. */
  datatype Reason =
    | LatestImage(image: string)
    | ImageNotAllowed(image: string)
    | BadVolume(volume: PathPolicy.VolumeError)
    | NotListed(value: string)
    | Blocked(service: string)
    | SocketMount(mount: string)

  // ---------------------------------------------------------- one value, one check

  function LastIndex(s: string, c: char): (i: int)
    ensures -1 <= i < |s|
    ensures i >= 0 ==> s[i] == c
    ensures forall j | i < j < |s| :: s[j] != c
  {
    if s == "" then -1 else if s[|s| - 1] == c then |s| - 1 else LastIndex(s[..|s| - 1], c)
  }

  /** The image's tag: what follows the last colon after the last slash, the digest dropped. */
  function TagOf(image: string): Option<string> {
    var named := Split(image, '@')[0];
    var base := named[LastIndex(named, '/') + 1..];
    var colon := LastIndex(base, ':');
    if colon < 0 then None else Some(base[colon + 1..])
  }

  predicate IsLatestOrUntagged(image: string) {
    var tag := TagOf(image);
    tag.None? || tag.value == "" || tag.value == "latest"
  }

  predicate ImageAllowed(p: Policy, image: string) {
    exists i | 0 <= i < |p.images| :: p.images[i] == image || p.glob(p.images[i], image)
  }

  predicate SocketExposed(mount: string) {
    exists k | 0 <= k < |PathPolicy.SOCKETS| :: PathPolicy.Exposes(mount, PathPolicy.SOCKETS[k])
  }

  function IfNot(ok: bool, r: Reason): Option<Reason> {
    if ok then None else Some(r)
  }

  /** What the check's `Validate` method answers for one value. */
  function Verdict(p: Policy, check: Check, v: string): Option<Reason> {
    match check
    case Images =>
      if p.preventLatest && IsLatestOrUntagged(v) then Some(LatestImage(v))
      else IfNot(p.images == [] || ImageAllowed(p, v), ImageNotAllowed(v))
    case Volumes =>
      var e := PathPolicy.VolumeVerdict(v, p.blockHostVolumes, p.volumes);
      if e.None? then None else Some(BadVolume(e.value))
    case Networks => IfNot(v == "" || p.networks == [] || v in p.networks, NotListed(v))
    case Privileged => IfNot(!p.blockPrivileged, Blocked(v))
    case HostNetwork => IfNot(!p.blockHostNetwork, Blocked(v))
    case HostPid => IfNot(!p.blockHostPid, Blocked(v))
    case HostIpc => IfNot(!p.blockHostIpc, Blocked(v))
    case DockerSocket => IfNot(!p.blockDockerSocket || !SocketExposed(v), SocketMount(v))
    case CapAdd => IfNot(p.capAdd == [] || v in p.capAdd, NotListed(v))
    case Devices => IfNot(p.devices == [] || v in p.devices, NotListed(v))
    case SecurityOpt => IfNot(p.securityOpt == [] || v in p.securityOpt, NotListed(v))
  }

  // ---------------------------------------------------------------- the methods on lists

  ghost predicate NoRefusal(p: Policy, check: Check, vs: seq<string>, n: nat)
    requires n <= |vs|
  {
    forall i | 0 <= i < n :: Verdict(p, check, vs[i]).None?
  }

  /** `e` is the reason against the first value refused, or none when none is. */
  ghost predicate FirstRefusal(p: Policy, check: Check, vs: seq<string>, e: Option<Reason>) {
    match e
    case None => NoRefusal(p, check, vs, |vs|)
    case Some(_) => exists i :: 0 <= i < |vs| && Verdict(p, check, vs[i]) == e && NoRefusal(p, check, vs, i)
  }

  method StringInList(s: string, list: seq<string>) returns (found: bool)
    ensures found <==> s in list
  {
    for i := 0 to |list|
      invariant s !in list[..i]
    {
      if list[i] == s {
        return true;
      }
    }
    found := false;
  }

  method IsImageAllowed(p: Policy, image: string) returns (ok: bool)
    ensures ok <==> ImageAllowed(p, image)
  {
    for i := 0 to |p.images|
      invariant forall j | 0 <= j < i :: !(p.images[j] == image || p.glob(p.images[j], image))
    {
      if p.images[i] == image || p.glob(p.images[i], image) {
        return true;
      }
    }
    ok := false;
  }

  /** Two tests a value: the tag first, then the list. */
  method ValidateImages(p: Policy, images: seq<string>) returns (e: Option<Reason>)
    ensures if p.disabled then e.None? else FirstRefusal(p, Images, images, e)
  {
    if p.disabled {
      return None;
    }
    for i := 0 to |images|
      invariant NoRefusal(p, Images, images, i)
    {
      if p.preventLatest {
        if IsLatestOrUntagged(images[i]) {
          return Some(LatestImage(images[i]));
        }
      }
      if |p.images| > 0 {
        var allowed := IsImageAllowed(p, images[i]);
        if !allowed {
          return Some(ImageNotAllowed(images[i]));
        }
      }
    }
    e := None;
  }

  method ValidateVolumes(p: Policy, volumes: seq<string>) returns (e: Option<Reason>)
    ensures if p.disabled then e.None? else FirstRefusal(p, Volumes, volumes, e)
  {
    if p.disabled {
      return None;
    }
    for i := 0 to |volumes|
      invariant NoRefusal(p, Volumes, volumes, i)
    {
      var bad := PathPolicy.ValidateSingleVolume(volumes[i], p.blockHostVolumes, p.volumes);
      if bad.Some? {
        return Some(BadVolume(bad.value));
      }
    }
    e := None;
  }

  method ValidateNetwork(p: Policy, network: string) returns (e: Option<Reason>)
    ensures e == if p.disabled then None else Verdict(p, Networks, network)
  {
    if p.disabled || network == "" || |p.networks| == 0 {
      return None;
    }
    for i := 0 to |p.networks|
      invariant network !in p.networks[..i]
    {
      if network == p.networks[i] {
        return None;
      }
    }
    e := Some(NotListed(network));
  }

  /** The networks, one call after the other. */
  method ValidateNetworks(p: Policy, networks: seq<string>) returns (e: Option<Reason>)
    ensures if p.disabled then e.None? else FirstRefusal(p, Networks, networks, e)
  {
    for i := 0 to |networks|
      invariant p.disabled || NoRefusal(p, Networks, networks, i)
    {
      e := ValidateNetwork(p, networks[i]);
      if e.Some? {
        return;
      }
    }
    e := None;
  }

  method ValidatePrivileged(p: Policy, services: seq<string>) returns (e: Option<Reason>)
    ensures if p.disabled then e.None? else FirstRefusal(p, Privileged, services, e)
  {
    if p.disabled || !p.blockPrivileged || |services| == 0 {
      return None;
    }
    e := Some(Blocked(services[0]));
  }

  method ValidateHostNetwork(p: Policy, services: seq<string>) returns (e: Option<Reason>)
    ensures if p.disabled then e.None? else FirstRefusal(p, HostNetwork, services, e)
  {
    if p.disabled || !p.blockHostNetwork || |services| == 0 {
      return None;
    }
    e := Some(Blocked(services[0]));
  }

  method ValidateHostPid(p: Policy, services: seq<string>) returns (e: Option<Reason>)
    ensures if p.disabled then e.None? else FirstRefusal(p, HostPid, services, e)
  {
    if p.disabled || !p.blockHostPid || |services| == 0 {
      return None;
    }
    e := Some(Blocked(services[0]));
  }

  method ValidateHostIpc(p: Policy, services: seq<string>) returns (e: Option<Reason>)
    ensures if p.disabled then e.None? else FirstRefusal(p, HostIpc, services, e)
  {
    if p.disabled || !p.blockHostIpc || |services| == 0 {
      return None;
    }
    e := Some(Blocked(services[0]));
  }

  method ValidateDockerSocket(p: Policy, mounts: seq<string>) returns (e: Option<Reason>)
    ensures if p.disabled then e.None? else FirstRefusal(p, DockerSocket, mounts, e)
  {
    if p.disabled || !p.blockDockerSocket {
      return None;
    }
    var bad := PathPolicy.FirstSocketMount(mounts);
    e := if bad.None? then None else Some(SocketMount(bad.value));
    SocketRefusal(p, mounts, bad);
  }

  lemma SocketRefusal(p: Policy, mounts: seq<string>, bad: Option<string>)
    requires p.blockDockerSocket && PathPolicy.IsFirstSocketMount(mounts, bad)
    ensures FirstRefusal(p, DockerSocket, mounts, if bad.None? then None else Some(SocketMount(bad.value)))
  {
    if bad.Some? {
      var i, k :| 0 <= i < |mounts| && 0 <= k < |PathPolicy.SOCKETS| && bad.value == mounts[i]
                  && PathPolicy.Exposes(mounts[i], PathPolicy.SOCKETS[k])
                  && PathPolicy.NoSocketMount(mounts, i);
      assert SocketExposed(mounts[i]);
      assert Verdict(p, DockerSocket, mounts[i]) == Some(SocketMount(bad.value));
      assert NoRefusal(p, DockerSocket, mounts, i);
    }
  }

  method ValidateCapAdd(p: Policy, caps: seq<string>) returns (e: Option<Reason>)
    ensures if p.disabled then e.None? else FirstRefusal(p, CapAdd, caps, e)
  {
    if p.disabled || |p.capAdd| == 0 {
      return None;
    }
    for i := 0 to |caps|
      invariant NoRefusal(p, CapAdd, caps, i)
    {
      var listed := StringInList(caps[i], p.capAdd);
      if !listed {
        return Some(NotListed(caps[i]));
      }
    }
    e := None;
  }

  method ValidateDevices(p: Policy, devices: seq<string>) returns (e: Option<Reason>)
    ensures if p.disabled then e.None? else FirstRefusal(p, Devices, devices, e)
  {
    if p.disabled || |p.devices| == 0 {
      return None;
    }
    for i := 0 to |devices|
      invariant NoRefusal(p, Devices, devices, i)
    {
      var listed := StringInList(devices[i], p.devices);
      if !listed {
        return Some(NotListed(devices[i]));
      }
    }
    e := None;
  }

  method ValidateSecurityOpt(p: Policy, opts: seq<string>) returns (e: Option<Reason>)
    ensures if p.disabled then e.None? else FirstRefusal(p, SecurityOpt, opts, e)
  {
    if p.disabled || |p.securityOpt| == 0 {
      return None;
    }
    for i := 0 to |opts|
      invariant NoRefusal(p, SecurityOpt, opts, i)
    {
      var listed := StringInList(opts[i], p.securityOpt);
      if !listed {
        return Some(NotListed(opts[i]));
      }
    }
    e := None;
  }

  /** The method that belongs to a check. */
  method ValidateValues(p: Policy, check: Check, vs: seq<string>) returns (e: Option<Reason>)
    ensures if p.disabled then e.None? else FirstRefusal(p, check, vs, e)
  {
    match check
    case Images => e := ValidateImages(p, vs);
    case Volumes => e := ValidateVolumes(p, vs);
    case Networks => e := ValidateNetworks(p, vs);
    case Privileged => e := ValidatePrivileged(p, vs);
    case HostNetwork => e := ValidateHostNetwork(p, vs);
    case HostPid => e := ValidateHostPid(p, vs);
    case HostIpc => e := ValidateHostIpc(p, vs);
    case DockerSocket => e := ValidateDockerSocket(p, vs);
    case CapAdd => e := ValidateCapAdd(p, vs);
    case Devices => e := ValidateDevices(p, vs);
    case SecurityOpt => e := ValidateSecurityOpt(p, vs);
  }
}
