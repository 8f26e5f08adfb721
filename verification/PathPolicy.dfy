/** The worker policy's path tests: prefix checks on cleaned strings, shown to mean
    containment of lexically resolved paths. */
module PathPolicy {
  import opened Prelude
  import opened Text

  // ---------------------------------------------------------------- paths

  /** One step of lexical resolution: stay, go up, or go down. Going up from the root of
      an absolute path stays there. */
  function Enter(at: seq<string>, part: string, rooted: bool): seq<string> {
    if part == "" || part == "." then at
    else if part != ".." then at + [part]
    else if at != [] && at[|at| - 1] != ".." then at[..|at| - 1]
    else if rooted then at
    else at + [".."]
  }

  function Resolve(parts: seq<string>, rooted: bool): seq<string> {
    if parts == [] then []
    else Enter(Resolve(parts[..|parts| - 1], rooted), parts[|parts| - 1], rooted)
  }

  predicate Absolute(path: string) {
    path != "" && path[0] == '/'
  }

  /** Where a path leads, component by component. */
  function Components(path: string): seq<string> {
    Resolve(Split(path, '/'), Absolute(path))
  }

  function Join(parts: seq<string>): string {
    if parts == [] then "" else if |parts| == 1 then parts[0] else parts[0] + "/" + Join(parts[1..])
  }

  /** `filepath.Clean`, as the rendering of the resolved components. */
  function Clean(path: string): string {
    var parts := Components(path);
    if Absolute(path) then "/" + Join(parts) else if parts == [] then "." else Join(parts)
  }

  ghost predicate Plain(part: string) {
    part != "" && '/' !in part
  }

  ghost predicate AllPlain(parts: seq<string>) {
    forall i | 0 <= i < |parts| :: Plain(parts[i])
  }

  lemma {:induction false} ResolvePlain(parts: seq<string>, rooted: bool)
    requires forall i | 0 <= i < |parts| :: '/' !in parts[i]
    ensures AllPlain(Resolve(parts, rooted))
    decreases |parts|
  {
    if parts != [] {
      ResolvePlain(parts[..|parts| - 1], rooted);
    }
  }

  // --------------------------------------------- string prefixes are path prefixes

  /** The components, each behind its own separator. */
  ghost function Flat(parts: seq<string>): string {
    if parts == [] then "" else "/" + parts[0] + Flat(parts[1..])
  }

  lemma {:induction false} FlatIsJoin(parts: seq<string>)
    requires parts != []
    ensures Flat(parts) == "/" + Join(parts)
    decreases |parts|
  {
    if |parts| > 1 {
      FlatIsJoin(parts[1..]);
    }
  }

  /** Two separator-free words, each followed by nothing or a separator, compare as words. */
  lemma WordPrefix(a: string, x: string, b: string, y: string)
    requires '/' !in a && '/' !in b
    requires (x == "" || x[0] == '/') && (y == "" || y[0] == '/')
    ensures a + x == b + y <==> a == b && x == y
    ensures x != "" ==> (HasPrefix(b + y, a + x) <==> a == b && HasPrefix(y, x))
  {
    if a + x == b + y {
      SameLength(a, x, b, y);
    }
    if x != "" && HasPrefix(b + y, a + x) {
      var z := (b + y)[|a + x|..];
      assert a + (x + z) == b + y;
      SameLength(a, x + z, b, y);
      assert y == x + z;
    }
    if a == b && HasPrefix(y, x) {
      assert y == x + y[|x|..];
      assert b + y == (a + x) + y[|x|..];
    }
  }

  lemma SameLength(a: string, x: string, b: string, y: string)
    requires '/' !in a && '/' !in b && a + x == b + y
    requires (x == "" || x[0] == '/') && (y == "" || y[0] == '/')
    ensures a == b && x == y
  {
    var s := a + x;
    assert s == b + y;
    assert |a| < |s| ==> s[|a|] == '/';
    assert |b| < |s| ==> s[|b|] == '/';
    assert |a| == |b|;
    assert s[..|a|] == a && s[..|b|] == b;
    assert s[|a|..] == x && s[|b|..] == y;
  }

  /** On rendered components, equality is equality, and a prefix up to a separator is a
      proper path prefix. */
  lemma {:induction false} FlatPrefix(a: seq<string>, b: seq<string>)
    requires AllPlain(a) && AllPlain(b)
    ensures Flat(a) == Flat(b) <==> a == b
    ensures HasPrefix(Flat(b), Flat(a) + "/") <==> a < b
    decreases |a|
  {
    if a == [] {
      assert b != [] ==> Flat(b)[0] == '/';
      assert Flat(a) + "/" == "/";
    } else if b == [] {
    } else {
      FlatPrefix(a[1..], b[1..]);
      var x, y := Flat(a[1..]), Flat(b[1..]);
      WordPrefix(a[0], x, b[0], y);
      WordPrefix(a[0], x + "/", b[0], y);
      assert Flat(a) == "/" + (a[0] + x) && Flat(b) == "/" + (b[0] + y);
      assert Flat(a) + "/" == "/" + (a[0] + (x + "/"));
      DropFirst(Flat(b), a[0] + (x + "/"), b[0] + y);
      assert Flat(a) == Flat(b) <==> a[0] + x == b[0] + y by {
        assert Flat(a)[1..] == a[0] + x && Flat(b)[1..] == b[0] + y;
      }
      assert a == [a[0]] + a[1..] && b == [b[0]] + b[1..];
    }
  }

  lemma DropFirst(s: string, p: string, t: string)
    requires s == "/" + t
    ensures HasPrefix(s, "/" + p) <==> HasPrefix(t, p)
  {
    if HasPrefix(t, p) {
      assert t == p + t[|p|..];
      assert s == ("/" + p) + t[|p|..];
    }
    if HasPrefix(s, "/" + p) {
      assert s == ("/" + p) + s[|p| + 1..];
      assert t == s[1..];
      assert t[..|p|] == s[1..|p| + 1] == p;
    }
  }

  /** `path` leads to `root` or below it. */
  ghost predicate Inside(root: string, path: string) {
    Absolute(root) && Components(root) <= Components(path)
  }

  lemma CleanAbsolute(path: string)
    requires Absolute(path)
    ensures AllPlain(Components(path))
    ensures Clean(path) == if Components(path) == [] then "/" else Flat(Components(path))
  {
    ResolvePlain(Split(path, '/'), true);
    if Components(path) != [] {
      FlatIsJoin(Components(path));
    }
  }

  /** A relative path cleans to something that does not begin with the separator. */
  lemma CleanRelative(path: string)
    requires !Absolute(path)
    ensures Clean(path) != "" && Clean(path)[0] != '/'
  {
    ResolvePlain(Split(path, '/'), false);
    var parts := Components(path);
    if parts != [] {
      assert Plain(parts[0]) && parts[0][0] in parts[0];
      assert Join(parts)[0] == parts[0][0];
    }
  }

  // ----------------------------------------------------------- volume mounts

  predicate Under(host: string, root: string) {
    Clean(host) == Clean(root) || HasPrefix(Clean(host), Clean(root) + "/")
  }

  /** On rendered components the test means a path prefix; the root "/" is rendered apart. */
  lemma FlatUnder(r: seq<string>, h: seq<string>)
    requires AllPlain(r) && AllPlain(h)
    ensures
      var root, host := if r == [] then "/" else Flat(r), if h == [] then "/" else Flat(h);
      host == root || HasPrefix(host, root + "/") <==> r <= h && (r == [] ==> h == [])
  {
    FlatPrefix(r, h);
    FlatStart(r);
    FlatStart(h);
    if r == [] && h != [] {
      assert ("/" + "/")[1] == '/';
    }
  }

  /** Rendered components are more than the separator, and do not begin with two. */
  lemma FlatStart(parts: seq<string>)
    requires AllPlain(parts)
    ensures parts != [] ==> |Flat(parts)| >= 2 && Flat(parts)[1] != '/'
  {
    if parts != [] {
      assert Plain(parts[0]) && parts[0][0] in parts[0] && Flat(parts)[1] == parts[0][0];
    }
  }

  /** The string test on an absolute path means containment, except that the root "/"
      admits only itself. */
  lemma UnderMeansInside(host: string, root: string)
    requires Absolute(host)
    ensures Under(host, root) <==> Inside(root, host) && (Components(root) == [] ==> Components(host) == [])
  {
    CleanAbsolute(host);
    if Absolute(root) {
      CleanAbsolute(root);
      FlatUnder(Components(root), Components(host));
    } else {
      CleanRelative(root);
      assert (Clean(root) + "/")[0] == Clean(root)[0];
    }
  }

  datatype VolumeError = HostBlocked(host: string) | VolumeNotAllowed(host: string)

  predicate BindMount(host: string) {
    HasPrefix(host, "/") || HasPrefix(host, "./") || HasPrefix(host, "../") || HasPrefix(host, "~")
  }

  function HostPart(vol: string): string {
    Split(vol, ':')[0]
  }

  predicate Admits(allowed: string, host: string) {
    if BindMount(host) then Under(host, allowed) else host == allowed
  }

  function VolumeVerdict(vol: string, blockHost: bool, allowed: seq<string>): Option<VolumeError> {
    var host := HostPart(vol);
    if blockHost && BindMount(host) then Some(HostBlocked(host))
    else if allowed == [] || exists i | 0 <= i < |allowed| :: Admits(allowed[i], host) then None
    else Some(VolumeNotAllowed(host))
  }

  /** `validateSingleVolume`. */
  method ValidateSingleVolume(vol: string, blockHost: bool, allowed: seq<string>) returns (e: Option<VolumeError>)
    ensures e == VolumeVerdict(vol, blockHost, allowed)
  {
    var host := HostPart(vol);
    if blockHost && BindMount(host) {
      return Some(HostBlocked(host));
    }
    if |allowed| == 0 {
      return None;
    }
    for i := 0 to |allowed|
      invariant forall j | 0 <= j < i :: !Admits(allowed[j], host)
    {
      if BindMount(host) {
        var root, path := Clean(allowed[i]), Clean(host);
        if path == root || HasPrefix(path, root + "/") {
          return None;
        }
      } else if host == allowed[i] {
        return None;
      }
    }
    e := Some(VolumeNotAllowed(host));
  }

  /** With an allowlist, an absolute bind mount is accepted exactly when host volumes are not
      blocked and it resolves, whatever "." and ".." it contains, to an allowed root or
      below one; the root "/" admits only itself. */
  lemma AcceptedMountsAreContained(vol: string, blockHost: bool, allowed: seq<string>)
    requires allowed != [] && Absolute(HostPart(vol))
    ensures VolumeVerdict(vol, blockHost, allowed).None? <==>
            && !blockHost
            && exists i | 0 <= i < |allowed| ::
                 && Inside(allowed[i], HostPart(vol))
                 && (Components(allowed[i]) == [] ==> Components(HostPart(vol)) == [])
  {
    var host := HostPart(vol);
    assert BindMount(host);
    forall i | 0 <= i < |allowed|
      ensures Admits(allowed[i], host) <==>
                Inside(allowed[i], host) && (Components(allowed[i]) == [] ==> Components(host) == [])
    {
      UnderMeansInside(host, allowed[i]);
    }
  }

  // ------------------------------------------------------------ the Docker socket

  const SOCKETS: seq<string> := ["/var/run/docker.sock", "/run/docker.sock"]

  const SOCKET_PARTS: seq<seq<string>> := [["var", "run", "docker.sock"], ["run", "docker.sock"]]

  lemma SocketsAreFlat()
    ensures Flat(SOCKET_PARTS[0]) == SOCKETS[0] && Flat(SOCKET_PARTS[1]) == SOCKETS[1]
  {
    var run := ["run", "docker.sock"];
    assert run[1..] == ["docker.sock"] && ["docker.sock"][1..] == [];
    assert Flat(["docker.sock"]) == "/docker.sock";
    assert Flat(run) == "/run" + "/docker.sock";
    assert SOCKET_PARTS[0][1..] == run;
  }

  predicate Exposes(mount: string, socket: string) {
    var src := Clean(HostPart(mount));
    src == socket || HasPrefix(socket, if src == "/" then src else src + "/")
  }

  ghost predicate NoSocketMount(mounts: seq<string>, n: nat)
    requires n <= |mounts|
  {
    forall i, k | 0 <= i < n && 0 <= k < |SOCKETS| :: !Exposes(mounts[i], SOCKETS[k])
  }

  /** `bad` is the first mount that exposes a socket, or none when none does. */
  ghost predicate IsFirstSocketMount(mounts: seq<string>, bad: Option<string>) {
    match bad
    case None => NoSocketMount(mounts, |mounts|)
    case Some(m) => exists i, k | 0 <= i < |mounts| && 0 <= k < |SOCKETS| ::
      m == mounts[i] && Exposes(mounts[i], SOCKETS[k]) && NoSocketMount(mounts, i)
  }

  /** `ValidateDockerSocket`, with the flag on. */
  method FirstSocketMount(mounts: seq<string>) returns (bad: Option<string>)
    ensures IsFirstSocketMount(mounts, bad)
  {
    for i := 0 to |mounts|
      invariant NoSocketMount(mounts, i)
    {
      var src := Clean(HostPart(mounts[i]));
      var prefix := if src != "/" then src + "/" else src;
      for k := 0 to |SOCKETS|
        invariant forall l | 0 <= l < k :: !Exposes(mounts[i], SOCKETS[l])
      {
        if src == SOCKETS[k] || HasPrefix(SOCKETS[k], prefix) {
          assert Exposes(mounts[i], SOCKETS[k]);
          return Some(mounts[i]);
        }
      }
    }
    bad := None;
  }

  /** A mount exposes a socket exactly when its source is absolute and resolves to the socket
      or to a directory above it. */
  lemma ExposesMeansAncestor(mount: string, k: nat)
    requires k < |SOCKETS|
    ensures Exposes(mount, SOCKETS[k]) <==>
            Absolute(HostPart(mount)) && Components(HostPart(mount)) <= SOCKET_PARTS[k]
  {
    SocketsAreFlat();
    var src := HostPart(mount);
    var sock := SOCKET_PARTS[k];
    assert AllPlain(sock);
    if Absolute(src) {
      CleanAbsolute(src);
      FlatPrefix(Components(src), sock);
      if Components(src) == [] {
        assert HasPrefix(SOCKETS[k], "/");
      } else {
        assert Plain(Components(src)[0]) && |Clean(src)| >= 2;
      }
    } else {
      CleanRelative(src);
      assert (Clean(src) + "/")[0] == Clean(src)[0];
    }
  }
}
