/** The policy rule and the two advisory rules that step back when the policy already
    blocks what they would warn about. */
module LintRules {
  import opened Prelude
  import opened Ordering
  import opened ComposePolicy
  import opened PolicyChecks
  import opened Lint

  function CheckName(c: Check): string {
    match c
    case Images => "images"
    case Volumes => "volumes"
    case Networks => "networks"
    case Privileged => "privileged"
    case HostNetwork => "host_network"
    case HostPid => "host_pid"
    case HostIpc => "host_ipc"
    case DockerSocket => "docker_socket"
    case CapAdd => "cap_add"
    case Devices => "devices"
    case SecurityOpt => "security_opt"
  }

  /** The compose key a check's findings point at. */
  function KeyOf(c: Check): string {
    match c
    case Images => "image"
    case Volumes => "volumes"
    case Networks => "networks"
    case Privileged => "privileged"
    case HostNetwork => "network_mode"
    case HostPid => "pid"
    case HostIpc => "ipc"
    case DockerSocket => "volumes"
    case CapAdd => "cap_add"
    case Devices => "devices"
    case SecurityOpt => "security_opt"
  }

  predicate Active(ctx: Context) {
    ctx.policy.Some? && !ctx.policy.value.disabled
  }

  // ------------------------------------------------------------------ the policy rule

  function FindingOf(v: Violation): Finding {
    Finding("policy/" + CheckName(v.check), "", SevError, v.service,
            if v.service != "" then Some(Path(v.service, KeyOf(v.check))) else None, PolicyText(v.message))
  }

  function FindingsOf(vs: seq<Violation>): seq<Finding> {
    seq(|vs|, i requires 0 <= i < |vs| => FindingOf(vs[i]))
  }

  ghost function PolicyFindings(cfg: Config, ctx: Context): seq<Finding> {
    if Active(ctx) then FindingsOf(Violations(ctx.policy.value, cfg.raw)) else []
  }

  /** `rulePolicyViolations`. */
  method RulePolicyViolations(cfg: Config, ctx: Context) returns (out: seq<Finding>)
    ensures out == PolicyFindings(cfg, ctx)
  {
    if !Active(ctx) {
      return [];
    }
    var vs := ComposeViolations(ctx.policy.value, cfg.raw);
    out := Reported(vs);
  }

  method Reported(vs: seq<Violation>) returns (out: seq<Finding>)
    ensures out == FindingsOf(vs)
  {
    out := [];
    for i := 0 to |vs|
      invariant out == FindingsOf(vs[..i])
    {
      assert FindingsOf(vs[..i + 1]) == FindingsOf(vs[..i]) + [FindingOf(vs[i])];
      out := out + [FindingOf(vs[i])];
    }
    assert vs[..|vs|] == vs;
  }

  // ---------------------------------------------------------------- the advisory rules

  /** The flag by which the policy takes a condition over. */
  predicate Flag(p: Policy, c: Check) {
    match c
    case Privileged => p.blockPrivileged
    case HostNetwork => p.blockHostNetwork
    case HostPid => p.blockHostPid
    case HostIpc => p.blockHostIpc
    case _ => false
  }

  /** `policyBlocks`. */
  predicate PolicyBlocks(ctx: Context, c: Check) {
    Active(ctx) && Flag(ctx.policy.value, c)
  }

  /** The condition itself: the service runs privileged, or shares a host namespace. */
  predicate Condition(c: Check, svc: Object) {
    match c
    case Privileged => Field(svc, "privileged") == Bool(true)
    case HostNetwork => TextAt(svc, "network_mode") == "host"
    case HostPid => TextAt(svc, "pid") == "host"
    case HostIpc => TextAt(svc, "ipc") == "host"
    case _ => false
  }

  predicate Shared(c: Check) {
    c.Privileged? || c.HostNetwork? || c.HostPid? || c.HostIpc?
  }

  function Warning(c: Check, service: string): Finding {
    Finding("", "", SevWarning, service, Some(Path(service, KeyOf(c))), Advice(KeyOf(c)))
  }

  function Warned(ctx: Context, c: Check, svc: Service): seq<Finding> {
    if !PolicyBlocks(ctx, c) && Condition(c, svc.raw) then [Warning(c, svc.name)] else []
  }

  /** What one rule warns about, service after service. */
  function Warnings(ctx: Context, checks: seq<Check>, services: seq<Service>): seq<Finding> {
    if services == [] then []
    else Warnings(ctx, checks, services[..|services| - 1]) + WarnedOf(ctx, checks, services[|services| - 1])
  }

  function WarnedOf(ctx: Context, checks: seq<Check>, svc: Service): seq<Finding> {
    if checks == [] then []
    else WarnedOf(ctx, checks[..|checks| - 1], svc) + Warned(ctx, checks[|checks| - 1], svc)
  }

  const NAMESPACES: seq<Check> := [HostNetwork, HostPid, HostIpc]

  /** `rulePrivileged`: quiet as a whole when the policy blocks. */
  method RulePrivileged(cfg: Config, ctx: Context) returns (out: seq<Finding>)
    ensures out == Warnings(ctx, [Privileged], cfg.services)
  {
    out := [];
    if PolicyBlocks(ctx, Privileged) {
      QuietWhenBlocked(ctx, Privileged, cfg.services);
      return;
    }
    for i := 0 to |cfg.services|
      invariant out == Warnings(ctx, [Privileged], cfg.services[..i])
    {
      assert cfg.services[..i + 1][..i] == cfg.services[..i];
      var svc := cfg.services[i];
      assert [Privileged][..0] == [] && WarnedOf(ctx, [Privileged], svc) == Warned(ctx, Privileged, svc);
      if Condition(Privileged, svc.raw) {
        out := out + [Warning(Privileged, svc.name)];
      }
    }
    assert cfg.services[..|cfg.services|] == cfg.services;
  }

  lemma {:induction false} QuietWhenBlocked(ctx: Context, c: Check, services: seq<Service>)
    requires PolicyBlocks(ctx, c)
    ensures Warnings(ctx, [c], services) == []
    decreases |services|
  {
    if services != [] {
      QuietWhenBlocked(ctx, c, services[..|services| - 1]);
      assert [c][..0] == [] && WarnedOf(ctx, [c], services[|services| - 1]) == [];
    }
  }

  /** The inner loop of `ruleHostNamespace`. */
  method WarnService(ctx: Context, checks: seq<Check>, svc: Service) returns (out: seq<Finding>)
    ensures out == WarnedOf(ctx, checks, svc)
  {
    out := [];
    for k := 0 to |checks|
      invariant out == WarnedOf(ctx, checks[..k], svc)
    {
      assert checks[..k + 1][..k] == checks[..k];
      if !PolicyBlocks(ctx, checks[k]) && Condition(checks[k], svc.raw) {
        out := out + [Warning(checks[k], svc.name)];
      }
    }
    assert checks[..|checks|] == checks;
  }

  /** `ruleHostNamespace`: each of the three namespaces on its own. */
  method RuleHostNamespace(cfg: Config, ctx: Context) returns (out: seq<Finding>)
    ensures out == Warnings(ctx, NAMESPACES, cfg.services)
  {
    out := [];
    for i := 0 to |cfg.services|
      invariant out == Warnings(ctx, NAMESPACES, cfg.services[..i])
    {
      assert cfg.services[..i + 1][..i] == cfg.services[..i];
      var warned := WarnService(ctx, NAMESPACES, cfg.services[i]);
      out := out + warned;
    }
    assert cfg.services[..|cfg.services|] == cfg.services;
  }

  // ---------------------------------------------- one finding per condition and service

  /** The finding is about this condition of this service: a policy error or a warning. */
  predicate About(f: Finding, c: Check, service: string) {
    && f.service == service
    && match f.message
       case PolicyText(m) => m.check == c
       case Advice(key) => key == KeyOf(c)
  }

  function Tally(fs: seq<Finding>, c: Check, service: string): nat {
    if fs == [] then 0
    else Tally(fs[..|fs| - 1], c, service) + if About(fs[|fs| - 1], c, service) then 1 else 0
  }

  lemma {:induction false} TallyConcat(a: seq<Finding>, b: seq<Finding>, c: Check, service: string)
    ensures Tally(a + b, c, service) == Tally(a, c, service) + Tally(b, c, service)
    decreases |b|
  {
    if b == [] {
      assert a + b == a;
    } else {
      TallyConcat(a, b[..|b| - 1], c, service);
      assert (a + b)[..|a + b| - 1] == a + b[..|b| - 1];
    }
  }

  /** Filling in a rule id or a title does not change what a finding is about. */
  lemma {:induction false} TallyFilled(fs: seq<Finding>, id: string, titleOf: string -> string, c: Check,
                                       service: string)
    ensures Tally(AllFilled(fs, id, titleOf), c, service) == Tally(fs, c, service)
    decreases |fs|
  {
    if fs != [] {
      TallyFilled(fs[..|fs| - 1], id, titleOf, c, service);
      var all := AllFilled(fs, id, titleOf);
      assert all[..|all| - 1] == AllFilled(fs[..|fs| - 1], id, titleOf);
    }
  }

  function Owned(refs: seq<Ref>, service: string): nat {
    if refs == [] then 0
    else Owned(refs[..|refs| - 1], service) + if refs[|refs| - 1].service == service then 1 else 0
  }

  /** One more violation counts when it is of this check and this service. */
  lemma TallySnoc(vs: seq<Violation>, v: Violation, c: Check, service: string)
    ensures Tally(FindingsOf(vs + [v]), c, service)
            == Tally(FindingsOf(vs), c, service) + if v.message.check == c && v.service == service then 1 else 0
  {
    var fs := FindingsOf(vs + [v]);
    assert fs[..|fs| - 1] == FindingsOf(vs) && fs[|fs| - 1] == FindingOf(v);
  }

  /** The checks behind the shared conditions refuse every service, or none. */
  lemma VerdictIsFlag(p: Policy, c: Check, v: string)
    requires Shared(c)
    ensures Verdict(p, c, v).Some? <==> Flag(p, c)
  {}

  /** A check's breaches, counted for another condition. */
  lemma {:induction false} TallyOther(p: Policy, check: Check, refs: seq<Ref>, c: Check, service: string)
    requires check != c
    ensures Tally(FindingsOf(Breaches(p, check, refs)), c, service) == 0
    decreases |refs|
  {
    if refs != [] {
      var init, last := refs[..|refs| - 1], refs[|refs| - 1];
      TallyOther(p, check, init, c, service);
      var e := Verdict(p, check, last.value);
      if e.Some? {
        var v := Violation(check, last.service, last.value, Message(check, e.value));
        TallySnoc(Breaches(p, check, init), v, c, service);
      } else {
        assert Breaches(p, check, refs) == Breaches(p, check, init);
      }
    }
  }

  /** A check's breaches, counted for its own condition. */
  lemma {:induction false} TallyOwn(p: Policy, c: Check, refs: seq<Ref>, service: string)
    requires Shared(c)
    ensures Tally(FindingsOf(Breaches(p, c, refs)), c, service) == if Flag(p, c) then Owned(refs, service) else 0
    decreases |refs|
  {
    if refs != [] {
      var init, last := refs[..|refs| - 1], refs[|refs| - 1];
      TallyOwn(p, c, init, service);
      VerdictIsFlag(p, c, last.value);
      var e := Verdict(p, c, last.value);
      if e.Some? {
        TallySnoc(Breaches(p, c, init), Violation(c, last.service, last.value, Message(c, e.value)), c, service);
      } else {
        assert Breaches(p, c, refs) == Breaches(p, c, init);
      }
    }
  }

  lemma FindingsConcat(a: seq<Violation>, b: seq<Violation>)
    ensures FindingsOf(a + b) == FindingsOf(a) + FindingsOf(b)
  {}

  lemma TallyNext(p: Policy, refs: Check -> seq<Ref>, a: seq<Violation>, check: Check, c: Check, service: string)
    requires Shared(c)
    ensures Tally(FindingsOf(a + Breaches(p, check, refs(check))), c, service)
            == Tally(FindingsOf(a), c, service) + if check == c && Flag(p, c) then Owned(refs(c), service) else 0
  {
    var b := Breaches(p, check, refs(check));
    FindingsConcat(a, b);
    TallyConcat(FindingsOf(a), FindingsOf(b), c, service);
    if check == c {
      TallyOwn(p, c, refs(c), service);
    } else {
      TallyOther(p, check, refs(check), c, service);
    }
  }

  lemma BreachesNext(p: Policy, refs: Check -> seq<Ref>, k: nat)
    requires 0 < k <= |CHECKS|
    ensures BreachesUpTo(p, refs, k) == BreachesUpTo(p, refs, k - 1) + Breaches(p, CHECKS[k - 1], refs(CHECKS[k - 1]))
  {}

  /** The findings of the first k checks about a condition. */
  function TallyUpTo(p: Policy, refs: Check -> seq<Ref>, c: Check, service: string, k: nat): nat {
    if k <= |CHECKS| then Tally(FindingsOf(BreachesUpTo(p, refs, k)), c, service) else 0
  }

  lemma TallyNone(p: Policy, refs: Check -> seq<Ref>, c: Check, service: string)
    ensures TallyUpTo(p, refs, c, service, 0) == 0
  {
    NoFindings();
  }

  lemma TallyStep(p: Policy, refs: Check -> seq<Ref>, c: Check, service: string, k: nat)
    requires Shared(c) && 0 < k <= |CHECKS|
    ensures TallyUpTo(p, refs, c, service, k) == TallyUpTo(p, refs, c, service, k - 1)
            + if k - 1 == Index(c) && Flag(p, c) then Owned(refs(c), service) else 0
  {
    var before, check := BreachesUpTo(p, refs, k - 1), CHECKS[k - 1];
    assert check == c <==> k - 1 == Index(c) by {
      CheckAt(k - 1, c);
    }
    assert BreachesUpTo(p, refs, k) == before + Breaches(p, check, refs(check)) by {
      BreachesNext(p, refs, k);
    }
    TallyNext(p, refs, before, check, c, service);
  }

  /** A count that grows at one step only. */
  lemma {:induction false} GrowsOnce(count: nat -> nat, at: nat, amount: nat, k: nat)
    requires count(0) == 0
    requires forall j: nat | 0 < j <= k :: count(j) == count(j - 1) + if j - 1 == at then amount else 0
    ensures count(k) == if at < k then amount else 0
    decreases k
  {
    if k > 0 {
      GrowsOnce(count, at, amount, k - 1);
    }
  }

  /** Over the first k checks only the condition's own counts, once its turn is over. */
  lemma TallyFirst(p: Policy, refs: Check -> seq<Ref>, c: Check, service: string, k: nat)
    requires Shared(c) && k <= |CHECKS|
    ensures TallyUpTo(p, refs, c, service, k) == if Index(c) < k && Flag(p, c) then Owned(refs(c), service) else 0
  {
    var count := (j: nat) => TallyUpTo(p, refs, c, service, j);
    var amount := if Flag(p, c) then Owned(refs(c), service) else 0;
    TallyNone(p, refs, c, service);
    forall j: nat | 0 < j <= k
      ensures count(j) == count(j - 1) + if j - 1 == Index(c) then amount else 0
    {
      TallyStep(p, refs, c, service, j);
    }
    GrowsOnce(count, Index(c), amount, k);
  }

  lemma NoFindings()
    ensures FindingsOf([]) == []
  {}

  lemma TallyAll(p: Policy, refs: Check -> seq<Ref>, c: Check, service: string)
    requires Shared(c)
    ensures Tally(FindingsOf(BreachesUpTo(p, refs, |CHECKS|)), c, service)
            == if Flag(p, c) then Owned(refs(c), service) else 0
  {
    TallyFirst(p, refs, c, service, |CHECKS|);
  }

  /** A service contributes to a shared condition once, or not at all. */
  lemma {:induction false} OwnedOnce(c: Check, services: Object, names: seq<string>, service: string)
    requires Shared(c) && Increasing(names)
    ensures Owned(AllRefs(c, services, names), service)
            == if service in names && Field(services, service).Map? && Condition(c, Field(services, service).fields)
               then 1 else 0
    decreases |names|
  {
    if names != [] {
      var init, last := names[..|names| - 1], names[|names| - 1];
      OwnedOnce(c, services, init, service);
      LastMember(names, service);
      NotTwice(names);
      AllRefsNext(c, services, names);
      OwnedNext(AllRefs(c, services, init), Ref(last, last), service);
    }
  }

  /** What one more service adds to a shared condition. */
  lemma AllRefsNext(c: Check, services: Object, names: seq<string>)
    requires Shared(c) && names != []
    ensures
      var init, last := names[..|names| - 1], names[|names| - 1];
      AllRefs(c, services, names) ==
      if Field(services, last).Map? && Condition(c, Field(services, last).fields)
      then AllRefs(c, services, init) + [Ref(last, last)] else AllRefs(c, services, init)
  {}

  lemma OwnedNext(refs: seq<Ref>, r: Ref, service: string)
    ensures Owned(refs + [r], service) == Owned(refs, service) + if r.service == service then 1 else 0
  {
    assert (refs + [r])[..|refs|] == refs;
  }

  lemma NotTwice(names: seq<string>)
    requires Increasing(names) && names != []
    ensures names[|names| - 1] !in names[..|names| - 1]
  {
    forall i | 0 <= i < |names| - 1
      ensures names[i] != names[|names| - 1]
    {
      LessIsStrict(names[i], names[|names| - 1]);
    }
  }

  /** The policy's errors about a condition: one, when the policy blocks it. */
  lemma PolicyTally(raw: Object, ctx: Context, c: Check, service: string)
    requires Shared(c)
    ensures
      var services := ObjectAt(raw, "services");
      Tally(PolicyFindings(ConfigOf(raw), ctx), c, service)
      == if PolicyBlocks(ctx, c) && Field(services, service).Map? && Condition(c, Field(services, service).fields)
         then 1 else 0
  {
    if Active(ctx) {
      var services := ObjectAt(raw, "services");
      TallyAll(ctx.policy.value, check => Extracted(raw, check), c, service);
      OwnedOnce(c, services, Ordering.Sorted(services.Keys), service);
      assert Extracted(raw, c) == AllRefs(c, services, Ordering.Sorted(services.Keys));
    }
  }

  // ---------------------------------------------------------- the advisory tallies

  lemma KeysDiffer(c: Check, d: Check)
    requires Shared(c) && Shared(d) && c != d
    ensures KeyOf(c) != KeyOf(d)
  {
    assert |"privileged"| == 10 && |"network_mode"| == 12 && |"pid"| == 3 && |"ipc"| == 3 && "pid"[0] != "ipc"[0];
  }

  ghost predicate NoRepeats(checks: seq<Check>) {
    forall i, j | 0 <= i < j < |checks| :: checks[i] != checks[j]
  }

  lemma LastIsNew(checks: seq<Check>)
    requires NoRepeats(checks) && checks != []
    ensures checks[|checks| - 1] !in checks[..|checks| - 1] && NoRepeats(checks[..|checks| - 1])
  {}

  /** One service's warnings about a condition. */
  lemma {:induction false} TallyWarned(ctx: Context, checks: seq<Check>, svc: Service, c: Check, service: string)
    requires Shared(c) && NoRepeats(checks) && forall i | 0 <= i < |checks| :: Shared(checks[i])
    ensures Tally(WarnedOf(ctx, checks, svc), c, service)
            == if c in checks && svc.name == service && !PolicyBlocks(ctx, c) && Condition(c, svc.raw) then 1 else 0
    decreases |checks|
  {
    if checks != [] {
      var init, last := checks[..|checks| - 1], checks[|checks| - 1];
      TallyWarned(ctx, init, svc, c, service);
      LastMember(checks, c);
      LastIsNew(checks);
      TallyConcat(WarnedOf(ctx, init, svc), Warned(ctx, last, svc), c, service);
      TallyOne(ctx, last, svc, c, service);
    }
  }

  lemma TallyOne(ctx: Context, check: Check, svc: Service, c: Check, service: string)
    requires Shared(check) && Shared(c)
    ensures Tally(Warned(ctx, check, svc), c, service)
            == if check == c && svc.name == service && !PolicyBlocks(ctx, c) && Condition(c, svc.raw) then 1 else 0
  {
    if check != c {
      KeysDiffer(check, c);
    }
    var f := Warning(check, svc.name);
    assert [f][..0] == [];
    assert About(f, c, service) <==> check == c && svc.name == service;
  }

  lemma {:induction false} TallyWarnings(ctx: Context, checks: seq<Check>, services: Object, names: seq<string>,
                                         c: Check, service: string)
    requires Shared(c) && NoRepeats(checks) && Increasing(names)
    requires forall i | 0 <= i < |checks| :: Shared(checks[i])
    ensures Tally(Warnings(ctx, checks, ServicesIn(services, names)), c, service)
            == if c in checks && service in names && !PolicyBlocks(ctx, c)
                  && Field(services, service).Map? && Condition(c, Field(services, service).fields) then 1 else 0
    decreases |names|
  {
    if names != [] {
      var init, last := names[..|names| - 1], names[|names| - 1];
      TallyWarnings(ctx, checks, services, init, c, service);
      NotTwice(names);
      LastMember(names, service);
      if Field(services, last).Map? {
        var svc := Service(last, Field(services, last).fields);
        WarningsNext(ctx, checks, ServicesIn(services, init), svc);
        TallyWarned(ctx, checks, svc, c, service);
        TallyConcat(Warnings(ctx, checks, ServicesIn(services, init)), WarnedOf(ctx, checks, svc), c, service);
      } else {
        assert ServicesIn(services, names) == ServicesIn(services, init);
      }
    }
  }

  lemma WarningsNext(ctx: Context, checks: seq<Check>, services: seq<Service>, svc: Service)
    ensures Warnings(ctx, checks, services + [svc]) == Warnings(ctx, checks, services) + WarnedOf(ctx, checks, svc)
  {
    assert (services + [svc])[..|services|] == services;
  }

  ghost predicate Holds(raw: Object, c: Check, service: string) {
    var services := ObjectAt(raw, "services");
    Field(services, service).Map? && Condition(c, Field(services, service).fields)
  }

  ghost function AdvisoryFindings(raw: Object, ctx: Context): seq<Finding> {
    Warnings(ctx, [Privileged], ConfigOf(raw).services) + Warnings(ctx, NAMESPACES, ConfigOf(raw).services)
  }

  lemma ConditionIsInOneRule(c: Check)
    requires Shared(c)
    ensures c in [Privileged] <==> c !in NAMESPACES
    ensures NoRepeats(NAMESPACES) && forall i | 0 <= i < |NAMESPACES| :: Shared(NAMESPACES[i])
  {
    assert NAMESPACES[0] == HostNetwork && NAMESPACES[1] == HostPid && NAMESPACES[2] == HostIpc;
  }

  /** The warnings about a condition: one, when the policy does not block it. */
  lemma AdvisoryTally(raw: Object, ctx: Context, c: Check, service: string)
    requires Shared(c)
    ensures Tally(AdvisoryFindings(raw, ctx), c, service)
            == if Holds(raw, c, service) && !PolicyBlocks(ctx, c) then 1 else 0
  {
    var cfg, services := ConfigOf(raw), ObjectAt(raw, "services");
    var names := Ordering.Sorted(services.Keys);
    ConditionIsInOneRule(c);
    TallyWarnings(ctx, [Privileged], services, names, c, service);
    TallyWarnings(ctx, NAMESPACES, services, names, c, service);
    TallyConcat(Warnings(ctx, [Privileged], cfg.services), Warnings(ctx, NAMESPACES, cfg.services), c, service);
  }

  /** Each privileged or host-namespace condition of a service yields exactly one finding
      among the three rules: a policy error when the policy blocks it, else a warning. */
  lemma OneFindingPerCondition(raw: Object, ctx: Context, c: Check, service: string)
    requires Shared(c)
    ensures Tally(PolicyFindings(ConfigOf(raw), ctx), c, service)
            == if Holds(raw, c, service) && PolicyBlocks(ctx, c) then 1 else 0
    ensures Tally(AdvisoryFindings(raw, ctx), c, service)
            == if Holds(raw, c, service) && !PolicyBlocks(ctx, c) then 1 else 0
    ensures Tally(PolicyFindings(ConfigOf(raw), ctx) + AdvisoryFindings(raw, ctx), c, service)
            == if Holds(raw, c, service) then 1 else 0
  {
    PolicyTally(raw, ctx, c, service);
    AdvisoryTally(raw, ctx, c, service);
    TallyConcat(PolicyFindings(ConfigOf(raw), ctx), AdvisoryFindings(raw, ctx), c, service);
  }

  // ----------------------------------------------------------------- in the whole report

  lemma {:induction false} TallyInserted(fs: seq<Finding>, f: Finding, c: Check, service: string)
    ensures Tally(Inserted(fs, f), c, service) == Tally(fs, c, service) + if About(f, c, service) then 1 else 0
    decreases |fs|
  {
    if fs == [] || !Before(f, fs[|fs| - 1]) {
      assert (fs + [f])[..|fs|] == fs;
    } else {
      var init, last := fs[..|fs| - 1], fs[|fs| - 1];
      TallyInserted(init, f, c, service);
      assert (Inserted(init, f) + [last])[..|Inserted(init, f)|] == Inserted(init, f);
    }
  }

  /** Sorting keeps every tally. */
  lemma {:induction false} TallyArranged(fs: seq<Finding>, c: Check, service: string)
    ensures Tally(Arranged(fs), c, service) == Tally(fs, c, service)
    decreases |fs|
  {
    if fs != [] {
      TallyArranged(fs[..|fs| - 1], c, service);
      TallyInserted(Arranged(fs[..|fs| - 1]), fs[|fs| - 1], c, service);
    }
  }

  /** What some rules find about a condition, added up rule by rule. */
  function RuleTally(rs: seq<Rule>, cfg: Config, ctx: Context, c: Check, service: string): nat {
    if rs == [] then 0
    else RuleTally(rs[..|rs| - 1], cfg, ctx, c, service) + Tally(rs[|rs| - 1].check(cfg, ctx), c, service)
  }

  lemma {:induction false} TallyCollected(rs: seq<Rule>, cfg: Config, ctx: Context, titleOf: string -> string,
                                          c: Check, service: string)
    ensures Tally(Collected(rs, cfg, ctx, titleOf), c, service) == RuleTally(rs, cfg, ctx, c, service)
    decreases |rs|
  {
    if rs != [] {
      var init, last := rs[..|rs| - 1], rs[|rs| - 1];
      TallyCollected(init, cfg, ctx, titleOf, c, service);
      TallyFilled(last.check(cfg, ctx), last.id, titleOf, c, service);
      TallyConcat(Collected(init, cfg, ctx, titleOf), AllFilled(last.check(cfg, ctx), last.id, titleOf), c, service);
    }
  }

  lemma RuleTallyNext(rs: seq<Rule>, r: Rule, cfg: Config, ctx: Context, c: Check, service: string)
    ensures RuleTally(rs + [r], cfg, ctx, c, service)
            == RuleTally(rs, cfg, ctx, c, service) + Tally(r.check(cfg, ctx), c, service)
  {
    assert (rs + [r])[..|rs|] == rs;
  }

  lemma {:induction false} RuleTallyInserted(rs: seq<Rule>, r: Rule, cfg: Config, ctx: Context, c: Check,
                                             service: string)
    ensures RuleTally(RuleInserted(rs, r), cfg, ctx, c, service)
            == RuleTally(rs, cfg, ctx, c, service) + Tally(r.check(cfg, ctx), c, service)
    decreases |rs|
  {
    if rs == [] || !Less(r.id, rs[|rs| - 1].id) {
      RuleTallyNext(rs, r, cfg, ctx, c, service);
    } else {
      RuleTallyInserted(rs[..|rs| - 1], r, cfg, ctx, c, service);
      RuleTallyNext(RuleInserted(rs[..|rs| - 1], r), rs[|rs| - 1], cfg, ctx, c, service);
    }
  }

  lemma {:induction false} RuleTallyInOrder(rs: seq<Rule>, cfg: Config, ctx: Context, c: Check, service: string)
    ensures RuleTally(RulesInOrder(rs), cfg, ctx, c, service) == RuleTally(rs, cfg, ctx, c, service)
    decreases |rs|
  {
    if rs != [] {
      RuleTallyInOrder(rs[..|rs| - 1], cfg, ctx, c, service);
      RuleTallyInserted(RulesInOrder(rs[..|rs| - 1]), rs[|rs| - 1], cfg, ctx, c, service);
    }
  }

  /** Rules that say nothing about the condition add nothing. */
  lemma {:induction false} QuietRules(rs: seq<Rule>, others: seq<Rule>, cfg: Config, ctx: Context, c: Check,
                                      service: string)
    requires forall i | 0 <= i < |others| :: Tally(others[i].check(cfg, ctx), c, service) == 0
    ensures RuleTally(rs + others, cfg, ctx, c, service) == RuleTally(rs, cfg, ctx, c, service)
    decreases |others|
  {
    if others == [] {
      assert rs + others == rs;
    } else {
      var init, last := others[..|others| - 1], others[|others| - 1];
      QuietRules(rs, init, cfg, ctx, c, service);
      RuleTallyNext(rs + init, last, cfg, ctx, c, service);
      LastApart(rs, others);
    }
  }

  /** In the whole report each condition of a service has exactly one finding, whatever
      other rules are registered, as long as none of them speaks about the condition. */
  lemma ReportHasOneFinding(policy: Rule, privileged: Rule, namespaces: Rule, others: seq<Rule>, raw: Object,
                            ctx: Context, titleOf: string -> string, c: Check, service: string)
    requires Shared(c)
    requires policy.check(ConfigOf(raw), ctx) == PolicyFindings(ConfigOf(raw), ctx)
    requires privileged.check(ConfigOf(raw), ctx) == Warnings(ctx, [Privileged], ConfigOf(raw).services)
    requires namespaces.check(ConfigOf(raw), ctx) == Warnings(ctx, NAMESPACES, ConfigOf(raw).services)
    requires forall i | 0 <= i < |others| :: Tally(others[i].check(ConfigOf(raw), ctx), c, service) == 0
    ensures
      var registry := [policy, privileged, namespaces] + others;
      Tally(Arranged(Collected(RulesInOrder(registry), ConfigOf(raw), ctx, titleOf)), c, service)
      == if Holds(raw, c, service) then 1 else 0
  {
    var cfg := ConfigOf(raw);
    var registry := [policy, privileged, namespaces] + others;
    TallyArranged(Collected(RulesInOrder(registry), cfg, ctx, titleOf), c, service);
    TallyCollected(RulesInOrder(registry), cfg, ctx, titleOf, c, service);
    RuleTallyInOrder(registry, cfg, ctx, c, service);
    QuietRules([policy, privileged, namespaces], others, cfg, ctx, c, service);
    ThreeRules(policy, privileged, namespaces, cfg, ctx, c, service);
    OneFindingPerCondition(raw, ctx, c, service);
    TallyConcat(privileged.check(cfg, ctx), namespaces.check(cfg, ctx), c, service);
  }

  lemma ThreeRules(a: Rule, b: Rule, d: Rule, cfg: Config, ctx: Context, c: Check, service: string)
    ensures RuleTally([a, b, d], cfg, ctx, c, service)
            == Tally(a.check(cfg, ctx), c, service) + Tally(b.check(cfg, ctx), c, service)
               + Tally(d.check(cfg, ctx), c, service)
  {
    RuleTallyNext([], a, cfg, ctx, c, service);
    RuleTallyNext([a], b, cfg, ctx, c, service);
    RuleTallyNext([a, b], d, cfg, ctx, c, service);
    assert [] + [a] == [a] && [a] + [b] == [a, b] && [a, b] + [d] == [a, b, d];
  }
}
