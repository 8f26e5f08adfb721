/** The lint run: rules in id order, their findings counted and stably sorted; and the
    rules that share a condition with the worker policy. */
module Lint {
  import opened Prelude
  import opened Ordering
  import opened ComposePolicy
  import opened PolicyChecks

  datatype Severity = SevError | SevWarning | SevInfo

  /** The place a finding points at, `services.<service>.<key>`. */
  datatype Path = Path(service: string, key: string)

  datatype Text = PolicyText(message: Message) | Advice(text: string)

  datatype Finding = Finding(rule: string, title: string, severity: Severity, service: string,
                             path: Option<Path>, message: Text)

  datatype Report = Report(findings: seq<Finding>, errors: nat, warnings: nat, infos: nat)

  datatype Service = Service(name: string, raw: Object)

  datatype Config = Config(raw: Object, services: seq<Service>)

  datatype Context = Context(policy: Option<Policy>)

  datatype Rule = Rule(id: string, check: (Config, Context) -> seq<Finding>)

  // ------------------------------------------------------------------- the order

  function SeverityRank(s: Severity): nat {
    match s
    case SevError => 0
    case SevWarning => 1
    case SevInfo => 2
  }

  /** By severity, then rule, then service. */
  predicate Before(a: Finding, b: Finding) {
    var ra, rb := SeverityRank(a.severity), SeverityRank(b.severity);
    ra < rb || (ra == rb && (Less(a.rule, b.rule) || (a.rule == b.rule && Less(a.service, b.service))))
  }

  lemma BeforeIsStrict(a: Finding, b: Finding)
    requires Before(a, b)
    ensures !Before(b, a)
  {
    if Less(a.rule, b.rule) {
      LessIsStrict(a.rule, b.rule);
    }
    if Less(a.service, b.service) {
      LessIsStrict(a.service, b.service);
    }
  }

  lemma NotBeforeIsTransitive(a: Finding, b: Finding, c: Finding)
    requires !Before(b, a) && !Before(c, b)
    ensures !Before(c, a)
  {
    if Before(c, a) {
      LessIsTotal(a.rule, b.rule);
      LessIsTotal(b.rule, c.rule);
      LessIsTotal(a.service, b.service);
      LessIsTotal(b.service, c.service);
      if Less(a.rule, b.rule) && Less(b.rule, c.rule) {
        LessIsTransitive(a.rule, b.rule, c.rule);
      }
      if Less(a.service, b.service) && Less(b.service, c.service) {
        LessIsTransitive(a.service, b.service, c.service);
      }
      if Less(a.rule, c.rule) {
        LessIsStrict(a.rule, c.rule);
      }
      if Less(a.service, c.service) {
        LessIsStrict(a.service, c.service);
      }
      if Less(c.rule, a.rule) {
        LessIsStrict(c.rule, a.rule);
      }
      if Less(c.service, a.service) {
        LessIsStrict(c.service, a.service);
      }
    }
  }

  ghost predicate InOrder(fs: seq<Finding>) {
    forall i, j | 0 <= i < j < |fs| :: !Before(fs[j], fs[i])
  }

  /** Neither comes before the other. */
  predicate Tied(a: Finding, b: Finding) {
    !Before(a, b) && !Before(b, a)
  }

  /** The findings tied with `x`, in the order they stand. */
  function TiedWith(fs: seq<Finding>, x: Finding): seq<Finding> {
    if fs == [] then []
    else TiedWith(fs[..|fs| - 1], x) + (if Tied(fs[|fs| - 1], x) then [fs[|fs| - 1]] else [])
  }

  // ----------------------------------------------------------------- stable sorting

  /** Puts `f` behind everything that does not come after it. */
  function Inserted(fs: seq<Finding>, f: Finding): seq<Finding> {
    if fs == [] || !Before(f, fs[|fs| - 1]) then fs + [f]
    else Inserted(fs[..|fs| - 1], f) + [fs[|fs| - 1]]
  }

  function Arranged(fs: seq<Finding>): seq<Finding> {
    if fs == [] then [] else Inserted(Arranged(fs[..|fs| - 1]), fs[|fs| - 1])
  }

  lemma {:induction false} InsertedMembers(fs: seq<Finding>, f: Finding)
    ensures multiset(Inserted(fs, f)) == multiset(fs) + multiset{f}
    decreases |fs|
  {
    if fs != [] && Before(f, fs[|fs| - 1]) {
      InsertedMembers(fs[..|fs| - 1], f);
      assert fs == fs[..|fs| - 1] + [fs[|fs| - 1]];
    }
  }

  /** What comes after `f` comes after all of an ordered list with `f` in it. */
  lemma LastStaysLast(init: seq<Finding>, last: Finding, f: Finding)
    requires InOrder(init + [last]) && Before(f, last)
    ensures forall i | 0 <= i < |Inserted(init, f)| :: !Before(last, Inserted(init, f)[i])
  {
    var out, fs := Inserted(init, f), init + [last];
    InsertedMembers(init, f);
    forall i | 0 <= i < |out|
      ensures !Before(last, out[i])
    {
      assert out[i] in multiset(out);
      if out[i] == f {
        BeforeIsStrict(f, last);
      } else {
        assert out[i] in multiset(init);
        var j :| 0 <= j < |init| && init[j] == out[i];
        assert fs[j] == out[i] && fs[|init|] == last;
      }
    }
  }

  lemma {:induction false} InsertedSpec(fs: seq<Finding>, f: Finding)
    requires InOrder(fs)
    ensures InOrder(Inserted(fs, f)) && multiset(Inserted(fs, f)) == multiset(fs) + multiset{f}
    decreases |fs|
  {
    InsertedMembers(fs, f);
    if fs != [] && Before(f, fs[|fs| - 1]) {
      var init, last := fs[..|fs| - 1], fs[|fs| - 1];
      assert fs == init + [last];
      InsertedSpec(init, f);
      LastStaysLast(init, last, f);
      assert forall i, j | 0 <= i < j < |fs| - 1 :: init[i] == fs[i] && init[j] == fs[j];
    } else {
      assert fs != [] ==> fs == fs[..|fs| - 1] + [fs[|fs| - 1]];
      forall i | 0 <= i < |fs|
        ensures !Before(f, fs[i])
      {
        if i < |fs| - 1 {
          NotBeforeIsTransitive(fs[i], fs[|fs| - 1], f);
        }
      }
    }
  }

  lemma {:induction false} InsertedIsStable(fs: seq<Finding>, f: Finding, x: Finding)
    ensures TiedWith(Inserted(fs, f), x) == TiedWith(fs + [f], x)
    decreases |fs|
  {
    assert (fs + [f])[..|fs|] == fs;
    if fs != [] && Before(f, fs[|fs| - 1]) {
      var init, last := fs[..|fs| - 1], fs[|fs| - 1];
      InsertedIsStable(init, f, x);
      var out := Inserted(init, f);
      assert (out + [last])[..|out|] == out;
      assert (init + [f])[..|init|] == init;
      TiedApart(f, last, x);
    }
  }

  /** Two findings of which one comes first are not both tied with a third. */
  lemma TiedApart(a: Finding, b: Finding, x: Finding)
    requires Before(a, b)
    ensures !(Tied(a, x) && Tied(b, x))
  {
    if Tied(a, x) && Tied(b, x) {
      NotBeforeIsTransitive(b, x, a);
    }
  }

  lemma {:induction false} ArrangedInOrder(fs: seq<Finding>)
    ensures InOrder(Arranged(fs)) && multiset(Arranged(fs)) == multiset(fs)
    decreases |fs|
  {
    if fs != [] {
      var init, last := fs[..|fs| - 1], fs[|fs| - 1];
      ArrangedInOrder(init);
      InsertedSpec(Arranged(init), last);
      assert fs == init + [last];
    }
  }

  lemma TiedNext(fs: seq<Finding>, f: Finding, x: Finding)
    ensures TiedWith(fs + [f], x) == TiedWith(fs, x) + if Tied(f, x) then [f] else []
  {
    assert (fs + [f])[..|fs|] == fs;
  }

  lemma {:induction false} ArrangedIsStable(fs: seq<Finding>, x: Finding)
    ensures TiedWith(Arranged(fs), x) == TiedWith(fs, x)
    decreases |fs|
  {
    if fs != [] {
      var init, last := fs[..|fs| - 1], fs[|fs| - 1];
      ArrangedIsStable(init, x);
      InsertedIsStable(Arranged(init), last, x);
      TiedNext(Arranged(init), last, x);
    }
  }

  /** The sort is a permutation in order, and keeps tied findings as they stood. */
  lemma ArrangedSpec(fs: seq<Finding>, x: Finding)
    ensures InOrder(Arranged(fs)) && multiset(Arranged(fs)) == multiset(fs) && |Arranged(fs)| == |fs|
    ensures TiedWith(Arranged(fs), x) == TiedWith(fs, x)
  {
    ArrangedInOrder(fs);
    ArrangedIsStable(fs, x);
    assert |multiset(Arranged(fs))| == |multiset(fs)|;
  }

  // -------------------------------------------------------------------- the run

  /** The services in name order, those that are objects. */
  ghost function ServicesIn(services: Object, names: seq<string>): seq<Service> {
    if names == [] then []
    else
      var name := names[|names| - 1];
      ServicesIn(services, names[..|names| - 1])
      + (if Field(services, name).Map? then [Service(name, Field(services, name).fields)] else [])
  }

  ghost function ConfigOf(raw: Object): Config {
    var services := ObjectAt(raw, "services");
    Config(raw, ServicesIn(services, Ordering.Sorted(services.Keys)))
  }

  /** `NewConfig`. */
  method NewConfig(raw: Object) returns (c: Config)
    ensures c == ConfigOf(raw)
  {
    var services := ObjectAt(raw, "services");
    var names := SortKeys(services.Keys);
    var out := [];
    for i := 0 to |names|
      invariant out == ServicesIn(services, names[..i])
    {
      assert names[..i + 1][..i] == names[..i];
      if Field(services, names[i]).Map? {
        out := out + [Service(names[i], Field(services, names[i]).fields)];
      }
    }
    assert names[..|names|] == names;
    c := Config(raw, out);
  }

  function RuleInserted(rs: seq<Rule>, r: Rule): seq<Rule> {
    if rs == [] || !Less(r.id, rs[|rs| - 1].id) then rs + [r]
    else RuleInserted(rs[..|rs| - 1], r) + [rs[|rs| - 1]]
  }

  /** The registry in id order. */
  function RulesInOrder(rs: seq<Rule>): seq<Rule> {
    if rs == [] then [] else RuleInserted(RulesInOrder(rs[..|rs| - 1]), rs[|rs| - 1])
  }

  /** What `Run` adds to a finding a rule left without an id or a title. */
  function Filled(f: Finding, id: string, titleOf: string -> string): Finding {
    var rule := if f.rule == "" then id else f.rule;
    f.(rule := rule, title := if f.title == "" then titleOf(rule) else f.title)
  }

  function AllFilled(fs: seq<Finding>, id: string, titleOf: string -> string): seq<Finding> {
    seq(|fs|, i requires 0 <= i < |fs| => Filled(fs[i], id, titleOf))
  }

  /** What the rules find, rule after rule. */
  function Collected(rs: seq<Rule>, cfg: Config, ctx: Context, titleOf: string -> string): seq<Finding> {
    if rs == [] then []
    else
      var last := rs[|rs| - 1];
      Collected(rs[..|rs| - 1], cfg, ctx, titleOf) + AllFilled(last.check(cfg, ctx), last.id, titleOf)
  }

  function Count(fs: seq<Finding>, s: Severity): nat {
    if fs == [] then 0 else Count(fs[..|fs| - 1], s) + if fs[|fs| - 1].severity == s then 1 else 0
  }

  ghost predicate Counted(r: Report) {
    r.errors == Count(r.findings, SevError) && r.warnings == Count(r.findings, SevWarning)
    && r.infos == Count(r.findings, SevInfo)
  }

  /** Appends a finding and counts it. */
  method Add(r: Report, f: Finding) returns (r': Report)
    requires Counted(r)
    ensures r'.findings == r.findings + [f] && Counted(r')
  {
    r' := r.(findings := r.findings + [f]);
    assert r'.findings[..|r.findings|] == r.findings;
    match f.severity
    case SevError => r' := r'.(errors := r.errors + 1);
    case SevWarning => r' := r'.(warnings := r.warnings + 1);
    case SevInfo => r' := r'.(infos := r.infos + 1);
  }

  method Apply(rule: Rule, cfg: Config, ctx: Context, titleOf: string -> string, r: Report) returns (r': Report)
    requires Counted(r)
    ensures r'.findings == r.findings + AllFilled(rule.check(cfg, ctx), rule.id, titleOf) && Counted(r')
  {
    r' := r;
    var fs := rule.check(cfg, ctx);
    for i := 0 to |fs|
      invariant r'.findings == r.findings + AllFilled(fs[..i], rule.id, titleOf) && Counted(r')
    {
      assert AllFilled(fs[..i + 1], rule.id, titleOf)
          == AllFilled(fs[..i], rule.id, titleOf) + [Filled(fs[i], rule.id, titleOf)];
      r' := Add(r', Filled(fs[i], rule.id, titleOf));
    }
    assert fs[..|fs|] == fs;
  }

  lemma {:induction false} CountIsMultiset(a: seq<Finding>, b: seq<Finding>, s: Severity)
    requires multiset(a) == multiset(b)
    ensures Count(a, s) == Count(b, s)
    decreases |a|
  {
    if a == [] {
      assert |multiset(b)| == 0;
    } else {
      var i := Counterpart(a, b);
      CountIsMultiset(a[..|a| - 1], b[..i] + b[i + 1..], s);
      CountWithout(b, i, s);
    }
  }

  /** The last of `a` is somewhere in `b`; without it, both are permutations still. */
  lemma Counterpart(a: seq<Finding>, b: seq<Finding>) returns (i: nat)
    requires a != [] && multiset(a) == multiset(b)
    ensures i < |b| && b[i] == a[|a| - 1] && multiset(a[..|a| - 1]) == multiset(b[..i] + b[i + 1..])
  {
    var x := a[|a| - 1];
    assert a == a[..|a| - 1] + [x];
    assert x in multiset(b);
    i :| 0 <= i < |b| && b[i] == x;
    assert b == b[..i] + [x] + b[i + 1..];
    calc {
      multiset(a[..|a| - 1]);
      multiset(a) - multiset{x};
      multiset(b[..i]) + multiset{x} + multiset(b[i + 1..]) - multiset{x};
      multiset(b[..i] + b[i + 1..]);
    }
  }

  lemma {:induction false} CountConcat(a: seq<Finding>, b: seq<Finding>, s: Severity)
    ensures Count(a + b, s) == Count(a, s) + Count(b, s)
    decreases |b|
  {
    if b == [] {
      assert a + b == a;
    } else {
      assert (a + b)[..|a + b| - 1] == a + b[..|b| - 1];
      CountConcat(a, b[..|b| - 1], s);
    }
  }

  lemma CountWithout(b: seq<Finding>, i: nat, s: Severity)
    requires i < |b|
    ensures Count(b, s) == Count(b[..i] + b[i + 1..], s) + if b[i].severity == s then 1 else 0
  {
    var front, back := b[..i], b[i + 1..];
    assert b == front + [b[i]] + back;
    CountConcat(front + [b[i]], back, s);
    CountConcat(front, [b[i]], s);
    CountConcat(front, back, s);
  }

  method SortFindings(fs: seq<Finding>) returns (out: seq<Finding>)
    ensures out == Arranged(fs)
  {
    out := [];
    for i := 0 to |fs|
      invariant out == Arranged(fs[..i])
    {
      assert fs[..i + 1][..i] == fs[..i];
      out := Inserted(out, fs[i]);
    }
    assert fs[..|fs|] == fs;
  }

  /** `Run`: the report is the findings of all rules, sorted; the counts are exact. */
  method Run(registry: seq<Rule>, raw: Object, ctx: Context, titleOf: string -> string) returns (r: Report)
    ensures r.findings == Arranged(Collected(RulesInOrder(registry), ConfigOf(raw), ctx, titleOf))
    ensures Counted(r) && |r.findings| == r.errors + r.warnings + r.infos
  {
    var cfg := NewConfig(raw);
    var rules := RulesInOrder(registry);
    r := Report([], 0, 0, 0);
    for i := 0 to |rules|
      invariant r.findings == Collected(rules[..i], cfg, ctx, titleOf) && Counted(r)
    {
      assert rules[..i + 1][..i] == rules[..i];
      r := Apply(rules[i], cfg, ctx, titleOf, r);
    }
    assert rules[..|rules|] == rules;
    var sorted := SortFindings(r.findings);
    forall s: Severity
      ensures Count(sorted, s) == Count(r.findings, s)
    {
      SortIsPermutation(r.findings);
      CountIsMultiset(sorted, r.findings, s);
    }
    CountsCoverAll(sorted);
    r := r.(findings := sorted);
  }

  lemma SortIsPermutation(fs: seq<Finding>)
    ensures multiset(Arranged(fs)) == multiset(fs)
  {
    ArrangedInOrder(fs);
  }

  lemma {:induction false} CountsCoverAll(fs: seq<Finding>)
    ensures |fs| == Count(fs, SevError) + Count(fs, SevWarning) + Count(fs, SevInfo)
    decreases |fs|
  {
    if fs != [] {
      CountsCoverAll(fs[..|fs| - 1]);
    }
  }

  // --------------------------------------------------- registration order is immaterial

  ghost predicate StrictById(rs: seq<Rule>) {
    forall i, j | 0 <= i < j < |rs| :: Less(rs[i].id, rs[j].id)
  }

  ghost predicate DistinctIds(rs: seq<Rule>) {
    forall i, j | 0 <= i < j < |rs| :: rs[i].id != rs[j].id
  }

  lemma {:induction false} RuleInsertedSpec(rs: seq<Rule>, r: Rule)
    requires StrictById(rs) && forall i | 0 <= i < |rs| :: rs[i].id != r.id
    ensures StrictById(RuleInserted(rs, r)) && forall x :: x in RuleInserted(rs, r) <==> x in rs || x == r
    decreases |rs|
  {
    if rs != [] {
      var init, last := rs[..|rs| - 1], rs[|rs| - 1];
      assert forall x :: x in rs <==> x in init || x == last;
      if Less(r.id, last.id) {
        RuleInsertedSpec(init, r);
        var out := RuleInserted(init, r);
        forall i | 0 <= i < |out|
          ensures Less(out[i].id, last.id)
        {
          assert out[i] in out;
          if out[i] != r {
            var j :| 0 <= j < |init| && init[j] == out[i];
            assert rs[j] == out[i];
          }
        }
      } else {
        LessIsTotal(r.id, last.id);
        forall i | 0 <= i < |rs|
          ensures Less(rs[i].id, r.id)
        {
          if i < |rs| - 1 {
            LessIsTransitive(rs[i].id, last.id, r.id);
          }
        }
      }
    }
  }

  lemma {:induction false} RulesInOrderSpec(rs: seq<Rule>)
    requires DistinctIds(rs)
    ensures StrictById(RulesInOrder(rs)) && forall x :: x in RulesInOrder(rs) <==> x in rs
    decreases |rs|
  {
    if rs != [] {
      var init, last := rs[..|rs| - 1], rs[|rs| - 1];
      RulesInOrderSpec(init);
      assert forall x :: x in rs <==> x in init || x == last;
      var out := RulesInOrder(init);
      forall i | 0 <= i < |out|
        ensures out[i].id != last.id
      {
        assert out[i] in out;
        var j :| 0 <= j < |init| && init[j] == out[i];
        assert rs[j].id != rs[|rs| - 1].id;
      }
      RuleInsertedSpec(out, last);
    }
  }

  lemma {:induction false} StrictIsUnique(a: seq<Rule>, b: seq<Rule>)
    requires StrictById(a) && StrictById(b) && forall x :: x in a <==> x in b
    ensures a == b
    decreases |a|
  {
    if a == [] {
      if b != [] {
        HeadIn(b, a);
      }
    } else {
      HeadIn(a, b);
      HeadIn(b, a);
      HeadsAgree(a, b);
      TailMembers(a);
      TailMembers(b);
      StrictIsUnique(a[1..], b[1..]);
      assert a == [a[0]] + a[1..] && b == [b[0]] + b[1..];
    }
  }

  lemma HeadIn(a: seq<Rule>, b: seq<Rule>)
    requires a != [] && forall x :: x in a <==> x in b
    ensures b != [] && a[0] in b
  {
    assert a[0] in a;
  }

  lemma HeadsAgree(a: seq<Rule>, b: seq<Rule>)
    requires StrictById(a) && StrictById(b) && a != [] && b != [] && a[0] in b && b[0] in a
    ensures a[0] == b[0]
  {
    var i :| 0 <= i < |b| && b[i] == a[0];
    var j :| 0 <= j < |a| && a[j] == b[0];
    if i > 0 && j > 0 {
      LessIsStrict(b[0].id, b[i].id);
    }
  }

  lemma TailMembers(a: seq<Rule>)
    requires StrictById(a) && a != []
    ensures forall x :: x in a[1..] <==> x in a && x != a[0]
  {
    forall x | x in a[1..]
      ensures x != a[0]
    {
      var i :| 0 <= i < |a[1..]| && a[1..][i] == x;
      LessIsStrict(a[0].id, a[i + 1].id);
    }
  }

  /** The order in which rules were registered does not affect the report. */
  lemma RegistrationOrderIsImmaterial(a: seq<Rule>, b: seq<Rule>, raw: Object, ctx: Context, titleOf: string -> string)
    requires DistinctIds(a) && DistinctIds(b) && forall x :: x in a <==> x in b
    ensures Arranged(Collected(RulesInOrder(a), ConfigOf(raw), ctx, titleOf))
         == Arranged(Collected(RulesInOrder(b), ConfigOf(raw), ctx, titleOf))
  {
    RulesInOrderSpec(a);
    RulesInOrderSpec(b);
    StrictIsUnique(RulesInOrder(a), RulesInOrder(b));
  }
}
