/** The report against the deploy-time check: each violation of the policy is one error in it. */
module LintReport {
  import opened Prelude
  import opened Ordering
  import opened ComposePolicy
  import opened Lint
  import opened LintRules

  /** The findings of a run of the rules. */
  function Findings(registry: seq<Rule>, cfg: Config, ctx: Context, titleOf: string -> string): seq<Finding> {
    Arranged(Collected(RulesInOrder(registry), cfg, ctx, titleOf))
  }

  /** One rule's findings, as the report holds them. */
  function Own(r: Rule, cfg: Config, ctx: Context, titleOf: string -> string): seq<Finding> {
    AllFilled(r.check(cfg, ctx), r.id, titleOf)
  }

  /** The findings of all rules, order forgotten. */
  ghost function Pool(rs: seq<Rule>, cfg: Config, ctx: Context, titleOf: string -> string): multiset<Finding> {
    if rs == [] then multiset{}
    else Pool(rs[..|rs| - 1], cfg, ctx, titleOf) + multiset(Own(rs[|rs| - 1], cfg, ctx, titleOf))
  }

  lemma PoolNext(rs: seq<Rule>, r: Rule, cfg: Config, ctx: Context, titleOf: string -> string)
    ensures Pool(rs + [r], cfg, ctx, titleOf) == Pool(rs, cfg, ctx, titleOf) + multiset(Own(r, cfg, ctx, titleOf))
  {
    assert (rs + [r])[..|rs|] == rs;
  }

  lemma {:induction false} PoolIsCollected(rs: seq<Rule>, cfg: Config, ctx: Context, titleOf: string -> string)
    ensures multiset(Collected(rs, cfg, ctx, titleOf)) == Pool(rs, cfg, ctx, titleOf)
    decreases |rs|
  {
    if rs != [] {
      PoolIsCollected(rs[..|rs| - 1], cfg, ctx, titleOf);
    }
  }

  lemma {:induction false} PoolInserted(rs: seq<Rule>, r: Rule, cfg: Config, ctx: Context, titleOf: string -> string)
    ensures Pool(RuleInserted(rs, r), cfg, ctx, titleOf)
            == Pool(rs, cfg, ctx, titleOf) + multiset(Own(r, cfg, ctx, titleOf))
    decreases |rs|
  {
    if rs == [] || !Less(r.id, rs[|rs| - 1].id) {
      PoolNext(rs, r, cfg, ctx, titleOf);
    } else {
      PoolInserted(rs[..|rs| - 1], r, cfg, ctx, titleOf);
      PoolNext(RuleInserted(rs[..|rs| - 1], r), rs[|rs| - 1], cfg, ctx, titleOf);
    }
  }

  lemma {:induction false} PoolInOrder(rs: seq<Rule>, cfg: Config, ctx: Context, titleOf: string -> string)
    ensures Pool(RulesInOrder(rs), cfg, ctx, titleOf) == Pool(rs, cfg, ctx, titleOf)
    decreases |rs|
  {
    if rs != [] {
      PoolInOrder(rs[..|rs| - 1], cfg, ctx, titleOf);
      PoolInserted(RulesInOrder(rs[..|rs| - 1]), rs[|rs| - 1], cfg, ctx, titleOf);
    }
  }

  lemma {:induction false} PoolWith(before: seq<Rule>, r: Rule, after: seq<Rule>, cfg: Config, ctx: Context,
                                    titleOf: string -> string)
    ensures Pool(before + [r] + after, cfg, ctx, titleOf)
            == Pool(before + after, cfg, ctx, titleOf) + multiset(Own(r, cfg, ctx, titleOf))
    decreases |after|
  {
    if after == [] {
      assert before + [r] + after == before + [r] && before + after == before;
      PoolNext(before, r, cfg, ctx, titleOf);
    } else {
      var init, last := after[..|after| - 1], after[|after| - 1];
      PoolWith(before, r, init, cfg, ctx, titleOf);
      LastApart(before + [r], after);
      LastApart(before, after);
      PoolNext(before + [r] + init, last, cfg, ctx, titleOf);
      PoolNext(before + init, last, cfg, ctx, titleOf);
    }
  }

  /** Registering a rule adds exactly its findings to the report. */
  lemma RuleAddsItsFindings(before: seq<Rule>, r: Rule, after: seq<Rule>, cfg: Config, ctx: Context,
                            titleOf: string -> string)
    ensures multiset(Findings(before + [r] + after, cfg, ctx, titleOf))
            == multiset(Findings(before + after, cfg, ctx, titleOf)) + multiset(Own(r, cfg, ctx, titleOf))
  {
    FindingsArePool(before + [r] + after, cfg, ctx, titleOf);
    FindingsArePool(before + after, cfg, ctx, titleOf);
    PoolWith(before, r, after, cfg, ctx, titleOf);
  }

  lemma FindingsArePool(registry: seq<Rule>, cfg: Config, ctx: Context, titleOf: string -> string)
    ensures multiset(Findings(registry, cfg, ctx, titleOf)) == Pool(registry, cfg, ctx, titleOf)
  {
    SortIsPermutation(Collected(RulesInOrder(registry), cfg, ctx, titleOf));
    PoolIsCollected(RulesInOrder(registry), cfg, ctx, titleOf);
    PoolInOrder(registry, cfg, ctx, titleOf);
  }

  lemma {:induction false} CountAll(fs: seq<Finding>, s: Severity)
    requires forall i | 0 <= i < |fs| :: fs[i].severity == s
    ensures Count(fs, s) == |fs|
    decreases |fs|
  {
    if fs != [] {
      CountAll(fs[..|fs| - 1], s);
    }
  }

  /** What the policy rule adds: one error for each violation the deploy-time check sees, with its
      service and its message, and nothing else. */
  lemma PolicyAddsItsViolations(before: seq<Rule>, rule: Rule, after: seq<Rule>, raw: Object, ctx: Context,
                                titleOf: string -> string)
    requires Active(ctx) && rule.check(ConfigOf(raw), ctx) == PolicyFindings(ConfigOf(raw), ctx)
    ensures
      var cfg, vs := ConfigOf(raw), Violations(ctx.policy.value, raw);
      var without := Findings(before + after, cfg, ctx, titleOf);
      var found := Findings(before + [rule] + after, cfg, ctx, titleOf);
      && multiset(found) == multiset(without) + multiset(AllFilled(FindingsOf(vs), rule.id, titleOf))
      && Count(found, SevError) == Count(without, SevError) + |vs|
      && Count(found, SevWarning) == Count(without, SevWarning)
  {
    var cfg, vs := ConfigOf(raw), Violations(ctx.policy.value, raw);
    var own := AllFilled(FindingsOf(vs), rule.id, titleOf);
    var without := Findings(before + after, cfg, ctx, titleOf);
    var found := Findings(before + [rule] + after, cfg, ctx, titleOf);
    RuleAddsItsFindings(before, rule, after, cfg, ctx, titleOf);
    assert multiset(found) == multiset(without + own);
    CountIsMultiset(found, without + own, SevError);
    CountIsMultiset(found, without + own, SevWarning);
    CountConcat(without, own, SevError);
    CountConcat(without, own, SevWarning);
    CountAll(own, SevError);
    CountsCoverAll(own);
  }

  /** With the policy rule registered, every violation of an active policy is an error in the
      report, so whatever the deploy-time check refuses has a report with errors. */
  lemma ViolationsAreErrors(registry: seq<Rule>, rule: Rule, raw: Object, ctx: Context, titleOf: string -> string,
                            v: Violation)
    requires rule in registry && rule.check(ConfigOf(raw), ctx) == PolicyFindings(ConfigOf(raw), ctx)
    requires Active(ctx) && v in Violations(ctx.policy.value, raw)
    ensures
      var findings := Findings(registry, ConfigOf(raw), ctx, titleOf);
      && Count(findings, SevError) >= |Violations(ctx.policy.value, raw)| > 0
      && exists f :: f in findings && f.severity.SevError? && f.service == v.service
                     && f.message == PolicyText(v.message) && f.rule == "policy/" + CheckName(v.check)
  {
    var vs := Violations(ctx.policy.value, raw);
    var before, after := Around(registry, rule);
    PolicyAddsItsViolations(before, rule, after, raw, ctx, titleOf);
    var f := ViolationIsFound(vs, v, rule.id, titleOf);
    assert f in multiset(Findings(registry, ConfigOf(raw), ctx, titleOf));
  }

  lemma Around(registry: seq<Rule>, rule: Rule) returns (before: seq<Rule>, after: seq<Rule>)
    requires rule in registry
    ensures registry == before + [rule] + after
  {
    var i :| 0 <= i < |registry| && registry[i] == rule;
    before, after := registry[..i], registry[i + 1..];
  }

  lemma ViolationIsFound(vs: seq<Violation>, v: Violation, id: string, titleOf: string -> string)
    returns (f: Finding)
    requires v in vs
    ensures f in multiset(AllFilled(FindingsOf(vs), id, titleOf)) && f.severity.SevError? && f.service == v.service
    ensures f.message == PolicyText(v.message) && f.rule == "policy/" + CheckName(v.check)
  {
    var own := AllFilled(FindingsOf(vs), id, titleOf);
    var k :| 0 <= k < |vs| && vs[k] == v;
    f := own[k];
    assert FindingsOf(vs)[k].rule != "";
  }
}
