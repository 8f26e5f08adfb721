/** When the protocol redeems a refresh token that an earlier redeem consumed: never,
    unless a reconnect without a refresh token lands on a row whose stored one is
    spent or about to be. */
module OAuthReuse {
  import opened Prelude
  import opened OAuthProtocol
  import opened OAuthSafety

  ghost predicate Rotated(k: Call) {
    k.reply.Granted? && k.reply.pair.refresh.Some?
  }

  /** No call passes a token that an earlier successful, rotating redeem was given. */
  ghost predicate NoReuse(log: seq<Call>) {
    forall i, j | 0 <= i < j < |log| && Rotated(log[i]) :: log[i].refresh != log[j].refresh
  }

  ghost predicate SpentIsRotated(s: State) {
    && s.spent <= s.issued
    && (forall i | 0 <= i < |s.log| && Rotated(s.log[i]) :: s.log[i].refresh in s.spent)
    && (forall r | r in s.spent :: exists i :: 0 <= i < |s.log| && Rotated(s.log[i]) && s.log[i].refresh == r)
  }

  /** The refresh token a refresh of `r` would redeem. */
  ghost function Candidate(pending: Option<Pending>, r: Row): Option<Secret> {
    if Matches(pending, r) then pending.value.pair.refresh else Plain(r.refresh)
  }

  /** The refresh token that still stands for the stored credential: the one being
      persisted, else the pending one, else the stored one. */
  ghost function Standing(s: State): Option<Secret> {
    if s.slot.Persisting? && IdentityOf(s.slot.rec) == IdentityOf(s.row) && s.slot.pair.refresh.Some? then
      s.slot.pair.refresh
    else if !s.slot.Persisting? && Matches(s.pending, s.row) && s.pending.value.pair.refresh.Some? then
      s.pending.value.pair.refresh
    else
      Plain(s.row.refresh)
  }

  /** A newer refresh token stands for the stored row: one is pending for it, or being saved
      over it. */
  ghost predicate Superseded(s: State) {
    || (Matches(s.pending, s.row) && s.pending.value.pair.refresh.Some?)
    || (s.slot.Persisting? && IdentityOf(s.slot.rec) == IdentityOf(s.row) && s.slot.pair.refresh.Some?)
  }

  /** The stored refresh token is superseded, or the running body is about to redeem it. All of
      it is state of this server; nothing of it is known to the provider alone. */
  ghost predicate AtRisk(s: State) {
    s.row.refresh.Some? &&
    var r := s.row.refresh.value.plain;
    || Superseded(s)
    || (s.slot.Redeeming? && s.slot.refresh == r)
    || (s.slot.Fetched? && Candidate(s.pending, s.slot.rec) == Some(r))
  }

  /** A superseded refresh token is consumed. */
  ghost predicate SupersededIsSpent(s: State) {
    Superseded(s) && s.row.refresh.Some? ==> s.row.refresh.value.plain in s.spent
  }

  ghost predicate Unspent(r: Option<Secret>, spent: set<Secret>) {
    r.Some? ==> r.value !in spent
  }

  /** The standing token is live, and so is the one the running body holds. */
  ghost predicate Live(s: State) {
    && Unspent(Standing(s), s.spent)
    && match s.slot
       case Fetched(rec) =>
         var r := Candidate(s.pending, rec);
         && Unspent(r, s.spent)
         && (rec.token != s.row.token && r.Some? ==> r != Plain(s.row.refresh))
       case Redeeming(refresh, rec, _) =>
         && refresh !in s.spent
         && (rec.token != s.row.token ==> Some(refresh) != Plain(s.row.refresh))
       case _ => true
  }

  ghost predicate Careful(s: State, e: Event) {
    e.Reconnect? && e.pair.refresh.None? ==> !AtRisk(s)
  }

  ghost predicate CarefulRun(s: State, es: seq<Event>)
    requires ValidRun(s, es)
    decreases |es|
  {
    es == [] || (Careful(s, es[0]) && CarefulRun(Step(s, es[0]), es[1..]))
  }

  lemma StepSpent(s: State, e: Event)
    requires Inv(s) && SpentIsRotated(s) && Enabled(s, e)
    ensures SpentIsRotated(Step(s, e))
  {
    if e.Redeem? {
      SpentRedeem(s, e.reply);
    } else {
      OnlyRedeemsSpend(s, e);
    }
  }

  lemma SpentRedeem(s: State, reply: Reply)
    requires Inv(s) && SpentIsRotated(s) && s.slot.Redeeming?
    ensures SpentIsRotated(RedeemStep(s, reply))
  {
    var t := RedeemStep(s, reply);
    assert t.log[|s.log|] == Call(s.slot.refresh, s.slot.rec.epoch, s.now, reply);
    assert forall i | 0 <= i < |s.log| :: t.log[i] == s.log[i];
  }

  lemma OnlyRedeemsSpend(s: State, e: Event)
    requires Enabled(s, e) && !e.Redeem?
    ensures Step(s, e).log == s.log && Step(s, e).spent == s.spent && s.issued <= Step(s, e).issued
  {}

  lemma StepSuperseded(s: State, e: Event)
    requires Inv(s) && SupersededIsSpent(s) && Enabled(s, e)
    ensures SupersededIsSpent(Step(s, e))
  {
    match e
    case Decide(decrypts) => SupersededDecide(s, decrypts);
    case Redeem(reply) => SupersededRedeem(s, reply);
    case Attempt(io) => SupersededAttempt(s, io);
    case _ =>
  }

  lemma SupersededDecide(s: State, decrypts: bool)
    requires Inv(s) && SupersededIsSpent(s) && s.slot.Fetched?
    ensures SupersededIsSpent(DecideStep(s, decrypts))
  {}

  lemma SupersededRedeem(s: State, reply: Reply)
    requires Inv(s) && SupersededIsSpent(s) && s.slot.Redeeming?
    ensures SupersededIsSpent(RedeemStep(s, reply))
  {}

  lemma SupersededAttempt(s: State, io: Io)
    requires Inv(s) && SupersededIsSpent(s) && s.slot.Persisting?
    ensures SupersededIsSpent(AttemptStep(s, io))
  {}

  /** What the server sees tells exactly whether the provider has consumed the stored token. */
  lemma SpentIffSuperseded(s: State)
    requires Inv(s) && Live(s) && SupersededIsSpent(s) && s.row.refresh.Some?
    ensures s.row.refresh.value.plain in s.spent <==> Superseded(s)
  {}

  lemma ReconnectLive(s: State, p: Pair)
    requires Inv(s) && SpentIsRotated(s) && Live(s) && Enabled(s, Reconnect(p)) && Careful(s, Reconnect(p))
    ensures Live(Step(s, Reconnect(p)))
  {}

  lemma DecideLive(s: State, decrypts: bool)
    requires Inv(s) && Live(s) && s.slot.Fetched?
    ensures Live(Step(s, Decide(decrypts)))
  {}

  lemma RedeemLive(s: State, reply: Reply)
    requires Inv(s) && SpentIsRotated(s) && Live(s) && Enabled(s, Redeem(reply))
    ensures Live(Step(s, Redeem(reply)))
  {}

  lemma AttemptLive(s: State, io: Io)
    requires Inv(s) && Live(s) && s.slot.Persisting?
    ensures Live(Step(s, Attempt(io)))
  {}

  lemma FetchLive(s: State, found: bool, decrypts: bool)
    requires Inv(s) && Live(s) && s.slot.Started?
    ensures Live(FetchStep(s, found, decrypts))
  {}

  lemma StepLive(s: State, e: Event)
    requires Inv(s) && SpentIsRotated(s) && Live(s) && Enabled(s, e) && Careful(s, e)
    ensures Live(Step(s, e))
  {
    match e
    case Reconnect(p) => ReconnectLive(s, p);
    case Decide(decrypts) => DecideLive(s, decrypts);
    case Redeem(reply) => RedeemLive(s, reply);
    case Attempt(io) => AttemptLive(s, io);
    case Fetch(found, decrypts) => FetchLive(s, found, decrypts);
    case _ =>
  }

  lemma StepNoReuse(s: State, e: Event)
    requires SpentIsRotated(s) && Live(s) && NoReuse(s.log) && Enabled(s, e)
    ensures NoReuse(Step(s, e).log)
  {
  }

  ghost predicate Sound(s: State) {
    Inv(s) && SpentIsRotated(s) && SupersededIsSpent(s) && Live(s) && NoReuse(s.log)
  }

  lemma {:induction false} CarefulRunsStaySound(s: State, es: seq<Event>)
    requires Sound(s) && ValidRun(s, es) && CarefulRun(s, es)
    ensures Sound(Run(s, es))
    decreases |es|
  {
    if es != [] {
      StepInv(s, es[0]);
      StepSpent(s, es[0]);
      StepSuperseded(s, es[0]);
      StepLive(s, es[0]);
      StepNoReuse(s, es[0]);
      CarefulRunsStaySound(Step(s, es[0]), es[1..]);
    }
  }

  /** In every interleaving of loads, redeems, failed and retried saves and careful
      reconnects, no redeem passes a refresh token an earlier redeem consumed. */
  lemma NeverRedeemsSpentToken(s: State, es: seq<Event>)
    requires Init(s) && ValidRun(s, es) && CarefulRun(s, es)
    ensures NoReuse(Run(s, es).log)
  {
    InitInv(s);
    CarefulRunsStaySound(s, es);
  }

  /** A provider that puts a refresh token into every reply makes every run careful. */
  lemma {:induction false} RotatingProviderIsCareful(s: State, es: seq<Event>)
    requires ValidRun(s, es)
    requires forall e | e in es && e.Reconnect? :: e.pair.refresh.Some?
    ensures CarefulRun(s, es)
    decreases |es|
  {
    if es != [] {
      assert es[0] in es;
      RotatingProviderIsCareful(Step(s, es[0]), es[1..]);
    }
  }

  // ------------------------------------------------ the reconnect that breaks it

  /** The stored refresh token is consumed and nothing stands in for it. */
  ghost predicate Poisoned(s: State) {
    && Inv(s) && SpentIsRotated(s) && !Matches(s.pending, s.row)
    && s.row.refresh.Some? && s.row.refresh.value.plain in s.spent
  }

  ghost predicate NoReconnects(es: seq<Event>) {
    forall e | e in es :: !e.Reconnect?
  }

  /** From a poisoned row the next refresh redeems the consumed token. */
  lemma PoisonedIdleReuses(s: State) returns (es: seq<Event>)
    requires Poisoned(s) && s.slot.Idle? && s.row.expiresAt.Some?
    ensures ValidRun(s, es) && NoReconnects(es) && !NoReuse(Run(s, es).log)
  {
    var c := FreshNat(s.callers.Keys);
    var d: nat := if s.row.expiresAt.value <= s.now then 0 else s.row.expiresAt.value - s.now;
    var s1 := Step(s, Tick(d));
    var s2 := Step(s1, Read(c));
    var s3 := Step(s2, Enter(c));
    var s4 := Step(s3, Fetch(true, true));
    var s5 := Step(s4, Decide(true));
    assert s5.slot.Redeeming? && s5.slot.refresh == s.row.refresh.value.plain && s5.log == s.log;
    var s6 := Step(s5, Redeem(Denied(Rejected)));
    RunCons(s5, Redeem(Denied(Rejected)), []);
    es := [Redeem(Denied(Rejected))] + [];
    RunCons(s4, Decide(true), es);
    es := [Decide(true)] + es;
    RunCons(s3, Fetch(true, true), es);
    es := [Fetch(true, true)] + es;
    RunCons(s2, Enter(c), es);
    es := [Enter(c)] + es;
    RunCons(s1, Read(c), es);
    es := [Read(c)] + es;
    RunCons(s, Tick(d), es);
    es := [Tick(d)] + es;
    assert Run(s, es) == s6;
    var i :| 0 <= i < |s.log| && Rotated(s.log[i]) && s.log[i].refresh == s.row.refresh.value.plain;
    assert s6.log[i] == s.log[i] && s6.log[|s.log|].refresh == s.row.refresh.value.plain;
  }

  /** Poisoned, with no body under way that could still save over the row. */
  ghost predicate Stuck(s: State) {
    Poisoned(s) && s.row.expiresAt.Some? && (HasRec(s.slot) ==> s.slot.rec.token != s.row.token)
  }

  /** The steps that end the running body without changing the row. */
  function Drain(slot: Slot): Event {
    match slot
    case Started => Fetch(false, false)
    case Fetched(_) => Decide(false)
    case Redeeming(_, _, _) => Redeem(Denied(Transport))
    case Persisting(_, _, _, _) => Attempt(Saves)
    case _ => End
  }

  lemma DrainFetch(s: State)
    requires Stuck(s) && s.slot.Started?
    ensures var t := FetchStep(s, false, false); t.row == s.row && t.pending == s.pending && t.slot.Ending?
  {}

  lemma DrainDecide(s: State)
    requires Stuck(s) && s.slot.Fetched?
    ensures
      var t := DecideStep(s, false);
      && t.row == s.row && !Matches(t.pending, s.row)
      && (t.slot.Ending? || (t.slot.Persisting? && t.slot.rec == s.slot.rec))
  {}

  lemma DrainAttempt(s: State)
    requires Stuck(s) && s.slot.Persisting?
    ensures var t := AttemptStep(s, Saves); t.row == s.row && t.pending.None? && t.slot.Ending?
  {}

  /** One such step keeps a poisoned row poisoned. */
  lemma DrainStep(s: State)
    requires Stuck(s) && !s.slot.Idle?
    ensures Enabled(s, Drain(s.slot)) && Stuck(Step(s, Drain(s.slot)))
    ensures
      var t := Step(s, Drain(s.slot)).slot;
      if s.slot.Ending? then t.Idle? else t.Ending? || (s.slot.Fetched? && t.Persisting?)
  {
    StepInv(s, Drain(s.slot));
    StepSpent(s, Drain(s.slot));
    match s.slot
    case Started => DrainFetch(s);
    case Fetched(_) => DrainDecide(s);
    case Persisting(_, _, _, _) => DrainAttempt(s);
    case _ =>
  }

  /** The running body of an older credential can always be finished. */
  lemma PoisonedReuses(s: State) returns (es: seq<Event>)
    requires Stuck(s)
    ensures ValidRun(s, es) && NoReconnects(es) && !NoReuse(Run(s, es).log)
    decreases match s.slot case Idle => 0 case Ending(_, _) => 1 case Fetched(_) => 3 case _ => 2
  {
    if s.slot.Idle? {
      es := PoisonedIdleReuses(s);
    } else {
      var e := Drain(s.slot);
      DrainStep(s);
      es := PoisonedReuses(Step(s, e));
      RunCons(s, e, es);
      es := [e] + es;
    }
  }

  /** A running body about to redeem the stored token can consume it after the row moved on. */
  lemma RedeemPoisons(s: State) returns (e: Event)
    requires Inv(s) && SpentIsRotated(s) && s.slot.Redeeming? && s.slot.rec.token != s.row.token
    requires !Matches(s.pending, s.row) && Plain(s.row.refresh) == Some(s.slot.refresh)
    ensures Enabled(s, e) && !e.Reconnect? && Poisoned(Step(s, e)) && Step(s, e).slot.Persisting?
    ensures Step(s, e).slot.rec == s.slot.rec && Step(s, e).row == s.row
  {
    var n := FreshNat(s.issued);
    e := Redeem(Granted(Pair(n, Some(n + 1), None)));
    StepInv(s, e);
    StepSpent(s, e);
  }

  /** After a reconnect that left an at-risk refresh token in place, some run redeems it again. */
  lemma BareReconnectReuses(s: State, p: Pair) returns (es: seq<Event>)
    requires Inv(s) && SpentIsRotated(s) && SupersededIsSpent(s) && AtRisk(s)
    requires Enabled(s, Reconnect(p)) && p.refresh.None?
    ensures ValidRun(Step(s, Reconnect(p)), es) && NoReconnects(es)
    ensures !NoReuse(Run(Step(s, Reconnect(p)), es).log)
  {
    var t := Step(s, Reconnect(p));
    StepInv(s, Reconnect(p));
    StepSpent(s, Reconnect(p));
    var r := s.row.refresh.value.plain;
    if r in s.spent {
      es := PoisonedReuses(t);
    } else {
      var u := t;
      if t.slot.Fetched? {
        u := Step(t, Decide(true));
        StepInv(t, Decide(true));
        StepSpent(t, Decide(true));
      }
      var e := RedeemPoisons(u);
      es := PoisonedReuses(Step(u, e));
      RunCons(u, e, es);
      es := [e] + es;
      if t.slot.Fetched? {
        RunCons(t, Decide(true), es);
        es := [Decide(true)] + es;
      }
    }
  }

  ghost predicate ReusesAfter(s: State, e: Event, es: seq<Event>)
    requires Enabled(s, e)
  {
    var t := Step(s, e);
    ValidRun(t, es) && CarefulRun(t, es) && !NoReuse(Run(t, es).log)
  }

  lemma {:induction false} NoReconnectsIsCareful(s: State, es: seq<Event>)
    requires ValidRun(s, es) && NoReconnects(es)
    ensures CarefulRun(s, es)
  {
    RotatingProviderIsCareful(s, es);
  }

  /** The exact condition, in every state a careful run reaches: a reconnect whose reply carries
      no refresh token can lead to a reuse if and only if the stored refresh token is at risk when
      it lands. */
  lemma BareReconnectReusesIffAtRisk(start: State, run: seq<Event>, p: Pair)
    requires Init(start) && ValidRun(start, run) && CarefulRun(start, run)
    requires Enabled(Run(start, run), Reconnect(p)) && p.refresh.None?
    ensures
      var s := Run(start, run);
      && (AtRisk(s) <==> exists es :: ReusesAfter(s, Reconnect(p), es))
      && (s.row.refresh.Some? ==> (Superseded(s) <==> s.row.refresh.value.plain in s.spent))
  {
    InitInv(start);
    CarefulRunsStaySound(start, run);
    ReusesIffAtRisk(Run(start, run), p);
    if Run(start, run).row.refresh.Some? {
      SpentIffSuperseded(Run(start, run));
    }
  }

  lemma ReusesIffAtRisk(s: State, p: Pair)
    requires Sound(s) && Enabled(s, Reconnect(p)) && p.refresh.None?
    ensures AtRisk(s) <==> exists es :: ReusesAfter(s, Reconnect(p), es)
  {
    var e := Reconnect(p);
    if AtRisk(s) {
      var es := BareReconnectReuses(s, p);
      NoReconnectsIsCareful(Step(s, e), es);
      assert ReusesAfter(s, e, es);
    } else {
      forall es | ValidRun(Step(s, e), es) && CarefulRun(Step(s, e), es)
        ensures NoReuse(Run(Step(s, e), es).log)
      {
        StepInv(s, e);
        StepSpent(s, e);
        StepSuperseded(s, e);
        StepLive(s, e);
        StepNoReuse(s, e);
        CarefulRunsStaySound(Step(s, e), es);
      }
    }
  }

  /** A concrete run that redeems one refresh token twice. */
  lemma BareReconnectExample() returns (s: State, es: seq<Event>)
    ensures Init(s) && ValidRun(s, es) && !NoReuse(Run(s, es).log)
  {
    s := State(0, Row(Cipher(0, 10), Some(Cipher(1, 11)), Some(0), false, 0), None, Idle, map[], 2,
               {10, 11}, {}, [], [Pair(10, Some(11), Some(0))]);
    var s1 := Step(s, Read(0));
    var s2 := Step(s1, Enter(0));
    var s3 := Step(s2, Fetch(true, true));
    InitInv(s);
    StepInv(s, Read(0));
    StepInv(s1, Enter(0));
    StepInv(s2, Fetch(true, true));
    var p := Pair(12, None, None);
    es := BareReconnectReuses(s3, p);
    RunCons(s3, Reconnect(p), es);
    es := [Reconnect(p)] + es;
    RunCons(s2, Fetch(true, true), es);
    es := [Fetch(true, true)] + es;
    RunCons(s1, Enter(0), es);
    es := [Enter(0)] + es;
    RunCons(s, Read(0), es);
    es := [Read(0)] + es;
  }
}
