/** Whole-run properties of the refresh protocol: one redeem per expiry, reconnects
    win over older refreshes, and what a load may return. */
module OAuthRuns {
  import opened Prelude
  import opened OAuthProtocol
  import opened OAuthSafety

  // --------------------------------------------------- one redeem per expiry

  /** The expiry a granted call obtained. */
  ghost predicate Obtained(k: Call, epoch: nat, e: Instant) {
    k.reply.Granted? && k.epoch == epoch && k.reply.pair.expiresAt == Some(e)
  }

  /** No call for a credential comes before the previous grant for it is back in the grace window. */
  ghost predicate OncePerExpiry(log: seq<Call>) {
    forall i, j, e | 0 <= i < j < |log| && Obtained(log[i], log[j].epoch, e) :: e <= log[j].at + GRACE
  }

  /** An expiry obtained for the stored credential is in the grace window, or is what
      the row, a matching pending pair or the pair being persisted says. */
  ghost predicate Covered(s: State, e: Instant) {
    || e <= s.now + GRACE
    || s.row.expiresAt == Some(e)
    || (Matches(s.pending, s.row) && s.pending.value.pair.expiresAt == Some(e))
    || (s.slot.Persisting? && s.slot.rec.token == s.row.token && s.slot.pair.expiresAt == Some(e))
  }

  /** Before it redeems, the running body has seen every earlier expiry back in the
      grace window, save the one of the pending pair it is about to look at. */
  ghost predicate Seen(s: State, e: Instant) {
    match s.slot
    case Fetched(rec) =>
      e <= s.now + GRACE || (Matches(s.pending, rec) && s.pending.value.pair.expiresAt == Some(e))
    case Redeeming(_, _, _) => e <= s.now + GRACE
    case _ => true
  }

  ghost predicate ExpiryInv(s: State) {
    && OncePerExpiry(s.log)
    && (forall i | 0 <= i < |s.log| :: s.log[i].epoch <= s.row.epoch)
    && (forall i, e | 0 <= i < |s.log| && Obtained(s.log[i], s.row.epoch, e) :: Covered(s, e))
    && (HasRec(s.slot) ==>
          forall i, e | 0 <= i < |s.log| && Obtained(s.log[i], s.slot.rec.epoch, e) :: Seen(s, e))
  }

  /** Only a reconnect starts a new epoch; nothing else loses an obtained expiry. */
  lemma CoveredStep(s: State, ev: Event, e: Instant)
    requires Inv(s) && Enabled(s, ev) && !ev.Reconnect? && Covered(s, e)
    ensures Covered(Step(s, ev), e)
  {}

  lemma RedeemExpiry(s: State, reply: Reply)
    requires Inv(s) && ExpiryInv(s) && Enabled(s, Redeem(reply))
    ensures ExpiryInv(Step(s, Redeem(reply)))
  {
    var t := Step(s, Redeem(reply));
    assert t.log == s.log + [Call(s.slot.refresh, s.slot.rec.epoch, s.now, reply)];
    forall i, e | 0 <= i < |t.log| && Obtained(t.log[i], t.row.epoch, e)
      ensures Covered(t, e)
    {
      if i < |s.log| {
        assert Obtained(s.log[i], s.row.epoch, e);
        CoveredStep(s, Redeem(reply), e);
      }
    }
    forall i, j, e | 0 <= i < j < |t.log| && Obtained(t.log[i], t.log[j].epoch, e)
      ensures e <= t.log[j].at + GRACE
    {
      assert t.log[i] == s.log[i];
      if j == |s.log| {
        assert Obtained(s.log[i], s.slot.rec.epoch, e) && Seen(s, e);
      } else {
        assert Obtained(s.log[i], s.log[j].epoch, e);
      }
    }
  }

  /** The body that has just read the row sees what the row covers. */
  lemma FetchSeen(s: State, found: bool, decrypts: bool, e: Instant)
    requires Inv(s) && s.slot.Started? && Covered(s, e)
    ensures Seen(FetchStep(s, found, decrypts), e)
  {}

  lemma DecideSeen(s: State, decrypts: bool, e: Instant)
    requires s.slot.Fetched? && Seen(s, e)
    ensures Seen(DecideStep(s, decrypts), e)
  {}

  /** What others do leaves the body where it is, and the clock does not go back. */
  lemma OthersSeen(s: State, ev: Event, e: Instant)
    requires Enabled(s, ev) && (ev.Tick? || ev.Reconnect? || ev.Read? || ev.Enter? || ev.Return?)
    requires HasRec(s.slot) && Seen(s, e)
    ensures Seen(Step(s, ev), e)
  {
    var t := Step(s, ev);
    assert t.slot == s.slot && t.pending == s.pending && t.now >= s.now;
  }

  lemma SeenStep(s: State, ev: Event, e: Instant)
    requires Inv(s) && Enabled(s, ev) && !ev.Redeem? && HasRec(Step(s, ev).slot)
    requires if HasRec(s.slot) then Seen(s, e) else Covered(s, e)
    ensures Seen(Step(s, ev), e)
  {
    match ev
    case Fetch(found, decrypts) => FetchSeen(s, found, decrypts, e);
    case Decide(decrypts) => DecideSeen(s, decrypts, e);
    case Attempt(_) => assert Step(s, ev).slot.Persisting?;
    case _ => OthersSeen(s, ev, e);
  }

  lemma StepExpiry(s: State, ev: Event)
    requires Inv(s) && ExpiryInv(s) && Enabled(s, ev)
    ensures ExpiryInv(Step(s, ev))
  {
    var t := Step(s, ev);
    if ev.Redeem? {
      RedeemExpiry(s, ev.reply);
    } else {
      assert t.log == s.log;
      EpochNeverGoesBack(s, ev);
      forall i, e | 0 <= i < |s.log| && Obtained(s.log[i], t.row.epoch, e)
        ensures Covered(t, e)
      {
        CoveredStep(s, ev, e);
      }
      if HasRec(t.slot) {
        forall i, e | 0 <= i < |t.log| && Obtained(t.log[i], t.slot.rec.epoch, e)
          ensures Seen(t, e)
        {
          SeenStep(s, ev, e);
        }
      }
    }
  }

  lemma {:induction false} RunExpiry(s: State, es: seq<Event>)
    requires Inv(s) && ExpiryInv(s) && ValidRun(s, es)
    ensures Inv(Run(s, es)) && ExpiryInv(Run(s, es))
    decreases |es|
  {
    if es != [] {
      StepInv(s, es[0]);
      StepExpiry(s, es[0]);
      RunExpiry(Step(s, es[0]), es[1..]);
    }
  }

  /** Whatever the interleaving, two redeems for one stored credential are never closer
      than the first grant's expiry less the grace window. */
  lemma AtMostOneRedeemPerExpiry(s: State, es: seq<Event>)
    requires Init(s) && ValidRun(s, es)
    ensures OncePerExpiry(Run(s, es).log)
  {
    InitInv(s);
    RunExpiry(s, es);
  }

  // -------------------------------------------- loads after a redeem share it

  /** What a body or a load ends with once the pair with access token `a` is settled: that token,
      or a failure if a read of the row may fail. */
  ghost predicate Right(out: Outcome, a: Secret, readable: bool) {
    out == Token(a) || (!readable && out == Failed(Local))
  }

  /** The pair with access token `a` and expiry `e` is what every load finds: stored, or
      pending for the stored row, with no older refresh under way. */
  ghost predicate Settled(s: State, a: Secret, e: Instant, readable: bool) {
    && s.now + GRACE < e
    && (s.slot.Ending? ==> Right(s.slot.out, a, readable))
    && if s.row.expiresAt == Some(e) then
         s.row.token.plain == a && !HasRec(s.slot)
       else
         && Matches(s.pending, s.row)
         && s.pending.value.pair.access == a && s.pending.value.pair.expiresAt == Some(e)
         && Due(s.row.expiresAt, s.now)
         && (HasRec(s.slot) ==> s.slot.rec.token == s.row.token)
         && !s.slot.Redeeming?
         && (s.slot.Persisting? ==> s.slot.retry)
  }

  /** A load begun while the pair was settled: it has, or is bound to get, that token. Where a read
      may fail it may end with that failure, or fall back on the token it read itself. */
  ghost predicate GetsIt(k: Caller, a: Secret, now: Instant, readable: bool) {
    match k
    case Reading(snap) => Due(snap.expiresAt, now) || snap.token.plain == a
    case Waiting(_) => true
    case Answered(_, answer) => Right(answer, a, readable)
    case Returned(snap, answer, _) =>
      Right(answer, a, readable) || (!readable && answer == Token(snap.token.plain))
  }

  ghost predicate NewLoadsGetIt(s: State, older: set<nat>, a: Secret, readable: bool) {
    forall c | c in s.callers && c !in older :: GetsIt(s.callers[c], a, s.now, readable)
  }

  /** Not a reconnect, nor a failed read of the stored row where none may fail. */
  ghost predicate Calm(e: Event, readable: bool) {
    !e.Reconnect? && (readable && e.Fetch? ==> e.found && e.decrypts)
  }

  lemma StepSettled(s: State, ev: Event, older: set<nat>, a: Secret, e: Instant, readable: bool)
    requires Inv(s) && Settled(s, a, e, readable) && NewLoadsGetIt(s, older, a, readable)
    requires Enabled(s, ev) && Calm(ev, readable) && Step(s, ev).now + GRACE < e
    requires older <= s.callers.Keys
    ensures older <= Step(s, ev).callers.Keys
    ensures Settled(Step(s, ev), a, e, readable) && NewLoadsGetIt(Step(s, ev), older, a, readable)
    ensures Step(s, ev).log == s.log
  {
    if ev.Fetch? || ev.Decide? || ev.Redeem? || ev.Attempt? {
      SettledBody(s, ev, a, e, readable);
    } else {
      SettledOthers(s, ev, a, e, readable);
    }
  }

  /** The body keeps the pair settled, and leaves the callers alone. */
  lemma SettledBody(s: State, ev: Event, a: Secret, e: Instant, readable: bool)
    requires Inv(s) && Settled(s, a, e, readable) && Enabled(s, ev) && Calm(ev, readable)
    requires ev.Fetch? || ev.Decide? || ev.Redeem? || ev.Attempt?
    ensures Settled(Step(s, ev), a, e, readable)
    ensures Step(s, ev).log == s.log && Step(s, ev).callers == s.callers && Step(s, ev).now == s.now
  {}

  lemma SettledOthers(s: State, ev: Event, a: Secret, e: Instant, readable: bool)
    requires Inv(s) && Settled(s, a, e, readable) && Enabled(s, ev) && Calm(ev, readable)
    requires Step(s, ev).now + GRACE < e
    requires !ev.Fetch? && !ev.Decide? && !ev.Redeem? && !ev.Attempt?
    ensures Settled(Step(s, ev), a, e, readable) && Step(s, ev).log == s.log
  {}

  lemma {:induction false} ClockNeverGoesBack(s: State, es: seq<Event>)
    requires ValidRun(s, es)
    ensures s.now <= Run(s, es).now
    decreases |es|
  {
    if es != [] {
      ClockNeverGoesBack(Step(s, es[0]), es[1..]);
    }
  }

  lemma {:induction false} RunSettled(s: State, es: seq<Event>, older: set<nat>, a: Secret, e: Instant, readable: bool)
    requires Inv(s) && Settled(s, a, e, readable) && NewLoadsGetIt(s, older, a, readable) && older <= s.callers.Keys
    requires ValidRun(s, es) && (forall ev | ev in es :: Calm(ev, readable)) && Run(s, es).now + GRACE < e
    ensures NewLoadsGetIt(Run(s, es), older, a, readable) && Run(s, es).log == s.log
    decreases |es|
  {
    if es != [] {
      assert es[0] in es;
      ClockNeverGoesBack(Step(s, es[0]), es[1..]);
      StepInv(s, es[0]);
      StepSettled(s, es[0], older, a, e, readable);
      RunSettled(Step(s, es[0]), es[1..], older, a, e, readable);
    }
  }

  /** The body that redeemed a pair leaves it settled. */
  lemma SettledAtEnd(s: State, io: Io, readable: bool)
    requires Inv(s) && s.slot.Persisting? && s.slot.rec.token == s.row.token
    requires s.slot.pair.expiresAt.Some? && s.now + GRACE < s.slot.pair.expiresAt.value
    requires AttemptStep(s, io).slot.Ending?
    ensures Settled(AttemptStep(s, io), s.slot.pair.access, s.slot.pair.expiresAt.value, readable)
    ensures AttemptStep(s, io).log == s.log && AttemptStep(s, io).callers == s.callers
  {}

  /** Once the body that redeemed a pair has ended, saved or not, no load redeems until the pair's
      expiry enters the grace window or the credential is reconnected, and every load begun later
      returns that pair's access token. Where reads of the row may fail, a load may instead return
      such a failure, or the token it read itself. */
  lemma OneRedeemServesEveryLoad(start: State, run: seq<Event>, s: State, io: Io, es: seq<Event>, readable: bool)
    requires Init(start) && ValidRun(start, run) && s == Run(start, run)
    requires s.slot.Persisting? && s.slot.rec.token == s.row.token
    requires s.slot.pair.expiresAt.Some? && s.now + GRACE < s.slot.pair.expiresAt.value
    requires Step(s, Attempt(io)).slot.Ending?
    requires ValidRun(Step(s, Attempt(io)), es) && forall ev | ev in es :: Calm(ev, readable)
    requires Run(Step(s, Attempt(io)), es).now + GRACE < s.slot.pair.expiresAt.value
    ensures
      var a, t := s.slot.pair.access, Run(Step(s, Attempt(io)), es);
      && t.log == s.log
      && forall c | c in t.callers && c !in s.callers && t.callers[c].Returned? ::
           if readable then t.callers[c].answer == Token(a)
           else t.callers[c].answer in {Token(a), Failed(Local), Token(t.callers[c].snap.token.plain)}
  {
    var a, e, u := s.slot.pair.access, s.slot.pair.expiresAt.value, Step(s, Attempt(io));
    InitInv(start);
    RunInv(start, run);
    StepInv(s, Attempt(io));
    SettledAtEnd(s, io, readable);
    RunSettled(u, es, s.callers.Keys, a, e, readable);
  }

  // --------------------------------------------------------- reconnects win

  /** `t` came with the connect of this epoch, or with a redeem that started from its row. */
  ghost predicate OfEpoch(s: State, t: Secret, epoch: nat) {
    || (epoch < |s.connected| && s.connected[epoch].access == t)
    || exists i :: 0 <= i < |s.log| && s.log[i].reply.Granted? && s.log[i].epoch == epoch
                   && s.log[i].reply.pair.access == t
  }

  /** The access tokens the provider issued, each with the epoch it was issued for. */
  ghost function Record(s: State): iset<(Secret, nat)> {
    iset t: Secret, epoch: nat | OfEpoch(s, t, epoch) :: (t, epoch)
  }

  ghost predicate LineageIn(s: State, record: iset<(Secret, nat)>) {
    && (s.row.token.plain, s.row.epoch) in record
    && (Matches(s.pending, s.row) ==> (s.pending.value.pair.access, s.row.epoch) in record)
    && (HasRec(s.slot) ==>
          && (s.slot.rec.token.plain, s.slot.rec.epoch) in record
          && (Matches(s.pending, s.slot.rec) ==> (s.pending.value.pair.access, s.slot.rec.epoch) in record))
    && (s.slot.Persisting? ==> (s.slot.pair.access, s.slot.rec.epoch) in record)
    && (s.slot.Ending? && s.slot.out.Token? ==> (s.slot.out.secret, s.slot.epoch) in record)
  }

  /** What the step puts on record. */
  ghost predicate Recorded(s: State, e: Event, record: iset<(Secret, nat)>)
    requires Enabled(s, e)
  {
    && (e.Redeem? && e.reply.Granted? ==> (e.reply.pair.access, s.slot.rec.epoch) in record)
    && (e.Reconnect? ==> (e.pair.access, s.row.epoch + 1) in record)
  }

  lemma LineageStep(s: State, e: Event, record: iset<(Secret, nat)>)
    requires Inv(s) && LineageIn(s, record) && Enabled(s, e) && Recorded(s, e, record)
    ensures LineageIn(Step(s, e), record)
  {
    match e
    case Reconnect(p) => LineageReconnect(s, p, record);
    case Fetch(found, decrypts) => LineageFetch(s, found, decrypts, record);
    case Decide(decrypts) => LineageDecide(s, decrypts, record);
    case Redeem(reply) => LineageRedeem(s, reply, record);
    case Attempt(io) => LineageAttempt(s, io, record);
    case _ =>
  }

  lemma LineageReconnect(s: State, p: Pair, record: iset<(Secret, nat)>)
    requires Inv(s) && LineageIn(s, record) && FreshPair(p, s.issued) && (p.access, s.row.epoch + 1) in record
    ensures LineageIn(Step(s, Reconnect(p)), record)
  {}

  lemma LineageFetch(s: State, found: bool, decrypts: bool, record: iset<(Secret, nat)>)
    requires Inv(s) && LineageIn(s, record) && s.slot.Started?
    ensures LineageIn(FetchStep(s, found, decrypts), record)
  {}

  lemma LineageDecide(s: State, decrypts: bool, record: iset<(Secret, nat)>)
    requires Inv(s) && LineageIn(s, record) && s.slot.Fetched?
    ensures LineageIn(DecideStep(s, decrypts), record)
  {}

  lemma LineageRedeem(s: State, reply: Reply, record: iset<(Secret, nat)>)
    requires Inv(s) && LineageIn(s, record) && s.slot.Redeeming?
    requires reply.Granted? ==> (reply.pair.access, s.slot.rec.epoch) in record
    ensures LineageIn(RedeemStep(s, reply), record)
  {}

  lemma LineageAttempt(s: State, io: Io, record: iset<(Secret, nat)>)
    requires Inv(s) && LineageIn(s, record) && s.slot.Persisting?
    ensures LineageIn(AttemptStep(s, io), record)
  {}

  lemma RecordStep(s: State, e: Event)
    requires Enabled(s, e) && |s.connected| == s.row.epoch + 1
    ensures Record(s) <= Record(Step(s, e)) && Recorded(s, e, Record(Step(s, e)))
  {
    var u := Step(s, e);
    assert forall i | 0 <= i < |s.log| :: u.log[i] == s.log[i];
    assert forall i | 0 <= i < |s.connected| :: u.connected[i] == s.connected[i];
    forall t: Secret, epoch: nat | OfEpoch(s, t, epoch)
      ensures OfEpoch(u, t, epoch)
    {
      if i :| 0 <= i < |s.log| && s.log[i].reply.Granted? && s.log[i].epoch == epoch
              && s.log[i].reply.pair.access == t {
        assert u.log[i] == s.log[i];
      }
    }
    if e.Redeem? && e.reply.Granted? {
      assert u.log[|s.log|] == Call(s.slot.refresh, s.slot.rec.epoch, s.now, e.reply);
      assert OfEpoch(u, e.reply.pair.access, s.slot.rec.epoch);
    }
    if e.Reconnect? {
      assert OfEpoch(u, e.pair.access, s.row.epoch + 1);
    }
  }

  // ------------------------------------------------------- what a load returns

  ghost predicate CallerIn(k: Caller, tokens: iset<Secret>) {
    && k.snap.token.plain in tokens
    && ((k.Answered? || k.Returned?) && k.answer.Token? ==> k.answer.secret in tokens)
  }

  ghost predicate CallersIn(s: State, tokens: iset<Secret>) {
    forall c | c in s.callers :: CallerIn(s.callers[c], tokens)
  }

  ghost function Tokens(record: iset<(Secret, nat)>): iset<Secret> {
    iset p | p in record :: p.0
  }

  lemma CallersStep(s: State, e: Event, tokens: iset<Secret>)
    requires CallersIn(s, tokens) && Enabled(s, e)
    requires s.row.token.plain in tokens
    requires s.slot.Ending? && s.slot.out.Token? ==> s.slot.out.secret in tokens
    ensures CallersIn(Step(s, e), tokens)
  {}

  ghost predicate History(s: State) {
    Inv(s) && |s.connected| == s.row.epoch + 1 && LineageIn(s, Record(s)) && CallersIn(s, Tokens(Record(s)))
  }

  lemma InitHistory(s: State)
    requires Init(s)
    ensures History(s)
  {
    InitInv(s);
    assert OfEpoch(s, s.row.token.plain, 0);
  }

  lemma LineageTokens(s: State, record: iset<(Secret, nat)>)
    requires LineageIn(s, record)
    ensures s.row.token.plain in Tokens(record)
    ensures s.slot.Ending? && s.slot.out.Token? ==> s.slot.out.secret in Tokens(record)
  {
    assert (s.row.token.plain, s.row.epoch) in record;
    if s.slot.Ending? && s.slot.out.Token? {
      assert (s.slot.out.secret, s.slot.epoch) in record;
    }
  }

  lemma ConnectedStep(s: State, e: Event)
    requires Enabled(s, e) && |s.connected| == s.row.epoch + 1
    ensures |Step(s, e).connected| == Step(s, e).row.epoch + 1
  {}

  lemma HistoryStep(s: State, e: Event, record: iset<(Secret, nat)>)
    requires History(s) && Enabled(s, e) && Record(s) <= record && Recorded(s, e, record)
    ensures LineageIn(Step(s, e), record) && CallersIn(Step(s, e), Tokens(record))
  {
    assert LineageIn(s, record);
    LineageStep(s, e, record);
    LineageTokens(s, record);
    assert CallersIn(s, Tokens(record)) by {
      assert Tokens(Record(s)) <= Tokens(record);
    }
    CallersStep(s, e, Tokens(record));
  }

  lemma StepHistory(s: State, e: Event)
    requires History(s) && Enabled(s, e)
    ensures History(Step(s, e))
  {
    StepInv(s, e);
    RecordStep(s, e);
    ConnectedStep(s, e);
    HistoryStep(s, e, Record(Step(s, e)));
  }

  lemma {:induction false} RunHistory(s: State, es: seq<Event>)
    requires History(s) && ValidRun(s, es)
    ensures History(Run(s, es))
    decreases |es|
  {
    if es != [] {
      StepHistory(s, es[0]);
      RunHistory(Step(s, es[0]), es[1..]);
    }
  }

  /** No refresh begun before a reconnect survives it: in every reachable state the stored
      access token is the one the last reconnect stored, or came from a redeem that
      started from the row of that reconnect. */
  lemma ReconnectIsNeverOverwritten(s: State, es: seq<Event>)
    requires Init(s) && ValidRun(s, es)
    ensures var t := Run(s, es); |t.connected| == t.row.epoch + 1 && OfEpoch(t, t.row.token.plain, t.row.epoch)
  {
    InitHistory(s);
    RunHistory(s, es);
  }

  /** A load fails only when the expiry it read has passed, and what it returns otherwise
      is an access token the provider issued for this credential. */
  lemma LoadsReturnIssuedTokens(s: State, es: seq<Event>, c: nat)
    requires Init(s) && ValidRun(s, es)
    requires c in Run(s, es).callers && Run(s, es).callers[c].Returned?
    ensures
      var t := Run(s, es);
      match t.callers[c]
      case Returned(snap, Failed(_), at) => snap.expiresAt.Some? && snap.expiresAt.value <= at
      case Returned(snap, Token(a), _) => exists epoch: nat :: OfEpoch(t, a, epoch)
      case _ => false
  {
    InitHistory(s);
    RunHistory(s, es);
    var t := Run(s, es);
    assert CallerIn(t.callers[c], Tokens(Record(t)));
  }

  // --------------------------------------------- which credential a load is served from

  /** The access tokens on record for an epoch or a later one. */
  ghost function Since(record: iset<(Secret, nat)>, epoch: nat): iset<Secret> {
    iset p | p in record && p.1 >= epoch :: p.0
  }

  lemma InSince(record: iset<(Secret, nat)>, epoch: nat, t: Secret, e: nat)
    requires (t, e) in record && e >= epoch
    ensures t in Since(record, epoch)
  {
    assert (t, e).0 == t;
  }

  /** The running body works, or has worked, from a row of an earlier epoch. */
  ghost predicate Behind(s: State, epoch: nat) {
    match s.slot
    case Idle => false
    case Started => false
    case Ending(out, served) => out.Token? && served < epoch
    case _ => s.slot.rec.epoch < epoch
  }

  /** The body will return a token of this epoch or later, if it returns one. */
  ghost predicate BodyServes(s: State, epoch: nat, tokens: iset<Secret>) {
    match s.slot
    case Idle => false
    case Started => true
    case Ending(out, served) => out.Token? ==> served >= epoch && out.secret in tokens
    case _ => s.slot.rec.epoch >= epoch
  }

  ghost predicate Served(s: State, c: nat, epoch: nat, tokens: iset<Secret>)
    requires c in s.callers
  {
    && s.callers[c].snap.token.plain in tokens
    && match s.callers[c]
       case Reading(_) => false
       case Waiting(_) => BodyServes(s, epoch, tokens)
       case Answered(_, answer) => answer.Token? ==> answer.secret in tokens
       case Returned(_, answer, _) => answer.Token? ==> answer.secret in tokens
  }

  /** Every caller's row is one that was stored. */
  ghost predicate SnapsIn(s: State, record: iset<(Secret, nat)>) {
    forall c | c in s.callers ::
      (s.callers[c].snap.token.plain, s.callers[c].snap.epoch) in record && s.callers[c].snap.epoch <= s.row.epoch
  }

  lemma SnapsStep(s: State, e: Event, record: iset<(Secret, nat)>)
    requires SnapsIn(s, record) && Enabled(s, e) && (s.row.token.plain, s.row.epoch) in record
    ensures SnapsIn(Step(s, e), record)
  {
    var u := Step(s, e);
    EpochNeverGoesBack(s, e);
    forall c | c in u.callers
      ensures (u.callers[c].snap.token.plain, u.callers[c].snap.epoch) in record
              && u.callers[c].snap.epoch <= u.row.epoch
    {
      SnapStays(s, e, c);
    }
  }

  /** A caller keeps the row it read, which was the row when it came. */
  lemma SnapStays(s: State, e: Event, c: nat)
    requires Enabled(s, e) && c in Step(s, e).callers
    ensures Step(s, e).callers[c].snap == if c in s.callers then s.callers[c].snap else s.row
  {}

  lemma {:induction false} RunSnaps(s: State, es: seq<Event>)
    requires History(s) && SnapsIn(s, Record(s)) && ValidRun(s, es)
    ensures History(Run(s, es)) && SnapsIn(Run(s, es), Record(Run(s, es)))
    decreases |es|
  {
    if es != [] {
      StepHistory(s, es[0]);
      RecordStep(s, es[0]);
      SnapsStep(s, es[0], Record(s));
      RunSnaps(Step(s, es[0]), es[1..]);
    }
  }

  /** The body keeps its promise. */
  lemma BodyServesStep(s: State, e: Event, epoch: nat, record: iset<(Secret, nat)>)
    requires Inv(s) && LineageIn(s, record) && Enabled(s, e) && !e.End? && epoch <= s.row.epoch
    requires BodyServes(s, epoch, Since(record, epoch))
    ensures BodyServes(Step(s, e), epoch, Since(record, epoch))
  {
    InSince(record, epoch, s.row.token.plain, s.row.epoch);
    if HasRec(s.slot) {
      InSince(record, epoch, s.slot.rec.token.plain, s.slot.rec.epoch);
      if s.slot.Persisting? {
        InSince(record, epoch, s.slot.pair.access, s.slot.rec.epoch);
      }
    }
  }

  lemma ServedStep(s: State, e: Event, c: nat, epoch: nat, record: iset<(Secret, nat)>)
    requires Inv(s) && LineageIn(s, record) && Enabled(s, e) && epoch <= s.row.epoch
    requires c in s.callers && Served(s, c, epoch, Since(record, epoch))
    ensures c in Step(s, e).callers && Served(Step(s, e), c, epoch, Since(record, epoch))
  {
    SnapStays(s, e, c);
    if s.callers[c].Waiting? && !e.End? {
      BodyServesStep(s, e, epoch, record);
      WaitsOn(s, e, c);
    }
  }

  lemma WaitsOn(s: State, e: Event, c: nat)
    requires Enabled(s, e) && !e.End? && c in s.callers && s.callers[c].Waiting?
    ensures c in Step(s, e).callers && Step(s, e).callers[c] == s.callers[c]
  {}

  lemma {:induction false} RunServed(s: State, es: seq<Event>, c: nat, epoch: nat)
    requires History(s) && ValidRun(s, es) && epoch <= s.row.epoch
    requires c in s.callers && Served(s, c, epoch, Since(Record(s), epoch))
    ensures c in Run(s, es).callers && Served(Run(s, es), c, epoch, Since(Record(Run(s, es)), epoch))
    decreases |es|
  {
    if es != [] {
      StepHistory(s, es[0]);
      StillServed(s, es[0], c, epoch);
      RunServed(Step(s, es[0]), es[1..], c, epoch);
    }
  }

  lemma StillServed(s: State, e: Event, c: nat, epoch: nat)
    requires History(s) && Enabled(s, e) && epoch <= s.row.epoch
    requires c in s.callers && Served(s, c, epoch, Since(Record(s), epoch))
    ensures epoch <= Step(s, e).row.epoch
    ensures c in Step(s, e).callers && Served(Step(s, e), c, epoch, Since(Record(Step(s, e)), epoch))
  {
    RecordStep(s, e);
    ServedStep(s, e, c, epoch, Record(s));
    EpochNeverGoesBack(s, e);
    ServedWider(Step(s, e), c, epoch, Record(s), Record(Step(s, e)));
  }

  lemma EpochNeverGoesBack(s: State, e: Event)
    requires Enabled(s, e)
    ensures s.row.epoch <= Step(s, e).row.epoch
  {}

  lemma ServedWider(s: State, c: nat, epoch: nat, record: iset<(Secret, nat)>, more: iset<(Secret, nat)>)
    requires record <= more && c in s.callers && Served(s, c, epoch, Since(record, epoch))
    ensures Served(s, c, epoch, Since(more, epoch))
  {
    assert Since(record, epoch) <= Since(more, epoch);
  }

  /** A load that enters and is not behind is served from its own credential on. */
  lemma EnterServed(s: State, c: nat)
    requires History(s) && SnapsIn(s, Record(s)) && c in s.callers && s.callers[c].Reading?
    requires Due(s.callers[c].snap.expiresAt, s.now) ==> !Behind(s, s.callers[c].snap.epoch)
    ensures
      var epoch, u := s.callers[c].snap.epoch, Step(s, Enter(c));
      epoch <= u.row.epoch && Served(u, c, epoch, Since(Record(u), epoch))
  {
    var snap, u := s.callers[c].snap, Step(s, Enter(c));
    assert u.log == s.log && u.connected == s.connected;
    assert forall t: Secret, e: nat :: OfEpoch(u, t, e) <==> OfEpoch(s, t, e);
    assert Record(u) == Record(s);
    InSince(Record(u), snap.epoch, snap.token.plain, snap.epoch);
  }

  /** After entering, the load can come to return a token of an earlier credential than the one it
      read. */
  ghost predicate GetsOldToken(s: State, c: nat, es: seq<Event>)
    requires c in s.callers && s.callers[c].Reading?
  {
    var u := Step(s, Enter(c));
    && ValidRun(u, es)
    && var t := Run(u, es);
       && c in t.callers && t.callers[c].Returned? && t.callers[c].answer.Token?
       && t.callers[c].answer.secret !in Since(Record(t), s.callers[c].snap.epoch)
  }

  lemma NotBehindIsServed(s: State, c: nat, es: seq<Event>)
    requires History(s) && SnapsIn(s, Record(s)) && c in s.callers && s.callers[c].Reading?
    requires Due(s.callers[c].snap.expiresAt, s.now) ==> !Behind(s, s.callers[c].snap.epoch)
    ensures !GetsOldToken(s, c, es)
  {
    var u := Step(s, Enter(c));
    if ValidRun(u, es) {
      StepHistory(s, Enter(c));
      EnterServed(s, c);
      RunServed(u, es, c, s.callers[c].snap.epoch);
    }
  }

  /** The provider issues no access token for two epochs. */
  ghost predicate OneEpochEach(s: State) {
    && (forall t: Secret, e: nat | OfEpoch(s, t, e) :: t in s.issued)
    && (forall t: Secret, e: nat, f: nat | OfEpoch(s, t, e) && OfEpoch(s, t, f) :: e == f)
  }

  /** What a step puts on record, and nothing else. */
  ghost predicate JustIssued(s: State, ev: Event, t: Secret, e: nat)
    requires Enabled(s, ev)
  {
    || (ev.Redeem? && ev.reply.Granted? && t == ev.reply.pair.access && e == s.slot.rec.epoch)
    || (ev.Reconnect? && t == ev.pair.access && e == |s.connected|)
  }

  lemma OnRecordStep(s: State, ev: Event, t: Secret, e: nat)
    requires Enabled(s, ev) && OfEpoch(Step(s, ev), t, e)
    ensures OfEpoch(s, t, e) || JustIssued(s, ev, t, e)
  {
    var u := Step(s, ev);
    if i :| 0 <= i < |u.log| && u.log[i].reply.Granted? && u.log[i].epoch == e && u.log[i].reply.pair.access == t {
      if i < |s.log| {
        assert u.log[i] == s.log[i];
      }
    }
  }

  lemma OneEpochStep(s: State, ev: Event)
    requires OneEpochEach(s) && Enabled(s, ev)
    ensures OneEpochEach(Step(s, ev))
  {
    var u := Step(s, ev);
    assert s.issued <= u.issued;
    forall t: Secret, e: nat | OfEpoch(u, t, e)
      ensures t in u.issued && (OfEpoch(s, t, e) || JustIssued(s, ev, t, e))
    {
      OnRecordStep(s, ev, t, e);
    }
  }

  lemma {:induction false} RunOneEpoch(s: State, es: seq<Event>)
    requires OneEpochEach(s) && ValidRun(s, es)
    ensures OneEpochEach(Run(s, es))
    decreases |es|
  {
    if es != [] {
      OneEpochStep(s, es[0]);
      RunOneEpoch(Step(s, es[0]), es[1..]);
    }
  }

  lemma NotSince(s: State, t: Secret, e: nat, epoch: nat)
    requires OneEpochEach(s) && (t, e) in Record(s) && e < epoch
    ensures t !in Since(Record(s), epoch)
  {}

  /** The next step that takes a body behind to its end with a token. */
  function Onward(s: State, n: Secret): Event {
    match s.slot
    case Fetched(_) => Decide(true)
    case Redeeming(_, _, _) => Redeem(Granted(Pair(n, None, None)))
    case _ => Attempt(Saves)
  }

  lemma BehindStep(s: State, n: Secret, epoch: nat)
    requires Inv(s) && HasRec(s.slot) && Behind(s, epoch) && epoch <= s.row.epoch && n !in s.issued
    ensures Enabled(s, Onward(s, n)) && Behind(Step(s, Onward(s, n)), epoch)
    ensures Step(s, Onward(s, n)).callers == s.callers && Step(s, Onward(s, n)).row == s.row
  {}

  lemma BehindEnds(s: State, c: nat, epoch: nat) returns (es: seq<Event>)
    requires History(s) && OneEpochEach(s) && Behind(s, epoch) && epoch <= s.row.epoch
    requires c in s.callers && s.callers[c].Waiting?
    ensures ValidRun(s, es)
    ensures
      var t := Run(s, es);
      && c in t.callers && t.callers[c].Returned? && t.callers[c].answer.Token?
      && t.callers[c].answer.secret !in Since(Record(t), epoch)
    decreases
      match s.slot
      case Ending(_, _) => 0
      case Persisting(_, _, _, _) => 1
      case Redeeming(_, _, _) => 2
      case _ => 3
  {
    if s.slot.Ending? {
      NotSince(s, s.slot.out.secret, s.slot.epoch, epoch);
      es := EndsWithToken(s, c);
    } else {
      var n := FreshNat(s.issued);
      var e := Onward(s, n);
      BehindStep(s, n, epoch);
      StepHistory(s, e);
      OneEpochStep(s, e);
      es := BehindEnds(Step(s, e), c, epoch);
      RunCons(s, e, es);
      es := [e] + es;
    }
  }

  lemma EndsWithToken(s: State, c: nat) returns (es: seq<Event>)
    requires s.slot.Ending? && s.slot.out.Token? && c in s.callers && s.callers[c].Waiting?
    ensures ValidRun(s, es)
    ensures
      var t := Run(s, es);
      && c in t.callers && t.callers[c].Returned? && t.callers[c].answer == s.slot.out
      && Record(t) == Record(s)
  {
    var s1 := Step(s, End);
    var s2 := Step(s1, Return(c, true));
    RunCons(s1, Return(c, true), []);
    RunCons(s, End, [Return(c, true)] + []);
    es := [End] + ([Return(c, true)] + []);
    assert s2.log == s.log && s2.connected == s.connected;
    assert forall t: Secret, e: nat :: OfEpoch(s2, t, e) <==> OfEpoch(s, t, e);
  }

  lemma BehindGetsOldToken(s: State, c: nat) returns (es: seq<Event>)
    requires History(s) && OneEpochEach(s) && SnapsIn(s, Record(s)) && c in s.callers && s.callers[c].Reading?
    requires Due(s.callers[c].snap.expiresAt, s.now) && Behind(s, s.callers[c].snap.epoch)
    ensures GetsOldToken(s, c, es)
  {
    var u := Step(s, Enter(c));
    StepHistory(s, Enter(c));
    OneEpochStep(s, Enter(c));
    assert u.log == s.log && u.connected == s.connected;
    assert forall t: Secret, e: nat :: OfEpoch(u, t, e) <==> OfEpoch(s, t, e);
    assert Record(u) == Record(s);
    es := BehindEnds(u, c, s.callers[c].snap.epoch);
  }

  /** In every reachable state, a load about to enter can come to return the token of a credential
      older than the one it read if and only if its own is due and the running body read an older
      row. */
  lemma LoadGetsOldTokenIffBehind(start: State, run: seq<Event>, c: nat)
    requires Init(start) && ValidRun(start, run)
    requires c in Run(start, run).callers && Run(start, run).callers[c].Reading?
    ensures
      var s := Run(start, run);
      var snap := s.callers[c].snap;
      Due(snap.expiresAt, s.now) && Behind(s, snap.epoch) <==> exists es :: GetsOldToken(s, c, es)
  {
    InitHistory(start);
    RunSnaps(start, run);
    RunOneEpoch(start, run);
    var s := Run(start, run);
    if Due(s.callers[c].snap.expiresAt, s.now) && Behind(s, s.callers[c].snap.epoch) {
      var es := BehindGetsOldToken(s, c);
    } else {
      forall es ensures !GetsOldToken(s, c, es) {
        NotBehindIsServed(s, c, es);
      }
    }
  }

  /** A load begun after a reconnect that joins such a body can get the replaced credential's
      token: a concrete run. */
  lemma LoadBehindExample() returns (s: State, es: seq<Event>)
    ensures Init(s) && ValidRun(s, es)
    ensures
      var t := Run(s, es);
      && 1 in t.callers && t.callers[1].Returned? && t.callers[1].snap.epoch == 1
      && t.callers[1].answer.Token? && forall e: nat | e >= 1 :: !OfEpoch(t, t.callers[1].answer.secret, e)
  {
    s := State(0, Row(Cipher(0, 10), None, Some(0), false, 0), None, Idle, map[], 2,
               {10}, {}, [], [Pair(10, None, Some(0))]);
    var p := Pair(14, None, None);
    var s1 := Step(s, Read(0));
    var s2 := Step(s1, Enter(0));
    var s3 := Step(s2, Fetch(true, true));
    var s4 := Step(s3, Reconnect(p));
    assert s4.slot == Fetched(s.row) && s4.row.epoch == 1 && s4.connected == [s.connected[0], p] && s4.log == [];
    es := JoinsFetched(s4);
    RunCons(s3, Reconnect(p), es);
    RunCons(s2, Fetch(true, true), [Reconnect(p)] + es);
    RunCons(s1, Enter(0), [Fetch(true, true)] + ([Reconnect(p)] + es));
    es := [Enter(0)] + ([Fetch(true, true)] + ([Reconnect(p)] + es));
    RunCons(s, Read(0), es);
    es := [Read(0)] + es;
  }

  /** A body that found no refresh token hands its row's token to a load that joins it now. */
  lemma JoinsFetched(s: State) returns (es: seq<Event>)
    requires s.slot.Fetched? && s.slot.rec.refresh.None? && s.pending.None?
    requires 1 !in s.callers && Due(s.row.expiresAt, s.now)
    ensures ValidRun(s, es)
    ensures
      var t := Run(s, es);
      && t.connected == s.connected && t.log == s.log
      && 1 in t.callers && t.callers[1] == Returned(s.row, Token(s.slot.rec.token.plain), s.now)
  {
    var s1 := Step(s, Read(1));
    var s2 := Step(s1, Enter(1));
    var s3 := Step(s2, Decide(true));
    var s4 := Step(s3, End);
    var s5 := Step(s4, Return(1, true));
    RunCons(s4, Return(1, true), []);
    RunCons(s3, End, [Return(1, true)] + []);
    es := [End] + ([Return(1, true)] + []);
    RunCons(s2, Decide(true), es);
    RunCons(s1, Enter(1), [Decide(true)] + es);
    es := [Enter(1)] + ([Decide(true)] + es);
    RunCons(s, Read(1), es);
    es := [Read(1)] + es;
  }

  // ----------------------------------------------------- a stale pending pair

  /** Once the row has moved on from an identity it never comes back to it. */
  lemma {:induction false} StaleIdentityStaysStale(s: State, es: seq<Event>, base: Identity)
    requires Inv(s) && ValidRun(s, es) && base.token.nonce < s.nonce && base.token != s.row.token
    ensures base != IdentityOf(Run(s, es).row)
    decreases |es|
  {
    if es != [] {
      StepInv(s, es[0]);
      StaleStep(s, es[0], base);
      StaleIdentityStaysStale(Step(s, es[0]), es[1..], base);
    }
  }

  lemma StaleStep(s: State, e: Event, base: Identity)
    requires Enabled(s, e) && base.token.nonce < s.nonce && base.token != s.row.token
    ensures base.token.nonce < Step(s, e).nonce && base.token != Step(s, e).row.token
  {}

  /** Once the row has moved on, no attempt of any run stores a pair redeemed from the row it
      replaced. */
  lemma StalePairIsNeverStored(start: State, run: seq<Event>, s: State, es: seq<Event>, base: Identity, io: Io)
    requires Init(start) && ValidRun(start, run) && s == Run(start, run)
    requires ValidRun(s, es) && base.token.nonce < s.nonce && base.token != s.row.token
    requires Run(s, es).slot.Persisting? && IdentityOf(Run(s, es).slot.rec) == base
    ensures Step(Run(s, es), Attempt(io)).row == Run(s, es).row
  {
    InitInv(start);
    RunInv(start, run);
    StaleIdentityStaysStale(s, es, base);
  }

  /** The body uses the pair: redeems its refresh token, or hands out its access token while it
      tries to save it again. */
  ghost predicate Uses(s: State, p: Pending) {
    || (s.slot.Redeeming? && s.slot.held == Some(p))
    || (s.slot.Persisting? && s.slot.retry && s.slot.pair == p.pair && IdentityOf(s.slot.rec) == p.base)
  }

  /** A body looking at the pending pair keeps it exactly when it belongs to the row the body has
      read, whatever the row is now, and uses it unless there is nothing left in it to use. */
  lemma DecideKeepsPairIffItMatches(s: State, p: Pending, decrypts: bool)
    requires Inv(s) && s.slot.Fetched? && s.pending == Some(p)
    ensures Step(s, Decide(decrypts)).pending == if IdentityOf(s.slot.rec) == p.base then Some(p) else None
    ensures Uses(Step(s, Decide(decrypts)), p) <==>
            && IdentityOf(s.slot.rec) == p.base
            && (Usable(p.pair, s.now) || (decrypts && p.pair.refresh.Some?))
  {}

  /** A body under way has read the row the pair belongs to, and can still use it or does. */
  ghost predicate InFlight(s: State, p: Pending) {
    match s.slot
    case Fetched(rec) => IdentityOf(rec) == p.base && (Usable(p.pair, s.now) || p.pair.refresh.Some?)
    case Redeeming(_, _, _) => true
    case Persisting(_, _, _, retry) => retry
    case _ => false
  }

  /** The row has moved on from the pair and no body can take it up any more. */
  ghost predicate PastUse(s: State, p: Pending) {
    && p.base.token.nonce < s.nonce
    && p.base.token != s.row.token
    && match s.slot
       case Fetched(rec) =>
         IdentityOf(rec) == p.base ==> s.pending == Some(p) && !Usable(p.pair, s.now) && p.pair.refresh.None?
       case _ => !Uses(s, p)
  }

  lemma PastUseStep(s: State, e: Event, p: Pending)
    requires Inv(s) && PastUse(s, p) && Enabled(s, e)
    ensures PastUse(Step(s, e), p)
  {
    if e.Decide? {
      PastUseDecide(s, e.decrypts, p);
    }
  }

  lemma PastUseDecide(s: State, decrypts: bool, p: Pending)
    requires Inv(s) && PastUse(s, p) && s.slot.Fetched?
    ensures PastUse(DecideStep(s, decrypts), p)
  {}

  lemma {:induction false} PastUseStays(s: State, es: seq<Event>, p: Pending)
    requires Inv(s) && PastUse(s, p) && ValidRun(s, es)
    ensures !Uses(Run(s, es), p)
    decreases |es|
  {
    if es != [] {
      StepInv(s, es[0]);
      PastUseStep(s, es[0], p);
      PastUseStays(Step(s, es[0]), es[1..], p);
    }
  }

  ghost predicate UsesAfter(s: State, es: seq<Event>, p: Pending) {
    ValidRun(s, es) && Uses(Run(s, es), p)
  }

  /** Once the row has moved on, some run still uses the pending pair if and only if a body under
      way read the row before that. */
  lemma StalePairIsUsedIffInFlight(start: State, run: seq<Event>, s: State, p: Pending)
    requires Init(start) && ValidRun(start, run) && s == Run(start, run)
    requires s.pending == Some(p) && !Matches(s.pending, s.row)
    ensures InFlight(s, p) <==> exists es :: UsesAfter(s, es, p)
  {
    InitInv(start);
    RunInv(start, run);
    if InFlight(s, p) {
      if s.slot.Fetched? {
        DecideKeepsPairIffItMatches(s, p, true);
        assert [Decide(true)][1..] == [];
        assert UsesAfter(s, [Decide(true)], p);
      } else {
        assert UsesAfter(s, [], p);
      }
    } else {
      forall es | ValidRun(s, es)
        ensures !Uses(Run(s, es), p)
      {
        PastUseStays(s, es, p);
      }
    }
  }

  /** A concrete run that redeems a pending pair of a row already replaced: the reconnect lands
      between the body's read of the row and its look at the pending pair. */
  lemma StalePairExample() returns (s: State, es: seq<Event>)
    ensures Init(s) && ValidRun(s, es)
    ensures
      var t := Run(s, es);
      t.slot.Redeeming? && t.pending.Some? && t.slot.held == t.pending && !Matches(t.pending, t.row)
  {
    s := State(0, Row(Cipher(0, 10), Some(Cipher(1, 11)), Some(0), false, 0), None, Idle, map[], 2,
               {10, 11}, {}, [], [Pair(10, Some(11), Some(0))]);
    var pair := Pair(12, Some(13), Some(1));
    var first := PairLeftPending(s, pair);
    var next := ReplacedWhileFetched(Run(s, first));
    RunConcat(s, first, next);
    es := first + next;
  }

  /** A refresh whose redeem succeeds and whose save fails for good leaves the pair pending. */
  lemma PairLeftPending(s: State, pair: Pair) returns (es: seq<Event>)
    requires s.slot.Idle? && Due(s.row.expiresAt, s.now) && s.pending.None? && s.row.refresh.Some?
    requires 0 !in s.callers && FreshPair(pair, s.issued)
    ensures ValidRun(s, es)
    ensures
      var t := Run(s, es);
      && t.slot.Idle? && t.row == s.row && t.nonce == s.nonce && t.now == s.now
      && t.pending == Some(Pending(pair, IdentityOf(s.row)))
      && t.issued == s.issued + PairSecrets(pair) && t.callers.Keys == s.callers.Keys + {0}
  {
    var s1 := Step(s, Read(0));
    var s2 := Step(s1, Enter(0));
    var s3 := Step(s2, Fetch(true, true));
    var s4 := Step(s3, Decide(true));
    assert s4.slot == Redeeming(s.row.refresh.value.plain, s.row, None) && s4.issued == s.issued;
    es := PairNotSaved(s4, pair);
    RunCons(s3, Decide(true), es);
    RunCons(s2, Fetch(true, true), [Decide(true)] + es);
    RunCons(s1, Enter(0), [Fetch(true, true)] + ([Decide(true)] + es));
    es := [Enter(0)] + ([Fetch(true, true)] + ([Decide(true)] + es));
    RunCons(s, Read(0), es);
    es := [Read(0)] + es;
  }

  lemma PairNotSaved(s: State, pair: Pair) returns (es: seq<Event>)
    requires s.slot.Redeeming? && s.slot.held.None? && IdentityOf(s.slot.rec) == IdentityOf(s.row)
    requires FreshPair(pair, s.issued)
    ensures ValidRun(s, es)
    ensures
      var t := Run(s, es);
      && t.slot.Idle? && t.row == s.row && t.nonce == s.nonce && t.now == s.now
      && t.pending == Some(Pending(pair, IdentityOf(s.row)))
      && t.issued == s.issued + PairSecrets(pair) && t.callers.Keys == s.callers.Keys
  {
    var s1 := Step(s, Redeem(Granted(pair)));
    var s2 := Step(s1, Attempt(EncryptFails));
    var s3 := Step(s2, End);
    RunCons(s2, End, []);
    RunCons(s1, Attempt(EncryptFails), [End] + []);
    es := [Attempt(EncryptFails)] + ([End] + []);
    RunCons(s, Redeem(Granted(pair)), es);
    es := [Redeem(Granted(pair))] + es;
  }

  /** From a row with a pending pair that is due again, a reconnect can come too late for the body
      to notice. */
  lemma ReplacedWhileFetched(s: State) returns (es: seq<Event>)
    requires s.slot.Idle? && Due(s.row.expiresAt, s.now) && Matches(s.pending, s.row)
    requires !Usable(s.pending.value.pair, s.now) && s.pending.value.pair.refresh.Some?
    requires 1 !in s.callers && 14 !in s.issued && s.row.token.nonce < s.nonce
    ensures ValidRun(s, es)
    ensures
      var t := Run(s, es);
      t.slot.Redeeming? && t.pending == s.pending && t.slot.held == t.pending && !Matches(t.pending, t.row)
  {
    var p := Pair(14, None, None);
    var s1 := Step(s, Read(1));
    var s2 := Step(s1, Enter(1));
    var s3 := Step(s2, Fetch(true, true));
    var s4 := Step(s3, Reconnect(p));
    var s5 := Step(s4, Decide(true));
    RunCons(s4, Decide(true), []);
    RunCons(s3, Reconnect(p), [Decide(true)] + []);
    es := [Reconnect(p)] + ([Decide(true)] + []);
    RunCons(s2, Fetch(true, true), es);
    RunCons(s1, Enter(1), [Fetch(true, true)] + es);
    es := [Enter(1)] + ([Fetch(true, true)] + es);
    RunCons(s, Read(1), es);
    es := [Read(1)] + es;
  }

  lemma {:induction false} RunInv(s: State, es: seq<Event>)
    requires Inv(s) && ValidRun(s, es)
    ensures Inv(Run(s, es))
    decreases |es|
  {
    if es != [] {
      StepInv(s, es[0]);
      RunInv(Step(s, es[0]), es[1..]);
    }
  }
}
