/** What every run of the refresh protocol keeps. */
module OAuthSafety {
  import opened Prelude
  import opened OAuthProtocol

  /** The same stored credential; the recorded error text is not part of it. */
  ghost predicate SameCredential(a: Row, b: Row) {
    a.(refreshError := b.refreshError) == b
  }

  ghost predicate RowIssued(r: Row, issued: set<Secret>) {
    r.token.plain in issued && (r.refresh.Some? ==> r.refresh.value.plain in issued)
  }

  /** A row read at some point: an older one never shares its ciphertext with the row now. */
  ghost predicate RecOk(s: State, rec: Row) {
    && rec.token.nonce < s.nonce
    && rec.epoch <= s.row.epoch
    && RowIssued(rec, s.issued)
    && (rec.token == s.row.token ==> SameCredential(rec, s.row))
    && (rec.epoch == s.row.epoch ==> SameCredential(rec, s.row))
    && (Matches(s.pending, s.row) ==> rec.token == s.row.token)
    && Due(rec.expiresAt, s.now)
  }

  /** A pair not yet persisted carries a refresh token the row does not hold. */
  ghost predicate NotStored(p: Pair, r: Row) {
    p.refresh.Some? ==> p.refresh != Plain(r.refresh)
  }

  ghost predicate PendingOk(s: State) {
    s.pending.Some? ==>
      && s.pending.value.base.token.nonce < s.nonce
      && PairSecrets(s.pending.value.pair) <= s.issued
      && (s.pending.value.base.token == s.row.token ==> Matches(s.pending, s.row))
      && NotStored(s.pending.value.pair, s.row)
  }

  ghost predicate SlotOk(s: State) {
    && (HasRec(s.slot) ==> RecOk(s, s.slot.rec))
    && (!s.slot.Idle? || s.log != [] ==> s.row.expiresAt.Some?)
    && match s.slot
       case Redeeming(refresh, rec, held) =>
         && s.pending == held
         && (held.Some? ==> Matches(held, rec) && !Usable(held.value.pair, s.now))
         && Some(refresh) == if held.Some? then held.value.pair.refresh else Plain(rec.refresh)
       case Persisting(rec, pair, attempt, retry) =>
         && attempt <= RETRIES
         && PairSecrets(pair) <= s.issued
         && NotStored(pair, s.row)
         && if retry then s.pending == Some(Pending(pair, IdentityOf(rec)))
            else s.pending.Some? ==> Matches(s.pending, rec) && !Usable(s.pending.value.pair, s.now)
       case Ending(out, _) => out.Token? ==> out.secret in s.issued
       case _ => true
  }

  ghost predicate CallerOk(s: State, k: Caller) {
    && k.snap.token.plain in s.issued
    && (k.snap.expiresAt.Some? ==> s.row.expiresAt.Some?)
    && (k.Waiting? || k.Answered? ==> k.snap.expiresAt.Some?)
    && ((k.Answered? || k.Returned?) && k.answer.Token? ==> k.answer.secret in s.issued)
    && (k.Returned? && k.answer.Failed? ==> k.snap.expiresAt.Some? && k.snap.expiresAt.value <= k.at)
  }

  ghost predicate Inv(s: State) {
    && s.row.token.nonce < s.nonce
    && RowIssued(s.row, s.issued)
    && PendingOk(s)
    && SlotOk(s)
    && (forall c | c in s.callers :: CallerOk(s, s.callers[c]))
  }

  lemma InitInv(s: State)
    requires Init(s)
    ensures Inv(s)
  {}

  lemma FinishedInv(s: State, out: Outcome)
    requires Inv(s.(slot := Idle)) && s.row.expiresAt.Some?
    requires out.Token? ==> out.secret in s.issued
    ensures Inv(Finished(s, out))
  {}

  lemma TickInv(s: State, d: nat)
    requires Inv(s)
    ensures Inv(Step(s, Tick(d)))
  {}

  lemma ReconnectInv(s: State, p: Pair)
    requires Inv(s) && FreshPair(p, s.issued)
    ensures Inv(Step(s, Reconnect(p)))
  {}

  lemma CallerInv(s: State, c: nat, k: Caller)
    requires Inv(s) && CallerOk(s, k)
    ensures Inv(s.(callers := s.callers[c := k]))
  {}

  lemma StartedInv(s: State)
    requires Inv(s) && s.slot.Idle? && s.row.expiresAt.Some?
    ensures Inv(s.(slot := Started))
  {}

  lemma EnterInv(s: State, c: nat)
    requires Inv(s) && c in s.callers && s.callers[c].Reading?
    ensures Inv(Step(s, Enter(c)))
  {
    var snap := s.callers[c].snap;
    assert CallerOk(s, s.callers[c]);
    if !Due(snap.expiresAt, s.now) {
      CallerInv(s, c, Returned(snap, Token(snap.token.plain), s.now));
    } else {
      CallerInv(s, c, Waiting(snap));
      if s.slot.Idle? {
        StartedInv(s.(callers := s.callers[c := Waiting(snap)]));
      }
    }
  }

  lemma EndInv(s: State)
    requires Inv(s) && s.slot.Ending?
    ensures Inv(Step(s, End))
  {}

  lemma ErrorNotedInv(s: State)
    requires Inv(s)
    ensures Inv(s.(row := s.row.(refreshError := true)))
  {}

  lemma ReturnInv(s: State, c: nat, saved: bool)
    requires Inv(s) && c in s.callers && s.callers[c].Answered?
    ensures Inv(Step(s, Return(c, saved)))
  {
    var Answered(snap, answer) := s.callers[c];
    assert CallerOk(s, s.callers[c]);
    var answer' := if answer.Failed? && s.now < snap.expiresAt.value then Token(snap.token.plain) else answer;
    CallerInv(s, c, Returned(snap, answer', s.now));
    ErrorNotedInv(s.(callers := s.callers[c := Returned(snap, answer', s.now)]));
  }

  lemma FetchInv(s: State, found: bool, decrypts: bool)
    requires Inv(s) && s.slot.Started?
    ensures Inv(Step(s, Fetch(found, decrypts)))
  {
    if !found {
      FinishedInv(s, Failed(Local));
    } else if !Due(s.row.expiresAt, s.now) {
      FinishedInv(s, if decrypts then Token(s.row.token.plain) else Failed(Local));
    }
  }

  lemma DecideInv(s: State, decrypts: bool)
    requires Inv(s) && s.slot.Fetched?
    ensures Inv(Step(s, Decide(decrypts)))
  {
    var rec := s.slot.rec;
    var held := if Matches(s.pending, rec) then s.pending else None;
    FinishedInv(s.(pending := held), Failed(Local));
    FinishedInv(s.(pending := held), Token(rec.token.plain));
  }

  lemma RedeemInv(s: State, reply: Reply)
    requires Inv(s) && Enabled(s, Redeem(reply))
    ensures Inv(Step(s, Redeem(reply)))
  {
    if reply.Denied? {
      FinishedInv(s.(log := s.log + [Call(s.slot.refresh, s.slot.rec.epoch, s.now, reply)]), Failed(reply.why));
    }
  }

  lemma PersistedInv(s: State)
    requires Inv(s) && s.slot.Persisting?
    ensures Inv(Persisted(s))
  {
    FinishedInv(s.(pending := None), Token(s.slot.pair.access));
  }

  lemma SavedInv(s: State)
    requires Inv(s) && s.slot.Persisting? && IdentityOf(s.slot.rec) == IdentityOf(s.row)
    ensures Inv(Persisted(s.(row := Applied(s.row, s.slot.pair, s.nonce), nonce := s.nonce + 2)))
  {
    FinishedInv(s.(row := Applied(s.row, s.slot.pair, s.nonce), nonce := s.nonce + 2, pending := None),
                Token(s.slot.pair.access));
  }

  lemma GiveUpInv(s: State)
    requires Inv(s) && s.slot.Persisting?
    ensures Inv(GiveUp(s))
  {
    var Persisting(rec, pair, _, retry) := s.slot;
    FinishedInv(if retry then s else s.(pending := Some(Pending(pair, IdentityOf(rec)))), Token(pair.access));
  }

  lemma AttemptInv(s: State, io: Io)
    requires Inv(s) && s.slot.Persisting?
    ensures Inv(Step(s, Attempt(io)))
  {
    PersistedInv(s);
    GiveUpInv(s);
    if IdentityOf(s.slot.rec) == IdentityOf(s.row) {
      SavedInv(s);
    }
  }

  lemma StepInv(s: State, e: Event)
    requires Inv(s) && Enabled(s, e)
    ensures Inv(Step(s, e))
  {
    match e
    case Tick(d) => TickInv(s, d);
    case Reconnect(p) => ReconnectInv(s, p);
    case Fetch(found, decrypts) => FetchInv(s, found, decrypts);
    case Decide(decrypts) => DecideInv(s, decrypts);
    case Redeem(reply) => RedeemInv(s, reply);
    case Attempt(io) => AttemptInv(s, io);
    case Read(c) => CallerInv(s, c, Reading(s.row));
    case Enter(c) => EnterInv(s, c);
    case End => EndInv(s);
    case Return(c, saved) => ReturnInv(s, c, saved);
  }
}
