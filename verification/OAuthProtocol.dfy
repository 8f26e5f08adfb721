/** The refresh protocol of one stored OAuth credential, as a state machine.

    One `repository_keys` row holds an encrypted access token, an encrypted
    refresh token and an expiry. Any number of callers load it; a load that finds
    the token due enters a single-flight group, whose only running body re-reads
    the row, maybe redeems a refresh token at the provider, and tries to persist
    the new pair. A pair that could not be saved is kept in `pending`, with the
    identity of the row it replaces. Manual reconnects and the clock interleave
    freely with all of it.

    Every atomic section of the code is one event; `Step` is what it does. */
module OAuthProtocol {
  import opened Prelude

  type Instant = int

  /** A token string the provider issued; the provider never issues one twice. */
  type Secret = nat

  /** `refreshGraceWindow`, in nanoseconds. */
  const GRACE: int := 15 * 60 * 1_000_000_000

  /** `len(persistRetryDelays)`: a persist makes one attempt more than this. */
  const RETRIES: nat := 3

  /** An AES-GCM ciphertext: the nonce tells two encryptions of one plaintext apart. */
  datatype Cipher = Cipher(nonce: nat, plain: Secret)

  /** What the provider answers to an exchange or a redeem. */
  datatype Pair = Pair(access: Secret, refresh: Option<Secret>, expiresAt: Option<Instant>)

  /** The stored credential; `epoch` counts the manual reconnects it has seen. */
  datatype Row = Row(token: Cipher, refresh: Option<Cipher>, expiresAt: Option<Instant>,
                     refreshError: bool, epoch: nat)

  datatype Identity = Identity(expiresAt: Option<Instant>, token: Cipher)

  function IdentityOf(r: Row): Identity {
    Identity(r.expiresAt, r.token)
  }

  datatype Pending = Pending(pair: Pair, base: Identity)

  datatype Failure = Local | Rejected | Transport

  datatype Outcome = Token(secret: Secret) | Failed(why: Failure)

  /** Where the single-flight body stands between two atomic sections. */
  datatype Slot =
    | Idle
    | Started
    | Fetched(rec: Row)
    | Redeeming(refresh: Secret, rec: Row, held: Option<Pending>)
    | Persisting(rec: Row, pair: Pair, attempt: nat, retry: bool)
    | Ending(out: Outcome, epoch: nat) // the epoch of the row the body worked from

  /** One load. `snap` is the row as this caller read it. */
  datatype Caller =
    | Reading(snap: Row)
    | Waiting(snap: Row)
    | Answered(snap: Row, answer: Outcome)
    | Returned(snap: Row, answer: Outcome, at: Instant)

  datatype Reply = Denied(why: Failure) | Granted(pair: Pair)

  /** One call of the provider's `RefreshToken`, with the epoch of the row it started from. */
  datatype Call = Call(refresh: Secret, epoch: nat, at: Instant, reply: Reply)

  /** What one find/match/save attempt met. */
  datatype Io = NotFound | EncryptFails | SaveFails | Saves

  datatype State = State(
    now: Instant,
    row: Row,
    pending: Option<Pending>,
    slot: Slot,
    callers: map<nat, Caller>,
    nonce: nat,          // the next unused nonce
    issued: set<Secret>, // every token the provider ever issued
    spent: set<Secret>,  // refresh tokens consumed by a redeem that rotated
    log: seq<Call>,
    connected: seq<Pair>) // the pairs stored by the connect and every reconnect, oldest first

  datatype Event =
    | Tick(d: nat)
    | Reconnect(pair: Pair)
    | Read(c: nat)
    | Enter(c: nat)
    | Fetch(found: bool, decrypts: bool)
    | Decide(decrypts: bool)
    | Redeem(reply: Reply)
    | Attempt(io: Io)
    | End
    | Return(c: nat, saved: bool)

  /** Expired, or inside the grace window; a row without an expiry never is. */
  predicate Due(expiresAt: Option<Instant>, now: Instant) {
    expiresAt.Some? && expiresAt.value <= now + GRACE
  }

  /** The pending pair counts as good when it has no expiry or one beyond the grace window. */
  predicate Usable(p: Pair, now: Instant) {
    !Due(p.expiresAt, now)
  }

  predicate HasRec(slot: Slot) {
    slot.Fetched? || slot.Redeeming? || slot.Persisting?
  }

  predicate Matches(p: Option<Pending>, r: Row) {
    p.Some? && p.value.base == IdentityOf(r)
  }

  function Plain(c: Option<Cipher>): Option<Secret> {
    if c.Some? then Some(c.value.plain) else None
  }

  predicate FreshPair(p: Pair, issued: set<Secret>) {
    && p.access !in issued
    && (p.refresh.Some? ==> p.refresh.value !in issued && p.refresh.value != p.access)
  }

  function PairSecrets(p: Pair): set<Secret> {
    {p.access} + if p.refresh.Some? then {p.refresh.value} else {}
  }

  /** Writes a pair onto the row: the refresh token and the expiry only when the reply carries them. */
  function Applied(row: Row, p: Pair, nonce: nat): Row {
    Row(Cipher(nonce, p.access),
        if p.refresh.Some? then Some(Cipher(nonce + 1, p.refresh.value)) else row.refresh,
        if p.expiresAt.Some? then p.expiresAt else row.expiresAt,
        false,
        row.epoch)
  }

  /** The body is about to return `out`; callers still join it. */
  function Finished(s: State, out: Outcome): State {
    s.(slot := Ending(out, if HasRec(s.slot) then s.slot.rec.epoch else s.row.epoch))
  }

  /** The body returns: every caller that joined gets its result. */
  function Delivered(s: State, out: Outcome): State {
    s.(slot := Idle,
       callers := map c | c in s.callers :: if s.callers[c].Waiting? then Answered(s.callers[c].snap, out)
                                            else s.callers[c])
  }

  predicate Enabled(s: State, e: Event) {
    match e
    case Tick(_) => true
    case Reconnect(p) => FreshPair(p, s.issued)
    case Read(c) => c !in s.callers
    case Enter(c) => c in s.callers && s.callers[c].Reading?
    case Fetch(_, _) => s.slot.Started?
    case Decide(_) => s.slot.Fetched?
    case Redeem(reply) => s.slot.Redeeming? && (reply.Granted? ==> FreshPair(reply.pair, s.issued))
    case Attempt(_) => s.slot.Persisting?
    case End => s.slot.Ending?
    case Return(c, _) => c in s.callers && s.callers[c].Answered?
  }

  function Step(s: State, e: Event): State
    requires Enabled(s, e)
  {
    match e
    case Tick(d) => s.(now := s.now + d)
    case Reconnect(p) =>
      s.(row := Applied(s.row, p, s.nonce).(epoch := s.row.epoch + 1), nonce := s.nonce + 2,
         issued := s.issued + PairSecrets(p), connected := s.connected + [p])
    case Read(c) => s.(callers := s.callers[c := Reading(s.row)])
    case Enter(c) => EnterStep(s, c)
    case Fetch(found, decrypts) => FetchStep(s, found, decrypts)
    case Decide(decrypts) => DecideStep(s, decrypts)
    case Redeem(reply) => RedeemStep(s, reply)
    case Attempt(io) => AttemptStep(s, io)
    case End => Delivered(s, s.slot.out)
    case Return(c, saved) => ReturnStep(s, c, saved)
  }

  /** A token that is not due is handed out as read; otherwise the caller starts or joins the body. */
  function EnterStep(s: State, c: nat): State
    requires c in s.callers && s.callers[c].Reading?
  {
    var snap := s.callers[c].snap;
    if !Due(snap.expiresAt, s.now) then
      s.(callers := s.callers[c := Returned(snap, Token(snap.token.plain), s.now)])
    else
      s.(callers := s.callers[c := Waiting(snap)], slot := if s.slot.Idle? then Started else s.slot)
  }

  function FetchStep(s: State, found: bool, decrypts: bool): State {
    if !found then Finished(s, Failed(Local))
    else if s.row.expiresAt.Some? && !Due(s.row.expiresAt, s.now) then
      Finished(s, if decrypts then Token(s.row.token.plain) else Failed(Local))
    else s.(slot := Fetched(s.row))
  }

  function DecideStep(s: State, decrypts: bool): State
    requires s.slot.Fetched?
  {
    var rec := s.slot.rec;
    var held := if Matches(s.pending, rec) then s.pending else None;
    var t := s.(pending := held);
    if held.Some? && Usable(held.value.pair, s.now) then
      t.(slot := Persisting(rec, held.value.pair, 0, true))
    else if !decrypts then Finished(t, Failed(Local))
    else
      var refresh := if held.Some? then held.value.pair.refresh else Plain(rec.refresh);
      if refresh.None? then Finished(t, Token(rec.token.plain))
      else t.(slot := Redeeming(refresh.value, rec, held))
  }

  function RedeemStep(s: State, reply: Reply): State
    requires s.slot.Redeeming?
  {
    var Redeeming(refresh, rec, held) := s.slot;
    var t := s.(log := s.log + [Call(refresh, rec.epoch, s.now, reply)]);
    match reply
    case Denied(why) => Finished(t, Failed(why))
    case Granted(p) =>
      var pair := if p.refresh.None? && held.Some? then p.(refresh := held.value.pair.refresh) else p;
      t.(slot := Persisting(rec, pair, 0, false),
         issued := s.issued + PairSecrets(p),
         spent := if p.refresh.Some? then s.spent + {refresh} else s.spent)
  }

  function AttemptStep(s: State, io: Io): State
    requires s.slot.Persisting?
  {
    var Persisting(rec, pair, attempt, retry) := s.slot;
    if io.NotFound? then GiveUpOrRetry(s)
    else if IdentityOf(rec) != IdentityOf(s.row) then Persisted(s)
    else match io
      case EncryptFails => GiveUp(s)
      case SaveFails => GiveUpOrRetry(s)
      case Saves => Persisted(s.(row := Applied(s.row, pair, s.nonce), nonce := s.nonce + 2))
  }

  function Persisted(s: State): State
    requires s.slot.Persisting?
  {
    Finished(s.(pending := None), Token(s.slot.pair.access))
  }

  function GiveUp(s: State): State
    requires s.slot.Persisting?
  {
    Finished(if s.slot.retry then s else s.(pending := Some(Pending(s.slot.pair, IdentityOf(s.slot.rec)))),
             Token(s.slot.pair.access))
  }

  function GiveUpOrRetry(s: State): State
    requires s.slot.Persisting?
  {
    if s.slot.attempt < RETRIES then s.(slot := s.slot.(attempt := s.slot.attempt + 1)) else GiveUp(s)
  }

  /** A failed refresh falls back to the token read, until its real expiry; only a
      rejection after that is recorded on the row, and only if the expiry has not moved. */
  function ReturnStep(s: State, c: nat, saved: bool): State
    requires c in s.callers && s.callers[c].Answered?
  {
    var Answered(snap, answer) := s.callers[c];
    if answer.Token? then s.(callers := s.callers[c := Returned(snap, answer, s.now)])
    else if snap.expiresAt.Some? && s.now < snap.expiresAt.value then
      s.(callers := s.callers[c := Returned(snap, Token(snap.token.plain), s.now)])
    else
      var t := s.(callers := s.callers[c := Returned(snap, answer, s.now)]);
      if answer.why.Rejected? && saved && s.row.expiresAt == snap.expiresAt then
        t.(row := t.row.(refreshError := true))
      else t
  }

  // ------------------------------------------------------------------ runs

  /** A credential as first connected, before any load. */
  ghost predicate Init(s: State) {
    && s.pending.None? && s.slot.Idle? && s.callers == map[] && s.spent == {} && s.log == []
    && s.row.token.nonce < s.nonce
    && (s.row.refresh.Some? ==> s.row.refresh.value.nonce < s.nonce && s.row.refresh.value.plain in s.issued)
    && s.row.token.plain in s.issued
    && |s.connected| == 1 && s.connected[0].access == s.row.token.plain && s.row.epoch == 0
  }

  ghost predicate ValidRun(s: State, es: seq<Event>)
    decreases |es|
  {
    es == [] || (Enabled(s, es[0]) && ValidRun(Step(s, es[0]), es[1..]))
  }

  ghost function Run(s: State, es: seq<Event>): State
    requires ValidRun(s, es)
    decreases |es|
  {
    if es == [] then s else Run(Step(s, es[0]), es[1..])
  }

  lemma {:induction false} RunConcat(s: State, a: seq<Event>, b: seq<Event>)
    requires ValidRun(s, a) && ValidRun(Run(s, a), b)
    ensures ValidRun(s, a + b) && Run(s, a + b) == Run(Run(s, a), b)
    decreases |a|
  {
    if a == [] {
      assert a + b == b;
    } else {
      assert (a + b)[1..] == a[1..] + b && (a + b)[0] == a[0];
      RunConcat(Step(s, a[0]), a[1..], b);
    }
  }

  lemma RunCons(s: State, e: Event, es: seq<Event>)
    requires Enabled(s, e) && ValidRun(Step(s, e), es)
    ensures ValidRun(s, [e] + es) && Run(s, [e] + es) == Run(Step(s, e), es)
  {
    assert ([e] + es)[1..] == es;
  }

  lemma RunSnoc(s: State, es: seq<Event>, e: Event)
    requires ValidRun(s, es) && Enabled(Run(s, es), e)
    ensures ValidRun(s, es + [e]) && Run(s, es + [e]) == Step(Run(s, es), e)
  {
    assert [e][1..] == [];
    RunConcat(s, es, [e]);
  }

  lemma FreshNat(used: set<nat>) returns (n: nat)
    ensures n !in used && forall m | m in used :: m < n
  {
    if used == {} {
      n := 0;
    } else {
      var m :| m in used;
      n := FreshNat(used - {m});
      n := if m < n then n else m + 1;
      assert forall k | k in used :: k == m || k in used - {m};
    }
  }
}
