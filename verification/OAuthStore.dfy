/** The refresh body as the straight-line, retrying code it is, run against a world that
    may move between any two of its atomic sections. Every run of it is a run of the
    protocol, so the run properties hold of this code. */
module OAuthStore {
  import opened Prelude
  import opened OAuthProtocol
  import OAuthReuse
  import OAuthRuns

  /** Everything the body does not decide: what its reads, its provider call and its save
      attempts meet, and what happens outside before its k-th atomic section. */
  datatype World = World(found: bool, decrypts: bool, refreshDecrypts: bool,
                         reply: set<Secret> -> Reply, io: nat -> Io, outside: nat -> seq<Event>)

  /** The provider never issues a token twice. */
  ghost predicate Honest(w: World) {
    forall issued: set<Secret> :: w.reply(issued).Granted? ==> FreshPair(w.reply(issued).pair, issued)
  }

  /** The attempt comes to nothing: the row is not found, or cannot be saved. */
  predicate Misses(s: State, io: Io)
    requires s.slot.Persisting?
  {
    io.NotFound? || (io.SaveFails? && IdentityOf(s.slot.rec) == IdentityOf(s.row))
  }

  /** What one attempt makes of the state: another attempt, or an end with or without the pair kept. */
  lemma AttemptOutcome(s: State, io: Io)
    requires s.slot.Persisting? && s.slot.attempt <= RETRIES
    ensures
      var Persisting(rec, pair, attempt, retry) := s.slot;
      var t, same := AttemptStep(s, io), IdentityOf(rec) == IdentityOf(s.row);
      var kept := if retry then s.pending else Some(Pending(pair, IdentityOf(rec)));
      var end := Ending(Token(pair.access), rec.epoch);
      if Misses(s, io) && attempt < RETRIES then t == s.(slot := Persisting(rec, pair, attempt + 1, retry))
      else if Misses(s, io) || (same && io.EncryptFails?) then t == s.(slot := end, pending := kept)
      else if same then
        t == s.(row := Applied(s.row, pair, s.nonce), nonce := s.nonce + 2, slot := end, pending := None)
      else t == s.(slot := end, pending := None)
  {}

  class Process {
    var now: Instant
    var row: Row
    var pending: Option<Pending>
    var nonce: nat
    var callers: map<nat, Caller>
    var issued: set<Secret>
    var spent: set<Secret>
    var log: seq<Call>
    var connected: seq<Pair>
    ghost var slot: Slot
    ghost var start: State
    ghost var trace: seq<Event>

    ghost function View(): State
      reads this
    {
      State(now, row, pending, slot, callers, nonce, issued, spent, log, connected)
    }

    /** The events so far lead from the start to `s`. */
    ghost predicate At(s: State)
      reads this
    {
      ValidRun(start, trace) && Run(start, trace) == s
    }

    /** What the protocol guarantees of its runs holds of this heap after any of its calls. */
    lemma CodeKeepsTheProtocol()
      requires At(View()) && Init(start)
      ensures OAuthRuns.OncePerExpiry(log)
      ensures OAuthRuns.OfEpoch(View(), row.token.plain, row.epoch)
      ensures OAuthReuse.CarefulRun(start, trace) ==> OAuthReuse.NoReuse(log)
    {
      OAuthRuns.AtMostOneRedeemPerExpiry(start, trace);
      OAuthRuns.ReconnectIsNeverOverwritten(start, trace);
      if OAuthReuse.CarefulRun(start, trace) {
        OAuthReuse.NeverRedeemsSpentToken(start, trace);
      }
    }

    ghost method Record(e: Event)
      requires ValidRun(start, trace) && Enabled(Run(start, trace), e)
      modifies this`trace
      ensures ValidRun(start, trace) && Run(start, trace) == Step(Run(start, old(trace)), e)
      ensures trace == old(trace) + [e]
    {
      RunSnoc(start, trace, e);
      trace := trace + [e];
    }

    /** A reconnect, with a pair never issued before. */
    method ReconnectRow(p: Pair)
      requires At(View()) && !slot.Idle?
      modifies this
      ensures At(View()) && start == old(start) && old(trace) <= trace && Unmoved(old(View()))
    {
      if FreshPair(p, issued) {
        Record(Reconnect(p));
        row, nonce := Applied(row, p, nonce).(epoch := row.epoch + 1), nonce + 2;
        issued, connected := issued + PairSecrets(p), connected + [p];
      }
    }

    /** A load that has its answer returns, and records a rejected refresh. */
    method ReturnTo(c: nat, saved: bool)
      requires At(View()) && !slot.Idle?
      modifies this
      ensures At(View()) && start == old(start) && old(trace) <= trace && Unmoved(old(View()))
    {
      if c in callers && callers[c].Answered? {
        Record(Return(c, saved));
        var Answered(snap, answer) := callers[c];
        if answer.Failed? && snap.expiresAt.Some? && now < snap.expiresAt.value {
          answer := Token(snap.token.plain);
        }
        callers := callers[c := Returned(snap, answer, now)];
        if answer == Failed(Rejected) && saved && row.expiresAt == snap.expiresAt {
          row := row.(refreshError := true);
        }
      }
    }

    /** One outside event, if it can happen now. */
    method Turn(e: Event)
      requires At(View()) && !slot.Idle?
      modifies this
      ensures At(View()) && start == old(start) && old(trace) <= trace && Unmoved(old(View()))
    {
      match e
      case Tick(d) =>
        Record(e);
        now := now + d;
      case Reconnect(p) => ReconnectRow(p);
      case Read(c) =>
        if c !in callers {
          Record(e);
          callers := callers[c := Reading(row)];
        }
      case Enter(c) =>
        if c in callers && callers[c].Reading? {
          Record(e);
          var snap := callers[c].snap;
          callers := callers[c := if Due(snap.expiresAt, now) then Waiting(snap)
                                  else Returned(snap, Token(snap.token.plain), now)];
        }
      case Return(c, saved) => ReturnTo(c, saved);
      case _ =>
    }

    /** What only the running body touches. */
    ghost predicate Unmoved(s: State)
      reads this
    {
      slot == s.slot && pending == s.pending && spent == s.spent && log == s.log
    }

    /** Other goroutines take their turn. */
    method Yield(turn: seq<Event>)
      requires At(View()) && !slot.Idle?
      modifies this
      ensures At(View()) && start == old(start) && old(trace) <= trace && Unmoved(old(View()))
    {
      for i := 0 to |turn|
        invariant At(View()) && start == old(start) && old(trace) <= trace && Unmoved(old(View()))
      {
        Turn(turn[i]);
      }
    }

    /** What `pendingRefreshes` holds once a persist has ended. */
    ghost function PendingAfter(ok: bool, retry: bool, rec: Row, pair: Pair): Option<Pending>
      reads this
    {
      if ok then None else if retry then pending else Some(Pending(pair, IdentityOf(rec)))
    }

    /** An attempt that comes to nothing, with another one to follow. */
    ghost method Again(io: Io)
      requires At(View()) && slot.Persisting? && slot.attempt < RETRIES && Misses(View(), io)
      modifies this`slot, this`trace
      ensures At(View()) && old(trace) <= trace && slot == old(slot).(attempt := old(slot).attempt + 1)
    {
      AttemptOutcome(View(), io);
      Record(Attempt(io));
      slot := slot.(attempt := slot.attempt + 1);
    }

    /** The last attempt, when it writes nothing; `ok` says the row has moved on. */
    ghost method Ended(io: Io, ok: bool)
      requires At(View()) && slot.Persisting? && slot.attempt <= RETRIES
      requires var same := IdentityOf(slot.rec) == IdentityOf(row);
               if ok then !same && !io.NotFound?
               else (same && io.EncryptFails?) || (Misses(View(), io) && slot.attempt == RETRIES)
      modifies this`slot, this`trace
      ensures old(trace) <= trace && slot == Ending(Token(old(slot).pair.access), old(slot).rec.epoch)
      ensures At(View().(pending := PendingAfter(ok, old(slot).retry, old(slot).rec, old(slot).pair)))
    {
      AttemptOutcome(View(), io);
      Record(Attempt(io));
      slot := Ending(Token(slot.pair.access), slot.rec.epoch);
    }

    /** The attempt that saves the pair. */
    method SavePair(rec: Row, pair: Pair, ghost attempt: nat, ghost retry: bool)
      requires At(View()) && slot == Persisting(rec, pair, attempt, retry) && attempt <= RETRIES
      requires IdentityOf(rec) == IdentityOf(row)
      modifies this
      ensures start == old(start) && old(trace) <= trace && slot == Ending(Token(pair.access), rec.epoch)
      ensures At(View().(pending := None))
    {
      AttemptOutcome(View(), Saves);
      Record(Attempt(Saves));
      row, nonce := Applied(row, pair, nonce), nonce + 2;
      slot := Ending(Token(pair.access), rec.epoch);
    }

    /** One find/match/save attempt. */
    method TryPersist(rec: Row, pair: Pair, attempt: nat, ghost retry: bool, io: Io) returns (done: bool, ok: bool)
      requires At(View()) && slot == Persisting(rec, pair, attempt, retry) && attempt <= RETRIES
      modifies this
      ensures start == old(start) && old(trace) <= trace
      ensures !done ==> attempt < RETRIES && slot == Persisting(rec, pair, attempt + 1, retry) && At(View())
      ensures done ==> slot == Ending(Token(pair.access), rec.epoch)
                       && At(View().(pending := PendingAfter(ok, retry, rec, pair)))
    {
      done, ok := true, false;
      if io.NotFound? || (io.SaveFails? && IdentityOf(rec) == IdentityOf(row)) {
        done := attempt == RETRIES;
        if !done {
          Again(io);
          return;
        }
      } else if IdentityOf(rec) != IdentityOf(row) {
        ok := true;
      } else if io.Saves? {
        SavePair(rec, pair, attempt, retry);
        ok := true;
        return;
      }
      Ended(io, ok);
    }

    /** `persistRefreshedToken`: up to four attempts, each re-reading the row; gives up
        quietly once the row no longer matches. */
    method Persist(rec: Row, pair: Pair, ghost retry: bool, w: World) returns (ok: bool)
      requires At(View()) && slot == Persisting(rec, pair, 0, retry)
      modifies this
      ensures start == old(start) && old(trace) <= trace && slot == Ending(Token(pair.access), rec.epoch)
      ensures At(View().(pending := PendingAfter(ok, retry, rec, pair)))
    {
      var attempt, done := 0, false;
      ok := false;
      while !done
        invariant start == old(start) && old(trace) <= trace && attempt <= RETRIES + 1
        invariant !done ==> attempt <= RETRIES && At(View()) && slot == Persisting(rec, pair, attempt, retry)
        invariant done ==> slot == Ending(Token(pair.access), rec.epoch)
                           && At(View().(pending := PendingAfter(ok, retry, rec, pair)))
        decreases !done, RETRIES + 1 - attempt
      {
        Yield(w.outside(3 + attempt));
        done, ok := TryPersist(rec, pair, attempt, retry, w.io(attempt));
        attempt := attempt + 1;
      }
    }

    /** Re-reads the row; ends the body when it is no longer due. */
    method FetchRow(found: bool, decrypts: bool) returns (end: Option<Outcome>)
      requires At(View()) && slot == Started
      modifies this
      ensures At(View()) && start == old(start) && old(trace) <= trace
      ensures slot == if end.Some? then Ending(end.value, row.epoch) else Fetched(row)
    {
      Record(Fetch(found, decrypts));
      end := None;
      if !found {
        end := Some(Failed(Local));
      } else if row.expiresAt.Some? && now + GRACE < row.expiresAt.value {
        end := Some(if decrypts then Token(row.token.plain) else Failed(Local));
      }
      slot := if end.Some? then Ending(end.value, row.epoch) else Fetched(row);
    }

    /** Looks at the pending pair: drops a stale one, retries the save of a good one,
        else picks the refresh token to redeem. */
    method Choose(rec: Row, decrypts: bool)
      returns (held: Option<Pending>, end: Option<Outcome>, refresh: Option<Secret>)
      requires At(View()) && slot == Fetched(rec)
      modifies this
      ensures At(View()) && start == old(start) && old(trace) <= trace && pending == held
      ensures slot == if end.Some? then Ending(end.value, rec.epoch)
                      else if refresh.Some? then Redeeming(refresh.value, rec, held)
                      else if held.Some? then Persisting(rec, held.value.pair, 0, true) else slot
      ensures end.None? && refresh.None? ==> held.Some?
    {
      Record(Decide(decrypts));
      held, end, refresh := None, None, None;
      if pending.Some? {
        if pending.value.base == IdentityOf(rec) {
          held := pending;
        } else {
          pending := None;
        }
      }
      if held.Some? && (held.value.pair.expiresAt.None? || now + GRACE < held.value.pair.expiresAt.value) {
        slot := Persisting(rec, held.value.pair, 0, true);
        return;
      }
      if !decrypts {
        end := Some(Failed(Local));
        slot := Ending(end.value, rec.epoch);
        return;
      }
      if held.Some? {
        refresh := held.value.pair.refresh;
      } else if rec.refresh.Some? {
        refresh := Some(rec.refresh.value.plain);
      }
      if refresh.None? {
        end := Some(Token(rec.token.plain));
      }
      slot := if end.Some? then Ending(end.value, rec.epoch) else Redeeming(refresh.value, rec, held);
    }

    /** Calls the provider; a reply without a refresh token keeps the pending one. */
    method CallProvider(refresh: Secret, rec: Row, held: Option<Pending>, reply: Reply)
      returns (pair: Option<Pair>, end: Option<Outcome>)
      requires At(View()) && slot == Redeeming(refresh, rec, held)
      requires reply.Granted? ==> FreshPair(reply.pair, issued)
      modifies this
      ensures At(View()) && start == old(start) && old(trace) <= trace && pending == old(pending)
      ensures if end.Some? then slot == Ending(end.value, rec.epoch)
              else pair.Some? && slot == Persisting(rec, pair.value, 0, false)
    {
      Record(Redeem(reply));
      log := log + [Call(refresh, rec.epoch, now, reply)];
      pair, end := None, None;
      match reply
      case Denied(why) =>
        end := Some(Failed(why));
        slot := Ending(end.value, rec.epoch);
      case Granted(p) =>
        issued := issued + PairSecrets(p);
        pair := Some(p);
        if p.refresh.Some? {
          spent := spent + {refresh};
        } else if held.Some? {
          pair := Some(p.(refresh := held.value.pair.refresh));
        }
        slot := Persisting(rec, pair.value, 0, false);
    }

    /** Saves a pair; one that could not be saved is kept, or stays, pending. */
    method PersistOrKeep(rec: Row, pair: Pair, retry: bool, w: World)
      requires At(View()) && slot == Persisting(rec, pair, 0, retry)
      modifies this
      ensures At(View()) && slot == Ending(Token(pair.access), rec.epoch) && start == old(start) && old(trace) <= trace
    {
      var ok := Persist(rec, pair, retry, w);
      if ok {
        pending := None;
      } else if !retry {
        pending := Some(Pending(pair, IdentityOf(rec)));
      }
    }

    method RedeemAndPersist(refresh: Secret, rec: Row, held: Option<Pending>, w: World) returns (out: Outcome)
      requires At(View()) && slot == Redeeming(refresh, rec, held) && Honest(w)
      modifies this
      ensures At(View()) && slot.Ending? && slot.out == out && start == old(start) && old(trace) <= trace
    {
      Yield(w.outside(2));
      var pair, end := CallProvider(refresh, rec, held, w.reply(issued));
      if end.Some? {
        return end.value;
      }
      PersistOrKeep(rec, pair.value, false, w);
      out := Token(pair.value.access);
    }

    /** `doRefreshOAuthToken`, with the world moving before every atomic section: whatever
        it does is a run of the protocol that ends with the outcome it returns. */
    method DoRefresh(w: World) returns (out: Outcome)
      requires At(View()) && slot == Started && Honest(w)
      modifies this
      ensures At(View()) && slot.Ending? && slot.out == out && start == old(start) && old(trace) <= trace
    {
      Yield(w.outside(0));
      var end := FetchRow(w.found, w.decrypts);
      if end.Some? {
        return end.value;
      }
      var rec := row;
      Yield(w.outside(1));
      var held, end', refresh := Choose(rec, w.decrypts && w.refreshDecrypts);
      if end'.Some? {
        return end'.value;
      }
      if refresh.Some? {
        out := RedeemAndPersist(refresh.value, rec, held, w);
      } else {
        PersistOrKeep(rec, held.value.pair, true, w);
        out := Token(held.value.pair.access);
      }
    }
  }
}
