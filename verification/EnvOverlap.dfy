/** Histories of a variable record whose writes overlap: each is checked against the row as it was
    loaded, and saved onto the row as it is by then. */
module EnvOverlap {
  import opened Prelude
  import opened Sealing
  import opened EnvSecrets

  /** Saving a record that was loaded as `was`: what differs from that is written, the rest stays
      as it is by now. */
  function Merged(was: EnvRow, saved: EnvRow, now: EnvRow): EnvRow {
    EnvRow(if saved.key != was.key then saved.key else now.key,
           if saved.value != was.value then saved.value else now.value,
           if saved.secret != was.secret then saved.secret else now.secret,
           if saved.provider != was.provider then saved.provider else now.provider)
  }

  /** A write of the record as loaded after the first `base` writes. */
  datatype Late = Late(base: nat, row: EnvRow, nonce: nat)

  /** Nothing is loaded before it is there. */
  ghost predicate Based(ws: seq<Late>) {
    forall i | 0 <= i < |ws| :: ws[i].base <= i
  }

  /** The row after one write; a refused write leaves it as it is. */
  function Step(s: Server, was: EnvRow, w: Late, now: EnvRow): EnvRow {
    match Updated(s, w.row, was, w.nonce)
    case Ok(saved) => Merged(was, saved, now)
    case Err(_) => now
  }

  /** The row after the first n writes. */
  function At(s: Server, start: EnvRow, ws: seq<Late>, n: nat): EnvRow
    requires Based(ws) && n <= |ws|
  {
    if n == 0 then start
    else
      var w := ws[n - 1];
      Step(s, At(s, start, ws, w.base), w, At(s, start, ws, n - 1))
  }

  /** Writes each of which loads the row right before. */
  function Prompt(ws: seq<Write>): seq<Late> {
    seq(|ws|, i requires 0 <= i < |ws| => Late(i, ws[i].row, ws[i].nonce))
  }

  /** Without overlap these are the histories of single writes. */
  lemma {:induction false} PromptIsAfter(s: Server, start: EnvRow, ws: seq<Write>, n: nat)
    requires n <= |ws|
    ensures After(s, Some(start), ws[..n]) == Some(At(s, start, Prompt(ws), n))
    decreases n
  {
    if n > 0 {
      PromptIsAfter(s, start, ws, n - 1);
      assert ws[..n][..n - 1] == ws[..n - 1];
    }
  }

  lemma {:induction false} AtPrefix(s: Server, start: EnvRow, ws: seq<Late>, w: Late, n: nat)
    requires Based(ws) && Based(ws + [w]) && n <= |ws|
    ensures At(s, start, ws + [w], n) == At(s, start, ws, n)
    decreases n
  {
    if n > 0 {
      AtPrefix(s, start, ws, w, n - 1);
      AtPrefix(s, start, ws, w, ws[n - 1].base);
    }
  }

  lemma OneMore(s: Server, start: EnvRow, ws: seq<Late>, w: Late)
    requires Based(ws) && w.base <= |ws|
    ensures Based(ws + [w])
    ensures At(s, start, ws + [w], |ws| + 1) == Step(s, At(s, start, ws, w.base), w, At(s, start, ws, |ws|))
  {
    assert forall i | 0 <= i < |ws + [w]| :: (ws + [w])[i].base <= i;
    AtPrefix(s, start, ws, w, w.base);
    AtPrefix(s, start, ws, w, |ws|);
    assert (ws + [w])[|ws|] == w;
  }

  // ----------------------------------------------------------------------- one save

  /** A value that is blank, the mask, or opens. */
  ghost predicate DecentValue(s: Server, value: string) {
    Untouched(value) || s.aead.open(value).Some?
  }

  /** The save moves the provider of what is a secret by now. */
  ghost predicate MovesProvider(was: EnvRow, saved: EnvRow, now: EnvRow) {
    now.secret && saved.provider != was.provider && Effective(saved.provider) != Effective(now.provider)
  }

  /** The row the value comes from when a record is saved. */
  function Source(was: EnvRow, saved: EnvRow, now: EnvRow): EnvRow {
    if saved.value != was.value then saved else now
  }

  /** The save makes an internal secret of a value that no internal secret held, and that does not open. */
  ghost predicate MixesPlain(s: Server, was: EnvRow, saved: EnvRow, now: EnvRow) {
    && (saved.secret || now.secret)
    && Effective(if saved.provider != was.provider then saved.provider else now.provider) == "internal"
    && !InternalSecret(Source(was, saved, now)) && !DecentValue(s, Source(was, saved, now).value)
  }

  /** A secret stays secret when a record loaded earlier is saved; its effective provider moves if and
      only if the save writes the provider, with another effective one. */
  lemma StaleSaveMovesProviderIff(was: EnvRow, saved: EnvRow, now: EnvRow)
    requires (was.secret ==> saved.secret) && now.secret
    ensures
      var next := Merged(was, saved, now);
      next.secret && (Effective(next.provider) != Effective(now.provider) <==> MovesProvider(was, saved, now))
  {}

  /** Saving a record loaded earlier leaves an internal secret with a value that does not open if and
      only if flag, provider and value come from different rows in that way. When the record was
      secret as loaded, and its provider has not moved since, that cannot happen. */
  lemma StaleSaveBreaksSecretIff(s: Server, was: EnvRow, saved: EnvRow, now: EnvRow)
    requires Decent(s, saved) && Decent(s, now) && (was.secret ==> saved.secret && now.secret)
    ensures !Decent(s, Merged(was, saved, now)) <==> MixesPlain(s, was, saved, now)
    ensures was.secret && Effective(was.provider) == Effective(saved.provider) == Effective(now.provider) ==>
              !MixesPlain(s, was, saved, now)
  {}

  /** What the hooks let through: the locks hold against the row as loaded, and an internal secret is
      decent. */
  lemma SavedIsLocked(s: Server, was: EnvRow, w: Late)
    requires Lawful(s.aead) && Updated(s, w.row, was, w.nonce).Ok?
    ensures
      var saved := Updated(s, w.row, was, w.nonce).value;
      Decent(s, saved) && (was.secret ==> saved.secret && Effective(saved.provider) == Effective(was.provider))
  {}

  // ------------------------------------------------------------------- whole histories

  ghost function Saving(s: Server, start: EnvRow, ws: seq<Late>, i: nat): Result<EnvRow, HookError>
    requires Based(ws) && i < |ws|
  {
    Updated(s, ws[i].row, At(s, start, ws, ws[i].base), ws[i].nonce)
  }

  /** The i-th write moves the provider of a secret. */
  ghost predicate Moves(s: Server, start: EnvRow, ws: seq<Late>, i: nat)
    requires Based(ws) && i < |ws|
  {
    var saved := Saving(s, start, ws, i);
    saved.Ok? && MovesProvider(At(s, start, ws, ws[i].base), saved.value, At(s, start, ws, i))
  }

  /** The i-th write makes an internal secret of a plain value. */
  ghost predicate Mixes(s: Server, start: EnvRow, ws: seq<Late>, i: nat)
    requires Based(ws) && i < |ws|
  {
    var saved := Saving(s, start, ws, i);
    saved.Ok? && MixesPlain(s, At(s, start, ws, ws[i].base), saved.value, At(s, start, ws, i))
  }

  /** However its writes overlap, a record that is secret stays secret. */
  lemma {:induction false} SecretForever(s: Server, start: EnvRow, ws: seq<Late>, k: nat, n: nat)
    requires Based(ws) && k <= n <= |ws| && At(s, start, ws, k).secret
    ensures At(s, start, ws, n).secret
    decreases n
  {
    if k < n {
      SecretForever(s, start, ws, k, n - 1);
    }
  }

  /** The effective provider after the first n writes. */
  function ProviderAt(s: Server, start: EnvRow, ws: seq<Late>, n: nat): string
    requires Based(ws) && n <= |ws|
  {
    Effective(At(s, start, ws, n).provider)
  }

  ghost predicate SameProvider(s: Server, start: EnvRow, ws: seq<Late>, k: nat, n: nat)
    requires Based(ws) && k <= n <= |ws|
  {
    forall m | k <= m <= n :: ProviderAt(s, start, ws, m) == ProviderAt(s, start, ws, k)
  }

  /** One write keeps a secret's effective provider exactly when it does not move it. */
  lemma ProviderStep(s: Server, start: EnvRow, ws: seq<Late>, n: nat)
    requires Based(ws) && 0 < n <= |ws| && At(s, start, ws, n - 1).secret
    ensures ProviderAt(s, start, ws, n) != ProviderAt(s, start, ws, n - 1) <==> Moves(s, start, ws, n - 1)
  {}

  lemma SameProviderNext(s: Server, start: EnvRow, ws: seq<Late>, k: nat, n: nat)
    requires Based(ws) && k < n <= |ws|
    ensures SameProvider(s, start, ws, k, n) <==>
            SameProvider(s, start, ws, k, n - 1) && ProviderAt(s, start, ws, n) == ProviderAt(s, start, ws, n - 1)
  {
    if SameProvider(s, start, ws, k, n - 1) {
      assert ProviderAt(s, start, ws, n - 1) == ProviderAt(s, start, ws, k);
    }
    if SameProvider(s, start, ws, k, n) {
      assert ProviderAt(s, start, ws, n) == ProviderAt(s, start, ws, n - 1);
    }
  }

  ghost predicate NoneMoves(s: Server, start: EnvRow, ws: seq<Late>, k: nat, n: nat)
    requires Based(ws) && k <= n <= |ws|
  {
    forall i | k <= i < n :: !Moves(s, start, ws, i)
  }

  lemma NoneMovesNext(s: Server, start: EnvRow, ws: seq<Late>, k: nat, n: nat)
    requires Based(ws) && k < n <= |ws|
    ensures NoneMoves(s, start, ws, k, n) <==> NoneMoves(s, start, ws, k, n - 1) && !Moves(s, start, ws, n - 1)
  {}

  /** From when it is secret on, a record keeps its effective provider if and only if no write moves
      it. */
  lemma {:induction false} ProviderKeptIff(s: Server, start: EnvRow, ws: seq<Late>, k: nat, n: nat)
    requires Based(ws) && k <= n <= |ws| && At(s, start, ws, k).secret
    ensures SameProvider(s, start, ws, k, n) <==> NoneMoves(s, start, ws, k, n)
    decreases n
  {
    if k < n {
      ProviderKeptIff(s, start, ws, k, n - 1);
      SecretForever(s, start, ws, k, n - 1);
      ProviderStep(s, start, ws, n);
      SameProviderNext(s, start, ws, k, n);
      NoneMovesNext(s, start, ws, k, n);
    }
  }

  /** A decent secret of this provider. */
  ghost predicate Kept(s: Server, provider: string, r: EnvRow) {
    r.secret && Effective(r.provider) == provider && Decent(s, r)
  }

  lemma StepKeeps(s: Server, provider: string, was: EnvRow, w: Late, now: EnvRow)
    requires Lawful(s.aead) && Kept(s, provider, was) && Kept(s, provider, now)
    ensures Kept(s, provider, Step(s, was, w, now))
  {
    if Updated(s, w.row, was, w.nonce).Ok? {
      SavedIsLocked(s, was, w);
    }
  }

  /** A secret stays a secret of its provider, with a value that is decent, through any overlapping
      writes that loaded it since it became one. */
  lemma {:induction false} LoadedSinceIsKept(s: Server, start: EnvRow, ws: seq<Late>, k: nat, n: nat)
    requires Lawful(s.aead) && Based(ws) && k <= n <= |ws| && At(s, start, ws, k).secret
    requires Decent(s, At(s, start, ws, k)) && forall i | k <= i < n :: ws[i].base >= k
    ensures Kept(s, ProviderAt(s, start, ws, k), At(s, start, ws, n))
    decreases n
  {
    if k < n {
      var w := ws[n - 1];
      LoadedSinceIsKept(s, start, ws, k, n - 1);
      LoadedSinceIsKept(s, start, ws, k, w.base);
      StepKeeps(s, ProviderAt(s, start, ws, k), At(s, start, ws, w.base), w, At(s, start, ws, n - 1));
    }
  }

  ghost predicate AllDecent(s: Server, start: EnvRow, ws: seq<Late>, n: nat)
    requires Based(ws) && n <= |ws|
  {
    forall m | 0 <= m <= n :: Decent(s, At(s, start, ws, m))
  }

  ghost predicate NoneMixes(s: Server, start: EnvRow, ws: seq<Late>, n: nat)
    requires Based(ws) && n <= |ws|
  {
    forall i | 0 <= i < n :: !Mixes(s, start, ws, i)
  }

  lemma DecentStep(s: Server, start: EnvRow, ws: seq<Late>, n: nat)
    requires Lawful(s.aead) && Based(ws) && 0 < n <= |ws| && Decent(s, At(s, start, ws, n - 1))
    ensures !Decent(s, At(s, start, ws, n)) <==> Mixes(s, start, ws, n - 1)
  {
    var w := ws[n - 1];
    var was, now := At(s, start, ws, w.base), At(s, start, ws, n - 1);
    if was.secret {
      SecretForever(s, start, ws, w.base, n - 1);
    }
    if Updated(s, w.row, was, w.nonce).Ok? {
      SavedIsLocked(s, was, w);
      StaleSaveBreaksSecretIff(s, was, Updated(s, w.row, was, w.nonce).value, now);
    }
  }

  lemma AllDecentNext(s: Server, start: EnvRow, ws: seq<Late>, n: nat)
    requires Based(ws) && 0 < n <= |ws|
    ensures AllDecent(s, start, ws, n) <==> AllDecent(s, start, ws, n - 1) && Decent(s, At(s, start, ws, n))
    ensures NoneMixes(s, start, ws, n) <==> NoneMixes(s, start, ws, n - 1) && !Mixes(s, start, ws, n - 1)
  {}

  /** In a history of overlapping writes every internal secret is blank, the mask, or decryptable, if
      and only if no write makes one of a plain value. */
  lemma {:induction false} DecryptableIff(s: Server, start: EnvRow, ws: seq<Late>, n: nat)
    requires Lawful(s.aead) && Based(ws) && n <= |ws| && Decent(s, start)
    ensures AllDecent(s, start, ws, n) <==> NoneMixes(s, start, ws, n)
    decreases n
  {
    if n > 0 {
      DecryptableIff(s, start, ws, n - 1);
      AllDecentNext(s, start, ws, n);
      if AllDecent(s, start, ws, n - 1) {
        DecentStep(s, start, ws, n);
      }
    }
  }

  // ------------------------------------------------------------------- the plaintext

  /** The write leaves the value alone: it is blank or the mask, or what it would store is what it
      loaded. A mask sent for a record that was loaded blank is not such a write. */
  ghost predicate LeavesValue(s: Server, was: EnvRow, w: Late) {
    if Untouched(w.row.value) then w.row.value == "" || was.value != ""
    else SealedValue(w.row.value, s.aead, w.nonce) == was.value
  }

  /** The plaintext after a write: a refused one and one that leaves the value alone supply none, and
      a mask sent for a blank record erases what was supplied since. */
  ghost function Supplied(s: Server, was: EnvRow, w: Late, before: Option<string>): Option<string> {
    if Updated(s, w.row, was, w.nonce).Err? || LeavesValue(s, was, w) then before
    else if Untouched(w.row.value) then None
    else if s.aead.open(w.row.value).Some? then s.aead.open(w.row.value)
    else Some(w.row.value)
  }

  /** The last plaintext supplied in the first n writes. */
  ghost function SuppliedAt(s: Server, start: EnvRow, ws: seq<Late>, n: nat): Option<string>
    requires Based(ws) && n <= |ws|
  {
    if n == 0 then Plaintext(s.aead, start.value)
    else Supplied(s, At(s, start, ws, ws[n - 1].base), ws[n - 1], SuppliedAt(s, start, ws, n - 1))
  }

  lemma StepSupplies(s: Server, was: EnvRow, w: Late, now: EnvRow)
    requires Lawful(s.aead) && Kept(s, "internal", was) && Kept(s, "internal", now)
    ensures Plaintext(s.aead, Step(s, was, w, now).value) == Supplied(s, was, w, Plaintext(s.aead, now.value))
  {}

  /** However its writes overlap, an internal secret's plaintext is the last one supplied. */
  lemma {:induction false} PlaintextIsLastSuppliedLate(s: Server, start: EnvRow, ws: seq<Late>, n: nat)
    requires Lawful(s.aead) && Based(ws) && n <= |ws| && InternalSecret(start) && Decent(s, start)
    ensures Plaintext(s.aead, At(s, start, ws, n).value) == SuppliedAt(s, start, ws, n)
    decreases n
  {
    if n > 0 {
      var w := ws[n - 1];
      PlaintextIsLastSuppliedLate(s, start, ws, n - 1);
      LoadedSinceIsKept(s, start, ws, 0, n - 1);
      LoadedSinceIsKept(s, start, ws, 0, w.base);
      StepSupplies(s, At(s, start, ws, w.base), w, At(s, start, ws, n - 1));
    }
  }
}
