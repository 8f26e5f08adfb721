/** The life of one environment variable record under the create and update hooks. */
module EnvSecrets {
  import opened Prelude
  import opened Sealing

  datatype EnvRow = EnvRow(key: string, value: string, secret: bool, provider: string)

  /** The server: its cipher, whether its key has 32 bytes, whether the collection has a
      provider field, and whether an external reference parses. */
  datatype Server = Server(aead: Aead, keyOk: bool, hasProvider: bool, validReference: (string, string) -> bool)

  datatype HookError =
    KeyRequired | UnknownProvider | BadKey | BadReference | SecretDowngrade | ProviderLocked

  predicate ValidProvider(provider: string) {
    provider == "internal" || provider == "vault" || provider == "infisical"
  }

  /** An absent provider means the internal one. */
  function Effective(provider: string): string {
    if provider == "" then "internal" else provider
  }

  predicate InternalSecret(r: EnvRow) {
    r.secret && Effective(r.provider) == "internal"
  }

  /** A value that stands for "unchanged". */
  predicate Untouched(v: string) {
    v == "" || v == SENTINEL
  }

  // ------------------------------------------------------- the hooks on values

  function Preserved(value: string, original: Option<EnvRow>): string {
    if Untouched(value) && original.Some? && original.value.secret && original.value.value != ""
    then original.value.value else value
  }

  function SealedValue(value: string, a: Aead, nonce: nat): string {
    if Untouched(value) || a.open(value).Some? then value else a.seal(value, nonce)
  }

  function Prepared(s: Server, r: EnvRow, original: Option<EnvRow>, nonce: nat): Result<EnvRow, HookError> {
    var key := Trim(r.key);
    if key == "" then Err(KeyRequired)
    else if r.provider != "" && !ValidProvider(r.provider) then Err(UnknownProvider)
    else
      var provider := if r.provider == "" && r.secret && s.hasProvider then "internal" else r.provider;
      if !r.secret then Ok(EnvRow(key, r.value, false, provider))
      else if Effective(provider) == "internal" then
        if !s.keyOk then Err(BadKey)
        else Ok(EnvRow(key, SealedValue(Preserved(r.value, original), s.aead, nonce), true, provider))
      else if !s.validReference(provider, r.value) then Err(BadReference)
      else Ok(EnvRow(key, r.value, true, provider))
  }

  function Updated(s: Server, r: EnvRow, original: EnvRow, nonce: nat): Result<EnvRow, HookError> {
    if original.secret && !r.secret then Err(SecretDowngrade)
    else if original.secret && Effective(original.provider) != Effective(r.provider) then Err(ProviderLocked)
    else Prepared(s, r, Some(original), nonce)
  }

  // --------------------------------------------------- the hooks on a record

  /** The record a hook runs on: its fields, and the row it was loaded with. */
  class Record {
    var key: string
    var value: string
    var secret: bool
    var provider: string
    const original: Option<EnvRow>

    constructor (r: EnvRow, original: Option<EnvRow>)
      ensures Row() == r && this.original == original
    {
      key, value, secret, provider := r.key, r.value, r.secret, r.provider;
      this.original := original;
    }

    function Row(): EnvRow
      reads this
    {
      EnvRow(key, value, secret, provider)
    }

    method PreserveMaskedValue()
      modifies this`value
      ensures value == Preserved(old(value), original)
    {
      if value != "" && value != SENTINEL {
        return;
      }
      if original.None? || !original.value.secret || original.value.value == "" {
        return;
      }
      value := original.value.value;
    }

    method EncryptValue(s: Server, nonce: nat) returns (ok: bool)
      modifies this`value
      ensures ok == s.keyOk
      ensures value == if ok then SealedValue(old(value), s.aead, nonce) else old(value)
    {
      if !s.keyOk {
        return false;
      }
      ok := true;
      if value == "" || value == SENTINEL || s.aead.open(value).Some? {
        return;
      }
      value := s.aead.seal(value, nonce);
    }

    /** `prepareEnvSecretRecord`. */
    method Prepare(s: Server, nonce: nat) returns (error: Option<HookError>)
      modifies this
      ensures match Prepared(s, old(Row()), original, nonce)
              case Ok(row) => error.None? && Row() == row
              case Err(e) => error == Some(e)
    {
      var trimmed := Trim(key);
      if trimmed == "" {
        return Some(KeyRequired);
      }
      key := trimmed;
      if provider != "" {
        if !ValidProvider(provider) {
          return Some(UnknownProvider);
        }
      } else if secret && s.hasProvider {
        provider := "internal";
      }
      if secret {
        if provider == "" || provider == "internal" {
          PreserveMaskedValue();
          var ok := EncryptValue(s, nonce);
          if !ok {
            return Some(BadKey);
          }
        } else if !s.validReference(provider, value) {
          return Some(BadReference);
        }
      }
      error := None;
    }

    /** The update hook: both locks, then the preparation. */
    method BeforeUpdate(s: Server, nonce: nat) returns (error: Option<HookError>)
      requires original.Some?
      modifies this
      ensures match Updated(s, old(Row()), original.value, nonce)
              case Ok(row) => error.None? && Row() == row
              case Err(e) => error == Some(e)
    {
      if original.value.secret && !secret {
        return Some(SecretDowngrade);
      }
      if original.value.secret && Effective(original.value.provider) != Effective(provider) {
        return Some(ProviderLocked);
      }
      error := Prepare(s, nonce);
    }
  }

  // ------------------------------------------------------------- whole histories

  /** One write of the record: the fields a client sends and the nonce drawn for it. */
  datatype Write = Write(row: EnvRow, nonce: nat)

  function Written(s: Server, current: Option<EnvRow>, w: Write): Result<EnvRow, HookError> {
    if current.None? then Prepared(s, w.row, None, w.nonce) else Updated(s, w.row, current.value, w.nonce)
  }

  /** The stored row after a history of writes; a refused write leaves it as it was. */
  function After(s: Server, start: Option<EnvRow>, ws: seq<Write>): Option<EnvRow> {
    if ws == [] then start
    else
      var current := After(s, start, ws[..|ws| - 1]);
      match Written(s, current, ws[|ws| - 1])
      case Ok(row) => Some(row)
      case Err(_) => current
  }

  /** The plaintext behind a stored value, when there is one. */
  function Plaintext(a: Aead, value: string): Option<string> {
    if Untouched(value) then None else a.open(value)
  }

  ghost predicate Decent(s: Server, r: EnvRow) {
    InternalSecret(r) ==> Untouched(r.value) || s.aead.open(r.value).Some?
  }

  /** What one accepted write does to a secret. */
  lemma WriteKeepsSecret(s: Server, current: EnvRow, w: Write)
    requires Lawful(s.aead) && current.secret && Written(s, Some(current), w).Ok?
    ensures
      var next := Written(s, Some(current), w).value;
      && next.secret && Effective(next.provider) == Effective(current.provider)
      && Decent(s, next)
      && (InternalSecret(current) ==>
            Plaintext(s.aead, next.value) ==
            if Untouched(w.row.value) then
              if s.aead.open(current.value).Some? || Untouched(current.value) then Plaintext(s.aead, current.value)
              else Some(current.value)
            else if s.aead.open(w.row.value).Some? then s.aead.open(w.row.value)
            else Some(w.row.value))
  {}

  /** A value supplied for an internal secret is its plaintext afterwards if and only if it does
      not itself open under the server's key to something else: a value that opens is taken for a
      ciphertext and kept as it is. */
  lemma SuppliedIsPlaintextIff(s: Server, current: EnvRow, w: Write)
    requires Lawful(s.aead) && InternalSecret(current) && !Untouched(w.row.value)
    requires Written(s, Some(current), w).Ok?
    ensures Plaintext(s.aead, Written(s, Some(current), w).value.value) == Some(w.row.value) <==>
            s.aead.open(w.row.value).None? || s.aead.open(w.row.value) == Some(w.row.value)
  {
    WriteKeepsSecret(s, current, w);
  }

  /** A ciphertext supplied as a value is stored as it is, and read back as what it contains. */
  lemma CiphertextIsTakenAsSuch(s: Server, current: EnvRow, w: Write, p: string, nonce: nat)
    requires Lawful(s.aead) && InternalSecret(current) && Written(s, Some(current), w).Ok?
    requires w.row.value == s.aead.seal(p, nonce)
    ensures Written(s, Some(current), w).value.value == w.row.value
    ensures Plaintext(s.aead, w.row.value) == Some(p)
  {}

  /** In every history an internal secret's stored value is blank, the mask, or decryptable. */
  lemma {:induction false} StoredSecretsStayDecryptable(s: Server, ws: seq<Write>)
    requires Lawful(s.aead)
    ensures After(s, None, ws).Some? ==> Decent(s, After(s, None, ws).value)
    decreases |ws|
  {
    if ws != [] {
      StoredSecretsStayDecryptable(s, ws[..|ws| - 1]);
    }
  }

  /** Once secret, a record stays secret, with the same effective provider. */
  lemma {:induction false} SecretsStaySecret(s: Server, start: EnvRow, ws: seq<Write>)
    requires start.secret
    ensures
      var end := After(s, Some(start), ws);
      end.Some? && end.value.secret && Effective(end.value.provider) == Effective(start.provider)
    decreases |ws|
  {
    if ws != [] {
      SecretsStaySecret(s, start, ws[..|ws| - 1]);
    }
  }

  /** The last plaintext an accepted write supplied; blank and masked writes supply none. */
  function LastSupplied(s: Server, start: EnvRow, ws: seq<Write>): Option<string> {
    if ws == [] then Plaintext(s.aead, start.value)
    else
      var before := ws[..|ws| - 1];
      var w := ws[|ws| - 1];
      if Written(s, After(s, Some(start), before), w).Err? || Untouched(w.row.value)
      then LastSupplied(s, start, before)
      else if s.aead.open(w.row.value).Some? then s.aead.open(w.row.value)
      else Some(w.row.value)
  }

  /** An internal secret's plaintext is always the last one supplied: it changes only on an
      accepted write whose value is neither blank nor the mask, and becomes that value. */
  lemma {:induction false} PlaintextIsLastSupplied(s: Server, start: EnvRow, ws: seq<Write>)
    requires Lawful(s.aead) && InternalSecret(start) && Decent(s, start)
    ensures
      var end := After(s, Some(start), ws);
      && end.Some? && InternalSecret(end.value) && Decent(s, end.value)
      && Plaintext(s.aead, end.value.value) == LastSupplied(s, start, ws)
    decreases |ws|
  {
    if ws != [] {
      PlaintextIsLastSupplied(s, start, ws[..|ws| - 1]);
      var current := After(s, Some(start), ws[..|ws| - 1]).value;
      if Written(s, Some(current), ws[|ws| - 1]).Ok? {
        WriteKeepsSecret(s, current, ws[|ws| - 1]);
      }
    }
  }
}
