/** The bulk upsert of a target's environment variables: parse, write in one transaction,
    delete what a replace leaves out. */
module EnvBulk {
  import opened Prelude
  import opened Sealing
  import opened EnvSecrets
  import opened EnvOverlap

  datatype Var = Var(key: string, value: string, secret: bool, provider: string)

  datatype ParseError = BadMode | EmptyKey | InvalidKey | DuplicateKey

  predicate Letter(c: char) {
    'A' <= c <= 'Z' || 'a' <= c <= 'z' || c == '_'
  }

  /** `^[A-Za-z_][A-Za-z0-9_]*$`. */
  predicate KeyShape(k: string) {
    k != "" && Letter(k[0]) && forall i | 0 <= i < |k| :: Letter(k[i]) || '0' <= k[i] <= '9'
  }

  function KeyAt(vars: seq<Var>, i: nat): string
    requires i < |vars|
  {
    Trim(vars[i].key)
  }

  /** What a parsed payload satisfies: well-formed keys, none twice. */
  ghost predicate WellFormed(vars: seq<Var>) {
    && (forall i | 0 <= i < |vars| :: KeyShape(KeyAt(vars, i)))
    && (forall i, j | 0 <= i < j < |vars| :: KeyAt(vars, i) != KeyAt(vars, j))
  }

  ghost function TrimmedKeys(vars: seq<Var>): set<string> {
    set i | 0 <= i < |vars| :: KeyAt(vars, i)
  }

  /** The same for any way of normalising keys. */
  ghost predicate WellFormedBy(vars: seq<Var>, keyOf: Var -> string) {
    && (forall i | 0 <= i < |vars| :: KeyShape(keyOf(vars[i])))
    && (forall i, j | 0 <= i < j < |vars| :: keyOf(vars[i]) != keyOf(vars[j]))
  }

  method ParseBy(mode: string, vars: seq<Var>, keyOf: Var -> string) returns (r: Result<set<string>, ParseError>)
    ensures r.Ok? <==> (mode == "replace" || mode == "append") && WellFormedBy(vars, keyOf)
    ensures r.Ok? ==> r.value == set i | 0 <= i < |vars| :: keyOf(vars[i])
  {
    if mode != "replace" && mode != "append" {
      return Err(BadMode);
    }
    var seen: set<string> := {};
    for i := 0 to |vars|
      invariant forall j | 0 <= j < i :: KeyShape(keyOf(vars[j])) && keyOf(vars[j]) in seen
      invariant forall j, k | 0 <= j < k < i :: keyOf(vars[j]) != keyOf(vars[k])
      invariant forall k | k in seen :: exists j :: 0 <= j < i && keyOf(vars[j]) == k
    {
      var key := keyOf(vars[i]);
      if key == "" {
        return Err(EmptyKey);
      }
      if !KeyShape(key) {
        return Err(InvalidKey);
      }
      if key in seen {
        return Err(DuplicateKey);
      }
      seen := seen + {key};
    }
    r := Ok(seen);
  }

  /** `parseBulkEnvVarsRequest`, after the JSON decoding: accepts exactly the well-formed payloads. */
  method Parse(mode: string, vars: seq<Var>) returns (r: Result<set<string>, ParseError>)
    ensures r.Ok? <==> (mode == "replace" || mode == "append") && WellFormed(vars)
    ensures r.Ok? ==> r.value == TrimmedKeys(vars)
  {
    var keyOf := (v: Var) => Trim(v.key);
    assert forall i | 0 <= i < |vars| :: keyOf(vars[i]) == KeyAt(vars, i);
    r := ParseBy(mode, vars, keyOf);
  }

  // ------------------------------------------------------------ the upsert

  /** A row of the collection, with the stack or job it belongs to. */
  datatype Stored = Stored(target: nat, row: EnvRow)

  type Table = map<nat, Stored>

  datatype Counts = Counts(created: nat, updated: nat, deleted: nat)

  /** The fields one payload entry leaves on its record: a blank value for an internal
      secret that stays secret means unchanged. */
  function Sent(v: Var, current: Option<EnvRow>): EnvRow {
    var skip := current.Some? && v.value == "" && v.secret && InternalSecret(current.value);
    EnvRow(Trim(v.key), if skip then current.value.value else v.value, v.secret, v.provider)
  }

  /** What saving one payload entry gives: the record hooks decide. */
  type Upsert = (Var, Option<EnvRow>, nat) -> Result<EnvRow, HookError>

  function UpsertOf(s: Server): Upsert {
    (v: Var, current: Option<EnvRow>, nonce: nat) => Written(s, current, Write(Sent(v, current), nonce))
  }

  /** The listing of a target's rows, in the order the database returns them. */
  ghost predicate Listing(t: Table, target: nat, ids: seq<nat>) {
    && (forall i | 0 <= i < |ids| :: ids[i] in t && t[ids[i]].target == target)
    && (forall i, j | 0 <= i < j < |ids| :: ids[i] != ids[j])
    && (forall id | id in t && t[id].target == target :: id in ids)
  }

  /** `byKey`: a later row with the same key wins. */
  function ByKey(t: Table, ids: seq<nat>): (m: map<string, nat>)
    requires forall i | 0 <= i < |ids| :: ids[i] in t
    ensures forall k | k in m :: m[k] in ids && t[m[k]].row.key == k
    ensures forall i | 0 <= i < |ids| :: t[ids[i]].row.key in m
  {
    if ids == [] then map[]
    else ByKey(t, ids[..|ids| - 1])[t[ids[|ids| - 1]].row.key := ids[|ids| - 1]]
  }

  ghost function KeysOf(t: Table, target: nat): set<string> {
    set id | id in t && t[id].target == target :: t[id].row.key
  }

  // ---------------------------------------------- what happens around the transaction

  /** A write of somebody else. */
  datatype Change = Add(st: Stored) | Put(id: nat, st: Stored) | Drop(id: nat)

  datatype Rows = Rows(table: Table, next: nat)

  function Applied(r: Rows, c: Change): Rows {
    match c
    case Add(st) => Rows(r.table[r.next := st], r.next + 1)
    case Put(id, st) => if id in r.table then r.(table := r.table[id := st]) else r
    case Drop(id) => r.(table := r.table - {id})
  }

  /** The rows after others have written. */
  function Disturbed(r: Rows, cs: seq<Change>): Rows {
    if cs == [] then r else Applied(Disturbed(r, cs[..|cs| - 1]), cs[|cs| - 1])
  }

  ghost predicate ValidIds(t: Table, next: nat) {
    forall id | id in t :: id < next
  }

  lemma {:induction false} DisturbedIds(r: Rows, cs: seq<Change>)
    requires ValidIds(r.table, r.next)
    ensures ValidIds(Disturbed(r, cs).table, Disturbed(r, cs).next) && r.next <= Disturbed(r, cs).next
    decreases |cs|
  {
    if cs != [] {
      DisturbedIds(r, cs[..|cs| - 1]);
    }
  }

  // ---------------------------------------------- the transaction, step by step

  /** A running transaction: the rows so far, the next free id, the counters. */
  datatype Tx = Tx(rows: Table, next: nat, created: nat, updated: nat)

  /** One request: its target, its payload, how a key is normalised, and what it cannot decide
      itself: the hooks, the nonces, and which saves and deletes the database accepts. */
  datatype Request = Request(target: nat, replace: bool, vars: seq<Var>, keyOf: Var -> string, up: Upsert,
                             nonces: nat -> nat, saves: nat -> bool, deletes: string -> bool)
  {
    function KeyAt(i: nat): string
      requires i < |vars|
    {
      keyOf(vars[i])
    }
  }

  /** Keys are normalised by trimming, and the hooks keep them. */
  ghost predicate Trims(q: Request) {
    forall v :: q.keyOf(v) == Trim(v.key)
  }

  ghost predicate KeepsKey(q: Request) {
    forall v, c, n :: q.up(v, c, n).Ok? ==> q.up(v, c, n).value.key == q.keyOf(v)
  }

  ghost predicate DistinctKeys(q: Request) {
    forall i, j | 0 <= i < j < |q.vars| :: q.KeyAt(i) != q.KeyAt(j)
  }

  ghost function PayloadKeys(q: Request): set<string> {
    set i | 0 <= i < |q.vars| :: q.KeyAt(i)
  }

  /** What a parsed payload brings along. */
  lemma ParsedKeys(q: Request)
    requires Trims(q) && WellFormed(q.vars)
    ensures DistinctKeys(q) && PayloadKeys(q) == TrimmedKeys(q.vars)
  {
    assert forall i | 0 <= i < |q.vars| :: q.KeyAt(i) == KeyAt(q.vars, i);
  }

  function Current(t: Table, byKey: map<string, nat>, key: string): Option<EnvRow> {
    if key in byKey && byKey[key] in t then Some(t[byKey[key]].row) else None
  }

  /** The rows with one loaded record saved; a row that is gone stays gone. */
  function Saved(t: Table, rows: Table, id: nat, saved: EnvRow): Table {
    if id in t && id in rows
    then rows[id := Stored(rows[id].target, Merged(t[id].row, saved, rows[id].row))] else rows
  }

  /** Writes the i-th payload entry onto the record listed for its key, or onto a new one. `t` is
      the table as listed. */
  function WriteOne(q: Request, t: Table, byKey: map<string, nat>, tx: Tx, i: nat): Option<Tx>
    requires i < |q.vars|
  {
    var key := q.KeyAt(i);
    var r := q.up(q.vars[i], Current(t, byKey, key), q.nonces(i));
    if r.Err? || !q.saves(i) then None
    else if key in byKey then
      Some(tx.(rows := Saved(t, tx.rows, byKey[key], r.value), updated := tx.updated + 1))
    else
      Some(Tx(tx.rows[tx.next := Stored(q.target, r.value)], tx.next + 1, tx.created + 1, tx.updated))
  }

  /** The transaction on `now` after the first i entries; none once one of them failed. */
  function WriteUpTo(q: Request, t: Table, now: Rows, byKey: map<string, nat>, i: nat): Option<Tx>
    requires i <= |q.vars|
  {
    if i == 0 then Some(Tx(now.table, now.next, 0, 0))
    else
      var tx := WriteUpTo(q, t, now, byKey, i - 1);
      if tx.None? then None else WriteOne(q, t, byKey, tx.value, i - 1)
  }

  /** `byKey` points at listed rows of this target that hold the key. */
  ghost predicate Index(t: Table, target: nat, byKey: map<string, nat>) {
    forall k | k in byKey :: byKey[k] in t && t[byKey[k]].row.key == k && t[byKey[k]].target == target
  }

  ghost function KeysUpTo(q: Request, i: nat): set<string>
    requires i <= |q.vars|
  {
    if i == 0 then {} else KeysUpTo(q, i - 1) + {q.KeyAt(i - 1)}
  }

  /** The rows indexed under some keys. */
  ghost function Ids<K>(byKey: map<K, nat>, keys: set<K>): set<nat> {
    set k | k in byKey && k in keys :: byKey[k]
  }

  /** No row disappears or changes its key or its target, rows not listed under a payload key stay
      as they are, and new rows hold payload keys that were not listed. */
  ghost predicate Framed(q: Request, now: Table, byKey: map<string, nat>, i: nat, rows: Table)
    requires i <= |q.vars|
  {
    && (forall id | id in now :: id in rows && rows[id].target == now[id].target && rows[id].row.key == now[id].row.key)
    && (forall id | id in now && id !in Ids(byKey, KeysUpTo(q, i)) :: rows[id] == now[id])
    && (forall id | id in rows && id !in now ::
          rows[id].target == q.target && rows[id].row.key in KeysUpTo(q, i) && rows[id].row.key !in byKey)
  }

  lemma SavedFrame(t: Table, rows: Table, id: nat, saved: EnvRow)
    requires id in t && saved.key == t[id].row.key
    ensures
      var u := Saved(t, rows, id, saved);
      && u.Keys == rows.Keys
      && (forall k | k in rows :: u[k].target == rows[k].target && u[k].row.key == rows[k].row.key)
      && (forall k | k in rows && k != id :: u[k] == rows[k])
  {}

  lemma KeysUpToNext(q: Request, byKey: map<string, nat>, i: nat)
    requires 0 < i <= |q.vars|
    ensures
      var key := q.KeyAt(i - 1);
      Ids(byKey, KeysUpTo(q, i)) ==
      Ids(byKey, KeysUpTo(q, i - 1)) + if key in byKey then {byKey[key]} else {}
  {}

  lemma FramedNext(q: Request, t: Table, now: Rows, byKey: map<string, nat>, tx: Tx, i: nat)
    requires Index(t, q.target, byKey) && 0 < i <= |q.vars| && KeepsKey(q)
    requires Framed(q, now.table, byKey, i - 1, tx.rows) && ValidIds(tx.rows, tx.next) && now.next <= tx.next
    requires ValidIds(now.table, now.next) && WriteOne(q, t, byKey, tx, i - 1).Some?
    ensures Framed(q, now.table, byKey, i, WriteOne(q, t, byKey, tx, i - 1).value.rows)
  {
    var key := q.KeyAt(i - 1);
    KeysUpToNext(q, byKey, i);
    if key in byKey {
      SavedFrame(t, tx.rows, byKey[key], q.up(q.vars[i - 1], Current(t, byKey, key), q.nonces(i - 1)).value);
    }
  }

  /** What a transaction on `now` satisfies after i entries: the counters add up, ids are not
      reused, and the frame is kept. */
  ghost predicate Sound(q: Request, now: Rows, byKey: map<string, nat>, i: nat, tx: Tx)
    requires i <= |q.vars|
  {
    Tallied(now, i, tx) && Framed(q, now.table, byKey, i, tx.rows)
  }

  ghost predicate Tallied(now: Rows, i: nat, tx: Tx) {
    && ValidIds(tx.rows, tx.next) && now.next <= tx.next
    && |tx.rows| == |now.table| + tx.created && tx.created + tx.updated == i
    && (forall id | id in tx.rows && id !in now.table :: id >= now.next)
  }

  lemma SoundNext(q: Request, t: Table, now: Rows, byKey: map<string, nat>, tx: Tx, i: nat)
    requires ValidIds(now.table, now.next) && Index(t, q.target, byKey) && 0 < i <= |q.vars| && KeepsKey(q)
    requires Sound(q, now, byKey, i - 1, tx) && WriteOne(q, t, byKey, tx, i - 1).Some?
    ensures Sound(q, now, byKey, i, WriteOne(q, t, byKey, tx, i - 1).value)
  {
    FramedNext(q, t, now, byKey, tx, i);
    TalliedNext(q, t, now, byKey, tx, i);
  }

  lemma TalliedNext(q: Request, t: Table, now: Rows, byKey: map<string, nat>, tx: Tx, i: nat)
    requires 0 < i <= |q.vars| && Tallied(now, i - 1, tx) && WriteOne(q, t, byKey, tx, i - 1).Some?
    ensures Tallied(now, i, WriteOne(q, t, byKey, tx, i - 1).value)
  {
    WriteOneCounts(q, t, byKey, tx, i - 1);
  }

  lemma SoundStart(q: Request, now: Rows, byKey: map<string, nat>)
    requires ValidIds(now.table, now.next)
    ensures Sound(q, now, byKey, 0, Tx(now.table, now.next, 0, 0))
  {}

  lemma {:induction false} WriteFrame(q: Request, t: Table, now: Rows, byKey: map<string, nat>, i: nat)
    requires ValidIds(now.table, now.next) && Index(t, q.target, byKey) && i <= |q.vars| && KeepsKey(q)
    requires WriteUpTo(q, t, now, byKey, i).Some?
    ensures Sound(q, now, byKey, i, WriteUpTo(q, t, now, byKey, i).value)
  {
    if i == 0 {
      SoundStart(q, now, byKey);
    } else {
      WriteFrame(q, t, now, byKey, i - 1);
      SoundNext(q, t, now, byKey, WriteUpTo(q, t, now, byKey, i - 1).value, i);
    }
  }

  lemma WriteOneCounts(q: Request, t: Table, byKey: map<string, nat>, tx: Tx, i: nat)
    requires i < |q.vars| && ValidIds(tx.rows, tx.next) && WriteOne(q, t, byKey, tx, i).Some?
    ensures
      var tx' := WriteOne(q, t, byKey, tx, i).value;
      && ValidIds(tx'.rows, tx'.next) && tx.next <= tx'.next
      && |tx'.rows| - tx'.created == |tx.rows| - tx.created
      && tx'.created + tx'.updated == tx.created + tx.updated + 1
      && forall id | id in tx'.rows && id !in tx.rows :: id == tx.next
  {
    var key := q.KeyAt(i);
    if key in byKey {
      var saved := q.up(q.vars[i], Current(t, byKey, key), q.nonces(i)).value;
      assert Saved(t, tx.rows, byKey[key], saved).Keys == tx.rows.Keys;
      SameKeysSameSize(Saved(t, tx.rows, byKey[key], saved), tx.rows);
    }
  }

  lemma SameKeysSameSize(a: Table, b: Table)
    requires a.Keys == b.Keys
    ensures |a| == |b|
  {
    assert |a.Keys| == |b.Keys|;
  }

  lemma {:induction false} WritePrefix(q: Request, t: Table, now: Rows, byKey: map<string, nat>, i: nat, j: nat)
    requires i <= j <= |q.vars| && WriteUpTo(q, t, now, byKey, j).Some?
    ensures WriteUpTo(q, t, now, byKey, i).Some?
    decreases j
  {
    if i < j {
      WritePrefix(q, t, now, byKey, i, j - 1);
    }
  }

  /** The id the j-th entry is written under: its listed row's, or the next free one. */
  ghost function PlaceOf(q: Request, t: Table, now: Rows, byKey: map<string, nat>, j: nat): nat
    requires j < |q.vars| && WriteUpTo(q, t, now, byKey, j).Some?
  {
    if q.KeyAt(j) in byKey then byKey[q.KeyAt(j)] else WriteUpTo(q, t, now, byKey, j).value.next
  }

  /** What the hooks make of the j-th entry, on the row as listed. */
  ghost function Outcome(q: Request, t: Table, byKey: map<string, nat>, j: nat): Result<EnvRow, HookError>
    requires j < |q.vars|
  {
    q.up(q.vars[j], Current(t, byKey, q.KeyAt(j)), q.nonces(j))
  }

  lemma {:induction false} NextGrows(q: Request, t: Table, now: Rows, byKey: map<string, nat>, j: nat, k: nat)
    requires j <= k <= |q.vars|
    requires WriteUpTo(q, t, now, byKey, k).Some? && WriteUpTo(q, t, now, byKey, j).Some?
    ensures WriteUpTo(q, t, now, byKey, j).value.next <= WriteUpTo(q, t, now, byKey, k).value.next
    decreases k
  {
    if j < k {
      NextGrows(q, t, now, byKey, j, k - 1);
    }
  }

  /** Two entries are written at two places, and new rows get new ids. */
  lemma PlacesDiffer(q: Request, t: Table, now: Rows, byKey: map<string, nat>, j: nat, k: nat)
    requires ValidIds(t, now.next) && Index(t, q.target, byKey) && j < k < |q.vars|
    requires WriteUpTo(q, t, now, byKey, k).Some? && WriteUpTo(q, t, now, byKey, j).Some?
    requires q.KeyAt(j) != q.KeyAt(k) && WriteUpTo(q, t, now, byKey, j + 1).Some?
    ensures PlaceOf(q, t, now, byKey, j) != PlaceOf(q, t, now, byKey, k)
  {
    NextGrows(q, t, now, byKey, 0, j);
    NextGrows(q, t, now, byKey, j + 1, k);
  }

  /** What the j-th entry leaves at its place: a new row, the listed one with the changed fields
      written, or nothing when that one is gone. */
  ghost predicate Landed(q: Request, t: Table, now: Rows, byKey: map<string, nat>, j: nat, rows: Table)
    requires j < |q.vars| && WriteUpTo(q, t, now, byKey, j).Some? && Outcome(q, t, byKey, j).Ok?
  {
    var id, saved := PlaceOf(q, t, now, byKey, j), Outcome(q, t, byKey, j).value;
    if q.KeyAt(j) !in byKey then id in rows && rows[id] == Stored(q.target, saved)
    else if id in now.table && id in t then
      id in rows && rows[id] == Stored(now.table[id].target, Merged(t[id].row, saved, now.table[id].row))
    else id !in rows
  }

  /** An entry leaves every row alone but its own. */
  lemma WriteOneElsewhere(q: Request, t: Table, byKey: map<string, nat>, tx: Tx, i: nat, id: nat)
    requires i < |q.vars| && WriteOne(q, t, byKey, tx, i).Some?
    requires id != if q.KeyAt(i) in byKey then byKey[q.KeyAt(i)] else tx.next
    ensures
      SameAt(WriteOne(q, t, byKey, tx, i).value.rows, tx.rows, id)
  {}

  /** Before its entry's turn a listed row is as it was when the transaction began. */
  lemma {:induction false} NotYetWritten(q: Request, t: Table, now: Rows, byKey: map<string, nat>, i: nat, j: nat)
    requires ValidIds(t, now.next) && Index(t, q.target, byKey) && i <= j < |q.vars| && DistinctKeys(q)
    requires q.KeyAt(j) in byKey && WriteUpTo(q, t, now, byKey, i).Some?
    ensures
      SameAt(WriteUpTo(q, t, now, byKey, i).value.rows, now.table, byKey[q.KeyAt(j)])
    decreases i
  {
    if i > 0 {
      NotYetWritten(q, t, now, byKey, i - 1, j);
      NextGrows(q, t, now, byKey, 0, i - 1);
      WriteOneElsewhere(q, t, byKey, WriteUpTo(q, t, now, byKey, i - 1).value, i - 1, byKey[q.KeyAt(j)]);
    }
  }

  /** An entry lands when its turn comes. */
  lemma LandsAtOnce(q: Request, t: Table, now: Rows, byKey: map<string, nat>, j: nat)
    requires ValidIds(t, now.next) && Index(t, q.target, byKey) && j < |q.vars| && DistinctKeys(q)
    requires WriteUpTo(q, t, now, byKey, j).Some? && WriteUpTo(q, t, now, byKey, j + 1).Some?
    ensures Outcome(q, t, byKey, j).Ok?
    ensures Landed(q, t, now, byKey, j, RowsAt(q, t, now, byKey, j + 1))
  {
    if q.KeyAt(j) in byKey {
      NotYetWritten(q, t, now, byKey, j, j);
    }
  }

  ghost predicate SameAt(a: Table, b: Table, id: nat) {
    (id in a <==> id in b) && (id in a ==> a[id] == b[id])
  }

  /** The rows after k entries. */
  ghost function RowsAt(q: Request, t: Table, now: Rows, byKey: map<string, nat>, k: nat): Table {
    if k <= |q.vars| && WriteUpTo(q, t, now, byKey, k).Some? then WriteUpTo(q, t, now, byKey, k).value.rows else map[]
  }

  lemma StepElsewhere(q: Request, t: Table, now: Rows, byKey: map<string, nat>, j: nat, k: nat)
    requires ValidIds(t, now.next) && Index(t, q.target, byKey) && j < k < |q.vars| && DistinctKeys(q)
    requires WriteUpTo(q, t, now, byKey, j).Some? && WriteUpTo(q, t, now, byKey, k + 1).Some?
    ensures SameAt(RowsAt(q, t, now, byKey, k + 1), RowsAt(q, t, now, byKey, k), PlaceOf(q, t, now, byKey, j))
  {
    WritePrefix(q, t, now, byKey, k, k + 1);
    WritePrefix(q, t, now, byKey, j + 1, k);
    PlacesDiffer(q, t, now, byKey, j, k);
    WriteOneElsewhere(q, t, byKey, WriteUpTo(q, t, now, byKey, k).value, k, PlaceOf(q, t, now, byKey, j));
  }

  /** No later entry touches an entry's row. */
  lemma {:induction false} RowStays(q: Request, t: Table, now: Rows, byKey: map<string, nat>, i: nat, j: nat)
    requires ValidIds(t, now.next) && Index(t, q.target, byKey) && j < i <= |q.vars| && DistinctKeys(q)
    requires WriteUpTo(q, t, now, byKey, i).Some? && WriteUpTo(q, t, now, byKey, j).Some?
    ensures SameAt(RowsAt(q, t, now, byKey, i), RowsAt(q, t, now, byKey, j + 1), PlaceOf(q, t, now, byKey, j))
    decreases i
  {
    if j < i - 1 {
      WritePrefix(q, t, now, byKey, i - 1, i);
      RowStays(q, t, now, byKey, i - 1, j);
      StepElsewhere(q, t, now, byKey, j, i - 1);
    }
  }

  /** Every entry lands, and stays. */
  lemma WriteLands(q: Request, t: Table, now: Rows, byKey: map<string, nat>, i: nat, j: nat)
    requires ValidIds(t, now.next) && Index(t, q.target, byKey) && j < i <= |q.vars| && DistinctKeys(q)
    requires WriteUpTo(q, t, now, byKey, i).Some? && WriteUpTo(q, t, now, byKey, j).Some?
    ensures Outcome(q, t, byKey, j).Ok? && Landed(q, t, now, byKey, j, RowsAt(q, t, now, byKey, i))
  {
    WritePrefix(q, t, now, byKey, j + 1, i);
    LandsAtOnce(q, t, now, byKey, j);
    RowStays(q, t, now, byKey, i, j);
    LandedSame(q, t, now, byKey, j, RowsAt(q, t, now, byKey, j + 1), RowsAt(q, t, now, byKey, i));
  }

  lemma LandedSame(q: Request, t: Table, now: Rows, byKey: map<string, nat>, j: nat, a: Table, b: Table)
    requires j < |q.vars| && WriteUpTo(q, t, now, byKey, j).Some? && Outcome(q, t, byKey, j).Ok?
    requires Landed(q, t, now, byKey, j, a) && SameAt(b, a, PlaceOf(q, t, now, byKey, j))
    ensures Landed(q, t, now, byKey, j, b)
  {}

  // --------------------------------------------------------- the whole request

  /** The rows a replace deletes: those listed under a key the payload does not have. */
  ghost function Victims(q: Request, byKey: map<string, nat>): set<nat> {
    if q.replace then Ids(byKey, byKey.Keys - PayloadKeys(q)) else {}
  }

  /** The table after a committed request that listed `t` and ran on `now`. */
  ghost function Committed(q: Request, t: Table, now: Rows, ids: seq<nat>): Table
    requires Listing(t, q.target, ids) && WriteUpTo(q, t, now, ByKey(t, ids), |q.vars|).Some?
  {
    var byKey := ByKey(t, ids);
    WriteUpTo(q, t, now, byKey, |q.vars|).value.rows - Victims(q, byKey)
  }

  method BuildIndex(t: Table, ids: seq<nat>) returns (byKey: map<string, nat>)
    requires forall i | 0 <= i < |ids| :: ids[i] in t
    ensures byKey == ByKey(t, ids)
  {
    byKey := map[];
    for i := 0 to |ids|
      invariant byKey == ByKey(t, ids[..i])
    {
      assert ids[..i + 1][..i] == ids[..i];
      byKey := byKey[t[ids[i]].row.key := ids[i]];
    }
    assert ids[..|ids|] == ids;
  }

  lemma {:induction false} NoneStaysNone(q: Request, t: Table, now: Rows, byKey: map<string, nat>, i: nat, j: nat)
    requires i <= j <= |q.vars| && WriteUpTo(q, t, now, byKey, i).None?
    ensures WriteUpTo(q, t, now, byKey, j).None?
    decreases j
  {
    if i < j {
      NoneStaysNone(q, t, now, byKey, i, j - 1);
    }
  }

  /** The writing loop. */
  method WriteAll(q: Request, t: Table, now: Rows, byKey: map<string, nat>) returns (tx: Option<Tx>)
    ensures tx == WriteUpTo(q, t, now, byKey, |q.vars|)
  {
    var state := Tx(now.table, now.next, 0, 0);
    for i := 0 to |q.vars|
      invariant WriteUpTo(q, t, now, byKey, i) == Some(state)
    {
      var step := WriteOne(q, t, byKey, state, i);
      if step.None? {
        NoneStaysNone(q, t, now, byKey, i + 1, |q.vars|);
        return None;
      }
      state := step.value;
    }
    tx := Some(state);
  }

  /** The rows left when, of `all` the keys to delete, only `todo` are still to do. */
  ghost function Left<K, V>(rows: map<nat, V>, byKey: map<K, nat>, all: set<K>, todo: set<K>): map<nat, V> {
    rows - Ids(byKey, all - todo)
  }

  /** Dropping one more key drops one more row, if it is still there. */
  lemma DropOne<K, V>(rows: map<nat, V>, byKey: map<K, nat>, all: set<K>, todo: set<K>, k: K)
    requires k in byKey && k in todo && todo <= all
    ensures Left(rows, byKey, all, todo - {k}) == Left(rows, byKey, all, todo) - {byKey[k]}
  {
    var gone := all - todo;
    assert all - (todo - {k}) == gone + {k};
    assert Ids(byKey, gone + {k}) == Ids(byKey, gone) + {byKey[k]};
  }

  lemma LeftEnds<K, V>(rows: map<nat, V>, byKey: map<K, nat>, all: set<K>)
    ensures Left(rows, byKey, all, all) == rows && Left(rows, byKey, all, {}) == rows - Ids(byKey, all)
  {
    assert all - {} == all && all - all == {};
    assert rows - Ids(byKey, {}) == rows;
  }

  /** The deleting loop; the order in which the index is walked does not matter, and a row that is
      gone already counts as deleted. */
  method DeleteOthers<K(==), V>(rows: map<nat, V>, byKey: map<K, nat>, seen: set<K>, ok: K -> bool)
    returns (kept: Option<map<nat, V>>, deleted: nat)
    ensures kept.Some? <==> forall k | k in byKey && k !in seen :: ok(k)
    ensures kept.Some? ==> kept.value == rows - Ids(byKey, byKey.Keys - seen) && deleted == |byKey.Keys - seen|
  {
    var victims := byKey.Keys - seen;
    var tx, todo := rows, victims;
    deleted := 0;
    LeftEnds(rows, byKey, victims);
    while todo != {}
      invariant todo <= victims
      invariant tx == Left(rows, byKey, victims, todo) && |todo| + deleted == |victims|
      invariant forall k | k in victims && k !in todo :: ok(k)
      decreases todo
    {
      var k :| k in todo;
      if !ok(k) {
        return None, 0;
      }
      DropOne(rows, byKey, victims, todo, k);
      tx, deleted, todo := tx - {byKey[k]}, deleted + 1, todo - {k};
    }
    kept := Some(tx);
  }

  /** Taking rows out makes a table smaller by those it had. */
  lemma {:induction false} MinusSize(t: Table, gone: set<nat>)
    ensures |t - gone| == |t| - |gone * t.Keys|
    decreases |gone|
  {
    assert (t - gone).Keys == t.Keys - gone;
    assert |t - gone| == |(t - gone).Keys| && |t| == |t.Keys|;
    assert t.Keys == (t.Keys - gone) + (gone * t.Keys);
  }

  /** The rows to delete are among those the transaction found, or gone. */
  lemma VictimsAreOld(q: Request, t: Table, now: Rows, byKey: map<string, nat>, tx: Tx)
    requires Index(t, q.target, byKey) && ValidIds(t, now.next) && Sound(q, now, byKey, |q.vars|, tx)
    ensures Victims(q, byKey) * tx.rows.Keys == Victims(q, byKey) * now.table.Keys
  {
    forall id | id in Victims(q, byKey) && id in tx.rows
      ensures id in now.table
    {
      assert id in t;
    }
  }

  /** How many rows a committed request leaves. */
  lemma CommittedSize(q: Request, t: Table, now: Rows, ids: seq<nat>)
    requires ValidIds(t, now.next) && ValidIds(now.table, now.next) && Listing(t, q.target, ids) && KeepsKey(q)
    requires WriteUpTo(q, t, now, ByKey(t, ids), |q.vars|).Some?
    ensures
      var byKey := ByKey(t, ids);
      var tx := WriteUpTo(q, t, now, byKey, |q.vars|).value;
      && tx.created + tx.updated == |q.vars|
      && |Committed(q, t, now, ids)| == |now.table| + tx.created - |Victims(q, byKey) * now.table.Keys|
  {
    var byKey := ByKey(t, ids);
    var tx := WriteUpTo(q, t, now, byKey, |q.vars|).value;
    WriteFrame(q, t, now, byKey, |q.vars|);
    VictimsAreOld(q, t, now, byKey, tx);
    MinusSize(tx.rows, Victims(q, byKey));
  }

  class EnvTable {
    var rows: Table
    var next: nat

    /** Other requests write. */
    method Yield(cs: seq<Change>)
      modifies this
      ensures Rows(rows, next) == Disturbed(Rows(old(rows), old(next)), cs)
    {
      for i := 0 to |cs|
        invariant Rows(rows, next) == Disturbed(Rows(old(rows), old(next)), cs[..i])
      {
        assert cs[..i + 1][..i] == cs[..i];
        match cs[i]
        case Add(st) => rows, next := rows[next := st], next + 1;
        case Put(id, st) =>
          if id in rows {
            rows := rows[id := st];
          }
        case Drop(id) => rows := rows - {id};
      }
      assert cs[..|cs|] == cs;
    }

    /** `runBulkUpsertEnvVars`: lists the rows, and only then opens the transaction; others may write
        in between. A failure anywhere leaves what they left. A row to delete counts as deleted
        even when it is gone by then. */
    method RunBulkUpsert(q: Request, ids: seq<nat>, seen: set<string>, between: seq<Change>) returns (r: Option<Counts>)
      requires ValidIds(rows, next) && Listing(rows, q.target, ids) && seen == PayloadKeys(q) && KeepsKey(q)
      modifies this
      ensures
        var now := Disturbed(Rows(old(rows), old(next)), between);
        var byKey := ByKey(old(rows), ids);
        && (r.Some? <==>
              && WriteUpTo(q, old(rows), now, byKey, |q.vars|).Some?
              && (q.replace ==> forall k | k in byKey && k !in seen :: q.deletes(k)))
        && (r.None? ==> rows == now.table && next == now.next)
        && (r.Some? ==>
              && rows == Committed(q, old(rows), now, ids)
              && r.value.created + r.value.updated == |q.vars|
              && r.value.deleted == (if q.replace then |byKey.Keys - seen| else 0)
              && |rows| == |now.table| + r.value.created - |Victims(q, byKey) * now.table.Keys|)
    {
      var t := rows;
      var byKey := BuildIndex(rows, ids);
      ghost var listed := Rows(rows, next);
      Yield(between);
      var now := Rows(rows, next);
      DisturbedIds(listed, between);
      var tx := WriteAll(q, t, now, byKey);
      if tx.None? {
        return None;
      }
      CommittedSize(q, t, now, ids);
      var after, deleted := tx.value.rows, 0;
      if q.replace {
        var kept;
        kept, deleted := DeleteOthers(after, byKey, seen, q.deletes);
        if kept.None? {
          return None;
        }
        after := kept.value;
      }
      assert after == tx.value.rows - Victims(q, byKey);
      rows, next := after, tx.value.next;
      r := Some(Counts(tx.value.created, tx.value.updated, deleted));
    }
  }
}
