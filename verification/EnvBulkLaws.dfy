/** What a committed bulk request means for the table, whatever others wrote since it was listed. */
module EnvBulkLaws {
  import opened Prelude
  import opened Sealing
  import opened EnvSecrets
  import opened EnvOverlap
  import opened EnvBulk

  // ------------------------------------------------ what a committed request means

  lemma HooksKeepKey(s: Server, v: Var, current: Option<EnvRow>, nonce: nat)
    ensures UpsertOf(s)(v, current, nonce).Ok? ==> UpsertOf(s)(v, current, nonce).value.key == Trim(v.key)
  {
    TrimSpec(v.key);
  }

  lemma {:induction false} KeysUpToIsPayload(q: Request, i: nat)
    requires i <= |q.vars|
    ensures KeysUpTo(q, i) == set j | 0 <= j < i :: q.KeyAt(j)
  {
    if i > 0 {
      KeysUpToIsPayload(q, i - 1);
    }
  }

  /** A committed request: what it listed, and what its transaction found. */
  ghost predicate Commits(q: Request, t: Table, now: Rows, ids: seq<nat>) {
    && ValidIds(t, now.next) && ValidIds(now.table, now.next) && Listing(t, q.target, ids)
    && KeepsKey(q) && DistinctKeys(q)
    && WriteUpTo(q, t, now, ByKey(t, ids), |q.vars|).Some?
  }

  /** Every payload entry is committed: a new row holds what the hooks made of it; the listed row,
      if it is still there, has the changed fields; a row that is gone stays gone. */
  lemma EntriesAreCommitted(q: Request, t: Table, now: Rows, ids: seq<nat>, j: nat)
    requires Commits(q, t, now, ids) && j < |q.vars|
    ensures
      var byKey := ByKey(t, ids);
      && WriteUpTo(q, t, now, byKey, j).Some? && Outcome(q, t, byKey, j).Ok?
      && Landed(q, t, now, byKey, j, Committed(q, t, now, ids))
  {
    var byKey := ByKey(t, ids);
    WritePrefix(q, t, now, byKey, j, |q.vars|);
    WriteLands(q, t, now, byKey, |q.vars|, j);
    NextGrows(q, t, now, byKey, 0, j);
    PlaceIsKept(q, t, byKey, j, PlaceOf(q, t, now, byKey, j), now.next);
    LandedSame(q, t, now, byKey, j, RowsAt(q, t, now, byKey, |q.vars|), Committed(q, t, now, ids));
  }

  /** No entry is written where a row is deleted. */
  lemma PlaceIsKept(q: Request, t: Table, byKey: map<string, nat>, j: nat, id: nat, next: nat)
    requires Index(t, q.target, byKey) && ValidIds(t, next) && j < |q.vars|
    requires if q.KeyAt(j) in byKey then id == byKey[q.KeyAt(j)] else id >= next
    ensures id !in Victims(q, byKey)
  {
    assert q.KeyAt(j) in PayloadKeys(q);
  }

  /** Rows that were not listed are as the transaction found them, and what is new belongs to the
      target. */
  lemma OthersUntouched(q: Request, t: Table, now: Rows, ids: seq<nat>, id: nat)
    requires Commits(q, t, now, ids)
    ensures
      var u, byKey := Committed(q, t, now, ids), ByKey(t, ids);
      && (id in now.table && id !in Ids(byKey, byKey.Keys) ==> id in u && u[id] == now.table[id])
      && (id in u && id !in now.table ==> u[id].target == q.target && u[id].row.key in PayloadKeys(q))
  {
    var byKey := ByKey(t, ids);
    WriteFrame(q, t, now, byKey, |q.vars|);
    KeysUpToIsPayload(q, |q.vars|);
  }

  /** The keys of the target's rows that the transaction found and does not delete. */
  ghost function Remaining(q: Request, now: Table, byKey: map<string, nat>): set<string> {
    set id | id in now && now[id].target == q.target && id !in Victims(q, byKey) :: now[id].row.key
  }

  /** What the rows found contribute to the keys left, and what can be added. */
  lemma KeysLeft(q: Request, now: Table, byKey: map<string, nat>, rows: Table)
    requires Framed(q, now, byKey, |q.vars|, rows) && KeysUpTo(q, |q.vars|) == PayloadKeys(q)
    ensures
      var left := KeysOf(rows - Victims(q, byKey), q.target);
      Remaining(q, now, byKey) <= left <= Remaining(q, now, byKey) + (PayloadKeys(q) - byKey.Keys)
  {
    var u := rows - Victims(q, byKey);
    forall k | k in Remaining(q, now, byKey)
      ensures k in KeysOf(u, q.target)
    {
      var id :| id in now && now[id].target == q.target && id !in Victims(q, byKey) && now[id].row.key == k;
      assert id in u && u[id].target == q.target && u[id].row.key == k;
    }
  }

  lemma NewKeyIsLeft(q: Request, t: Table, now: Rows, ids: seq<nat>, k: string)
    requires Commits(q, t, now, ids) && k in PayloadKeys(q) && k !in ByKey(t, ids)
    ensures k in KeysOf(Committed(q, t, now, ids), q.target)
  {
    var j :| 0 <= j < |q.vars| && q.KeyAt(j) == k;
    EntriesAreCommitted(q, t, now, ids, j);
    var id := PlaceOf(q, t, now, ByKey(t, ids), j);
    assert Committed(q, t, now, ids)[id].row.key == k;
  }

  /** The keys a committed request leaves. */
  lemma CommittedKeys(q: Request, t: Table, now: Rows, ids: seq<nat>)
    requires Commits(q, t, now, ids)
    ensures
      var byKey := ByKey(t, ids);
      KeysOf(Committed(q, t, now, ids), q.target) == Remaining(q, now.table, byKey) + (PayloadKeys(q) - byKey.Keys)
  {
    FoundKeysLeft(q, t, now, ids);
    NewKeysLeft(q, t, now, ids);
  }

  lemma FoundKeysLeft(q: Request, t: Table, now: Rows, ids: seq<nat>)
    requires Commits(q, t, now, ids)
    ensures
      var byKey, left := ByKey(t, ids), KeysOf(Committed(q, t, now, ids), q.target);
      Remaining(q, now.table, byKey) <= left <= Remaining(q, now.table, byKey) + (PayloadKeys(q) - byKey.Keys)
  {
    var byKey := ByKey(t, ids);
    WriteFrame(q, t, now, byKey, |q.vars|);
    KeysUpToIsPayload(q, |q.vars|);
    KeysLeft(q, now.table, byKey, WriteUpTo(q, t, now, byKey, |q.vars|).value.rows);
  }

  lemma NewKeysLeft(q: Request, t: Table, now: Rows, ids: seq<nat>)
    requires Commits(q, t, now, ids)
    ensures PayloadKeys(q) - ByKey(t, ids).Keys <= KeysOf(Committed(q, t, now, ids), q.target)
  {
    forall k | k in PayloadKeys(q) && k !in ByKey(t, ids)
      ensures k in KeysOf(Committed(q, t, now, ids), q.target)
    {
      NewKeyIsLeft(q, t, now, ids, k);
    }
  }

  /** A replace leaves exactly the payload's keys if and only if every row of the target that its
      transaction finds and does not delete is under a payload key, and every payload key that was
      listed still has such a row. */
  lemma ReplaceLeavesPayload(q: Request, t: Table, now: Rows, ids: seq<nat>)
    requires Commits(q, t, now, ids) && q.replace
    ensures
      var byKey := ByKey(t, ids);
      KeysOf(Committed(q, t, now, ids), q.target) == PayloadKeys(q) <==>
      && (forall id | id in now.table && now.table[id].target == q.target && id !in Victims(q, byKey) ::
            now.table[id].row.key in PayloadKeys(q))
      && (forall k | k in PayloadKeys(q) && k in byKey :: k in Remaining(q, now.table, byKey))
  {
    CommittedKeys(q, t, now, ids);
    UnionIsPayload(Remaining(q, now.table, ByKey(t, ids)), PayloadKeys(q), ByKey(t, ids).Keys);
    RemainingWithin(q, now.table, ByKey(t, ids), PayloadKeys(q));
  }

  lemma UnionIsPayload(found: set<string>, payload: set<string>, listed: set<string>)
    ensures found + (payload - listed) == payload <==> found <= payload && payload * listed <= found
  {}

  lemma RemainingWithin(q: Request, now: Table, byKey: map<string, nat>, payload: set<string>)
    ensures Remaining(q, now, byKey) <= payload <==>
            forall id | id in now && now[id].target == q.target && id !in Victims(q, byKey) ::
              now[id].row.key in payload
  {
    if Remaining(q, now, byKey) <= payload {
      forall id | id in now && now[id].target == q.target && id !in Victims(q, byKey)
        ensures now[id].row.key in payload
      {
        assert now[id].row.key in Remaining(q, now, byKey);
      }
    }
  }

  /** An append leaves the union of the keys if and only if every payload key that was listed still
      has a row. */
  lemma AppendLeavesUnion(q: Request, t: Table, now: Rows, ids: seq<nat>)
    requires Commits(q, t, now, ids) && !q.replace
    ensures
      KeysOf(Committed(q, t, now, ids), q.target) == KeysOf(now.table, q.target) + PayloadKeys(q) <==>
      forall k | k in PayloadKeys(q) && k in ByKey(t, ids) :: k in KeysOf(now.table, q.target)
  {
    CommittedKeys(q, t, now, ids);
    assert Remaining(q, now.table, ByKey(t, ids)) == KeysOf(now.table, q.target);
  }

  /** Distinct keys index distinct rows. */
  lemma {:induction false} IdsSize(t: Table, target: nat, byKey: map<string, nat>, keys: set<string>)
    requires Index(t, target, byKey) && keys <= byKey.Keys
    ensures |Ids(byKey, keys)| == |keys|
    decreases |keys|
  {
    if keys != {} {
      var k :| k in keys;
      IdsSize(t, target, byKey, keys - {k});
      assert Ids(byKey, keys) == Ids(byKey, keys - {k}) + {byKey[k]};
    }
  }

  lemma SubsetBySize(a: set<nat>, b: set<nat>)
    ensures |a * b| == |a| <==> a <= b
  {
    assert a == (a * b) + (a - b);
    assert |a| == |a * b| + |a - b|;
    if |a - b| == 0 {
      assert a - b == {};
    }
  }

  /** The counters of a replace account for the table, after = before + created - deleted, if and
      only if every row it deletes is still there. */
  lemma CountersAddUpIff(q: Request, t: Table, now: Rows, ids: seq<nat>)
    requires Commits(q, t, now, ids) && q.replace
    ensures
      var byKey := ByKey(t, ids);
      var created := WriteUpTo(q, t, now, byKey, |q.vars|).value.created;
      |Committed(q, t, now, ids)| == |now.table| + created - |byKey.Keys - PayloadKeys(q)| <==>
      Victims(q, byKey) <= now.table.Keys
  {
    var byKey := ByKey(t, ids);
    CommittedSize(q, t, now, ids);
    VictimCount(q, t, byKey);
    SubsetBySize(Victims(q, byKey), now.table.Keys);
  }

  lemma VictimCount(q: Request, t: Table, byKey: map<string, nat>)
    requires Index(t, q.target, byKey) && q.replace
    ensures |Victims(q, byKey)| == |byKey.Keys - PayloadKeys(q)|
  {
    IdsSize(t, q.target, byKey, byKey.Keys - PayloadKeys(q));
  }

  // ------------------------------------------------------------------- secret rows

  /** What the hooks make of a blank or masked entry on an internal secret that stays secret. */
  lemma UntouchedOutcome(s: Server, v: Var, listed: EnvRow, nonce: nat)
    requires Lawful(s.aead) && InternalSecret(listed) && Decent(s, listed) && v.secret && Untouched(v.value)
    requires UpsertOf(s)(v, Some(listed), nonce).Ok?
    ensures
      var saved := UpsertOf(s)(v, Some(listed), nonce).value;
      && InternalSecret(saved)
      && saved.value == if v.value == SENTINEL && listed.value == "" then SENTINEL else listed.value
  {}

  /** A still-secret internal row sent blank or masked keeps the value it has by then, whatever
      others have made of it; save that a mask sent for a row listed blank is itself stored. */
  lemma BlankKeepsSecret(s: Server, q: Request, t: Table, now: Rows, ids: seq<nat>, j: nat, id: nat)
    requires Commits(q, t, now, ids) && j < |q.vars| && q.up == UpsertOf(s) && Lawful(s.aead)
    requires q.KeyAt(j) in ByKey(t, ids) && id == ByKey(t, ids)[q.KeyAt(j)] && id in now.table
    requires q.vars[j].secret && Untouched(q.vars[j].value) && InternalSecret(t[id].row) && Decent(s, t[id].row)
    ensures
      var u := Committed(q, t, now, ids);
      && id in u && (InternalSecret(now.table[id].row) ==> InternalSecret(u[id].row))
      && u[id].row.value == if q.vars[j].value == SENTINEL && t[id].row.value == "" then SENTINEL
                            else now.table[id].row.value
  {
    EntriesAreCommitted(q, t, now, ids, j);
    UntouchedOutcome(s, q.vars[j], t[id].row, q.nonces(j));
  }

  /** A listed row that is still there gets the fields the save changed. */
  lemma EntryMerges(q: Request, t: Table, now: Rows, ids: seq<nat>, j: nat, id: nat)
    requires Commits(q, t, now, ids) && j < |q.vars|
    requires q.KeyAt(j) in ByKey(t, ids) && id == ByKey(t, ids)[q.KeyAt(j)] && id in now.table
    ensures
      var u, saved := Committed(q, t, now, ids), q.up(q.vars[j], Some(t[id].row), q.nonces(j));
      id in u && saved.Ok? && u[id].row == Merged(t[id].row, saved.value, now.table[id].row)
  {
    EntriesAreCommitted(q, t, now, ids, j);
  }

  lemma LateUpsert(s: Server, v: Var, was: EnvRow, nonce: nat, base: nat, now: EnvRow)
    requires UpsertOf(s)(v, Some(was), nonce).Ok?
    ensures Merged(was, UpsertOf(s)(v, Some(was), nonce).value, now) ==
            Step(s, was, Late(base, Sent(v, Some(was)), nonce), now)
  {}

  /** What a committed request does to a listed row that is still there is a late write of it: loaded
      when the row was listed, saved onto what the transaction finds. The laws of overlapping
      histories are therefore laws of bulk requests. */
  lemma CommitIsLateWrite(s: Server, q: Request, t: Table, now: Rows, ids: seq<nat>, j: nat, id: nat, start: EnvRow,
                          ws: seq<Late>, base: nat)
    requires Commits(q, t, now, ids) && j < |q.vars| && q.up == UpsertOf(s)
    requires q.KeyAt(j) in ByKey(t, ids) && id == ByKey(t, ids)[q.KeyAt(j)] && id in now.table
    requires Based(ws) && base <= |ws|
    requires t[id].row == At(s, start, ws, base) && now.table[id].row == At(s, start, ws, |ws|)
    ensures
      var u, w := Committed(q, t, now, ids), Late(base, Sent(q.vars[j], Some(t[id].row)), q.nonces(j));
      id in u && Based(ws + [w]) && u[id].row == At(s, start, ws + [w], |ws| + 1)
  {
    var w := Late(base, Sent(q.vars[j], Some(t[id].row)), q.nonces(j));
    EntryMerges(q, t, now, ids, j, id);
    LateUpsert(s, q.vars[j], t[id].row, q.nonces(j), base, now.table[id].row);
    OneMore(s, start, ws, w);
  }

  // ------------------------------------------------------------- nobody in between

  /** A key outside the payload that two of the target's rows share. */
  ghost predicate Stray(t: Table, target: nat, payload: set<string>, i: nat, j: nat) {
    && i in t && j in t && i != j && t[i].target == target && t[j].target == target
    && t[i].row.key == t[j].row.key && t[i].row.key !in payload
  }

  /** When nobody writes in between, a replace leaves exactly the payload's keys if and only if no
      key outside the payload was stored twice for the target. */
  lemma UndisturbedReplace(q: Request, t: Table, next: nat, ids: seq<nat>)
    requires Commits(q, t, Rows(t, next), ids) && q.replace
    ensures KeysOf(Committed(q, t, Rows(t, next), ids), q.target) == PayloadKeys(q)
            <==> !exists i: nat, j: nat :: Stray(t, q.target, PayloadKeys(q), i, j)
  {
    var byKey, payload := ByKey(t, ids), PayloadKeys(q);
    ReplaceLeavesPayload(q, t, Rows(t, next), ids);
    forall k | k in payload && k in byKey
      ensures k in Remaining(q, t, byKey)
    {
      assert byKey[k] !in Victims(q, byKey);
    }
    if i: nat, j: nat :| Stray(t, q.target, payload, i, j) {
      StrayIsLeft(q, t, ids, i, j);
    }
    if id :| id in t && t[id].target == q.target && id !in Victims(q, byKey) && t[id].row.key !in payload {
      LeftIsStray(q, t, ids, id);
    }
  }

  lemma StrayIsLeft(q: Request, t: Table, ids: seq<nat>, i: nat, j: nat)
    requires Listing(t, q.target, ids) && q.replace && Stray(t, q.target, PayloadKeys(q), i, j)
    ensures exists id :: id in t && t[id].target == q.target && id !in Victims(q, ByKey(t, ids))
                         && t[id].row.key !in PayloadKeys(q)
  {
    var byKey := ByKey(t, ids);
    var left := if byKey[t[i].row.key] == i then j else i;
    assert left !in Victims(q, byKey);
  }

  lemma LeftIsStray(q: Request, t: Table, ids: seq<nat>, id: nat)
    requires Listing(t, q.target, ids) && q.replace && id in t && t[id].target == q.target
    requires id !in Victims(q, ByKey(t, ids)) && t[id].row.key !in PayloadKeys(q)
    ensures Stray(t, q.target, PayloadKeys(q), id, ByKey(t, ids)[t[id].row.key])
  {
    var byKey, k := ByKey(t, ids), t[id].row.key;
    assert id in ids && k in byKey;
    assert byKey[k] in Victims(q, byKey);
  }

  // ------------------------------------------------------------------ the instances

  /** A replace with one variable, every save and delete of which succeeds. */
  ghost function OneVar(s: Server, v: Var): Request {
    Request(7, true, [v], (v: Var) => Trim(v.key), UpsertOf(s), i => i, i => true, k => true)
  }

  /** A key of one letter. */
  ghost predicate Letters(key: string) {
    |key| == 1 && !IsSpace(key[0])
  }

  lemma OneVarKeeps(s: Server, v: Var)
    requires Letters(v.key)
    ensures
      var q := OneVar(s, v);
      Trims(q) && KeepsKey(q) && DistinctKeys(q) && PayloadKeys(q) == {v.key} && q.KeyAt(0) == v.key
  {
    var q := OneVar(s, v);
    forall v, c, n | q.up(v, c, n).Ok?
      ensures q.up(v, c, n).value.key == q.keyOf(v)
    {
      HooksKeepKey(s, v, c, n);
    }
    assert Trim(v.key) == v.key;
    assert q.vars[0] == v && q.KeyAt(0) in PayloadKeys(q);
    assert forall i | 0 <= i < |q.vars| :: q.KeyAt(i) == v.key;
  }

  ghost function PlainVar(key: string): Var {
    Var(key, "y", false, "")
  }

  /** A plain one commits on any table where its key was not listed. */
  lemma OneVarCommits(s: Server, key: string, t: Table, now: Rows, ids: seq<nat>)
    requires Letters(key) && ValidIds(t, now.next) && ValidIds(now.table, now.next) && Listing(t, 7, ids)
    requires key !in ByKey(t, ids)
    ensures
      var q := OneVar(s, PlainVar(key));
      && Commits(q, t, now, ids)
      && Committed(q, t, now, ids)
         == now.table[now.next := Stored(7, EnvRow(key, "y", false, ""))] - Victims(q, ByKey(t, ids))
  {
    OneVarKeeps(s, PlainVar(key));
    var q, byKey := OneVar(s, PlainVar(key)), ByKey(t, ids);
    assert Trim(key) == key;
    assert WriteUpTo(q, t, now, byKey, 0) == Some(Tx(now.table, now.next, 0, 0));
    assert WriteUpTo(q, t, now, byKey, 1) ==
           Some(Tx(now.table[now.next := Stored(7, EnvRow(key, "y", false, ""))], now.next + 1, 1, 0));
  }

  /** Two replaces of an empty target, both of which list it before either commits, leave both
      payloads: the second one's payload is one key, and two are left. */
  lemma TwoReplacesLeaveBoth(s: Server) returns (a: Request, b: Request, middle: Table)
    ensures a.replace && b.replace && Trims(a) && Trims(b) && a.target == b.target
    ensures PayloadKeys(a) == {"A"} && PayloadKeys(b) == {"B"}
    ensures Commits(a, map[], Rows(map[], 0), []) && middle == Committed(a, map[], Rows(map[], 0), [])
    ensures Commits(b, map[], Rows(middle, 1), [])
    ensures KeysOf(Committed(b, map[], Rows(middle, 1), []), b.target) == {"A", "B"}
  {
    a, b := OneVar(s, PlainVar("A")), OneVar(s, PlainVar("B"));
    OneVarKeeps(s, PlainVar("A"));
    OneVarKeeps(s, PlainVar("B"));
    OneVarCommits(s, "A", map[], Rows(map[], 0), []);
    middle := Committed(a, map[], Rows(map[], 0), []);
    assert Victims(a, map[]) == {} && Victims(b, map[]) == {};
    var first, second := EnvRow("A", "y", false, ""), EnvRow("B", "y", false, "");
    assert middle == map[0 := Stored(7, first)];
    OneVarCommits(s, "B", map[], Rows(middle, 1), []);
    var end := Committed(b, map[], Rows(middle, 1), []);
    assert end == map[0 := Stored(7, first), 1 := Stored(7, second)];
    assert end[0].row.key == "A" && end[1].row.key == "B";
  }

  /** A replace nobody disturbs that leaves a key the payload does not have: the target has two rows
      under one key. */
  lemma StrayKeySurvives(s: Server) returns (q: Request, t: Table, ids: seq<nat>)
    ensures q.replace && Trims(q) && q.up == UpsertOf(s) && Commits(q, t, Rows(t, 2), ids)
    ensures PayloadKeys(q) == {"B"} && "A" in KeysOf(Committed(q, t, Rows(t, 2), ids), q.target)
  {
    var row := EnvRow("A", "x", false, "");
    t, ids, q := map[0 := Stored(7, row), 1 := Stored(7, row)], [0, 1], OneVar(s, PlainVar("B"));
    assert ids[..1] == [0] && ids[..1][..0] == [];
    var byKey := ByKey(t, ids);
    assert byKey == map["A" := 1];
    OneVarKeeps(s, PlainVar("B"));
    OneVarCommits(s, "B", t, Rows(t, 2), ids);
    assert 0 !in Victims(q, byKey);
    var u := Committed(q, t, Rows(t, 2), ids);
    assert 0 in u && u[0] == Stored(7, row);
  }

  /** The table with one row. */
  ghost function OneRow(row: EnvRow): Table {
    map[0 := Stored(7, row)]
  }

  /** A request with one variable that lists its row as `listed` and finds it as `found`. */
  lemma OneVarOverwrites(s: Server, v: Var, listed: EnvRow, found: EnvRow)
    requires Letters(v.key) && listed.key == v.key && UpsertOf(s)(v, Some(listed), 0).Ok?
    ensures
      var q, now := OneVar(s, v), Rows(OneRow(found), 1);
      && Trims(q) && Commits(q, OneRow(listed), now, [0])
      && 0 in Committed(q, OneRow(listed), now, [0])
      && Committed(q, OneRow(listed), now, [0])[0].row ==
         Merged(listed, UpsertOf(s)(v, Some(listed), 0).value, found)
  {
    var q, t, now, ids := OneVar(s, v), OneRow(listed), Rows(OneRow(found), 1), [0];
    OneVarKeeps(s, v);
    assert ids[..0] == [];
    var byKey := ByKey(t, ids);
    assert byKey == map[v.key := 0];
    assert WriteUpTo(q, t, now, byKey, 0) == Some(Tx(now.table, 1, 0, 0));
    assert WriteUpTo(q, t, now, byKey, 1).Some?;
    EntriesAreCommitted(q, t, now, ids, 0);
  }

  /** A bulk request that lists a plain row, and finds it made secret by its transaction: the plain
      value it sends ends up under the secret flag. */
  lemma PlainValueInSecretRow(s: Server, sealed: string)
    requires s.aead.open("y").None?
    ensures
      var q, listed := OneVar(s, PlainVar("A")), EnvRow("A", "x", false, "");
      var found := EnvRow("A", sealed, true, "internal");
      && Commits(q, OneRow(listed), Rows(OneRow(found), 1), [0])
      && var u := Committed(q, OneRow(listed), Rows(OneRow(found), 1), [0]);
         0 in u && InternalSecret(u[0].row) && !Decent(s, u[0].row)
  {
    assert Trim("A") == "A";
    OneVarOverwrites(s, PlainVar("A"), EnvRow("A", "x", false, ""), EnvRow("A", sealed, true, "internal"));
  }

  /** A reference into an external store. */
  ghost function VaultVar(): Var {
    Var("A", "m/data/p#f", true, "vault")
  }

  /** A bulk request that lists a plain row, and finds it made an internal secret by its transaction,
      moves the secret to another provider. */
  lemma StaleRequestMovesProvider(s: Server, sealed: string)
    requires s.validReference("vault", "m/data/p#f")
    ensures
      var q, listed := OneVar(s, VaultVar()), EnvRow("A", "x", false, "");
      var found := EnvRow("A", sealed, true, "internal");
      && Commits(q, OneRow(listed), Rows(OneRow(found), 1), [0])
      && var u := Committed(q, OneRow(listed), Rows(OneRow(found), 1), [0]);
         0 in u && u[0].row == EnvRow("A", "m/data/p#f", true, "vault")
  {
    assert Trim("A") == "A";
    OneVarOverwrites(s, VaultVar(), EnvRow("A", "x", false, ""), EnvRow("A", sealed, true, "internal"));
  }

  /** Both the request and whoever wrote in between make the row secret, for different providers: the
      reference ends up as the value of an internal secret. */
  lemma ReferenceInInternalSecret(s: Server, sealed: string)
    requires s.validReference("vault", "m/data/p#f") && s.aead.open("m/data/p#f").None?
    ensures
      var q, listed := OneVar(s, VaultVar()), EnvRow("A", "x", false, "vault");
      var found := EnvRow("A", sealed, true, "internal");
      && Commits(q, OneRow(listed), Rows(OneRow(found), 1), [0])
      && var u := Committed(q, OneRow(listed), Rows(OneRow(found), 1), [0]);
         0 in u && u[0].row == EnvRow("A", "m/data/p#f", true, "internal") && !Decent(s, u[0].row)
  {
    assert Trim("A") == "A";
    OneVarOverwrites(s, VaultVar(), EnvRow("A", "x", false, "vault"), EnvRow("A", sealed, true, "internal"));
  }
}
