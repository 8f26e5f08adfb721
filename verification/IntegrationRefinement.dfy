/** The store behaves as a plain map of plaintexts, and a masked config saved back
    changes nothing. */
module IntegrationRefinement {
  import opened Prelude
  import opened Sealing
  import opened IntegrationModel

  // ------------------------------------------------- what every save maintains

  ghost predicate ItemSound(it: Item, a: Aead) {
    it.Entry? && TextOf(it.m, "value").Some? && TextOf(it.m, "value").value != "" ==>
      var p := a.open(TextOf(it.m, "value").value); p.Some? && p.value != ""
  }

  ghost predicate FieldSound(f: Field, a: Aead) {
    match f
    case Str(s) => s != "" ==> a.open(s).Some? && a.open(s).value != ""
    case List(items) => forall i | 0 <= i < |items| :: ItemSound(items[i], a)
    case Opaque(_) => true
  }

  /** Every non-empty string of an encrypted field is the ciphertext of a non-empty plaintext. */
  ghost predicate Sound(d: Descriptor, stored: Config, a: Aead) {
    forall key | key in stored && Encrypted(d, key) :: FieldSound(stored[key], a)
  }

  lemma SoundOpens(d: Descriptor, stored: Config, a: Aead)
    requires Sound(d, stored, a)
    ensures Opens(d, stored, a)
  {
    forall key | key in stored && Encrypted(d, key)
      ensures FieldOpens(stored[key], a)
    {
      assert FieldSound(stored[key], a);
    }
  }

  lemma EncryptedIsSensitive(d: Descriptor, key: string)
    requires Conforms(d) && Encrypted(d, key)
    ensures Sensitive(d, key)
  {}

  // --------------------------------------------- opening commutes with looking up

  ghost function Opened(items: seq<Item>, a: Aead): seq<Item>
    requires forall i | 0 <= i < |items| :: OpenedItem(items[i], a).Some?
  {
    seq(|items|, i requires 0 <= i < |items| => OpenedItem(items[i], a).value)
  }

  lemma {:induction false} LookupOpened(items: seq<Item>, key: string, a: Aead)
    requires forall i | 0 <= i < |items| :: ItemSound(items[i], a)
    requires forall i | 0 <= i < |items| :: OpenedItem(items[i], a).Some?
    ensures
      match Lookup(items, key)
      case None => Lookup(Opened(items, a), key) == None
      case Some(v) =>
        if v == "" then Lookup(Opened(items, a), key) == Some("")
        else a.open(v).Some? && a.open(v).value != "" && Lookup(Opened(items, a), key) == a.open(v)
    decreases |items|
  {
    if items != [] {
      var n := |items| - 1;
      LookupOpened(items[..n], key, a);
      assert Opened(items, a)[..n] == Opened(items[..n], a);
      assert Opened(items, a)[n] == OpenedItem(items[n], a).value;
      assert ItemSound(items[n], a);
    }
  }

  lemma ItemRefines(it: Item, prevs: seq<Item>, a: Aead, nonce: nat)
    requires Lawful(a) && (forall i | 0 <= i < |prevs| :: ItemSound(prevs[i], a))
    requires forall i | 0 <= i < |prevs| :: OpenedItem(prevs[i], a).Some?
    ensures ItemResolves(it, prevs) <==> ItemResolves(it, Opened(prevs, a))
    ensures ItemResolves(it, prevs) ==>
              && ItemSound(SavedItem(it, prevs, a, nonce), a)
              && OpenedItem(SavedItem(it, prevs, a, nonce), a) == Some(ResolvedItem(it, Opened(prevs, a)))
  {
    if it.Entry? {
      LookupOpened(prevs, KeyOf(it.m), a);
      var v := TextOf(it.m, "value");
      if v.Some? {
        assert WithValue(it.m, v.value) == it.m;
        assert forall x, y :: WithValue(WithValue(it.m, x), y) == WithValue(it.m, y);
      }
    }
  }

  ghost function OpenedPrev(prev: Option<Field>, a: Aead): Option<Field>
    requires prev.Some? ==> FieldOpens(prev.value, a)
  {
    if prev.Some? then Some(OpenedField(prev.value, a)) else None
  }

  lemma FieldRefines(key: string, f: Field, prev: Option<Field>, a: Aead, n: Nonces)
    requires Lawful(a) && (prev.Some? ==> FieldSound(prev.value, a) && FieldOpens(prev.value, a))
    ensures FieldResolves(f, prev) <==> FieldResolves(f, OpenedPrev(prev, a))
    ensures FieldResolves(f, prev) ==>
              var g := SavedField(key, f, prev, a, n);
              FieldSound(g, a) && FieldOpens(g, a) && OpenedField(g, a) == ResolvedField(f, OpenedPrev(prev, a))
  {
    if f.List? {
      var prevs := ItemsOf(prev);
      assert ItemsOf(OpenedPrev(prev, a)) == Opened(prevs, a);
      forall i | 0 <= i < |f.items|
        ensures ItemResolves(f.items[i], prevs) <==> ItemResolves(f.items[i], Opened(prevs, a))
        ensures ItemResolves(f.items[i], prevs) ==>
                  && ItemSound(SavedItem(f.items[i], prevs, a, n(key, i)), a)
                  && OpenedItem(SavedItem(f.items[i], prevs, a, n(key, i)), a)
                     == Some(ResolvedItem(f.items[i], Opened(prevs, a)))
      {
        ItemRefines(f.items[i], prevs, a, n(key, i));
      }
    }
  }

  lemma GetLoaded(d: Descriptor, stored: Config, a: Aead, key: string)
    requires Opens(d, stored, a)
    ensures Get(Loaded(d, stored, a), key) ==
            if Encrypted(d, key) then
              OpenedPrev(Get(stored, key), a)
            else Get(stored, key)
  {}

  /** A mask resolves against the stored row exactly when it resolves against its plaintext. */
  lemma ResolvesOnPlaintext(d: Descriptor, cfg: Config, stored: Config, a: Aead, n: Nonces)
    requires Conforms(d) && Lawful(a) && Sound(d, stored, a) && Opens(d, stored, a)
    ensures Resolves(d, cfg, stored) <==> Resolves(d, cfg, Loaded(d, stored, a))
  {
    forall key | key in cfg && Sensitive(d, key)
      ensures FieldResolves(cfg[key], Get(stored, key))
              <==> FieldResolves(cfg[key], Get(Loaded(d, stored, a), key))
    {
      GetLoaded(d, stored, a, key);
      if Encrypted(d, key) {
        FieldRefines(key, cfg[key], Get(stored, key), a, n);
      }
    }
  }

  /** Saving then loading is resolving the masks against the plaintext: nothing is sealed
      twice, nothing stays sealed, nothing is lost. */
  lemma SaveRefinesPlaintext(d: Descriptor, cfg: Config, stored: Config, a: Aead, n: Nonces)
    requires Conforms(d) && Lawful(a) && Sound(d, stored, a) && Opens(d, stored, a)
    requires Resolves(d, cfg, stored) && Resolves(d, cfg, Loaded(d, stored, a))
    ensures
      var next := Saved(d, cfg, stored, a, n);
      && Sound(d, next, a) && Opens(d, next, a)
      && Loaded(d, next, a) == Resolved(d, cfg, Loaded(d, stored, a))
  {
    var next := Saved(d, cfg, stored, a, n);
    forall key | key in cfg
      ensures Encrypted(d, key) ==> FieldSound(next[key], a) && FieldOpens(next[key], a)
      ensures Resolved(d, cfg, Loaded(d, stored, a))[key]
              == if Encrypted(d, key) then OpenedField(next[key], a) else next[key]
    {
      GetLoaded(d, stored, a, key);
      if Encrypted(d, key) {
        EncryptedIsSensitive(d, key);
        FieldRefines(key, cfg[key], Get(stored, key), a, n);
      }
    }
    SoundOpens(d, next, a);
  }

  // ------------------------------------------------------ whole save histories

  /** One call of `Save`; `dbOk` is whether the row's own save succeeds. */
  datatype Call = Call(cfg: Config, nonces: Nonces, dbOk: bool)

  ghost predicate Accepted(d: Descriptor, c: Call, stored: Config, keyOk: bool) {
    Resolves(d, c.cfg, stored) && (keyOk || !Seals(d, c.cfg)) && c.dbOk
  }

  /** The row after a series of saves; a failed save leaves it as it was. */
  ghost function AfterSaves(d: Descriptor, calls: seq<Call>, a: Aead, keyOk: bool): Config {
    if calls == [] then map[]
    else
      var stored := AfterSaves(d, calls[..|calls| - 1], a, keyOk);
      var c := calls[|calls| - 1];
      if Accepted(d, c, stored, keyOk) then Saved(d, c.cfg, stored, a, c.nonces) else stored
  }

  /** The same series on a plain map of plaintexts. */
  ghost function Plaintexts(d: Descriptor, calls: seq<Call>, keyOk: bool): Config {
    if calls == [] then map[]
    else
      var plain := Plaintexts(d, calls[..|calls| - 1], keyOk);
      var c := calls[|calls| - 1];
      if Accepted(d, c, plain, keyOk) then Resolved(d, c.cfg, plain) else plain
  }

  /** After any series of saves, mixing new values and masks, loading gives the plaintexts. */
  lemma {:induction false} StoreRefinesPlaintextMap(d: Descriptor, calls: seq<Call>, a: Aead, keyOk: bool)
    requires Conforms(d) && Lawful(a)
    ensures
      var stored := AfterSaves(d, calls, a, keyOk);
      Sound(d, stored, a) && Opens(d, stored, a) && Loaded(d, stored, a) == Plaintexts(d, calls, keyOk)
    decreases |calls|
  {
    if calls != [] {
      StoreRefinesPlaintextMap(d, calls[..|calls| - 1], a, keyOk);
      var stored := AfterSaves(d, calls[..|calls| - 1], a, keyOk);
      var c := calls[|calls| - 1];
      ResolvesOnPlaintext(d, c.cfg, stored, a, c.nonces);
      if Accepted(d, c, stored, keyOk) {
        SaveRefinesPlaintext(d, c.cfg, stored, a, c.nonces);
      }
    }
  }

  // ------------------------------------------------------ the last text supplied

  ghost function TextField(c: Config, key: string): Option<string> {
    if key in c && c[key].Str? then Some(c[key].s) else None
  }

  /** The last string an accepted save supplied for a field, masks skipped. */
  ghost function LastText(d: Descriptor, calls: seq<Call>, keyOk: bool, key: string): Option<string> {
    if calls == [] then None
    else
      var before := calls[..|calls| - 1];
      var c := calls[|calls| - 1];
      if !Accepted(d, c, Plaintexts(d, before, keyOk), keyOk) then LastText(d, before, keyOk, key)
      else if Sensitive(d, key) && TextField(c.cfg, key) == Some(SENTINEL) then LastText(d, before, keyOk, key)
      else TextField(c.cfg, key)
  }

  /** The last value supplied for one entry of a key/value list, masks skipped. */
  ghost function LastEntry(d: Descriptor, calls: seq<Call>, keyOk: bool, key: string, name: string): Option<string> {
    if calls == [] then None
    else
      var before := calls[..|calls| - 1];
      var c := calls[|calls| - 1];
      if !Accepted(d, c, Plaintexts(d, before, keyOk), keyOk) then LastEntry(d, before, keyOk, key, name)
      else
        var v := Lookup(ItemsOf(Get(c.cfg, key)), name);
        if Sensitive(d, key) && v == Some(SENTINEL) then LastEntry(d, before, keyOk, key, name) else v
  }

  lemma {:induction false} LookupResolved(items: seq<Item>, prevs: seq<Item>, name: string)
    requires forall i | 0 <= i < |items| :: ItemResolves(items[i], prevs)
    ensures
      var r := seq(|items|, i requires 0 <= i < |items| => ResolvedItem(items[i], prevs));
      Lookup(r, name) == if Lookup(items, name) == Some(SENTINEL) then Lookup(prevs, name) else Lookup(items, name)
    decreases |items|
  {
    if items != [] {
      var n := |items| - 1;
      var r := seq(|items|, i requires 0 <= i < |items| => ResolvedItem(items[i], prevs));
      LookupResolved(items[..n], prevs, name);
      assert r[..n] == seq(n, i requires 0 <= i < n => ResolvedItem(items[..n][i], prevs));
      assert r[n] == ResolvedItem(items[n], prevs);
    }
  }

  /** What `Load` returns for a string field, and for an entry of a list field, is the last
      plaintext supplied for it. */
  lemma {:induction false} LoadReturnsLastSupplied(d: Descriptor, calls: seq<Call>, a: Aead, keyOk: bool,
                                                   key: string, name: string)
    requires Conforms(d) && Lawful(a) && Opens(d, AfterSaves(d, calls, a, keyOk), a)
    ensures
      var loaded := Loaded(d, AfterSaves(d, calls, a, keyOk), a);
      && TextField(loaded, key) == LastText(d, calls, keyOk, key)
      && Lookup(ItemsOf(Get(loaded, key)), name) == LastEntry(d, calls, keyOk, key, name)
    decreases |calls|
  {
    StoreRefinesPlaintextMap(d, calls, a, keyOk);
    if calls != [] {
      var before := calls[..|calls| - 1];
      var c := calls[|calls| - 1];
      StoreRefinesPlaintextMap(d, before, a, keyOk);
      LoadReturnsLastSupplied(d, before, a, keyOk, key, name);
      var plain := Plaintexts(d, before, keyOk);
      if Accepted(d, c, plain, keyOk) && key in c.cfg && Sensitive(d, key) && c.cfg[key].List? {
        LookupResolved(c.cfg[key].items, ItemsOf(Get(plain, key)), name);
      }
    }
  }

  // -------------------------------------------------------- saves that overlap

  /** A save that read the row as `was` and writes it when it is `now`: the config is written as a
      whole, unless it is what was read. */
  ghost function Overwritten(d: Descriptor, cfg: Config, was: Config, now: Config, a: Aead, n: Nonces): Config
    requires Resolves(d, cfg, was)
  {
    if Saved(d, cfg, was, a, n) == was then now else Saved(d, cfg, was, a, n)
  }

  /** What a masked field carries over is what was read: a value saved meanwhile is lost if and only if
      the config is written at all, and the field was another one when it was read. */
  lemma OverlappingSaveLosesIff(d: Descriptor, cfg: Config, was: Config, now: Config, a: Aead, n: Nonces, key: string)
    requires Resolves(d, cfg, was) && key in cfg && Sensitive(d, key) && cfg[key] == Str(SENTINEL)
    ensures Get(Overwritten(d, cfg, was, now, a, n), key) != Get(now, key) <==>
            Saved(d, cfg, was, a, n) != was && Get(was, key) != Get(now, key)
  {
    assert FieldResolves(cfg[key], Get(was, key));
    assert Get(Saved(d, cfg, was, a, n), key) == Get(was, key);
  }

  /** One save changes the address and sends the token as a mask, another one sets a new token between
      its read and its write: the old ciphertext is back. */
  lemma OverlappingSaveExample(a: Aead, n: Nonces, older: string, newer: string)
    requires older != "" && older != newer
    ensures
      var d := [FieldDecl("token", true, true), FieldDecl("url", false, false)];
      var was: Config := map["token" := Str(older), "url" := Str("u")];
      var now: Config := map["token" := Str(newer), "url" := Str("u")];
      var cfg: Config := map["token" := Str(SENTINEL), "url" := Str("v")];
      && Conforms(d) && Resolves(d, cfg, was)
      && Get(Overwritten(d, cfg, was, now, a, n), "token") == Some(Str(older))
  {
    var d := [FieldDecl("token", true, true), FieldDecl("url", false, false)];
    var was: Config := map["token" := Str(older), "url" := Str("u")];
    var cfg: Config := map["token" := Str(SENTINEL), "url" := Str("v")];
    assert d[0].key == "token" && d[0].sensitive && d[0].encrypted && d[1].key == "url";
    assert Sensitive(d, "token") && !Sensitive(d, "url") && !Encrypted(d, "url");
    assert Saved(d, cfg, was, a, n)["url"] == Str("v");
  }

  // ------------------------------------------------------- saving back a mask

  /** The entry's mask comes back to it: its plaintext is not blank, and it is the entry
      its own key finds. */
  ghost predicate ItemResavable(it: Item, plain: Item, items: seq<Item>) {
    it.Entry? && TextOf(it.m, "value").Some? && TextOf(it.m, "value").value != "" ==>
      && plain.Entry? && TextOf(plain.m, "value").Some? && !Blank(TextOf(plain.m, "value").value)
      && Lookup(items, KeyOf(it.m)) == TextOf(it.m, "value")
  }

  ghost predicate FieldResavable(f: Field, plain: Field) {
    match f
    case Str(s) => s != "" ==> plain.Str? && !Blank(plain.s)
    case List(items) =>
      plain.List? && |plain.items| == |items|
      && forall i | 0 <= i < |items| :: ItemResavable(items[i], plain.items[i], items)
    case Opaque(_) => true
  }

  ghost predicate Resavable(d: Descriptor, stored: Config, a: Aead)
    requires Opens(d, stored, a)
  {
    forall key | key in stored && Sensitive(d, key) :: FieldResavable(stored[key], Loaded(d, stored, a)[key])
  }

  lemma ValueFacts(m: map<string, KValue>, x: string, y: string)
    ensures WithValue(WithValue(m, x), y) == WithValue(m, y)
    ensures TextOf(WithValue(m, x), "value") == Some(x) && KeyOf(WithValue(m, x)) == KeyOf(m)
    ensures TextOf(m, "value") == Some(x) ==> WithValue(m, x) == m
  {}

  lemma ItemMaskBack(it: Item, plain: Item, items: seq<Item>, a: Aead, nonce: nat)
    requires plain == it || OpenedItem(it, a) == Some(plain)
    ensures var m := MaskedItem(plain);
      (ItemResolves(m, items) && ResolvedItem(m, items) == it) <==> ItemResavable(it, plain, items)
    ensures var m := MaskedItem(plain);
      ItemResolves(m, items) ==> SavedItem(m, items, a, nonce) == ResolvedItem(m, items)
  {
    if it.Entry? && TextOf(it.m, "value").Some? && TextOf(it.m, "value").value != "" {
      var v := TextOf(it.m, "value").value;
      var p := if plain == it then v else a.open(v).value;
      ValueFacts(it.m, v, p);
      assert plain == Entry(WithValue(it.m, p));
      var mask := MaskSecret(p);
      ValueFacts(it.m, p, mask);
      ValueFacts(it.m, mask, v);
      assert MaskedItem(plain) == Entry(WithValue(it.m, mask));
      var found := Lookup(items, KeyOf(it.m));
      if found.Some? {
        ValueFacts(it.m, mask, found.value);
        ValueFacts(it.m, found.value, v);
      }
    }
  }

  lemma MaskedNeverSeals(plain: Field)
    ensures !FieldSeals(MaskedField(plain))
  {}

  lemma FieldMaskBack(key: string, f: Field, plain: Field, a: Aead, n: Nonces)
    requires plain == f || (FieldOpens(f, a) && OpenedField(f, a) == plain)
    ensures var m := MaskedField(plain);
      (FieldResolves(m, Some(f)) && ResolvedField(m, Some(f)) == f) <==> FieldResavable(f, plain)
    ensures var m := MaskedField(plain);
      FieldResolves(m, Some(f)) ==> SavedField(key, m, Some(f), a, n) == ResolvedField(m, Some(f))
  {
    if f.List? {
      var m := MaskedField(plain);
      assert |plain.items| == |f.items| == |m.items|;
      forall i | 0 <= i < |f.items|
        ensures (ItemResolves(m.items[i], f.items) && ResolvedItem(m.items[i], f.items) == f.items[i])
                <==> ItemResavable(f.items[i], plain.items[i], f.items)
        ensures ItemResolves(m.items[i], f.items) ==>
                  SavedItem(m.items[i], f.items, a, n(key, i)) == ResolvedItem(m.items[i], f.items)
      {
        assert m.items[i] == MaskedItem(plain.items[i]);
        ItemMaskBack(f.items[i], plain.items[i], f.items, a, n(key, i));
      }
      if FieldResolves(m, Some(f)) && ResolvedField(m, Some(f)) == f {
        forall i | 0 <= i < |f.items|
          ensures ItemResavable(f.items[i], plain.items[i], f.items)
        {
          assert f.items[i] == ResolvedField(m, Some(f)).items[i];
        }
      }
      if FieldResavable(f, plain) {
        assert ResolvedField(m, Some(f)).items == f.items;
      }
    }
  }

  /** Saving back what `Mask` shows of a loaded config succeeds and leaves every stored byte
      in place if and only if no sensitive plaintext is blank where something is stored, and
      every masked entry is the one its key finds. It never needs the encryption key. */
  lemma MaskedSaveKeepsStore(d: Descriptor, stored: Config, a: Aead, n: Nonces)
    requires Conforms(d) && Opens(d, stored, a)
    ensures
      var m := Masked(d, Loaded(d, stored, a));
      && !Seals(d, m)
      && ((Resolves(d, m, stored) && Saved(d, m, stored, a, n) == stored) <==> Resavable(d, stored, a))
  {
    var loaded := Loaded(d, stored, a);
    var m := Masked(d, loaded);
    assert m.Keys == stored.Keys;
    forall key | key in stored && Sensitive(d, key)
      ensures (FieldResolves(m[key], Get(stored, key)) && ResolvedField(m[key], Get(stored, key)) == stored[key])
              <==> FieldResavable(stored[key], loaded[key])
      ensures FieldResolves(m[key], Get(stored, key)) ==>
                SavedField(key, m[key], Get(stored, key), a, n) == ResolvedField(m[key], Get(stored, key))
      ensures !FieldSeals(m[key])
    {
      FieldMaskBack(key, stored[key], loaded[key], a, n);
      MaskedNeverSeals(loaded[key]);
    }
    forall key | key in m && Encrypted(d, key)
      ensures !FieldSeals(m[key])
    {
      EncryptedIsSensitive(d, key);
    }
    if Resolves(d, m, stored) {
      var next := Saved(d, m, stored, a, n);
      forall key | key in stored
        ensures next[key] == if Sensitive(d, key) then ResolvedField(m[key], Get(stored, key)) else stored[key]
      {
        if Encrypted(d, key) {
          EncryptedIsSensitive(d, key);
        }
      }
    }
  }

  /** With distinct, non-empty keys every entry is the one its key finds. */
  lemma {:induction false} DistinctKeysFindThemselves(items: seq<Item>, i: nat)
    requires i < |items| && items[i].Entry? && KeyOf(items[i].m) != "" && TextOf(items[i].m, "value").Some?
    requires forall j | i < j < |items| && items[j].Entry? :: KeyOf(items[j].m) != KeyOf(items[i].m)
    ensures Lookup(items, KeyOf(items[i].m)) == TextOf(items[i].m, "value")
    decreases |items|
  {
    if i < |items| - 1 {
      DistinctKeysFindThemselves(items[..|items| - 1], i);
    }
  }

  /** A stored secret of white space only is shown as empty, and saved back as empty. */
  lemma BlankSecretIsLost(a: Aead, n: Nonces)
    ensures
      var d := [FieldDecl("token", true, false)];
      var stored: Config := map["token" := Str(" ")];
      && Conforms(d) && Opens(d, stored, a)
      && Resolves(d, Masked(d, Loaded(d, stored, a)), stored)
      && Saved(d, Masked(d, Loaded(d, stored, a)), stored, a, n) == map["token" := Str("")]
  {
    var d := [FieldDecl("token", true, false)];
    assert d[0].key == "token" && d[0].sensitive;
    assert Sensitive(d, "token") && !Encrypted(d, "token");
  }

  /** Of two entries with one key, saving back the mask gives both the last one's value. */
  lemma DuplicateKeyIsOverwritten(x: string, y: string)
    requires x != y && x != "" && y != ""
    ensures
      var e := (v: string) => Entry(map["key" := Text("k"), "value" := Text(v)]);
      var f := List([e(x), e(y)]);
      var m := List([e(SENTINEL), e(SENTINEL)]);
      FieldResolves(m, Some(f)) && ResolvedField(m, Some(f)) == List([e(y), e(y)])
  {
    var e := (v: string) => Entry(map["key" := Text("k"), "value" := Text(v)]);
    var items := [e(x), e(y)];
    assert Lookup(items, "k") == Some(y);
    assert WithValue(e(SENTINEL).m, y) == e(y).m;
  }
}
