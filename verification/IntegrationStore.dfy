/** Load, Mask and Save over mutable maps and lists, proved against the value model. */
module IntegrationStore {
  import opened Prelude
  import opened Sealing
  import opened IntegrationModel
  import opened IntegrationRefinement

  // ------------------------------------------------------------ the Go heap

  /** A `map[string]interface{}` inside a list. */
  class EntryMap {
    var m: map<string, KValue>

    constructor (m: map<string, KValue>)
      ensures this.m == m
    {
      this.m := m;
    }
  }

  datatype ItemRef = EntryRef(o: EntryMap) | LooseRef(json: int)

  /** A `[]interface{}`. */
  class ItemList {
    var refs: seq<ItemRef>

    constructor (refs: seq<ItemRef>)
      ensures this.refs == refs
    {
      this.refs := refs;
    }

    ghost function Entries(): set<EntryMap>
      reads this
    {
      set r | r in refs && r.EntryRef? :: r.o
    }

    function Items(): (items: seq<Item>)
      reads this, Entries()
      ensures |items| == |refs|
    {
      seq(|refs|, i requires 0 <= i < |refs| reads this, Entries() => ItemAt(refs[i]))
    }

    /** No entry object sits at two places. */
    ghost predicate Distinct()
      reads this
    {
      forall i, j | 0 <= i < j < |refs| && refs[i].EntryRef? && refs[j].EntryRef? :: refs[i].o != refs[j].o
    }
  }

  function ItemAt(r: ItemRef): Item
    reads if r.EntryRef? then {r.o} else {}
  {
    match r
    case EntryRef(o) => Entry(o.m)
    case LooseRef(json) => Loose(json)
  }

  datatype FieldRef = StrRef(s: string) | ListRef(o: ItemList) | OpaqueRef(json: int)

  function FieldAt(r: FieldRef): Field
    reads if r.ListRef? then {r.o} else {}
    reads if r.ListRef? then r.o.Entries() else {}
  {
    match r
    case StrRef(s) => Str(s)
    case ListRef(o) => List(o.Items())
    case OpaqueRef(json) => Opaque(json)
  }

  /** A config, a `map[string]any`. */
  class ConfigMap {
    var m: map<string, FieldRef>

    constructor (m: map<string, FieldRef>)
      ensures this.m == m
    {
      this.m := m;
    }

    ghost function Lists(): set<ItemList>
      reads this
    {
      set key | key in m && m[key].ListRef? :: m[key].o
    }

    ghost function Entries(): set<EntryMap>
      reads this, Lists()
    {
      set l, o | l in Lists() && o in l.Entries() :: o
    }

    function At(key: string): Field
      requires key in m
      reads this, Lists(), Entries()
    {
      assert m[key].ListRef? ==> m[key].o in Lists();
      FieldAt(m[key])
    }

    function Value(): (c: Config)
      reads this, Lists(), Entries()
      ensures c.Keys == m.Keys
    {
      map key | key in m :: At(key)
    }
  }

  /** A field keeps its value when neither its list nor an entry of it is written. */
  twostate lemma FieldKept(r: FieldRef)
    requires r.ListRef? ==> unchanged(r.o) && unchanged(r.o.Entries())
    ensures FieldAt(r) == old(FieldAt(r))
  {}

  ghost predicate NoRepeats(ks: seq<string>) {
    forall i, j | 0 <= i < j < |ks| :: ks[i] != ks[j]
  }

  lemma {:induction false} KeysDoNotRepeat(d: Descriptor)
    requires Conforms(d)
    ensures NoRepeats(SensitiveKeys(d)) && NoRepeats(EncryptedKeys(d))
    decreases |d|
  {
    if d != [] {
      var init := d[..|d| - 1];
      KeysDoNotRepeat(init);
      assert !Sensitive(init, d[|d| - 1].key) && !Encrypted(init, d[|d| - 1].key);
    }
  }

  // ----------------------------------------------------------------- masking

  method MaskList(l: ItemList) returns (masked: ItemList)
    ensures fresh(masked) && List(masked.Items()) == MaskedField(List(l.Items()))
  {
    var refs := [];
    for i := 0 to |l.refs|
      invariant |refs| == i
      invariant forall j | 0 <= j < i :: ItemAt(refs[j]) == MaskedItem(l.Items()[j])
    {
      var r := MaskItem(l.refs[i]);
      refs := refs + [r];
    }
    masked := new ItemList(refs);
  }

  /** Copies one entry, its value masked. */
  method MaskItem(r: ItemRef) returns (masked: ItemRef)
    ensures ItemAt(masked) == MaskedItem(old(ItemAt(r)))
  {
    masked := r;
    if r.EntryRef? {
      var copy := r.o.m;
      var v := TextOf(copy, "value");
      if v.Some? && v.value != "" {
        copy := WithValue(copy, MaskSecret(v.value));
      }
      var e := new EntryMap(copy);
      masked := EntryRef(e);
    }
  }

  method MaskField(r: FieldRef) returns (masked: FieldRef)
    ensures FieldAt(masked) == MaskedField(FieldAt(r))
  {
    masked := r;
    match r
    case StrRef(s) =>
      if s != "" {
        masked := StrRef(MaskSecret(s));
      }
    case ListRef(l) =>
      var copy := MaskList(l);
      masked := ListRef(copy);
    case OpaqueRef(_) =>
  }

  /** Every field of `c` has the value `want` says. */
  ghost predicate Holds(c: ConfigMap, want: Config)
    reads c, c.Lists(), c.Entries()
  {
    && c.m.Keys == want.Keys
    && forall key | key in want :: c.At(key) == want[key]
  }

  lemma HoldsValue(c: ConfigMap, want: Config)
    requires Holds(c, want)
    ensures c.Value() == want
  {}

  /** `make` and copy: a new map, the same values in it. */
  method ShallowCopy(cfg: ConfigMap) returns (c: ConfigMap)
    ensures fresh(c) && c.m == cfg.m && Holds(c, old(cfg.Value()))
  {
    ghost var src := cfg.Value();
    c := new ConfigMap(cfg.m);
    forall key | key in src
      ensures c.At(key) == src[key]
    {
      FieldKept(cfg.m[key]);
    }
  }

  /** Replaces one field; no list or entry is written. */
  method Put(c: ConfigMap, key: string, r: FieldRef, ghost want: Config)
    requires Holds(c, want)
    modifies c
    ensures c.m == old(c.m)[key := r] && Holds(c, want[key := FieldAt(r)])
    ensures FieldAt(r) == old(FieldAt(r))
  {
    c.m := c.m[key := r];
    FieldKept(r);
    forall k | k in want && k != key
      ensures c.At(k) == want[k]
    {
      FieldKept(c.m[k]);
    }
  }

  method MaskKey(c: ConfigMap, key: string, ghost want: Config)
    requires Holds(c, want) && key in c.m
    modifies c
    ensures Holds(c, want[key := MaskedField(want[key])])
  {
    var masked := MaskField(c.m[key]);
    Put(c, key, masked, want);
  }

  /** `Mask`: a fresh config, every sensitive field masked; nothing of the caller's changes. */
  method Mask(d: Descriptor, cfg: ConfigMap) returns (out: ConfigMap)
    requires Conforms(d)
    ensures fresh(out) && out.Value() == Masked(d, old(cfg.Value()))
  {
    ghost var src := cfg.Value();
    out := ShallowCopy(cfg);
    var ks := SensitiveKeys(d);
    KeysDoNotRepeat(d);
    MaskedNone(src);
    for i := 0 to |ks|
      invariant fresh(out) && Holds(out, MaskedUpTo(ks[..i], src))
    {
      MaskedNext(ks, i, src);
      if ks[i] in out.m {
        MaskKey(out, ks[i], MaskedUpTo(ks[..i], src));
      }
    }
    assert ks[..|ks|] == ks;
    MaskedAll(d, src);
    HoldsValue(out, Masked(d, src));
  }

  /** The config with the fields `ks` masked. */
  ghost function MaskedUpTo(ks: seq<string>, src: Config): Config {
    map key | key in src :: if key in ks then MaskedField(src[key]) else src[key]
  }

  lemma MaskedNone(src: Config)
    ensures MaskedUpTo([], src) == src
  {}

  lemma MaskedAll(d: Descriptor, src: Config)
    ensures MaskedUpTo(SensitiveKeys(d), src) == Masked(d, src)
  {}

  lemma MaskedNext(ks: seq<string>, i: nat, src: Config)
    requires NoRepeats(ks) && i < |ks|
    ensures
      var want, next := MaskedUpTo(ks[..i], src), MaskedUpTo(ks[..i + 1], src);
      if ks[i] in src then want[ks[i]] == src[ks[i]] && next == want[ks[i] := MaskedField(src[ks[i]])] else next == want
  {
    assert ks[..i + 1] == ks[..i] + [ks[i]] && ks[i] !in ks[..i];
  }

  // ------------------------------------------------------- resolving the masks

  /** The table of stored entry values, later entries over earlier ones. */
  method BuildLookup(prevs: seq<Item>) returns (table: map<string, string>)
    ensures forall k :: if k in table then Lookup(prevs, k) == Some(table[k]) else Lookup(prevs, k).None?
  {
    table := map[];
    for i := 0 to |prevs|
      invariant forall k :: if k in table then Lookup(prevs[..i], k) == Some(table[k])
                            else Lookup(prevs[..i], k).None?
    {
      assert prevs[..i + 1][..i] == prevs[..i];
      if prevs[i].Entry? {
        var k, v := TextOf(prevs[i].m, "key"), TextOf(prevs[i].m, "value");
        if k.Some? && k.value != "" && v.Some? {
          table := table[k.value := v.value];
        }
      }
    }
    assert prevs[..|prevs|] == prevs;
  }

  predicate IsMasked(it: Item) {
    it.Entry? && TextOf(it.m, "value") == Some(SENTINEL)
  }

  /** Copies one entry, and replaces a mask by the stored value it stands for. */
  method ResolveItem(r: ItemRef, table: map<string, string>, ghost prevs: seq<Item>)
    returns (ok: bool, r': ItemRef, masked: bool)
    requires forall k :: if k in table then Lookup(prevs, k) == Some(table[k]) else Lookup(prevs, k).None?
    ensures ok <==> ItemResolves(old(ItemAt(r)), prevs)
    ensures ok ==> ItemAt(r') == ResolvedItem(old(ItemAt(r)), prevs) && masked == IsMasked(old(ItemAt(r)))
    ensures ok && r'.EntryRef? ==> fresh(r'.o)
  {
    ok, r', masked := true, r, false;
    if r.EntryRef? {
      var copy := r.o.m;
      if TextOf(copy, "value") == Some(SENTINEL) {
        var k := KeyOf(copy);
        if k !in table || table[k] == "" {
          return false, r, false;
        }
        copy, masked := WithValue(copy, table[k]), true;
      }
      var e := new EntryMap(copy);
      r' := EntryRef(e);
    }
  }

  /** Copies the list and every entry, and replaces each mask by the stored value it stands for. */
  method ResolveList(l: ItemList, prevs: seq<Item>) returns (ok: bool, resolved: ItemList, carried: set<nat>)
    ensures ok <==> FieldResolves(List(old(l.Items())), Some(List(prevs)))
    ensures fresh(resolved) && fresh(resolved.Entries())
    ensures ok ==> resolved.Distinct() && |resolved.refs| == |l.refs|
    ensures ok ==> forall i | 0 <= i < |l.refs| :: ItemAt(resolved.refs[i]) == ResolvedItem(old(l.Items())[i], prevs)
    ensures ok ==> forall i: nat :: i in carried <==> i < |l.refs| && IsMasked(old(l.Items())[i])
  {
    ghost var items := l.Items();
    var table := BuildLookup(prevs);
    var refs: seq<ItemRef> := [];
    carried := {};
    for i := 0 to |l.refs|
      invariant |refs| == i
      invariant forall j | 0 <= j < i :: ItemResolves(items[j], prevs)
      invariant forall j | 0 <= j < i :: ItemAt(refs[j]) == ResolvedItem(items[j], prevs)
      invariant forall j | 0 <= j < i && refs[j].EntryRef? :: fresh(refs[j].o)
      invariant forall j, k | 0 <= j < k < i && refs[j].EntryRef? && refs[k].EntryRef? :: refs[j].o != refs[k].o
      invariant forall j: nat :: j in carried <==> j < i && IsMasked(items[j])
    {
      assert items[i] == ItemAt(l.refs[i]);
      var done, r, masked := ResolveItem(l.refs[i], table, prevs);
      if !done {
        assert !FieldResolves(List(items), Some(List(prevs)));
        resolved := new ItemList([]);
        return false, resolved, {};
      }
      if masked {
        carried := carried + {i};
      }
      refs := refs + [r];
    }
    resolved := new ItemList(refs);
    ok := true;
  }

  /** What a save carries over from the stored row: a whole string, or some entries of a list. */
  datatype Carried = Whole | Entries(kept: set<nat>)

  function CarriedFor(f: Field): Carried {
    match f
    case Str(s) => if s == SENTINEL then Whole else Carried.Entries({})
    case List(items) => Carried.Entries(set i | 0 <= i < |items| && IsMasked(items[i]) :: i)
    case Opaque(_) => Carried.Entries({})
  }

  method ResolveField(r: FieldRef, prev: Option<Field>) returns (ok: bool, resolved: FieldRef, carried: Carried)
    ensures ok <==> FieldResolves(old(FieldAt(r)), prev)
    ensures ok ==> FieldAt(resolved) == ResolvedField(old(FieldAt(r)), prev) && carried == CarriedFor(old(FieldAt(r)))
    ensures ok && resolved.ListRef? ==> fresh(resolved.o) && fresh(resolved.o.Entries()) && resolved.o.Distinct()
  {
    ok, resolved, carried := true, r, Carried.Entries({});
    match r
    case StrRef(s) =>
      if s == SENTINEL {
        if prev.None? || !prev.value.Str? || prev.value.s == "" {
          ok := false;
        } else {
          resolved, carried := StrRef(prev.value.s), Whole;
        }
      }
    case ListRef(l) =>
      ghost var f := FieldAt(r);
      var copy, kept;
      ok, copy, kept := ResolveList(l, ItemsOf(prev));
      resolved, carried := ListRef(copy), Carried.Entries(kept);
      if ok {
        assert FieldAt(resolved).items == ResolvedField(f, prev).items;
        assert kept == CarriedFor(f).kept;
      }
    case OpaqueRef(_) =>
  }

  // ------------------------------------------------------- sealing what is new

  predicate NewText(it: Item) {
    it.Entry? && TextOf(it.m, "value").Some? && TextOf(it.m, "value").value != ""
  }

  function SealedItem(it: Item, skip: bool, a: Aead, nonce: nat): Item {
    if !skip && NewText(it) then Entry(WithValue(it.m, a.seal(TextOf(it.m, "value").value, nonce))) else it
  }

  ghost function SealedField(key: string, f: Field, carried: Carried, a: Aead, n: Nonces): Field {
    match f
    case Str(s) => if carried.Entries? && s != "" then Str(a.seal(s, n(key, 0))) else f
    case List(items) =>
      List(seq(|items|, i requires 0 <= i < |items| =>
        SealedItem(items[i], carried.Entries? && i in carried.kept, a, n(key, i))))
    case Opaque(_) => f
  }

  ghost predicate NeedsSeal(f: Field, carried: Carried) {
    match f
    case Str(s) => carried.Entries? && s != ""
    case List(items) => carried.Entries? && exists i | 0 <= i < |items| :: i !in carried.kept && NewText(items[i])
    case Opaque(_) => false
  }

  lemma SealedItemIsSaved(it: Item, prevs: seq<Item>, a: Aead, nonce: nat)
    requires ItemResolves(it, prevs)
    ensures SealedItem(ResolvedItem(it, prevs), IsMasked(it), a, nonce) == SavedItem(it, prevs, a, nonce)
  {}

  /** Resolving, then sealing what was not carried over, is what a save means. */
  lemma SealedIsSaved(key: string, f: Field, prev: Option<Field>, a: Aead, n: Nonces)
    requires FieldResolves(f, prev)
    ensures SealedField(key, ResolvedField(f, prev), CarriedFor(f), a, n) == SavedField(key, f, prev, a, n)
    ensures NeedsSeal(ResolvedField(f, prev), CarriedFor(f)) <==> FieldSeals(f)
  {
    if f.List? {
      var g := ResolvedField(f, prev);
      assert forall i | 0 <= i < |f.items| :: g.items[i] == ResolvedItem(f.items[i], ItemsOf(prev));
      if FieldSeals(f) {
        var i :| 0 <= i < |f.items| && f.items[i].Entry? && TextOf(f.items[i].m, "value").Some?
                 && TextOf(f.items[i].m, "value").value != "" && TextOf(f.items[i].m, "value").value != SENTINEL;
        assert i !in CarriedFor(f).kept && NewText(g.items[i]);
      }
      var sealed, saved := SealedField(key, g, CarriedFor(f), a, n), SavedField(key, f, prev, a, n);
      forall i | 0 <= i < |f.items|
        ensures sealed.items[i] == saved.items[i]
      {
        assert i in CarriedFor(f).kept <==> IsMasked(f.items[i]);
        assert sealed.items[i] == SealedItem(g.items[i], IsMasked(f.items[i]), a, n(key, i));
        assert saved.items[i] == SavedItem(f.items[i], ItemsOf(prev), a, n(key, i));
        SealedItemIsSaved(f.items[i], ItemsOf(prev), a, n(key, i));
      }
    }
  }

  method SealList(key: string, l: ItemList, carried: set<nat>, a: Aead, keyOk: bool, n: Nonces) returns (ok: bool)
    requires l.Distinct()
    modifies l.Entries()
    ensures ok <==> keyOk || !NeedsSeal(old(List(l.Items())), Carried.Entries(carried))
    ensures ok ==> List(l.Items()) == SealedField(key, old(List(l.Items())), Carried.Entries(carried), a, n)
  {
    ghost var items := l.Items();
    for i := 0 to |l.refs|
      invariant forall j | 0 <= j < i :: ItemAt(l.refs[j]) == SealedItem(items[j], j in carried, a, n(key, j))
      invariant forall j | i <= j < |items| :: ItemAt(l.refs[j]) == items[j]
      invariant keyOk || forall j | 0 <= j < i :: j in carried || !NewText(items[j])
    {
      if i !in carried && l.refs[i].EntryRef? {
        var o := l.refs[i].o;
        var v := TextOf(o.m, "value");
        if v.Some? && v.value != "" {
          if !keyOk {
            return false;
          }
          o.m := WithValue(o.m, a.seal(v.value, n(key, i)));
        }
      }
    }
    ok := true;
    assert l.Items() == SealedField(key, List(items), Carried.Entries(carried), a, n).items;
  }

  method SealField(key: string, r: FieldRef, carried: Carried, a: Aead, keyOk: bool, n: Nonces)
    returns (ok: bool, sealed: FieldRef)
    requires r.ListRef? ==> r.o.Distinct() && carried.Entries?
    modifies if r.ListRef? then r.o.Entries() else {}
    ensures ok <==> keyOk || !NeedsSeal(old(FieldAt(r)), carried)
    ensures ok ==> FieldAt(sealed) == SealedField(key, old(FieldAt(r)), carried, a, n)
    ensures r.ListRef? ==> sealed == r
    ensures !r.ListRef? ==> !sealed.ListRef?
  {
    ok, sealed := true, r;
    match r
    case StrRef(s) =>
      if carried.Entries? && s != "" {
        if keyOk {
          sealed := StrRef(a.seal(s, n(key, 0)));
        } else {
          ok := false;
        }
      }
    case ListRef(l) => ok := SealList(key, l, carried.kept, a, keyOk, n);
    case OpaqueRef(_) =>
  }

  // ------------------------------------------------------------------ saving

  /** The list under `key` shares nothing with itself or with another field's list. */
  ghost predicate Owned(c: ConfigMap, key: string)
    reads c, c.Lists()
  {
    key in c.m && c.m[key].ListRef? ==>
      && c.m[key].o in c.Lists()
      && c.m[key].o.Distinct()
      && forall k | k in c.m && k != key && c.m[k].ListRef? ::
           && c.m[k].o in c.Lists()
           && c.m[k].o != c.m[key].o
           && c.m[k].o.Entries() !! c.m[key].o.Entries()
  }

  method ResolveKey(c: ConfigMap, key: string, prev: Option<Field>, ghost want: Config)
    returns (ok: bool, carried: Carried)
    requires Holds(c, want) && key in c.m
    modifies c
    ensures ok <==> FieldResolves(want[key], prev)
    ensures ok ==> Holds(c, want[key := ResolvedField(want[key], prev)]) && carried == CarriedFor(want[key])
    ensures forall k | k in c.m && k != key :: k in old(c.m) && c.m[k] == old(c.m[k])
    ensures ok ==> Owned(c, key) && (c.m[key].ListRef? ==> fresh(c.m[key].o) && fresh(c.m[key].o.Entries()))
    ensures forall k | old(Owned(c, k)) && k != key :: Owned(c, k)
  {
    var r;
    ok, r, carried := ResolveField(c.m[key], prev);
    if ok {
      PutOwned(c, key, r, want);
    }
  }

  /** Puts a field whose list, if it is one, shares nothing with the others. */
  method PutOwned(c: ConfigMap, key: string, r: FieldRef, ghost want: Config)
    requires Holds(c, want)
    requires r.ListRef? ==> r.o.Distinct() && r.o !in c.Lists()
                            && forall l | l in c.Lists() :: l.Entries() !! r.o.Entries()
    modifies c
    ensures c.m == old(c.m)[key := r] && Holds(c, want[key := old(FieldAt(r))])
    ensures Owned(c, key)
    ensures forall k | old(Owned(c, k)) && k != key :: Owned(c, k)
  {
    Put(c, key, r, want);
  }

  /** Seals one field in place; every other field keeps its value. */
  method SealKey(c: ConfigMap, key: string, carried: Carried, a: Aead, keyOk: bool, n: Nonces, ghost want: Config)
    returns (ok: bool)
    requires Holds(c, want) && key in c.m && Owned(c, key)
    requires c.m[key].ListRef? ==> carried.Entries?
    modifies c, if c.m[key].ListRef? then c.m[key].o.Entries() else {}
    ensures ok <==> keyOk || !NeedsSeal(want[key], carried)
    ensures ok ==> Holds(c, want[key := SealedField(key, want[key], carried, a, n)])
    ensures c.m.Keys == old(c.m.Keys)
    ensures forall k | k in c.m && (k != key || c.m[k].ListRef? || old(c.m[k]).ListRef?) :: c.m[k] == old(c.m[k])
  {
    var r;
    label before:
    ok, r := SealField(key, c.m[key], carried, a, keyOk, n);
    if ok {
      forall k | k in want && k != key
        ensures c.At(k) == want[k]
      {
        FieldKept@before(c.m[k]);
      }
      PutBack(c, key, r, want);
    }
  }

  /** Puts a field back into a config the others of which are as wanted. */
  method PutBack(c: ConfigMap, key: string, r: FieldRef, ghost want: Config)
    requires key in want && c.m.Keys == want.Keys && forall k | k in want && k != key :: c.At(k) == want[k]
    modifies c
    ensures c.m == old(c.m)[key := r] && Holds(c, want[key := old(FieldAt(r))])
  {
    label before:
    c.m := c.m[key := r];
    FieldKept@before(r);
    forall k | k in want && k != key
      ensures c.At(k) == want[k]
    {
      FieldKept@before(c.m[k]);
    }
  }

  /** Every list among `keys` is owned, and made of entries in `own`. */
  ghost predicate AllOwned(c: ConfigMap, keys: seq<string>, own: set<EntryMap>)
    reads c, c.Lists()
  {
    forall key | key in keys && key in c.m && c.m[key].ListRef? ::
      Owned(c, key) && c.m[key].o in c.Lists() && c.m[key].o.Entries() <= own
  }

  ghost predicate ResolvesUpTo(ks: seq<string>, src: Config, stored: Config) {
    forall key | key in ks && key in src :: FieldResolves(src[key], Get(stored, key))
  }

  ghost function ResolvedUpTo(ks: seq<string>, src: Config, stored: Config): Config
    requires ResolvesUpTo(ks, src, stored)
  {
    map key | key in src :: if key in ks then ResolvedField(src[key], Get(stored, key)) else src[key]
  }

  ghost predicate CarriedUpTo(ks: seq<string>, src: Config, carried: map<string, Carried>) {
    && (forall key | key in carried :: key in ks && key in src)
    && forall key | key in ks && key in src :: key in carried && carried[key] == CarriedFor(src[key])
  }

  lemma ResolvedSnoc(ks: seq<string>, key: string, src: Config, stored: Config)
    requires ResolvesUpTo(ks, src, stored)
    ensures ResolvesUpTo(ks + [key], src, stored) <==> (key in src ==> FieldResolves(src[key], Get(stored, key)))
    ensures ResolvesUpTo(ks + [key], src, stored) ==>
              ResolvedUpTo(ks + [key], src, stored) ==
              if key in src then ResolvedUpTo(ks, src, stored)[key := ResolvedField(src[key], Get(stored, key))]
              else ResolvedUpTo(ks, src, stored)
  {
    assert forall k :: k in ks + [key] <==> k in ks || k == key;
  }

  /** What the first loop has established after the keys `done`. */
  ghost predicate Resolving(done: seq<string>, c: ConfigMap, stored: Config, src: Config,
                            carried: map<string, Carried>, own: set<EntryMap>)
    reads c, c.Lists(), c.Entries()
  {
    && ResolvesUpTo(done, src, stored)
    && Holds(c, ResolvedUpTo(done, src, stored))
    && CarriedUpTo(done, src, carried)
    && AllOwned(c, done, own)
  }

  lemma CarriedSnoc(ks: seq<string>, key: string, src: Config, carried: map<string, Carried>)
    requires key !in ks && CarriedUpTo(ks, src, carried)
    ensures CarriedUpTo(ks + [key], src, if key in src then carried[key := CarriedFor(src[key])] else carried)
  {
    assert forall k :: k in ks + [key] <==> k in ks || k == key;
  }

  lemma AllOwnedNext(c: ConfigMap, keys: seq<string>, key: string, own: set<EntryMap>, own': set<EntryMap>)
    requires AllOwned(c, keys, own) && own <= own'
    requires key in c.m && c.m[key].ListRef? ==>
               Owned(c, key) && c.m[key].o in c.Lists() && c.m[key].o.Entries() <= own'
    ensures AllOwned(c, keys + [key], own')
  {}

  /** One turn of the first loop of `Save`. */
  method ResolveNext(ghost done: seq<string>, key: string, c: ConfigMap, stored: Config, ghost src: Config,
                     carried: map<string, Carried>, ghost own: set<EntryMap>)
    returns (ok: bool, carried': map<string, Carried>, ghost own': set<EntryMap>)
    requires key !in done && Resolving(done, c, stored, src, carried, own)
    modifies c
    ensures ok <==> ResolvesUpTo(done + [key], src, stored)
    ensures ok ==> Resolving(done + [key], c, stored, src, carried', own')
    ensures own <= own' && fresh(own' - own)
  {
    own', carried', ok := own, carried, true;
    ResolvedSnoc(done, key, src, stored);
    CarriedSnoc(done, key, src, carried);
    if key in c.m {
      var kept;
      ok, kept := ResolveKey(c, key, Get(stored, key), ResolvedUpTo(done, src, stored));
      if ok {
        carried' := carried[key := kept];
        if c.m[key].ListRef? {
          own' := own + c.m[key].o.Entries();
        }
        assert AllOwned(c, done, own);
        AllOwnedNext(c, done, key, own, own');
      }
    }
  }

  /** The first loop of `Save`. */
  method ResolveAll(ks: seq<string>, c: ConfigMap, stored: Config, ghost src: Config)
    returns (ok: bool, carried: map<string, Carried>, ghost own: set<EntryMap>)
    requires NoRepeats(ks) && Holds(c, src)
    modifies c
    ensures ok <==> ResolvesUpTo(ks, src, stored)
    ensures fresh(own) && (ok ==> Resolving(ks, c, stored, src, carried, own))
  {
    ok, carried, own := true, map[], {};
    assert ResolvedUpTo([], src, stored) == src;
    for i := 0 to |ks|
      invariant fresh(own) && ok && Resolving(ks[..i], c, stored, src, carried, own)
    {
      assert ks[..i + 1] == ks[..i] + [ks[i]];
      ok, carried, own := ResolveNext(ks[..i], ks[i], c, stored, src, carried, own);
      if !ok {
        return;
      }
    }
    assert ks[..|ks|] == ks;
  }

  function CarriedAt(carried: map<string, Carried>, key: string): Carried {
    if key in carried then carried[key] else Carried.Entries({})
  }

  /** The config `c`, with the fields `ks` sealed. */
  ghost function SealedUpTo(ks: seq<string>, c: Config, carried: map<string, Carried>, a: Aead, n: Nonces): Config {
    map key | key in c ::
      if key in ks then SealedField(key, c[key], CarriedAt(carried, key), a, n) else c[key]
  }

  ghost predicate SealsUpTo(ks: seq<string>, c: Config, carried: map<string, Carried>) {
    exists key :: key in ks && key in c && NeedsSeal(c[key], CarriedAt(carried, key))
  }

  lemma SealedSnoc(ks: seq<string>, key: string, c: Config, carried: map<string, Carried>, a: Aead, n: Nonces)
    requires key !in ks
    ensures SealsUpTo(ks + [key], c, carried) <==>
              SealsUpTo(ks, c, carried) || (key in c && NeedsSeal(c[key], CarriedAt(carried, key)))
    ensures SealedUpTo(ks + [key], c, carried, a, n) ==
            if key in c
            then SealedUpTo(ks, c, carried, a, n)[key := SealedField(key, c[key], CarriedAt(carried, key), a, n)]
            else SealedUpTo(ks, c, carried, a, n)
  {
    assert forall k :: k in ks + [key] <==> k in ks || k == key;
  }

  /** A list is carried over entry by entry. */
  ghost predicate CarriedFits(c: ConfigMap, carried: map<string, Carried>)
    reads c
  {
    forall key | key in c.m && c.m[key].ListRef? :: CarriedAt(carried, key).Entries?
  }

  /** Seals one field; whose list is whose does not change. */
  method SealOwned(c: ConfigMap, key: string, carried: map<string, Carried>, a: Aead, keyOk: bool, n: Nonces,
                   ghost want: Config, ghost keys: seq<string>, ghost own: set<EntryMap>)
    returns (ok: bool)
    requires Holds(c, want) && key in c.m && key in keys && AllOwned(c, keys, own) && CarriedFits(c, carried)
    modifies c, own
    ensures ok <==> keyOk || !NeedsSeal(want[key], CarriedAt(carried, key))
    ensures ok ==> Holds(c, want[key := SealedField(key, want[key], CarriedAt(carried, key), a, n)])
    ensures AllOwned(c, keys, own) && CarriedFits(c, carried)
  {
    ok := SealKey(c, key, CarriedAt(carried, key), a, keyOk, n, want);
  }

  /** One turn of the second loop of `Save`. */
  method SealNext(ghost done: seq<string>, key: string, c: ConfigMap, carried: map<string, Carried>, a: Aead,
                  keyOk: bool, n: Nonces, ghost resolved: Config, ghost keys: seq<string>, ghost own: set<EntryMap>)
    returns (ok: bool)
    requires key !in done && key in keys && AllOwned(c, keys, own) && CarriedFits(c, carried)
    requires Holds(c, SealedUpTo(done, resolved, carried, a, n)) && (keyOk || !SealsUpTo(done, resolved, carried))
    modifies c, own
    ensures ok <==> keyOk || !SealsUpTo(done + [key], resolved, carried)
    ensures ok ==> Holds(c, SealedUpTo(done + [key], resolved, carried, a, n))
    ensures AllOwned(c, keys, own) && CarriedFits(c, carried)
  {
    SealedSnoc(done, key, resolved, carried, a, n);
    ok := true;
    if key in c.m {
      ok := SealOwned(c, key, carried, a, keyOk, n, SealedUpTo(done, resolved, carried, a, n), keys, own);
    }
  }

  /** The second loop of `Save`. */
  method SealAll(ks: seq<string>, c: ConfigMap, carried: map<string, Carried>, a: Aead, keyOk: bool, n: Nonces,
                 ghost resolved: Config, ghost keys: seq<string>, ghost own: set<EntryMap>)
    returns (ok: bool)
    requires NoRepeats(ks) && (forall key | key in ks :: key in keys)
    requires AllOwned(c, keys, own) && CarriedFits(c, carried) && Holds(c, resolved)
    modifies c, own
    ensures ok <==> keyOk || !SealsUpTo(ks, resolved, carried)
    ensures ok ==> Holds(c, SealedUpTo(ks, resolved, carried, a, n))
  {
    ok := true;
    assert SealedUpTo([], resolved, carried, a, n) == resolved;
    for i := 0 to |ks|
      invariant AllOwned(c, keys, own) && CarriedFits(c, carried)
      invariant Holds(c, SealedUpTo(ks[..i], resolved, carried, a, n))
      invariant ok && (keyOk || !SealsUpTo(ks[..i], resolved, carried))
    {
      assert ks[..i + 1] == ks[..i] + [ks[i]] && ks[i] !in ks[..i];
      ok := SealNext(ks[..i], ks[i], c, carried, a, keyOk, n, resolved, keys, own);
      if !ok {
        assert exists key :: key in ks[..i + 1] && key in resolved && NeedsSeal(resolved[key], CarriedAt(carried, key));
        return;
      }
    }
    assert ks[..|ks|] == ks;
  }

  /** The two loops together compute what a save means. */
  lemma LoopsComputeSaved(d: Descriptor, src: Config, stored: Config, carried: map<string, Carried>, a: Aead, n: Nonces)
    requires Conforms(d) && ResolvesUpTo(SensitiveKeys(d), src, stored)
    requires CarriedUpTo(SensitiveKeys(d), src, carried)
    ensures Resolves(d, src, stored)
    ensures
      var resolved := ResolvedUpTo(SensitiveKeys(d), src, stored);
      && SealedUpTo(EncryptedKeys(d), resolved, carried, a, n) == Saved(d, src, stored, a, n)
      && (SealsUpTo(EncryptedKeys(d), resolved, carried) <==> Seals(d, src))
  {
    var resolved := ResolvedUpTo(SensitiveKeys(d), src, stored);
    forall key | key in src && Encrypted(d, key)
      ensures SealedField(key, resolved[key], CarriedAt(carried, key), a, n)
              == SavedField(key, src[key], Get(stored, key), a, n)
      ensures NeedsSeal(resolved[key], CarriedAt(carried, key)) <==> FieldSeals(src[key])
    {
      assert Sensitive(d, key);
      SealedIsSaved(key, src[key], Get(stored, key), a, n);
    }
    SealedKeysAreSaved(d, src, stored, resolved, carried, a, n);
  }

  lemma SealedKeysAreSaved(d: Descriptor, src: Config, stored: Config, resolved: Config, carried: map<string, Carried>,
                           a: Aead, n: Nonces)
    requires Conforms(d) && ResolvesUpTo(SensitiveKeys(d), src, stored)
    requires resolved == ResolvedUpTo(SensitiveKeys(d), src, stored) && Resolves(d, src, stored)
    requires forall key | key in src && Encrypted(d, key) ::
               SealedField(key, resolved[key], CarriedAt(carried, key), a, n)
               == SavedField(key, src[key], Get(stored, key), a, n)
    ensures SealedUpTo(EncryptedKeys(d), resolved, carried, a, n) == Saved(d, src, stored, a, n)
  {
    assert SealedUpTo(EncryptedKeys(d), resolved, carried, a, n).Keys == Saved(d, src, stored, a, n).Keys;
  }

  // ----------------------------------------------------------------- loading

  /** Opens every sealed entry of a list that was just decoded. */
  method OpenList(items: seq<Item>, a: Aead) returns (r: Option<seq<Item>>)
    ensures r.Some? <==> FieldOpens(List(items), a)
    ensures r.Some? ==> List(r.value) == OpenedField(List(items), a)
  {
    var out := items;
    for i := 0 to |items|
      invariant |out| == |items|
      invariant forall j | 0 <= j < i :: OpenedItem(items[j], a) == Some(out[j])
      invariant forall j | i <= j < |items| :: out[j] == items[j]
    {
      if out[i].Entry? {
        var v := TextOf(out[i].m, "value");
        if v.Some? && v.value != "" {
          var p := a.open(v.value);
          if p.None? {
            assert OpenedItem(items[i], a).None?;
            return None;
          }
          out := out[i := Entry(WithValue(out[i].m, p.value))];
        }
      }
    }
    r := Some(out);
  }

  method OpenField(f: Field, a: Aead) returns (r: Option<Field>)
    ensures r.Some? <==> FieldOpens(f, a)
    ensures r.Some? ==> r.value == OpenedField(f, a)
  {
    match f
    case Str(s) =>
      if s == "" {
        return Some(f);
      }
      var p := a.open(s);
      r := if p.Some? then Some(Str(p.value)) else None;
    case List(items) =>
      var out := OpenList(items, a);
      r := if out.Some? then Some(List(out.value)) else None;
    case Opaque(_) => r := Some(f);
  }

  datatype SaveError = QueryFailed | Undecodable | MaskUnresolvable | BadKey | DbFailed

  datatype LoadError = NoAnswer | BadConfig | Unreadable

  datatype Row = Row(enabled: bool, locked: bool, config: Config)

  datatype Instance = Instance(enabled: bool, config: Config, locked: bool)

  /** The work of `Save` on a copy of the config: masks resolved, then secrets sealed. An unresolvable
      mask is reported before a bad key; nothing that existed before is written to. */
  method Sealed(d: Descriptor, cfg: ConfigMap, stored: Config, aead: Aead, keyOk: bool, n: Nonces)
    returns (r: Result<Config, SaveError>)
    requires Conforms(d)
    ensures
      var src := old(cfg.Value());
      if !Resolves(d, src, stored) then r == Err(MaskUnresolvable)
      else if !keyOk && Seals(d, src) then r == Err(BadKey)
      else r == Ok(Saved(d, src, stored, aead, n))
  {
    ghost var src := cfg.Value();
    var c := ShallowCopy(cfg);
    KeysDoNotRepeat(d);
    var ok, carried, own := ResolveAll(SensitiveKeys(d), c, stored, src);
    if !ok {
      assert !Resolves(d, src, stored);
      return Err(MaskUnresolvable);
    }
    LoopsComputeSaved(d, src, stored, carried, aead, n);
    CarriedIsSensitive(d, c, carried, own, src, stored);
    ok := SealAll(EncryptedKeys(d), c, carried, aead, keyOk, n,
                  ResolvedUpTo(SensitiveKeys(d), src, stored), SensitiveKeys(d), own);
    if !ok {
      return Err(BadKey);
    }
    HoldsValue(c, Saved(d, src, stored, aead, n));
    r := Ok(c.Value());
  }

  lemma CarriedIsSensitive(d: Descriptor, c: ConfigMap, carried: map<string, Carried>, own: set<EntryMap>,
                           src: Config, stored: Config)
    requires Conforms(d) && Resolving(SensitiveKeys(d), c, stored, src, carried, own)
    ensures forall key | key in EncryptedKeys(d) :: key in SensitiveKeys(d)
    ensures CarriedFits(c, carried)
  {
    forall key | key in c.m && c.m[key].ListRef?
      ensures CarriedAt(carried, key).Entries?
    {
      if key in carried {
        assert c.At(key) == ResolvedUpTo(SensitiveKeys(d), src, stored)[key];
        assert carried[key] == CarriedFor(src[key]);
      }
    }
  }

  lemma OneMoreSave(d: Descriptor, calls: seq<Call>, c: Call, a: Aead, keyOk: bool)
    ensures
      var stored := AfterSaves(d, calls, a, keyOk);
      AfterSaves(d, calls + [c], a, keyOk) ==
      if Accepted(d, c, stored, keyOk) then Saved(d, c.cfg, stored, a, c.nonces) else stored
  {
    assert (calls + [c])[..|calls|] == calls;
  }

  /** The store of one integration; `keyOk` says the server's key has its 32 bytes. */
  class Store {
    const d: Descriptor
    const locked: bool
    const aead: Aead
    const keyOk: bool
    var row: Option<Row>
    /** Every `Save` so far; one whose query, decoding or write failed counts as not written. */
    ghost var calls: seq<Call>

    constructor (d: Descriptor, locked: bool, aead: Aead, keyOk: bool)
      ensures this.d == d && this.locked == locked && this.aead == aead && this.keyOk == keyOk && row.None?
      ensures calls == [] && Valid()
    {
      this.d, this.locked, this.aead, this.keyOk, row, calls := d, locked, aead, keyOk, None, [];
    }

    /** The row holds what the saves so far come to. */
    ghost predicate Valid()
      reads this
    {
      Stored() == AfterSaves(d, calls, aead, keyOk)
    }

    function Stored(): Config
      reads this
    {
      if row.Some? then row.value.config else map[]
    }

    /** `Save`. It writes the row and nothing else that existed before the call; a failed
        save leaves the row alone, and an unresolvable mask is reported before a bad key. */
    method Save(enabled: bool, cfg: ConfigMap, n: Nonces, queryOk: bool, decodes: bool, dbOk: bool)
      returns (r: Result<(), SaveError>)
      requires Conforms(d) && Valid()
      modifies this
      ensures Valid()
      ensures calls == old(calls) + [Call(old(cfg.Value()), n, queryOk && (old(row).Some? ==> decodes) && dbOk)]
      ensures r.Err? ==> row == old(row)
      ensures
        var src, stored := old(cfg.Value()), old(Stored());
        if !queryOk then r == Err(QueryFailed)
        else if old(row).Some? && !decodes then r == Err(Undecodable)
        else if !Resolves(d, src, stored) then r == Err(MaskUnresolvable)
        else if !keyOk && Seals(d, src) then r == Err(BadKey)
        else if !dbOk then r == Err(DbFailed)
        else r.Ok? && row == Some(Row(enabled, old(row).Some? && old(row).value.locked,
                                      Saved(d, src, stored, aead, n)))
    {
      ghost var call := Call(cfg.Value(), n, queryOk && (row.Some? ==> decodes) && dbOk);
      OneMoreSave(d, calls, call, aead, keyOk);
      ghost var log := calls + [call];
      if !queryOk {
        calls := log;
        return Err(QueryFailed);
      }
      if row.Some? && !decodes {
        calls := log;
        return Err(Undecodable);
      }
      var sealed := Sealed(d, cfg, Stored(), aead, keyOk, n);
      calls := log;
      if sealed.Err? {
        return Err(sealed.error);
      }
      if !dbOk {
        return Err(DbFailed);
      }
      row := Some(Row(enabled, row.Some? && row.value.locked, sealed.value));
      r := Ok(());
    }

    /** Whatever was saved before, the row opens to the plaintexts supplied. */
    lemma HoldsPlaintexts(key: string, name: string)
      requires Conforms(d) && Lawful(aead) && Valid()
      ensures Opens(d, Stored(), aead) && Loaded(d, Stored(), aead) == Plaintexts(d, calls, keyOk)
      ensures var loaded := Loaded(d, Stored(), aead);
              && TextField(loaded, key) == LastText(d, calls, keyOk, key)
              && Lookup(ItemsOf(Get(loaded, key)), name) == LastEntry(d, calls, keyOk, key, name)
    {
      StoreRefinesPlaintextMap(d, calls, aead, keyOk);
      LoadReturnsLastSupplied(d, calls, aead, keyOk, key, name);
    }

    /** `Load`: the stored config, every encrypted field opened; without a row, an empty
        config that is not enabled; else the first thing that went wrong. */
    method Load(queryOk: bool, decodes: bool) returns (r: Result<Instance, LoadError>)
      requires Conforms(d)
      ensures
        if !queryOk then r == Err(NoAnswer)
        else if row.None? then r == Ok(Instance(false, map[], locked))
        else if !decodes then r == Err(BadConfig)
        else if !Opens(d, Stored(), aead) then r == Err(Unreadable)
        else r == Ok(Instance(row.value.enabled, Loaded(d, Stored(), aead), locked || row.value.locked))
    {
      if !queryOk {
        return Err(NoAnswer);
      }
      if row.None? {
        return Ok(Instance(false, map[], locked));
      }
      if !decodes {
        return Err(BadConfig);
      }
      var stored := row.value.config;
      var cfg := stored;
      var ks := EncryptedKeys(d);
      KeysDoNotRepeat(d);
      for i := 0 to |ks|
        invariant cfg.Keys == stored.Keys
        invariant forall key | key in stored && key in ks[..i] ::
                    FieldOpens(stored[key], aead) && cfg[key] == OpenedField(stored[key], aead)
        invariant forall key | key in stored && key !in ks[..i] :: cfg[key] == stored[key]
      {
        assert ks[..i + 1] == ks[..i] + [ks[i]] && ks[i] !in ks[..i];
        if ks[i] in cfg {
          var f := OpenField(cfg[ks[i]], aead);
          if f.None? {
            assert ks[i] in stored && Encrypted(d, ks[i]);
            return Err(Unreadable);
          }
          cfg := cfg[ks[i] := f.value];
        }
      }
      assert ks[..|ks|] == ks;
      assert cfg == Loaded(d, stored, aead);
      r := Ok(Instance(row.value.enabled, cfg, locked || row.value.locked));
    }
  }
}
