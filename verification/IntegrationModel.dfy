/** Integration configs as values: what loading, masking and saving one mean.

    A config maps field keys to JSON. The descriptor marks some fields sensitive
    (masked on the way out, and the mask resolved on the way in) and some of those
    encrypted (stored as AES-GCM ciphertext). */
module IntegrationModel {
  import opened Prelude
  import opened Sealing

  /** A value inside a key/value entry: a string, or JSON the store never looks into. */
  datatype KValue = Text(s: string) | Other(json: int)

  /** A list element: an object, or JSON the store passes through. */
  datatype Item = Entry(m: map<string, KValue>) | Loose(json: int)

  /** A config value: a string, a list, or JSON the store passes through. */
  datatype Field = Str(s: string) | List(items: seq<Item>) | Opaque(json: int)

  type Config = map<string, Field>

  datatype FieldDecl = FieldDecl(key: string, sensitive: bool, encrypted: bool)

  type Descriptor = seq<FieldDecl>

  /** Encrypted fields are sensitive, as `ValidateDescriptor` demands. That no key is declared twice is
      demanded here only: a field listed twice as encrypted would be sealed twice by one `Save`. */
  ghost predicate Conforms(d: Descriptor) {
    && (forall i | 0 <= i < |d| :: d[i].encrypted ==> d[i].sensitive)
    && (forall i, j | 0 <= i < j < |d| :: d[i].key != d[j].key)
  }

  predicate Sensitive(d: Descriptor, key: string) {
    exists i | 0 <= i < |d| :: d[i].key == key && d[i].sensitive
  }

  predicate Encrypted(d: Descriptor, key: string) {
    exists i | 0 <= i < |d| :: d[i].key == key && d[i].encrypted
  }

  /** `SensitiveKeys`, in declaration order. */
  function SensitiveKeys(d: Descriptor): (ks: seq<string>)
    ensures forall k :: k in ks <==> Sensitive(d, k)
  {
    if d == [] then [] else
    var ks := SensitiveKeys(d[..|d| - 1]);
    if d[|d| - 1].sensitive then ks + [d[|d| - 1].key] else ks
  }

  /** `EncryptedKeys`, in declaration order. */
  function EncryptedKeys(d: Descriptor): (ks: seq<string>)
    ensures forall k :: k in ks <==> Encrypted(d, k)
  {
    if d == [] then [] else
    var ks := EncryptedKeys(d[..|d| - 1]);
    if d[|d| - 1].encrypted then ks + [d[|d| - 1].key] else ks
  }

  /** A nonce for every place something may be encrypted in one save. */
  type Nonces = (string, nat) -> nat

  function MaskSecret(s: string): string {
    if Blank(s) then "" else SENTINEL
  }

  /** The string under `name`, when there is one. */
  function TextOf(m: map<string, KValue>, name: string): Option<string> {
    if name in m && m[name].Text? then Some(m[name].s) else None
  }

  function WithValue(m: map<string, KValue>, v: string): map<string, KValue> {
    m["value" := Text(v)]
  }

  /** The stored value a masked entry stands for: the last entry with that non-empty key
      and a string value wins. */
  function Lookup(items: seq<Item>, key: string): Option<string> {
    if items == [] then None
    else
      var last := items[|items| - 1];
      if last.Entry? && key != "" && TextOf(last.m, "key") == Some(key) && TextOf(last.m, "value").Some?
      then TextOf(last.m, "value")
      else Lookup(items[..|items| - 1], key)
  }

  function KeyOf(m: map<string, KValue>): string {
    var k := TextOf(m, "key");
    if k.Some? then k.value else ""
  }

  function ItemsOf(prev: Option<Field>): seq<Item> {
    if prev.Some? && prev.value.List? then prev.value.items else []
  }

  function Get(c: Config, key: string): Option<Field> {
    if key in c then Some(c[key]) else None
  }

  // ------------------------------------------------------------------ saving

  predicate ItemResolves(it: Item, prevs: seq<Item>) {
    it.Entry? && TextOf(it.m, "value") == Some(SENTINEL) ==>
      var v := Lookup(prevs, KeyOf(it.m)); v.Some? && v.value != ""
  }

  /** Every mask in a sensitive field has a stored, non-empty value to stand for. */
  predicate FieldResolves(f: Field, prev: Option<Field>) {
    match f
    case Str(s) => s == SENTINEL ==> prev.Some? && prev.value.Str? && prev.value.s != ""
    case List(items) => forall i | 0 <= i < |items| :: ItemResolves(items[i], ItemsOf(prev))
    case Opaque(_) => true
  }

  ghost predicate Resolves(d: Descriptor, cfg: Config, stored: Config) {
    forall key | key in cfg && Sensitive(d, key) :: FieldResolves(cfg[key], Get(stored, key))
  }

  function ResolvedItem(it: Item, prevs: seq<Item>): Item
    requires ItemResolves(it, prevs)
  {
    if it.Entry? && TextOf(it.m, "value") == Some(SENTINEL)
    then Entry(WithValue(it.m, Lookup(prevs, KeyOf(it.m)).value))
    else it
  }

  function ResolvedField(f: Field, prev: Option<Field>): Field
    requires FieldResolves(f, prev)
  {
    match f
    case Str(s) => if s == SENTINEL then prev.value else f
    case List(items) =>
      List(seq(|items|, i requires 0 <= i < |items| => ResolvedItem(items[i], ItemsOf(prev))))
    case Opaque(_) => f
  }

  /** The config with each mask replaced by what it stands for in `stored`. */
  ghost function Resolved(d: Descriptor, cfg: Config, stored: Config): Config
    requires Resolves(d, cfg, stored)
  {
    map key | key in cfg ::
      if Sensitive(d, key) then ResolvedField(cfg[key], Get(stored, key)) else cfg[key]
  }

  /** A new, non-empty string of an encrypted field is sealed; a mask carries the stored
      ciphertext over as it is. */
  function SavedItem(it: Item, prevs: seq<Item>, a: Aead, nonce: nat): Item
    requires ItemResolves(it, prevs)
  {
    if it.Loose? then it
    else
      var v := TextOf(it.m, "value");
      if v == Some(SENTINEL) then ResolvedItem(it, prevs)
      else if v.Some? && v.value != "" then Entry(WithValue(it.m, a.seal(v.value, nonce)))
      else it
  }

  function SavedField(key: string, f: Field, prev: Option<Field>, a: Aead, n: Nonces): Field
    requires FieldResolves(f, prev)
  {
    match f
    case Str(s) =>
      if s == SENTINEL then prev.value else if s != "" then Str(a.seal(s, n(key, 0))) else f
    case List(items) =>
      List(seq(|items|, i requires 0 <= i < |items| => SavedItem(items[i], ItemsOf(prev), a, n(key, i))))
    case Opaque(_) => f
  }

  /** What `Save` stores. */
  ghost function Saved(d: Descriptor, cfg: Config, stored: Config, a: Aead, n: Nonces): Config
    requires Resolves(d, cfg, stored)
  {
    map key | key in cfg ::
      if Encrypted(d, key) && Sensitive(d, key) then SavedField(key, cfg[key], Get(stored, key), a, n)
      else if Sensitive(d, key) then ResolvedField(cfg[key], Get(stored, key))
      else cfg[key]
  }

  /** Something in an encrypted field has to be sealed, so the key must be usable. */
  predicate FieldSeals(f: Field) {
    match f
    case Str(s) => s != "" && s != SENTINEL
    case List(items) => exists i | 0 <= i < |items| ::
      items[i].Entry? && TextOf(items[i].m, "value").Some?
      && TextOf(items[i].m, "value").value != "" && TextOf(items[i].m, "value").value != SENTINEL
    case Opaque(_) => false
  }

  ghost predicate Seals(d: Descriptor, cfg: Config) {
    exists key :: key in cfg && Encrypted(d, key) && FieldSeals(cfg[key])
  }

  // ----------------------------------------------------------------- loading

  function OpenedItem(it: Item, a: Aead): Option<Item> {
    if it.Loose? then Some(it)
    else
      var v := TextOf(it.m, "value");
      if v.None? || v.value == "" then Some(it)
      else
        var p := a.open(v.value);
        if p.Some? then Some(Entry(WithValue(it.m, p.value))) else None
  }

  predicate FieldOpens(f: Field, a: Aead) {
    match f
    case Str(s) => s == "" || a.open(s).Some?
    case List(items) => forall i | 0 <= i < |items| :: OpenedItem(items[i], a).Some?
    case Opaque(_) => true
  }

  function OpenedField(f: Field, a: Aead): Field
    requires FieldOpens(f, a)
  {
    match f
    case Str(s) => if s == "" then f else Str(a.open(s).value)
    case List(items) => List(seq(|items|, i requires 0 <= i < |items| => OpenedItem(items[i], a).value))
    case Opaque(_) => f
  }

  ghost predicate Opens(d: Descriptor, stored: Config, a: Aead) {
    forall key | key in stored && Encrypted(d, key) :: FieldOpens(stored[key], a)
  }

  /** What `Load` returns. */
  ghost function Loaded(d: Descriptor, stored: Config, a: Aead): Config
    requires Opens(d, stored, a)
  {
    map key | key in stored :: if Encrypted(d, key) then OpenedField(stored[key], a) else stored[key]
  }

  // ----------------------------------------------------------------- masking

  function MaskedItem(it: Item): Item {
    if it.Loose? then it
    else
      var v := TextOf(it.m, "value");
      if v.Some? && v.value != "" then Entry(WithValue(it.m, MaskSecret(v.value))) else it
  }

  function MaskedField(f: Field): Field {
    match f
    case Str(s) => if s != "" then Str(MaskSecret(s)) else f
    case List(items) => List(seq(|items|, i requires 0 <= i < |items| => MaskedItem(items[i])))
    case Opaque(_) => f
  }

  /** What `Mask` returns. */
  ghost function Masked(d: Descriptor, cfg: Config): Config {
    map key | key in cfg :: if Sensitive(d, key) then MaskedField(cfg[key]) else cfg[key]
  }
}
