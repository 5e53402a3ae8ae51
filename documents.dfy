/**
 * Documents and their persisted form.
 *
 * An in-memory document is an instance of a persistent class: an id, the name of its
 * runtime class, plain (scalar or object-valued) fields, and reference fields that hold
 * other documents. The persisted record keeps the class name (the `__className` tag),
 * the plain fields verbatim, and only the keys of referenced documents.
 */
module Documents {

  /** A plain field value as a JSON document holds it. */
  datatype Value =
    | Int(i: int)
    | Bool(b: bool)
    | Str(s: string)
    | List(items: seq<Value>)
    | Obj(props: map<string, Value>)

  /** What a stored reference remembers of its target: the target's class and id. */
  datatype Key = Key(className: string, id: string)

  /**
   * The content of a reference slot in memory: an unloaded placeholder that knows only
   * the target's key (`wasLoaded` false), or a whole document instance.
   */
  datatype Ref = Placeholder(key: Key) | Instance(doc: Doc)

  /** A reference field: a single reference or an ordered list of references. */
  datatype RefField = One(name: string, ref: Ref) | Many(name: string, items: seq<Ref>)

  /** A document instance; `refs` lists the reference fields in property order. */
  datatype Doc = Doc(id: string, className: string, values: map<string, Value>, refs: seq<RefField>)

  /** A reference field as persisted: keys only, never the nested payload. */
  datatype StoredRef = OneKey(name: string, key: Key) | ManyKeys(name: string, keys: seq<Key>)

  /** A raw record; `className` is the record's `__className` tag. */
  datatype Record = Record(className: string, values: map<string, Value>, refs: seq<StoredRef>)

  /** The `wasLoaded` flag of a reference slot. */
  predicate WasLoaded(r: Ref) {
    r.Instance?
  }

  /** The key a reference slot points to. */
  function KeyOf(r: Ref): (k: Key)
    ensures r.Placeholder? ==> k == r.key
    ensures r.Instance? ==> k.id == r.doc.id && k.className == r.doc.className
  {
    match r
    case Placeholder(k) => k
    case Instance(d) => Key(d.className, d.id)
  }

  /** The keys of a list of references, element by element. */
  function KeysOf(rs: seq<Ref>): (ks: seq<Key>)
    ensures |ks| == |rs|
    ensures forall i :: 0 <= i < |rs| ==> ks[i] == KeyOf(rs[i])
  {
    if rs == [] then [] else [KeyOf(rs[0])] + KeysOf(rs[1..])
  }

  /** Placeholders for a list of keys, element by element. */
  function PlaceholdersFor(ks: seq<Key>): (rs: seq<Ref>)
    ensures |rs| == |ks|
    ensures forall i :: 0 <= i < |ks| ==> rs[i] == Placeholder(ks[i])
  {
    if ks == [] then [] else [Placeholder(ks[0])] + PlaceholdersFor(ks[1..])
  }

  /** How one reference field is persisted. */
  function StoreField(f: RefField): StoredRef {
    match f
    case One(n, r) => OneKey(n, KeyOf(r))
    case Many(n, rs) => ManyKeys(n, KeysOf(rs))
  }

  /** How one persisted reference field is read back: as placeholders. */
  function LoadField(s: StoredRef): RefField {
    match s
    case OneKey(n, k) => One(n, Placeholder(k))
    case ManyKeys(n, ks) => Many(n, PlaceholdersFor(ks))
  }

  function StoreFields(fs: seq<RefField>): (ss: seq<StoredRef>)
    ensures |ss| == |fs|
    ensures forall i :: 0 <= i < |fs| ==> ss[i] == StoreField(fs[i])
  {
    if fs == [] then [] else [StoreField(fs[0])] + StoreFields(fs[1..])
  }

  function LoadFields(ss: seq<StoredRef>): (fs: seq<RefField>)
    ensures |fs| == |ss|
    ensures forall i :: 0 <= i < |ss| ==> fs[i] == LoadField(ss[i])
  {
    if ss == [] then [] else [LoadField(ss[0])] + LoadFields(ss[1..])
  }

  /**
   * Serializes a document: the class tag is the runtime class, plain fields are copied,
   * and every reference becomes the key of its target.
   */
  function ToRecord(d: Doc): (rec: Record)
    ensures rec.className == d.className && rec.values == d.values
    ensures |rec.refs| == |d.refs|
    ensures forall i :: 0 <= i < |d.refs| ==> rec.refs[i].name == d.refs[i].name
    ensures forall i :: 0 <= i < |d.refs| && d.refs[i].One? ==>
      rec.refs[i] == OneKey(d.refs[i].name, KeyOf(d.refs[i].ref))
    ensures forall i :: 0 <= i < |d.refs| && d.refs[i].Many? ==>
      rec.refs[i].ManyKeys? && |rec.refs[i].keys| == |d.refs[i].items| &&
      forall j :: 0 <= j < |d.refs[i].items| ==> rec.refs[i].keys[j] == KeyOf(d.refs[i].items[j])
  {
    Record(d.className, d.values, StoreFields(d.refs))
  }

  /** No reference slot of `d` is loaded: every reference is a placeholder. */
  predicate Unloaded(d: Doc) {
    forall i :: 0 <= i < |d.refs| ==>
      match d.refs[i]
      case One(_, r) => r.Placeholder?
      case Many(_, rs) => forall j :: 0 <= j < |rs| ==> rs[j].Placeholder?
  }

  /**
   * Hydrates the record stored under `id`: an instance of the class the record names, with
   * the stored plain fields, and with unloaded placeholders carrying the stored keys in
   * place of references (a list keeps its length and order).
   */
  function FromRecord(id: string, rec: Record): (d: Doc)
    ensures d.id == id && d.className == rec.className && d.values == rec.values
    ensures Unloaded(d)
    ensures |d.refs| == |rec.refs|
    ensures forall i :: 0 <= i < |rec.refs| && rec.refs[i].OneKey? ==>
      d.refs[i] == One(rec.refs[i].name, Placeholder(rec.refs[i].key))
    ensures forall i :: 0 <= i < |rec.refs| && rec.refs[i].ManyKeys? ==>
      d.refs[i].Many? && d.refs[i].name == rec.refs[i].name &&
      |d.refs[i].items| == |rec.refs[i].keys| &&
      forall j :: 0 <= j < |rec.refs[i].keys| ==> d.refs[i].items[j] == Placeholder(rec.refs[i].keys[j])
  {
    Doc(id, rec.className, rec.values, LoadFields(rec.refs))
  }

  /** A document as it reads back after a save: each reference reduced to a placeholder. */
  function Shallow(d: Doc): Doc {
    Doc(d.id, d.className, d.values, ShallowFields(d.refs))
  }

  function ShallowField(f: RefField): RefField {
    match f
    case One(n, r) => One(n, Placeholder(KeyOf(r)))
    case Many(n, rs) => Many(n, PlaceholdersFor(KeysOf(rs)))
  }

  function ShallowFields(fs: seq<RefField>): (gs: seq<RefField>)
    ensures |gs| == |fs|
    ensures forall i :: 0 <= i < |fs| ==> gs[i] == ShallowField(fs[i])
  {
    if fs == [] then [] else [ShallowField(fs[0])] + ShallowFields(fs[1..])
  }

  /**
   * Round trip: hydrating the record of a document gives back the document with the same
   * id, class and plain fields, and with its references reduced to placeholders that carry
   * the original keys.
   */
  lemma RoundTrip(d: Doc)
    ensures FromRecord(d.id, ToRecord(d)) == Shallow(d)
  {
    var back := FromRecord(d.id, ToRecord(d)).refs;
    var expected := Shallow(d).refs;
    assert |back| == |expected|;
    forall i | 0 <= i < |back|
      ensures back[i] == expected[i]
    {
      match d.refs[i]
      case One(n, r) =>
      case Many(n, rs) =>
        assert back[i].items == expected[i].items;
    }
  }

  /** A hydrated record is already shallow: reducing it again changes nothing. */
  lemma HydratedIsShallow(id: string, rec: Record)
    ensures Shallow(FromRecord(id, rec)) == FromRecord(id, rec)
  {
    var d := FromRecord(id, rec);
    var s := Shallow(d).refs;
    forall i | 0 <= i < |d.refs|
      ensures s[i] == d.refs[i]
    {
      match d.refs[i]
      case One(n, r) =>
      case Many(n, rs) =>
        assert s[i].items == d.refs[i].items;
    }
  }

  /** The other round trip: serializing a hydrated record gives back exactly that record. */
  lemma RecordRoundTrip(id: string, rec: Record)
    ensures ToRecord(FromRecord(id, rec)) == rec
  {
    var d := FromRecord(id, rec);
    var back := ToRecord(d).refs;
    forall i | 0 <= i < |rec.refs|
      ensures back[i] == rec.refs[i]
    {
      match rec.refs[i]
      case OneKey(n, k) =>
      case ManyKeys(n, ks) =>
        assert back[i].keys == ks;
    }
  }
}
