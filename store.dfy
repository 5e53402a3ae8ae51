/**
 * The store: the class registry, the data source's raw collections, and the model
 * operations (`getModel`, `findById`, `save`, `delete`, `find().get()`, `query`,
 * `Store.populate`) over them.
 */
module Stores {
  import opened Wrappers
  import opened Documents
  import opened Queries

  /** Each persistent class name mapped to the collection of its base class. */
  type Registry = map<string, string>

  /** The data source's raw data: collection name, then document id, then record. */
  type Collections = map<string, map<string, Record>>

  /** A model is bound to the collection of one base class. */
  datatype Model = Model(collectionName: string)

  /** `getModel` accepts a class name or an instance. */
  datatype ModelKey = ByName(name: string) | ByInstance(doc: Doc)

  datatype Error = NotFound(key: Key) | UnknownClass(className: string)

  /** A base class owns its collection; a derived class maps to the collection its base owns. */
  ghost predicate WellFormedRegistry(classes: Registry) {
    forall c :: c in classes ==> classes[c] in classes && classes[classes[c]] == classes[c]
  }

  /** The classes of the test suite: `DerivedUser` lives in the collection of `TestUser`. */
  const TestClasses: Registry := map["TestUser" := "TestUser", "DerivedUser" := "TestUser", "SubClass" := "SubClass"]

  // ----------------------------------------------------------------- models

  /** `Store.getModel(classNameOrInstance)`; an unregistered class has no model. */
  function GetModel(classes: Registry, key: ModelKey): (r: Option<Model>)
    ensures r.Some? <==> ClassOf(key) in classes
    ensures r.Some? ==> r.value.collectionName == classes[ClassOf(key)]
  {
    var name := ClassOf(key);
    if name in classes then Some(Model(classes[name])) else None
  }

  /** The class a model key names: the class name itself, or the instance's runtime class. */
  function ClassOf(key: ModelKey): string {
    match key
    case ByName(n) => n
    case ByInstance(d) => d.className
  }

  /** Resolving a model by class name or by an instance of that class gives the same model. */
  lemma ModelByNameOrInstance(classes: Registry, d: Doc)
    ensures GetModel(classes, ByInstance(d)) == GetModel(classes, ByName(d.className))
  {
  }

  /** A registered class resolves to the model of its base class, whose collection the base names. */
  lemma DerivedClassSharesBaseModel(classes: Registry, c: string)
    requires WellFormedRegistry(classes) && c in classes
    ensures GetModel(classes, ByName(c)) == GetModel(classes, ByName(classes[c]))
    ensures GetModel(classes, ByName(c)) == Some(Model(classes[c]))
  {
  }

  /** In the test registry, `TestUser` resolves to the collection `'TestUser'`, and so do its instances. */
  lemma TestUserModel(d: Doc)
    requires d.className == "TestUser" || d.className == "DerivedUser"
    ensures WellFormedRegistry(TestClasses)
    ensures GetModel(TestClasses, ByName("TestUser")) == Some(Model("TestUser"))
    ensures GetModel(TestClasses, ByInstance(d)) == Some(Model("TestUser"))
  {
    assert TestClasses.Keys == {"TestUser", "DerivedUser", "SubClass"};
    forall c | c in TestClasses
      ensures TestClasses[c] in TestClasses && TestClasses[TestClasses[c]] == TestClasses[c]
    {
      assert c == "TestUser" || c == "DerivedUser" || c == "SubClass";
    }
  }

  // ------------------------------------------------------------ raw access

  function Lookup(cs: Collections, coll: string, id: string): Option<Record> {
    if coll in cs && id in cs[coll] then Some(cs[coll][id]) else None
  }

  /** The records of one collection; a collection never written is empty. */
  function CollectionOf(cs: Collections, coll: string): map<string, Record> {
    if coll in cs then cs[coll] else map[]
  }

  /** Writes one record, replacing any record under the same id, and changes nothing else. */
  function Put(cs: Collections, coll: string, id: string, rec: Record): (r: Collections)
    ensures Lookup(r, coll, id) == Some(rec)
    ensures forall c, i :: (c != coll || i != id) ==> Lookup(r, c, i) == Lookup(cs, c, i)
  {
    cs[coll := CollectionOf(cs, coll)[id := rec]]
  }

  /** Removes the record under `id`; removing an absent id leaves the data unchanged. */
  function Remove(cs: Collections, coll: string, id: string): (r: Collections)
    ensures Lookup(r, coll, id) == None
    ensures forall c, i :: (c != coll || i != id) ==> Lookup(r, c, i) == Lookup(cs, c, i)
    ensures Lookup(cs, coll, id) == None ==> r == cs
  {
    if coll in cs && id in cs[coll] then cs[coll := cs[coll] - {id}] else cs
  }

  /** Every record sits in the collection of the base of the class it names. */
  ghost predicate WellTypedData(classes: Registry, cs: Collections) {
    forall coll, id :: Lookup(cs, coll, id).Some? ==>
      var rec := Lookup(cs, coll, id).value;
      rec.className in classes && classes[rec.className] == coll
  }

  // --------------------------------------------------------------- reading

  /**
   * `model.findById(id)`: `None` (undefined, not an error) when the collection holds no
   * record under `id`; otherwise an instance of the class the record names, with that id,
   * the stored plain fields and unloaded placeholders for its references.
   */
  function FindById(cs: Collections, m: Model, id: string): (r: Option<Doc>)
    ensures r.None? <==> Lookup(cs, m.collectionName, id).None?
    ensures r.Some? ==>
      var rec := Lookup(cs, m.collectionName, id).value;
      r.value.id == id && r.value.className == rec.className && r.value.values == rec.values &&
      Unloaded(r.value)
  {
    match Lookup(cs, m.collectionName, id)
    case None => None
    case Some(rec) => Some(FromRecord(id, rec))
  }

  /** In well-typed data a found document is of a class registered under the model's collection. */
  lemma FoundClassBelongsToModel(classes: Registry, cs: Collections, m: Model, id: string)
    requires WellTypedData(classes, cs) && FindById(cs, m, id).Some?
    ensures FindById(cs, m, id).value.className in classes
    ensures classes[FindById(cs, m, id).value.className] == m.collectionName
  {
  }

  /** Hydrates query results, each under its own id. */
  function HydrateAll(rows: seq<Row>): (ds: seq<Doc>)
    ensures |ds| == |rows|
    ensures forall i :: 0 <= i < |rows| ==> ds[i] == FromRecord(rows[i].id, rows[i].record)
  {
    if rows == [] then [] else [FromRecord(rows[0].id, rows[0].record)] + HydrateAll(rows[1..])
  }

  /** `rows` lists every record of `coll` exactly once, each under its id, in some order. */
  ghost predicate IsScan(rows: seq<Row>, coll: map<string, Record>) {
    && (forall id :: id in coll ==> exists i :: 0 <= i < |rows| && rows[i].id == id)
    && (forall i :: 0 <= i < |rows| ==> rows[i].id in coll && coll[rows[i].id] == rows[i].record)
    && (forall i, j :: 0 <= i < j < |rows| ==> rows[i].id != rows[j].id)
  }

  // ------------------------------------------------------------- populating

  /**
   * `Store.populate(ref)` for one reference: reads the target's record from the collection of
   * the target's class and yields the loaded instance (`wasLoaded` true) with the stored
   * fields. A target that is not stored, or whose class is not registered, is an error.
   * A loaded reference is read again, so populating refreshes it with the stored data.
   */
  function Populate(classes: Registry, cs: Collections, r: Ref): (res: Result<Ref, Error>)
    ensures res.Failure? <==>
      KeyOf(r).className !in classes || Lookup(cs, classes[KeyOf(r).className], KeyOf(r).id).None?
    ensures res.Success? ==>
      var rec := Lookup(cs, classes[KeyOf(r).className], KeyOf(r).id).value;
      WasLoaded(res.value) && res.value.doc.id == KeyOf(r).id &&
      res.value.doc.className == rec.className && res.value.doc.values == rec.values
  {
    var k := KeyOf(r);
    if k.className !in classes then Failure(UnknownClass(k.className))
    else match Lookup(cs, classes[k.className], k.id)
      case None => Failure(NotFound(k))
      case Some(rec) => Success(Instance(FromRecord(k.id, rec)))
  }

  /**
   * `Store.populate(refs)` for a list: every element is populated on its own; an element
   * whose target is missing stays as it was, and the call fails when any element failed.
   */
  function PopulateList(classes: Registry, cs: Collections, rs: seq<Ref>): (out: (seq<Ref>, bool))
    ensures |out.0| == |rs|
    ensures forall i :: 0 <= i < |rs| ==>
      out.0[i] == (if Populate(classes, cs, rs[i]).Success? then Populate(classes, cs, rs[i]).value else rs[i])
    ensures out.1 <==> forall i :: 0 <= i < |rs| ==> Populate(classes, cs, rs[i]).Success?
  {
    if rs == [] then ([], true)
    else
      var head := Populate(classes, cs, rs[0]);
      var tail := PopulateList(classes, cs, rs[1..]);
      ([if head.Success? then head.value else rs[0]] + tail.0, head.Success? && tail.1)
  }

  /**
   * Populating the reference field `name` of a document, as the document that holds the
   * placeholder objects sees it afterwards; the flag says whether every target was found.
   */
  function PopulateField(classes: Registry, cs: Collections, d: Doc, name: string): (out: (Doc, bool))
    ensures out.0.id == d.id && out.0.className == d.className && out.0.values == d.values
    ensures |out.0.refs| == |d.refs|
    ensures forall i :: 0 <= i < |d.refs| && d.refs[i].name != name ==> out.0.refs[i] == d.refs[i]
    ensures forall i :: 0 <= i < |d.refs| ==> out.0.refs[i] == PopulateOne(classes, cs, d.refs[i], name).0
    ensures out.1 <==> forall i :: 0 <= i < |d.refs| ==> PopulateOne(classes, cs, d.refs[i], name).1
  {
    var fs := PopulateFields(classes, cs, d.refs, name);
    (d.(refs := fs.0), fs.1)
  }

  function PopulateFields(classes: Registry, cs: Collections, fs: seq<RefField>, name: string): (out: (seq<RefField>, bool))
    ensures |out.0| == |fs|
    ensures forall i :: 0 <= i < |fs| ==> out.0[i] == PopulateOne(classes, cs, fs[i], name).0
    ensures out.1 <==> forall i :: 0 <= i < |fs| ==> PopulateOne(classes, cs, fs[i], name).1
  {
    if fs == [] then ([], true)
    else
      var head := PopulateOne(classes, cs, fs[0], name);
      var tail := PopulateFields(classes, cs, fs[1..], name);
      ([head.0] + tail.0, head.1 && tail.1)
  }

  function PopulateOne(classes: Registry, cs: Collections, f: RefField, name: string): (out: (RefField, bool))
    ensures f.name != name ==> out == (f, true)
    ensures out.0.name == f.name
    ensures f.name == name && f.One? ==>
      out == (if Populate(classes, cs, f.ref).Success? then (One(name, Populate(classes, cs, f.ref).value), true)
              else (f, false))
    ensures f.name == name && f.Many? ==>
      out == (Many(name, PopulateList(classes, cs, f.items).0), PopulateList(classes, cs, f.items).1)
  {
    if f.name != name then (f, true)
    else match f
      case One(n, r) =>
        var res := Populate(classes, cs, r);
        if res.Success? then (One(n, res.value), true) else (f, false)
      case Many(n, rs) =>
        var res := PopulateList(classes, cs, rs);
        (Many(n, res.0), res.1)
  }

  /**
   * Populating is idempotent in well-typed data: populating an already populated
   * reference yields the same reference again.
   */
  lemma PopulateIsIdempotent(classes: Registry, cs: Collections, r: Ref)
    requires WellTypedData(classes, cs)
    requires Populate(classes, cs, r).Success?
    ensures Populate(classes, cs, Populate(classes, cs, r).value) == Populate(classes, cs, r)
  {
    var k := KeyOf(r);
    var rec := Lookup(cs, classes[k.className], k.id).value;
    assert classes[rec.className] == classes[k.className];
  }

  // ----------------------------------------------------------------- saving

  /** Every document instance in the tree is of a registered class. */
  predicate RegisteredDoc(classes: Registry, d: Doc) {
    d.className in classes && forall i :: 0 <= i < |d.refs| ==> RegisteredField(classes, d.refs[i])
  }

  predicate RegisteredField(classes: Registry, f: RefField) {
    match f
    case One(_, r) => RegisteredRef(classes, r)
    case Many(_, rs) => forall j :: 0 <= j < |rs| ==> RegisteredRef(classes, rs[j])
  }

  predicate RegisteredRef(classes: Registry, r: Ref) {
    r.Instance? ==> RegisteredDoc(classes, r.doc)
  }

  /** One record write of the data source. */
  datatype Write = Write(collection: string, id: string, record: Record)

  /** A write puts a record into the collection of the base of the class it names. */
  predicate WellTypedWrite(classes: Registry, w: Write) {
    w.record.className in classes && classes[w.record.className] == w.collection
  }

  /** Applies writes in order. */
  function ApplyAll(cs: Collections, log: seq<Write>): Collections
    decreases |log|
  {
    if log == [] then cs
    else
      var w := log[|log| - 1];
      Put(ApplyAll(cs, log[..|log| - 1]), w.collection, w.id, w.record)
  }

  /** `log[k]` writes to `(coll, id)` and no later write of `log` does. */
  predicate IsLastWriteAt(log: seq<Write>, k: int, coll: string, id: string) {
    && 0 <= k < |log| && log[k].collection == coll && log[k].id == id
    && forall k' :: k < k' < |log| ==> log[k'].collection != coll || log[k'].id != id
  }

  /** The record of the last write to `(coll, id)`, if any. */
  function LastWrite(log: seq<Write>, coll: string, id: string): (r: Option<Record>)
    ensures r.Some? ==> Write(coll, id, r.value) in log
    ensures r.Some? ==> exists k :: IsLastWriteAt(log, k, coll, id) && log[k].record == r.value
    ensures r.None? <==> forall w :: w in log ==> w.collection != coll || w.id != id
    decreases |log|
  {
    if log == [] then None
    else
      var w := log[|log| - 1];
      assert log == log[..|log| - 1] + [w];
      if w.collection == coll && w.id == id then
        assert IsLastWriteAt(log, |log| - 1, coll, id);
        Some(w.record)
      else
        var r := LastWrite(log[..|log| - 1], coll, id);
        assert r.Some? ==> exists k :: IsLastWriteAt(log, k, coll, id) && log[k].record == r.value by {
          if r.Some? {
            var prefix := log[..|log| - 1];
            var k :| IsLastWriteAt(prefix, k, coll, id) && prefix[k].record == r.value;
            assert log[k] == prefix[k];
            forall k' | k < k' < |log| ensures log[k'].collection != coll || log[k'].id != id {
              if k' < |prefix| {
                assert log[k'] == prefix[k'];
              }
            }
            assert IsLastWriteAt(log, k, coll, id);
          }
        }
        r
  }

  /**
   * The writes `save(d)` performs, in order: first every document instance that `d`
   * references (a single reference or the elements of a list, field by field, each
   * with its own cascade), then `d` itself into the collection of its base class.
   * A placeholder is not written again; only its key is stored.
   */
  function SaveLog(classes: Registry, d: Doc): (log: seq<Write>)
    requires RegisteredDoc(classes, d)
    ensures |log| > 0 && log[|log| - 1] == Write(classes[d.className], d.id, ToRecord(d))
    ensures forall k :: 0 <= k < |log| ==> WellTypedWrite(classes, log[k])
    decreases d
  {
    FieldsLog(classes, d.refs) + [Write(classes[d.className], d.id, ToRecord(d))]
  }

  function FieldsLog(classes: Registry, fs: seq<RefField>): (log: seq<Write>)
    requires forall i :: 0 <= i < |fs| ==> RegisteredField(classes, fs[i])
    ensures forall k :: 0 <= k < |log| ==> WellTypedWrite(classes, log[k])
    decreases fs
  {
    if fs == [] then []
    else FieldsLog(classes, fs[..|fs| - 1]) + FieldLog(classes, fs[|fs| - 1])
  }

  function FieldLog(classes: Registry, f: RefField): (log: seq<Write>)
    requires RegisteredField(classes, f)
    ensures forall k :: 0 <= k < |log| ==> WellTypedWrite(classes, log[k])
    decreases f
  {
    match f
    case One(_, r) => RefLog(classes, r)
    case Many(_, rs) => RefsLog(classes, rs)
  }

  function RefsLog(classes: Registry, rs: seq<Ref>): (log: seq<Write>)
    requires forall j :: 0 <= j < |rs| ==> RegisteredRef(classes, rs[j])
    ensures forall k :: 0 <= k < |log| ==> WellTypedWrite(classes, log[k])
    decreases rs
  {
    if rs == [] then []
    else RefsLog(classes, rs[..|rs| - 1]) + RefLog(classes, rs[|rs| - 1])
  }

  function RefLog(classes: Registry, r: Ref): (log: seq<Write>)
    requires RegisteredRef(classes, r)
    ensures forall k :: 0 <= k < |log| ==> WellTypedWrite(classes, log[k])
    decreases r
  {
    match r
    case Placeholder(_) => []
    case Instance(c) => SaveLog(classes, c)
  }

  /**
   * The data after `save(d)`: the base collection of `d`'s class holds `d`'s complete current
   * state (class tag, plain fields, keys of its references) under its id.
   */
  function SaveDoc(classes: Registry, cs: Collections, d: Doc): (r: Collections)
    requires RegisteredDoc(classes, d)
    ensures Lookup(r, classes[d.className], d.id) == Some(ToRecord(d))
  {
    ApplyAll(cs, SaveLog(classes, d))
  }

  // ------------------------------------------------------- save properties

  lemma {:induction false} ApplyAllAppend(cs: Collections, a: seq<Write>, b: seq<Write>)
    ensures ApplyAll(cs, a + b) == ApplyAll(ApplyAll(cs, a), b)
    decreases |b|
  {
    if b == [] {
      assert a + b == a;
    } else {
      var ab := a + b;
      assert ab[..|ab| - 1] == a + b[..|b| - 1];
      assert ab[|ab| - 1] == b[|b| - 1];
      ApplyAllAppend(cs, a, b[..|b| - 1]);
    }
  }

  /** After a sequence of writes a location holds its last write, or what it held before. */
  lemma {:induction false} ApplyAllLookup(cs: Collections, log: seq<Write>, coll: string, id: string)
    ensures Lookup(ApplyAll(cs, log), coll, id) ==
      if LastWrite(log, coll, id).Some? then LastWrite(log, coll, id) else Lookup(cs, coll, id)
    decreases |log|
  {
    if log != [] {
      ApplyAllLookup(cs, log[..|log| - 1], coll, id);
    }
  }

  /** All writes of `log` to `(coll, id)` carry `rec`. */
  ghost predicate AgreesAt(log: seq<Write>, coll: string, id: string, rec: Record) {
    forall w :: w in log && w.collection == coll && w.id == id ==> w.record == rec
  }

  /** A location all of whose writes agree ends up holding the agreed record. */
  lemma AgreedWriteIsStored(cs: Collections, log: seq<Write>, coll: string, id: string, rec: Record)
    requires Write(coll, id, rec) in log && AgreesAt(log, coll, id, rec)
    ensures Lookup(ApplyAll(cs, log), coll, id) == Some(rec)
  {
    ApplyAllLookup(cs, log, coll, id);
  }

  /** Finding a saved document by its id gives it back with its references as placeholders. */
  lemma SaveThenFindById(classes: Registry, cs: Collections, d: Doc)
    requires RegisteredDoc(classes, d)
    ensures FindById(SaveDoc(classes, cs, d), Model(classes[d.className]), d.id) == Some(Shallow(d))
  {
    RoundTrip(d);
  }

  /**
   * Reloading a saved document: every single reference comes back as an unloaded placeholder
   * with the original key, every list of references as a list of the same length whose
   * placeholders carry the original keys in order.
   */
  lemma ReloadedReferencesArePlaceholders(classes: Registry, cs: Collections, d: Doc, i: nat)
    requires RegisteredDoc(classes, d) && i < |d.refs|
    ensures var loaded := FindById(SaveDoc(classes, cs, d), Model(classes[d.className]), d.id);
      && loaded.Some? && |loaded.value.refs| == |d.refs|
      && (d.refs[i].One? ==>
            loaded.value.refs[i] == One(d.refs[i].name, Placeholder(KeyOf(d.refs[i].ref))) &&
            !WasLoaded(loaded.value.refs[i].ref))
      && (d.refs[i].Many? ==>
            loaded.value.refs[i].Many? && loaded.value.refs[i].name == d.refs[i].name &&
            |loaded.value.refs[i].items| == |d.refs[i].items| &&
            forall j :: 0 <= j < |d.refs[i].items| ==>
              loaded.value.refs[i].items[j] == Placeholder(KeyOf(d.refs[i].items[j])) &&
              !WasLoaded(loaded.value.refs[i].items[j]))
  {
    SaveThenFindById(classes, cs, d);
  }

  /** `d` holds `c` in a single reference or as an element of a list of references. */
  predicate References(d: Doc, c: Doc) {
    exists i :: 0 <= i < |d.refs| && RefersTo(d.refs[i], c)
  }

  predicate RefersTo(f: RefField, c: Doc) {
    match f
    case One(_, r) => r == Instance(c)
    case Many(_, rs) => Instance(c) in rs
  }

  /** Every document reachable from `d` through loaded references, at any depth. */
  function Reachable(d: Doc): set<Doc>
    decreases d
  {
    ReachableFields(d.refs)
  }

  function ReachableFields(fs: seq<RefField>): set<Doc>
    decreases fs
  {
    if fs == [] then {} else ReachableFields(fs[..|fs| - 1]) + ReachableField(fs[|fs| - 1])
  }

  function ReachableField(f: RefField): set<Doc>
    decreases f
  {
    match f
    case One(_, r) => ReachableRef(r)
    case Many(_, rs) => ReachableRefs(rs)
  }

  function ReachableRefs(rs: seq<Ref>): set<Doc>
    decreases rs
  {
    if rs == [] then {} else ReachableRefs(rs[..|rs| - 1]) + ReachableRef(rs[|rs| - 1])
  }

  function ReachableRef(r: Ref): set<Doc>
    decreases r
  {
    match r
    case Placeholder(_) => {}
    case Instance(c) => {c} + Reachable(c)
  }

  lemma {:induction false} ReachableFieldsContains(fs: seq<RefField>, i: nat)
    requires i < |fs|
    ensures ReachableField(fs[i]) <= ReachableFields(fs)
    decreases |fs|
  {
    var prefix := fs[..|fs| - 1];
    if i < |fs| - 1 {
      assert prefix[i] == fs[i];
      ReachableFieldsContains(prefix, i);
    }
  }

  lemma {:induction false} ReachableRefsContains(rs: seq<Ref>, j: nat)
    requires j < |rs|
    ensures ReachableRef(rs[j]) <= ReachableRefs(rs)
    decreases |rs|
  {
    var prefix := rs[..|rs| - 1];
    if j < |rs| - 1 {
      assert prefix[j] == rs[j];
      ReachableRefsContains(prefix, j);
    }
  }

  /** A document `d` holds directly is reachable from `d`, and so is everything reachable from it. */
  lemma DirectReferenceIsReachable(d: Doc, c: Doc)
    requires References(d, c)
    ensures c in Reachable(d) && Reachable(c) <= Reachable(d)
  {
    var i :| 0 <= i < |d.refs| && RefersTo(d.refs[i], c);
    ReachableFieldsContains(d.refs, i);
    match d.refs[i]
    case One(_, r) =>
      assert ReachableField(d.refs[i]) == ReachableRef(Instance(c)) == {c} + Reachable(c);
    case Many(_, rs) =>
      var j :| 0 <= j < |rs| && rs[j] == Instance(c);
      ReachableRefsContains(rs, j);
      assert ReachableRef(rs[j]) == {c} + Reachable(c);
  }

  lemma {:induction false} ReachableFieldsWritten(classes: Registry, fs: seq<RefField>, c: Doc)
    requires forall k :: 0 <= k < |fs| ==> RegisteredField(classes, fs[k])
    requires c in ReachableFields(fs)
    ensures RegisteredDoc(classes, c)
    ensures forall w :: w in SaveLog(classes, c) ==> w in FieldsLog(classes, fs)
    decreases fs
  {
    assert fs != [];
    var prefix := fs[..|fs| - 1];
    if c in ReachableFields(prefix) {
      ReachableFieldsWritten(classes, prefix, c);
    } else {
      ReachableFieldWritten(classes, fs[|fs| - 1], c);
    }
  }

  lemma {:induction false} ReachableFieldWritten(classes: Registry, f: RefField, c: Doc)
    requires RegisteredField(classes, f)
    requires c in ReachableField(f)
    ensures RegisteredDoc(classes, c)
    ensures forall w :: w in SaveLog(classes, c) ==> w in FieldLog(classes, f)
    decreases f
  {
    match f
    case One(_, r) => ReachableRefWritten(classes, r, c);
    case Many(_, rs) => ReachableRefsWritten(classes, rs, c);
  }

  lemma {:induction false} ReachableRefsWritten(classes: Registry, rs: seq<Ref>, c: Doc)
    requires forall k :: 0 <= k < |rs| ==> RegisteredRef(classes, rs[k])
    requires c in ReachableRefs(rs)
    ensures RegisteredDoc(classes, c)
    ensures forall w :: w in SaveLog(classes, c) ==> w in RefsLog(classes, rs)
    decreases rs
  {
    assert rs != [];
    var prefix := rs[..|rs| - 1];
    if c in ReachableRefs(prefix) {
      ReachableRefsWritten(classes, prefix, c);
    } else {
      ReachableRefWritten(classes, rs[|rs| - 1], c);
    }
  }

  lemma {:induction false} ReachableRefWritten(classes: Registry, r: Ref, c: Doc)
    requires RegisteredRef(classes, r)
    requires c in ReachableRef(r)
    ensures RegisteredDoc(classes, c)
    ensures forall w :: w in SaveLog(classes, c) ==> w in RefLog(classes, r)
    decreases r
  {
    assert r.Instance?;
    var e := r.doc;
    if c != e {
      assert c in ReachableFields(e.refs);
      ReachableFieldsWritten(classes, e.refs, c);
    }
  }

  /**
   * Saving `d` carries out the whole save of every document reachable from `d`, at any
   * depth, so each of them is written with its own record into its own class's collection.
   */
  lemma ReachableDocIsWritten(classes: Registry, d: Doc, c: Doc)
    requires RegisteredDoc(classes, d) && c in Reachable(d)
    ensures RegisteredDoc(classes, c)
    ensures forall w :: w in SaveLog(classes, c) ==> w in SaveLog(classes, d)
    ensures Write(classes[c.className], c.id, ToRecord(c)) in SaveLog(classes, d)
  {
    ReachableFieldsWritten(classes, d.refs, c);
    var child := SaveLog(classes, c);
    assert child[|child| - 1] in child;
  }

  /** Saving `d` also carries out the save of every document instance `d` holds directly. */
  lemma ReferencedDocIsWritten(classes: Registry, d: Doc, c: Doc)
    requires RegisteredDoc(classes, d) && References(d, c)
    ensures RegisteredDoc(classes, c)
    ensures forall w :: w in SaveLog(classes, c) ==> w in SaveLog(classes, d)
    ensures Write(classes[c.className], c.id, ToRecord(c)) in SaveLog(classes, d)
  {
    DirectReferenceIsReachable(d, c);
    ReachableDocIsWritten(classes, d, c);
  }

  /**
   * Reference integrity after `save(d)`: every document reachable from `d`, at any depth, is
   * stored in the collection of its class's base under its id, so no reference that the save
   * stores dangles.
   */
  lemma SaveKeepsReferencesResolvable(classes: Registry, cs: Collections, d: Doc, c: Doc)
    requires RegisteredDoc(classes, d) && c in Reachable(d)
    ensures RegisteredDoc(classes, c)
    ensures Lookup(SaveDoc(classes, cs, d), classes[c.className], c.id).Some?
  {
    ReachableDocIsWritten(classes, d, c);
    ApplyAllLookup(cs, SaveLog(classes, d), classes[c.className], c.id);
  }

  /**
   * A document reachable from `d` lands in its own collection with its class tag and fields,
   * unless the same save also writes a different record under the same collection and id.
   */
  lemma SaveStoresReferencedDoc(classes: Registry, cs: Collections, d: Doc, c: Doc)
    requires RegisteredDoc(classes, d) && c in Reachable(d)
    requires RegisteredDoc(classes, c)
    requires AgreesAt(SaveLog(classes, d), classes[c.className], c.id, ToRecord(c))
    ensures Lookup(SaveDoc(classes, cs, d), classes[c.className], c.id) == Some(ToRecord(c))
  {
    ReachableDocIsWritten(classes, d, c);
    AgreedWriteIsStored(cs, SaveLog(classes, d), classes[c.className], c.id, ToRecord(c));
  }

  /** `save(d)` changes no location it does not write. */
  lemma SaveChangesOnlyWrittenLocations(classes: Registry, cs: Collections, d: Doc, coll: string, id: string)
    requires RegisteredDoc(classes, d)
    requires forall w :: w in SaveLog(classes, d) ==> w.collection != coll || w.id != id
    ensures Lookup(SaveDoc(classes, cs, d), coll, id) == Lookup(cs, coll, id)
  {
    ApplyAllLookup(cs, SaveLog(classes, d), coll, id);
  }

  lemma {:induction false} ApplyAllKeepsWellTyped(classes: Registry, cs: Collections, log: seq<Write>)
    requires WellTypedData(classes, cs)
    requires forall k :: 0 <= k < |log| ==> WellTypedWrite(classes, log[k])
    ensures WellTypedData(classes, ApplyAll(cs, log))
    decreases |log|
  {
    if log != [] {
      ApplyAllKeepsWellTyped(classes, cs, log[..|log| - 1]);
      assert WellTypedWrite(classes, log[|log| - 1]);
    }
  }

  /** Saving keeps every record in the collection its class belongs to. */
  lemma SaveKeepsWellTyped(classes: Registry, cs: Collections, d: Doc)
    requires RegisteredDoc(classes, d) && WellTypedData(classes, cs)
    ensures WellTypedData(classes, SaveDoc(classes, cs, d))
  {
    ApplyAllKeepsWellTyped(classes, cs, SaveLog(classes, d));
  }

  /** Deleting keeps every remaining record in the collection its class belongs to. */
  lemma RemoveKeepsWellTyped(classes: Registry, cs: Collections, coll: string, id: string)
    requires WellTypedData(classes, cs)
    ensures WellTypedData(classes, Remove(cs, coll, id))
  {
  }

  /**
   * After saving `d`, reloading it and populating one of its single references fills the
   * placeholder with the referenced document's stored fields and marks it loaded.
   */
  lemma SaveReloadPopulateOne(classes: Registry, cs: Collections, d: Doc, i: nat)
    requires RegisteredDoc(classes, d) && i < |d.refs|
    requires d.refs[i].One? && d.refs[i].ref.Instance?
    requires var c := d.refs[i].ref.doc;
      RegisteredDoc(classes, c) && AgreesAt(SaveLog(classes, d), classes[c.className], c.id, ToRecord(c))
    ensures var after := SaveDoc(classes, cs, d);
      var loaded := FindById(after, Model(classes[d.className]), d.id);
      loaded.Some? && i < |loaded.value.refs| && loaded.value.refs[i].One? &&
      Populate(classes, after, loaded.value.refs[i].ref) == Success(Instance(Shallow(d.refs[i].ref.doc)))
  {
    var c := d.refs[i].ref.doc;
    assert RefersTo(d.refs[i], c);
    DirectReferenceIsReachable(d, c);
    ReloadedReferencesArePlaceholders(classes, cs, d, i);
    SaveStoresReferencedDoc(classes, cs, d, c);
    RoundTrip(c);
  }

  /**
   * After saving `d`, reloading it and populating one of its lists of references fills every
   * placeholder of the list, in order, with the stored fields of the corresponding document.
   */
  lemma SaveReloadPopulateMany(classes: Registry, cs: Collections, d: Doc, i: nat)
    requires RegisteredDoc(classes, d) && i < |d.refs| && d.refs[i].Many?
    requires forall j :: 0 <= j < |d.refs[i].items| ==> d.refs[i].items[j].Instance?
    requires forall j :: 0 <= j < |d.refs[i].items| ==>
      var c := d.refs[i].items[j].doc;
      RegisteredDoc(classes, c) && AgreesAt(SaveLog(classes, d), classes[c.className], c.id, ToRecord(c))
    ensures var after := SaveDoc(classes, cs, d);
      var loaded := FindById(after, Model(classes[d.className]), d.id);
      loaded.Some? && i < |loaded.value.refs| && loaded.value.refs[i].Many? &&
      var out := PopulateList(classes, after, loaded.value.refs[i].items);
      out.1 && |out.0| == |d.refs[i].items| &&
      forall j :: 0 <= j < |d.refs[i].items| ==> out.0[j] == Instance(Shallow(d.refs[i].items[j].doc))
  {
    var after := SaveDoc(classes, cs, d);
    ReloadedReferencesArePlaceholders(classes, cs, d, i);
    var loaded := FindById(after, Model(classes[d.className]), d.id).value;
    var items := d.refs[i].items;
    forall j | 0 <= j < |items|
      ensures Populate(classes, after, loaded.refs[i].items[j]) == Success(Instance(Shallow(items[j].doc)))
    {
      var c := items[j].doc;
      assert items[j] == Instance(c);
      assert RefersTo(d.refs[i], c);
      DirectReferenceIsReachable(d, c);
      SaveStoresReferencedDoc(classes, cs, d, c);
      RoundTrip(c);
    }
  }

  /**
   * Populating through the reloaded parent: after saving `d` and finding it again, populating
   * the field that held a loaded instance leaves that field holding the loaded document
   * (`wasLoaded` true) with the referenced document's stored fields.
   */
  lemma PopulateReloadedFieldOne(classes: Registry, cs: Collections, d: Doc, i: nat)
    requires RegisteredDoc(classes, d) && i < |d.refs|
    requires d.refs[i].One? && d.refs[i].ref.Instance?
    requires var c := d.refs[i].ref.doc;
      RegisteredDoc(classes, c) && AgreesAt(SaveLog(classes, d), classes[c.className], c.id, ToRecord(c))
    ensures var after := SaveDoc(classes, cs, d);
      var loaded := FindById(after, Model(classes[d.className]), d.id);
      loaded.Some? && i < |loaded.value.refs| &&
      var filled := PopulateField(classes, after, loaded.value, d.refs[i].name).0.refs[i];
      filled == One(d.refs[i].name, Instance(Shallow(d.refs[i].ref.doc))) && WasLoaded(filled.ref)
  {
    SaveReloadPopulateOne(classes, cs, d, i);
    ReloadedReferencesArePlaceholders(classes, cs, d, i);
  }

  /**
   * Populating a list through the reloaded parent: every element of the field, in order,
   * becomes the loaded document with the stored fields of the corresponding original element.
   */
  lemma PopulateReloadedFieldMany(classes: Registry, cs: Collections, d: Doc, i: nat)
    requires RegisteredDoc(classes, d) && i < |d.refs| && d.refs[i].Many?
    requires forall j :: 0 <= j < |d.refs[i].items| ==> d.refs[i].items[j].Instance?
    requires forall j :: 0 <= j < |d.refs[i].items| ==>
      var c := d.refs[i].items[j].doc;
      RegisteredDoc(classes, c) && AgreesAt(SaveLog(classes, d), classes[c.className], c.id, ToRecord(c))
    ensures var after := SaveDoc(classes, cs, d);
      var loaded := FindById(after, Model(classes[d.className]), d.id);
      loaded.Some? && i < |loaded.value.refs| &&
      var populated := PopulateField(classes, after, loaded.value, d.refs[i].name);
      var filled := populated.0.refs[i];
      && filled.Many? && filled.name == d.refs[i].name && |filled.items| == |d.refs[i].items|
      && (forall j :: 0 <= j < |d.refs[i].items| ==> filled.items[j] == Instance(Shallow(d.refs[i].items[j].doc)))
      && PopulateOne(classes, after, loaded.value.refs[i], d.refs[i].name).1
  {
    SaveReloadPopulateMany(classes, cs, d, i);
    ReloadedReferencesArePlaceholders(classes, cs, d, i);
  }

  /**
   * Query results list exactly the stored documents that meet every condition, whatever
   * order the data source enumerates its collection in.
   */
  lemma ScanGetMembership(rows: seq<Row>, coll: map<string, Record>, q: Query, id: string)
    requires IsScan(rows, coll) && q.limit.None?
    ensures var r := Queries.Get(rows, q);
      (exists k :: 0 <= k < |r| && r[k].id == id) <==>
      id in coll && Matches(Row(id, coll[id]), ConditionSet(q.conditions))
  {
    var r := Queries.Get(rows, q);
    if k :| 0 <= k < |r| && r[k].id == id {
      GetMembership(rows, q, r[k]);
      var i :| 0 <= i < |rows| && rows[i] == r[k];
    }
    if id in coll && Matches(Row(id, coll[id]), ConditionSet(q.conditions)) {
      var i :| 0 <= i < |rows| && rows[i].id == id;
      assert rows[i] == Row(id, coll[id]);
      GetMembership(rows, q, rows[i]);
      var k :| 0 <= k < |r| && r[k] == rows[i];
    }
  }

  // ------------------------------------------------------------------ store

  /** `Store`: the registered classes and the raw data of the data source in use. */
  class Store {
    const classes: Registry
    var collections: Collections

    /** The registry is well formed and every record is stored under the base of its class. */
    ghost predicate Valid()
      reads this
    {
      WellFormedRegistry(classes) && WellTypedData(classes, collections)
    }

    constructor (classes: Registry, data: Collections)
      ensures this.classes == classes && collections == data
      ensures Valid() <==> WellFormedRegistry(classes) && WellTypedData(classes, data)
    {
      this.classes := classes;
      collections := data;
    }

    /** `Store.useDataSource`: every model reads and writes the new data from now on. */
    method UseDataSource(data: Collections)
      modifies this
      ensures collections == data
      ensures Valid() <==> WellFormedRegistry(classes) && WellTypedData(classes, data)
    {
      collections := data;
    }

    /**
     * `model.save(d)`: saves every document instance `d` references (field by field, the
     * elements of a list in order, each with its own cascade, each into its own model's
     * collection), then writes `d` into the collection of its base class.
     */
    method Save(m: Model, d: Doc)
      requires RegisteredDoc(classes, d) && classes[d.className] == m.collectionName
      modifies this
      ensures collections == SaveDoc(classes, old(collections), d)
      ensures old(Valid()) ==> Valid()
      decreases d
    {
      var c0 := collections;
      var i := 0;
      while i < |d.refs|
        invariant 0 <= i <= |d.refs|
        invariant collections == ApplyAll(c0, FieldsLog(classes, d.refs[..i]))
      {
        var before := collections;
        SaveField(d.refs[i]);
        assert d.refs[..i + 1][..i] == d.refs[..i];
        ApplyAllAppend(c0, FieldsLog(classes, d.refs[..i]), FieldLog(classes, d.refs[i]));
        i := i + 1;
      }
      assert d.refs[..|d.refs|] == d.refs;
      collections := Put(collections, m.collectionName, d.id, ToRecord(d));
      if old(Valid()) {
        SaveKeepsWellTyped(classes, c0, d);
      }
    }

    /** The cascade of one reference field. */
    method SaveField(f: RefField)
      requires RegisteredField(classes, f)
      modifies this
      ensures collections == ApplyAll(old(collections), FieldLog(classes, f))
      decreases f
    {
      match f {
        case One(_, r) => SaveRef(r);
        case Many(_, rs) => SaveList(rs);
      }
    }

    /** The cascade of a list of references, element by element. */
    method SaveList(rs: seq<Ref>)
      requires forall j :: 0 <= j < |rs| ==> RegisteredRef(classes, rs[j])
      modifies this
      ensures collections == ApplyAll(old(collections), RefsLog(classes, rs))
      decreases rs
    {
      var c0 := collections;
      var j := 0;
      while j < |rs|
        invariant 0 <= j <= |rs|
        invariant collections == ApplyAll(c0, RefsLog(classes, rs[..j]))
      {
        SaveRef(rs[j]);
        assert rs[..j + 1][..j] == rs[..j];
        ApplyAllAppend(c0, RefsLog(classes, rs[..j]), RefLog(classes, rs[j]));
        j := j + 1;
      }
      assert rs[..|rs|] == rs;
    }

    /** A loaded instance is saved with its own cascade; a placeholder is left as stored. */
    method SaveRef(r: Ref)
      requires RegisteredRef(classes, r)
      modifies this
      ensures collections == ApplyAll(old(collections), RefLog(classes, r))
      decreases r
    {
      if r.Instance? {
        Save(Model(classes[r.doc.className]), r.doc);
      }
    }

    /** `model.delete(id)`: removes the record under `id`; deleting an absent id changes nothing. */
    method Delete(m: Model, id: string)
      modifies this
      ensures collections == Remove(old(collections), m.collectionName, id)
      ensures old(Valid()) ==> Valid()
    {
      collections := Remove(collections, m.collectionName, id);
    }

    /** Reads every record of the model's collection once, in the data source's order. */
    method Scan(m: Model) returns (rows: seq<Row>)
      ensures IsScan(rows, CollectionOf(collections, m.collectionName))
    {
      var coll := CollectionOf(collections, m.collectionName);
      var remaining := coll.Keys;
      rows := [];
      while remaining != {}
        invariant remaining <= coll.Keys
        invariant forall id :: id in coll && id !in remaining ==> exists i :: 0 <= i < |rows| && rows[i].id == id
        invariant forall i :: 0 <= i < |rows| ==>
          rows[i].id in coll && coll[rows[i].id] == rows[i].record && rows[i].id !in remaining
        invariant forall i, j :: 0 <= i < j < |rows| ==> rows[i].id != rows[j].id
        decreases |remaining|
      {
        var id :| id in remaining;
        var prev := rows;
        rows := rows + [Row(id, coll[id])];
        remaining := remaining - {id};
        forall x | x in coll && x !in remaining
          ensures exists i :: 0 <= i < |rows| && rows[i].id == x
        {
          if x == id {
            assert rows[|prev|].id == x;
          } else {
            var i :| 0 <= i < |prev| && prev[i].id == x;
            assert rows[i].id == x;
          }
        }
      }
    }

    /** `model.find()...get()`: the documents the query selects from the model's collection. */
    method GetDocs(m: Model, q: Query) returns (docs: seq<Doc>)
      ensures exists rows ::
        IsScan(rows, CollectionOf(collections, m.collectionName)) && docs == HydrateAll(Queries.Get(rows, q))
    {
      var rows := Scan(m);
      docs := HydrateAll(Queries.Get(rows, q));
    }

    /** `model.query({ operations })`: the documents meeting every operation of the query object. */
    method QueryDocs(m: Model, obj: QueryObject) returns (docs: seq<Doc>)
      ensures exists rows ::
        IsScan(rows, CollectionOf(collections, m.collectionName)) && docs == HydrateAll(RunQuery(rows, obj))
    {
      var rows := Scan(m);
      docs := HydrateAll(RunQuery(rows, obj));
    }
  }
}
