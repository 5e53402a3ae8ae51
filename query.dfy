/**
 * The query engine and the fluent query builder: a conjunction of `(field, operator, value)`
 * conditions, an optional single sort key with a direction, and an optional limit, all
 * evaluated over the rows a collection scan delivers.
 */
module Queries {
  import opened Wrappers
  import opened Documents

  /** One record of a collection, together with the id it is stored under. */
  datatype Row = Row(id: string, record: Record)

  datatype Op = Eq | Ne | Lt | Le | Gt | Ge

  /** One `where(field, operator, value)` clause. */
  datatype Condition = Condition(field: string, op: Op, value: Value)

  datatype Direction = Asc | Desc

  /** The single sort key of `orderBy(field, direction)`. */
  datatype Order = Order(field: string, direction: Direction)

  /** The state a query builder accumulates before `get()`. */
  datatype Query = Query(conditions: seq<Condition>, order: Option<Order>, limit: Option<nat>)

  /** One entry `{ operator, value }` of a declarative query object. */
  datatype Operation = Operation(op: Op, value: Value)

  /** The `operations` map of a declarative query object, keyed by field name. */
  type QueryObject = map<string, Operation>

  // ---------------------------------------------------------------- matching

  /**
   * `==` against an object value matches when the field holds an object that has every
   * given sub-property with an equal value; against any other value it is plain equality.
   */
  function EqMatch(x: Value, v: Value): (b: bool)
    ensures x == v ==> b
    ensures !v.Obj? ==> (b <==> x == v)
    ensures b && v.Obj? ==> x.Obj? && v.props.Keys <= x.props.Keys
  {
    match v
    case Obj(sub) => x.Obj? && forall k :: k in sub ==> k in x.props && x.props[k] == sub[k]
    case _ => x == v
  }

  /** The operators on a present field value; the ordering operators compare integers only. */
  function Compare(x: Value, op: Op, v: Value): (b: bool)
    ensures op == Eq ==> (b <==> EqMatch(x, v))
    ensures op == Ne ==> (b <==> !EqMatch(x, v))
    ensures op != Eq && op != Ne && b ==> x.Int? && v.Int?
    ensures x.Int? && v.Int? && op == Le ==> (b <==> x.i < v.i || x == v)
    ensures x.Int? && v.Int? && op == Ge ==> (b <==> x.i > v.i || x == v)
  {
    match op
    case Eq => EqMatch(x, v)
    case Ne => !EqMatch(x, v)
    case Lt => x.Int? && v.Int? && x.i < v.i
    case Le => x.Int? && v.Int? && x.i <= v.i
    case Gt => x.Int? && v.Int? && x.i > v.i
    case Ge => x.Int? && v.Int? && x.i >= v.i
  }

  /** A row satisfies a condition when the field is present and the comparison holds. */
  predicate Holds(row: Row, c: Condition) {
    c.field in row.record.values && Compare(row.record.values[c.field], c.op, c.value)
  }

  /** Conditions combine with AND. */
  predicate Matches(row: Row, conds: set<Condition>) {
    forall c :: c in conds ==> Holds(row, c)
  }

  /** The rows (in scan order) that satisfy every condition. */
  function Filter(rows: seq<Row>, conds: set<Condition>): (r: seq<Row>)
    ensures forall x :: multiset(r)[x] == if Matches(x, conds) then multiset(rows)[x] else 0
    ensures |r| <= |rows|
  {
    if rows == [] then []
    else
      assert rows == [rows[0]] + rows[1..];
      (if Matches(rows[0], conds) then [rows[0]] else []) + Filter(rows[1..], conds)
  }

  // ----------------------------------------------------------------- sorting

  /** The integer sort key of a row; a missing or non-integer field sorts as least. */
  function SortKey(row: Row, field: string): Option<int> {
    if field in row.record.values && row.record.values[field].Int? then Some(row.record.values[field].i)
    else None
  }

  predicate KeyLe(a: Option<int>, b: Option<int>) {
    match a
    case None => true
    case Some(x) => b.Some? && x <= b.value
  }

  /** `x` may come before `y`: ascending compares the keys, descending reverses the comparator. */
  predicate Before(ord: Order, x: Row, y: Row) {
    match ord.direction
    case Asc => KeyLe(SortKey(x, ord.field), SortKey(y, ord.field))
    case Desc => KeyLe(SortKey(y, ord.field), SortKey(x, ord.field))
  }

  predicate SortedBy(ord: Order, rows: seq<Row>) {
    forall i, j :: 0 <= i < j < |rows| ==> Before(ord, rows[i], rows[j])
  }

  lemma BeforeTotal(ord: Order, x: Row, y: Row)
    ensures Before(ord, x, y) || Before(ord, y, x)
  {
  }

  lemma BeforeTransitive(ord: Order, x: Row, y: Row, z: Row)
    requires Before(ord, x, y) && Before(ord, y, z)
    ensures Before(ord, x, z)
  {
  }

  /** Putting in front of a sorted sequence an element that may precede all of it keeps it sorted. */
  lemma ConsSorted(ord: Order, y: Row, s: seq<Row>)
    requires SortedBy(ord, s)
    requires forall k :: 0 <= k < |s| ==> Before(ord, y, s[k])
    ensures SortedBy(ord, [y] + s)
  {
    var t := [y] + s;
    forall i, j | 0 <= i < j < |t| ensures Before(ord, t[i], t[j]) {
      if i > 0 {
        assert t[i] == s[i - 1] && t[j] == s[j - 1];
      } else {
        assert t[j] == s[j - 1];
      }
    }
  }

  lemma TailSorted(ord: Order, rows: seq<Row>)
    requires SortedBy(ord, rows) && rows != []
    ensures SortedBy(ord, rows[1..])
  {
    var tail := rows[1..];
    forall i, j | 0 <= i < j < |tail| ensures Before(ord, tail[i], tail[j]) {
      assert tail[i] == rows[i + 1] && tail[j] == rows[j + 1];
    }
  }

  /** A row that may precede all of `s` and `x` may precede every row of a permutation of both. */
  lemma PrecedesPermutation(ord: Order, y: Row, s: seq<Row>, x: Row, t: seq<Row>)
    requires forall k :: 0 <= k < |s| ==> Before(ord, y, s[k])
    requires Before(ord, y, x)
    requires multiset(t) == multiset(s) + multiset{x}
    ensures forall k :: 0 <= k < |t| ==> Before(ord, y, t[k])
  {
    forall k | 0 <= k < |t| ensures Before(ord, y, t[k]) {
      assert t[k] in multiset(t);
      if t[k] != x {
        assert t[k] in multiset(s);
        var m :| 0 <= m < |s| && s[m] == t[k];
      }
    }
  }

  function Insert(ord: Order, x: Row, rows: seq<Row>): (r: seq<Row>)
    requires SortedBy(ord, rows)
    ensures SortedBy(ord, r)
    ensures multiset(r) == multiset(rows) + multiset{x}
  {
    if rows == [] || Before(ord, x, rows[0]) then
      assert forall k :: 0 <= k < |rows| ==> Before(ord, x, rows[k]) by {
        forall k | 0 <= k < |rows| ensures Before(ord, x, rows[k]) {
          if k > 0 { BeforeTransitive(ord, x, rows[0], rows[k]); }
        }
      }
      ConsSorted(ord, x, rows);
      [x] + rows
    else
      var tail := rows[1..];
      TailSorted(ord, rows);
      var rest := Insert(ord, x, tail);
      BeforeTotal(ord, x, rows[0]);
      forall k | 0 <= k < |tail| ensures Before(ord, rows[0], tail[k]) {
        assert tail[k] == rows[k + 1];
      }
      PrecedesPermutation(ord, rows[0], tail, x, rest);
      assert rows == [rows[0]] + tail;
      ConsSorted(ord, rows[0], rest);
      [rows[0]] + rest
  }

  /** Sorting by one key: the result is ordered and is a permutation of the input. */
  function Sort(ord: Order, rows: seq<Row>): (r: seq<Row>)
    ensures SortedBy(ord, r)
    ensures multiset(r) == multiset(rows)
  {
    if rows == [] then []
    else
      assert rows == [rows[0]] + rows[1..];
      Insert(ord, rows[0], Sort(ord, rows[1..]))
  }

  function SortIfOrdered(order: Option<Order>, rows: seq<Row>): (r: seq<Row>)
    ensures multiset(r) == multiset(rows)
    ensures order.Some? ==> SortedBy(order.value, r)
    ensures order.None? ==> r == rows
  {
    match order
    case None => rows
    case Some(ord) => Sort(ord, rows)
  }

  /** The limit caps the count after filtering and sorting: the result is a prefix. */
  function Take(limit: Option<nat>, rows: seq<Row>): (r: seq<Row>)
    ensures limit.None? ==> r == rows
    ensures limit.Some? ==> |r| == (if limit.value < |rows| then limit.value else |rows|)
    ensures r == rows[..|r|]
  {
    match limit
    case None => rows
    case Some(n) => if n < |rows| then rows[..n] else rows
  }

  // ------------------------------------------------------------- evaluation

  /** The engine shared by `find()...get()` and `query(...)`: filter, then sort, then limit. */
  function Select(rows: seq<Row>, conds: set<Condition>, order: Option<Order>, limit: Option<nat>): (r: seq<Row>)
    ensures forall x :: x in r ==> x in rows && Matches(x, conds)
    ensures order.Some? ==> SortedBy(order.value, r)
    ensures limit.Some? ==> |r| <= limit.value
    ensures limit.None? ==> multiset(r) == multiset(Filter(rows, conds))
  {
    var s := SortIfOrdered(order, Filter(rows, conds));
    var r := Take(limit, s);
    assert forall x :: x in r ==> x in multiset(s);
    assert order.Some? ==> SortedBy(order.value, r) by {
      if order.Some? {
        forall i, j | 0 <= i < j < |r| ensures Before(order.value, r[i], r[j]) {
          assert r[i] == s[i] && r[j] == s[j];
        }
      }
    }
    r
  }

  /** The set of conditions a chain of `where` calls has accumulated. */
  function ConditionSet(cs: seq<Condition>): set<Condition> {
    set c | c in cs
  }

  // ----------------------------------------------------------------- builder

  /** `model.find()`: a fresh builder with no conditions, no order and no limit. */
  function Find(): (q: Query)
    ensures ConditionSet(q.conditions) == {} && q.order.None? && q.limit.None?
  {
    Query([], None, None)
  }

  /** `where(field, operator, value)` appends a condition. */
  function Where(q: Query, field: string, op: Op, value: Value): (r: Query)
    ensures ConditionSet(r.conditions) == ConditionSet(q.conditions) + {Condition(field, op, value)}
    ensures r.order == q.order && r.limit == q.limit
  {
    var r := q.(conditions := q.conditions + [Condition(field, op, value)]);
    assert forall c :: c in r.conditions <==> c in q.conditions || c == Condition(field, op, value);
    r
  }

  /** `orderBy(field, direction)` records the single sort key; a later call replaces it. */
  function OrderBy(q: Query, field: string, direction: Direction): (r: Query)
    ensures r.order == Some(Order(field, direction))
    ensures r.conditions == q.conditions && r.limit == q.limit
  {
    q.(order := Some(Order(field, direction)))
  }

  /** `limit(n)`. */
  function Limit(q: Query, n: nat): (r: Query)
    ensures r.limit == Some(n)
    ensures r.conditions == q.conditions && r.order == q.order
  {
    q.(limit := Some(n))
  }

  /** `get()` over the scanned rows of the model's collection. */
  function Get(rows: seq<Row>, q: Query): (r: seq<Row>)
    ensures forall x :: x in r ==> x in rows && Matches(x, ConditionSet(q.conditions))
    ensures q.order.Some? ==> SortedBy(q.order.value, r)
    ensures q.limit.Some? ==> |r| <= q.limit.value
    ensures q.limit.None? ==> multiset(r) == multiset(Filter(rows, ConditionSet(q.conditions)))
  {
    Select(rows, ConditionSet(q.conditions), q.order, q.limit)
  }

  /** The conditions of a declarative query object, one per field. */
  function ObjectConditions(obj: QueryObject): set<Condition> {
    set f | f in obj :: Condition(f, obj[f].op, obj[f].value)
  }

  /** `query({ operations })`: the same engine, fed with the object's conditions. */
  function RunQuery(rows: seq<Row>, obj: QueryObject): (r: seq<Row>)
    ensures forall x :: x in r ==> x in rows && Matches(x, ObjectConditions(obj))
    ensures multiset(r) == multiset(Filter(rows, ObjectConditions(obj)))
  {
    Select(rows, ObjectConditions(obj), None, None)
  }

  // ------------------------------------------------------------------ lemmas

  /** With no conditions every row is kept, in scan order. */
  lemma {:induction false} FilterNoConditions(rows: seq<Row>)
    ensures Filter(rows, {}) == rows
  {
    if rows != [] {
      FilterNoConditions(rows[1..]);
      assert rows == [rows[0]] + rows[1..];
    }
  }

  /** Filtering by two sets of conditions at once is filtering by one and then the other. */
  lemma {:induction false} FilterConjunction(rows: seq<Row>, a: set<Condition>, b: set<Condition>)
    ensures Filter(rows, a + b) == Filter(Filter(rows, a), b)
  {
    if rows != [] {
      var x, t := rows[0], rows[1..];
      FilterConjunction(t, a, b);
      assert Matches(x, a + b) == (Matches(x, a) && Matches(x, b));
      assert Filter(rows, a + b) == (if Matches(x, a + b) then [x] else []) + Filter(t, a + b);
      var fa := Filter(rows, a);
      if Matches(x, a) {
        assert fa == [x] + Filter(t, a);
        assert fa != [] && fa[0] == x && fa[1..] == Filter(t, a);
        assert Filter(fa, b) == (if Matches(x, b) then [x] else []) + Filter(fa[1..], b);
      } else {
        assert fa == Filter(t, a);
      }
    }
  }

  /** A row is in an unlimited result exactly when it is a scanned row satisfying every condition. */
  lemma GetMembership(rows: seq<Row>, q: Query, x: Row)
    requires q.limit.None?
    ensures x in Get(rows, q) <==> x in rows && Matches(x, ConditionSet(q.conditions))
  {
    var r := Get(rows, q);
    assert x in r <==> multiset(r)[x] > 0;
    assert x in rows <==> multiset(rows)[x] > 0;
  }

  /** `find().get()` without clauses returns every scanned row. */
  lemma GetWithoutClauses(rows: seq<Row>)
    ensures Get(rows, Find()) == rows
  {
    assert ConditionSet([]) == {};
    FilterNoConditions(rows);
  }

  /** A further `where` narrows an unordered, unlimited result to the rows that also satisfy it. */
  lemma WhereIsConjunctive(rows: seq<Row>, q: Query, field: string, op: Op, value: Value)
    requires q.order.None? && q.limit.None?
    ensures Get(rows, Where(q, field, op, value)) == Filter(Get(rows, q), {Condition(field, op, value)})
  {
    var c := Condition(field, op, value);
    assert ConditionSet(q.conditions + [c]) == ConditionSet(q.conditions) + {c};
    FilterConjunction(rows, ConditionSet(q.conditions), {c});
  }

  /** `where(admin == true).where(age < 50)` keeps exactly the rows satisfying both. */
  lemma TwoWheresAreAnd(rows: seq<Row>, c1: Condition, c2: Condition, x: Row)
    ensures x in Get(rows, Where(Where(Find(), c1.field, c1.op, c1.value), c2.field, c2.op, c2.value))
        <==> x in rows && Holds(x, c1) && Holds(x, c2)
  {
    var q := Where(Where(Find(), c1.field, c1.op, c1.value), c2.field, c2.op, c2.value);
    assert q.conditions == [c1, c2];
    assert ConditionSet(q.conditions) == {c1, c2};
    GetMembership(rows, q, x);
  }

  /** A condition no scanned row satisfies makes the result empty (never an error). */
  lemma {:induction false} NoMatchIsEmpty(rows: seq<Row>, q: Query, field: string, op: Op, value: Value)
    requires forall i :: 0 <= i < |rows| ==> !Holds(rows[i], Condition(field, op, value))
    ensures Get(rows, Where(q, field, op, value)) == []
  {
    var conds := ConditionSet(Where(q, field, op, value).conditions);
    assert Condition(field, op, value) in conds;
    var f := Filter(rows, conds);
    forall x ensures multiset(f)[x] == 0 {
      if x in rows {
        var i :| 0 <= i < |rows| && rows[i] == x;
      } else {
        assert multiset(rows)[x] == 0;
      }
    }
    assert multiset(f) == multiset{};
  }

  /** The declarative query object behaves as the equivalent chain of `where` calls. */
  lemma QueryObjectIsWhereChain(rows: seq<Row>, obj: QueryObject, cs: seq<Condition>)
    requires ConditionSet(cs) == ObjectConditions(obj)
    ensures RunQuery(rows, obj) == Get(rows, Query(cs, None, None))
  {
  }

  /** Membership in a query-object result: every listed field satisfies its operation. */
  lemma RunQueryMembership(rows: seq<Row>, obj: QueryObject, x: Row)
    ensures x in RunQuery(rows, obj) <==>
      x in rows && forall f :: f in obj ==> Holds(x, Condition(f, obj[f].op, obj[f].value))
  {
    var r := RunQuery(rows, obj);
    assert x in r <==> multiset(r)[x] > 0;
    assert x in rows <==> multiset(rows)[x] > 0;
    if forall f :: f in obj ==> Holds(x, Condition(f, obj[f].op, obj[f].value)) {
      assert Matches(x, ObjectConditions(obj));
    }
  }

  /** `==` with an object value matches a stored object holding those sub-properties among others. */
  lemma SubPropertiesMatch(row: Row, field: string, sub: map<string, Value>)
    requires field in row.record.values && row.record.values[field].Obj?
    requires sub.Keys <= row.record.values[field].props.Keys
    requires forall k :: k in sub ==> row.record.values[field].props[k] == sub[k]
    ensures Holds(row, Condition(field, Eq, Obj(sub)))
  {
  }

  /** `!=` on a present field is the negation of `==`. */
  lemma NeIsNotEq(row: Row, field: string, v: Value)
    requires field in row.record.values
    ensures Holds(row, Condition(field, Ne, v)) <==> !Holds(row, Condition(field, Eq, v))
  {
  }

  /**
   * `limit(n)` keeps a prefix of the unlimited result: exactly `n` rows when more than `n`
   * match, all of them otherwise, and never more than the unlimited query.
   */
  lemma LimitIsPrefix(rows: seq<Row>, q: Query, n: nat)
    ensures var all := Get(rows, q.(limit := None));
      && |Get(rows, Limit(q, n))| == (if n < |all| then n else |all|)
      && Get(rows, Limit(q, n)) == all[..|Get(rows, Limit(q, n))|]
  {
  }

  /** `orderBy(field)` sorts ascending by `field`: integer keys never decrease. */
  lemma OrderByAscending(rows: seq<Row>, q: Query, field: string, i: nat, j: nat)
    requires var r := Get(rows, OrderBy(q, field, Asc));
      i < j < |r| && SortKey(r[i], field).Some? && SortKey(r[j], field).Some?
    ensures var r := Get(rows, OrderBy(q, field, Asc));
      SortKey(r[i], field).value <= SortKey(r[j], field).value
  {
    var r := Get(rows, OrderBy(q, field, Asc));
    assert Before(Order(field, Asc), r[i], r[j]);
  }

  /** `orderBy(field, 'desc')` sorts descending by `field`: integer keys never increase. */
  lemma OrderByDescending(rows: seq<Row>, q: Query, field: string, i: nat, j: nat)
    requires var r := Get(rows, OrderBy(q, field, Desc));
      i < j < |r| && SortKey(r[i], field).Some? && SortKey(r[j], field).Some?
    ensures var r := Get(rows, OrderBy(q, field, Desc));
      SortKey(r[i], field).value >= SortKey(r[j], field).value
  {
    var r := Get(rows, OrderBy(q, field, Desc));
    assert Before(Order(field, Desc), r[i], r[j]);
  }

  /** Ordering an unlimited query changes the order of the rows, not which rows are returned. */
  lemma OrderByPermutes(rows: seq<Row>, q: Query, field: string, direction: Direction)
    requires q.limit.None?
    ensures multiset(Get(rows, OrderBy(q, field, direction))) == multiset(Get(rows, q))
  {
  }

  /** Only the last `orderBy` call counts. */
  lemma OrderByLastWins(q: Query, f1: string, d1: Direction, f2: string, d2: Direction)
    ensures OrderBy(OrderBy(q, f1, d1), f2, d2) == OrderBy(q, f2, d2)
  {
  }
}
