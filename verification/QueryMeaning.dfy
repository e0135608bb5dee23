/** What query bodies and statements mean on a database, and that transpiling keeps the meaning. */
module QueryMeaning {
  import opened Options
  import opened Statements
  import opened Transpiler

  type Row = map<string, Value>
  type Database = map<string, seq<Row>>

  /** Which row of its table each selection ID stands for. */
  type Assignment = map<string, nat>

  /** Any way to compare values.  Rego has one for all values; that of SQL is used on values other than null. */
  datatype Order = Order(equal: (Value, Value) -> bool, less: (Value, Value) -> bool, atMost: (Value, Value) -> bool)

  /** Both languages compare these two values alike, if neither is null. */
  ghost predicate SameOrder(rego: Order, sql: Order, a: Value, b: Value) {
    !a.Null? && !b.Null? ==>
      && sql.equal(a, b) == rego.equal(a, b) == rego.equal(b, a)
      && sql.less(a, b) == rego.less(a, b) && sql.less(b, a) == rego.less(b, a)
      && sql.atMost(a, b) == rego.atMost(a, b) && sql.atMost(b, a) == rego.atMost(b, a)
  }

  function Rows(db: Database, table: string): seq<Row> {
    if table in db then db[table] else []
  }

  // Query bodies

  /** The built-in comparisons of Rego. */
  predicate Relates(o: Order, name: string, a: Value, b: Value) {
    match name
    case "eq" => o.equal(a, b)
    case "equal" => o.equal(a, b)
    case "neq" => !o.equal(a, b)
    case "lt" => o.less(a, b)
    case "lte" => o.atMost(a, b)
    case "gt" => o.less(b, a)
    case "gte" => o.atMost(b, a)
    case _ => false
  }

  function Entry(db: Database, asg: Assignment, t: SelectionTerm): Option<Value> {
    if t.id in asg && asg[t.id] < |Rows(db, t.table)| && t.column in Rows(db, t.table)[asg[t.id]]
    then Some(Rows(db, t.table)[asg[t.id]][t.column]) else None
  }

  function ValueOf(db: Database, dbName: string, asg: Assignment, term: Term): Option<Value> {
    match term
    case Const(json) => json
    case Ref(text) => var t := ParseTerm(text, dbName); if t.Ok? then Entry(db, asg, t.value) else None
  }

  /** An expression is true when its operands have values that it accepts; its negation, when it is not. */
  predicate Holds(db: Database, dbName: string, o: Order, asg: Assignment, e: Expr) {
    match e
    case Call(negated, op, operands) =>
      negated != (|operands| == 2
        && var a := ValueOf(db, dbName, asg, operands[0]); var b := ValueOf(db, dbName, asg, operands[1]);
        a.Some? && b.Some? && Relates(o, op, a.value, b.value))
    case Plain(negated, term) =>
      negated != (var a := ValueOf(db, dbName, asg, term); a.Some? && a.value != Boolean(false))
  }

  predicate AllHold(db: Database, dbName: string, o: Order, asg: Assignment, body: Body) {
    forall e :: e in body ==> Holds(db, dbName, o, asg, e)
  }

  /** Both operands of a call have values other than null. */
  predicate Solid(db: Database, dbName: string, asg: Assignment, e: Expr) {
    e.Call? && |e.operands| == 2 &&
    var a := ValueOf(db, dbName, asg, e.operands[0]); var b := ValueOf(db, dbName, asg, e.operands[1]);
    a.Some? && b.Some? && !a.value.Null? && !b.value.Null?
  }

  predicate AllSolid(db: Database, dbName: string, asg: Assignment, body: Body) {
    forall e :: e in body ==> Solid(db, dbName, asg, e)
  }

  ghost predicate BodyHolds(db: Database, dbName: string, o: Order, body: Body) {
    exists asg :: AllHold(db, dbName, o, asg, body)
  }

  /** A body holds, and compares no null where it does. */
  ghost predicate HoldsSolidly(db: Database, dbName: string, o: Order, body: Body) {
    exists asg :: AllHold(db, dbName, o, asg, body) && AllSolid(db, dbName, asg, body)
  }

  // Statements

  /** A comparison is not true when a side is null, whatever the operator. */
  predicate Compare(o: Order, operator: string, a: Value, b: Value) {
    !a.Null? && !b.Null? &&
    match operator
    case "=" => o.equal(a, b)
    case "!=" => !o.equal(a, b)
    case "<" => o.less(a, b)
    case "<=" => o.atMost(a, b)
    case ">" => o.less(b, a)
    case ">=" => o.atMost(b, a)
    case _ => false
  }

  predicate ClauseTrue(o: Order, row: Row, c: WhereClause, p: Params) {
    c.column in row && ParamName(c) in p && Compare(o, c.operator, row[c.column], p[ParamName(c)])
  }

  ghost predicate Selects(db: Database, o: Order, s: Selection, p: Params, i: nat) {
    i < |Rows(db, s.table)| && forall c :: c in s.wheres ==> ClauseTrue(o, Rows(db, s.table)[i], c, p)
  }

  ghost predicate Exists(db: Database, o: Order, s: Selection, p: Params) {
    exists i: nat :: Selects(db, o, s, p, i)
  }

  ghost predicate ConjunctionTrue(db: Database, o: Order, c: Conjunction, p: Params) {
    forall s :: s in c ==> Exists(db, o, s, p)
  }

  ghost predicate DisjunctionTrue(db: Database, o: Order, d: Disjunction, p: Params) {
    exists i :: 0 <= i < |d| && ConjunctionTrue(db, o, d[i], p)
  }

  // The fragment

  /** A call of a known comparison on one constant and one reference to the database. */
  predicate Comparable(e: Expr, dbName: string) {
    && e.Call? && |e.operands| == 2 && e.op in OPERATORS
    && (|| (IsValue(e.operands[0]) && IsEntry(e.operands[1], dbName))
        || (IsEntry(e.operands[0], dbName) && IsValue(e.operands[1])))
  }

  predicate IsValue(t: Term) {
    t.Const? && t.json.Some?
  }

  predicate IsEntry(t: Term, dbName: string) {
    t.Ref? && ParseTerm(t.text, dbName).Ok?
  }

  function Unnegated(e: Expr): Expr
    requires e.Call?
  {
    Call(false, e.op, e.operands)
  }

  /** What the transpiler looks at: calls, as if they were not negated. */
  function Seen(body: Body): Body {
    if body == [] then []
    else
      var e := body[|body| - 1];
      Seen(body[..|body| - 1]) + (if e.Call? then [Unnegated(e)] else [])
  }

  /** A selection ID has one table, and a key has one selection ID and one table. */
  ghost predicate Separate(cs: seq<Comparison>) {
    && (forall c, d :: c in cs && d in cs && c.term.id == d.term.id ==> c.term.table == d.term.table)
    && (forall c, d :: c in cs && d in cs && c.clause.id == d.clause.id ==>
          c.term.id == d.term.id && c.term.table == d.term.table)
  }

  /** All calls are comparable, and their selections are told apart. */
  ghost predicate InFragment(body: Body, dbName: string) {
    && (forall e :: e in body && e.Call? ==> Comparable(e, dbName))
    && (Comparisons(body, dbName).Ok? ==> Separate(Comparisons(body, dbName).value))
  }

  // What a statement means, for all bodies

  /** The table of the last comparison under a key. */
  function LastTable(cs: seq<Comparison>, key: string): string {
    if cs == [] then ""
    else if cs[|cs| - 1].clause.id == key then cs[|cs| - 1].term.table
    else LastTable(cs[..|cs| - 1], key)
  }

  /** The row of the comparison's key is in that key's table and satisfies the clause, with the value that the
      parameters give its placeholder. */
  ghost predicate RowTrue(db: Database, o: Order, cs: seq<Comparison>, rows: Assignment, c: Comparison, p: Params) {
    var key := c.clause.id;
    && key in rows && rows[key] < |Rows(db, LastTable(cs, key))|
    && ClauseTrue(o, Rows(db, LastTable(cs, key))[rows[key]], c.clause, p)
  }

  /** For each key there is one row of the last comparison's table that satisfies every clause under the key. */
  ghost predicate Keyed(db: Database, o: Order, cs: seq<Comparison>, p: Params) {
    exists rows :: AllRowsTrue(db, o, cs, rows, p)
  }

  ghost predicate AllRowsTrue(db: Database, o: Order, cs: seq<Comparison>, rows: Assignment, p: Params) {
    forall c :: c in cs ==> RowTrue(db, o, cs, rows, c, p)
  }

  lemma {:induction false} UnderWhat(cs: seq<Comparison>, key: string, w: WhereClause)
    ensures w in Under(cs, key) <==> exists c :: c in cs && c.clause == w && c.clause.id == key
  {
    if cs != [] {
      var before, last := cs[..|cs| - 1], cs[|cs| - 1];
      assert cs == before + [last];
      UnderWhat(before, key, w);
    }
  }

  lemma {:induction false} GroupTable(cs: seq<Comparison>, key: string)
    requires key in Group(cs)
    ensures Group(cs)[key].table == LastTable(cs, key)
  {
    if cs[|cs| - 1].clause.id != key {
      GroupTable(cs[..|cs| - 1], key);
    }
  }

  /** A comparison's clause is in the group of its key. */
  lemma ClauseInGroup(cs: seq<Comparison>, c: Comparison)
    requires c in cs
    ensures var m := Group(cs); c.clause.id in m && c.clause in m[c.clause.id].wheres
  {
    var i :| 0 <= i < |cs| && cs[i] == c;
    GroupExactly(cs, c.clause.id);
    UnderWhat(cs, c.clause.id, c.clause);
  }

  /** A group has clauses of comparisons with its key only. */
  lemma GroupHasClauses(cs: seq<Comparison>, key: string, w: WhereClause) returns (c: Comparison)
    requires key in Group(cs) && w in Group(cs)[key].wheres
    ensures c in cs && c.clause == w && c.clause.id == key
  {
    GroupExactly(cs, key);
    UnderWhat(cs, key, w);
    c :| c in cs && c.clause == w && c.clause.id == key;
  }

  ghost predicate GroupsTrue(db: Database, o: Order, cs: seq<Comparison>, p: Params) {
    forall key :: key in Group(cs) ==> Exists(db, o, Group(cs)[key], p)
  }

  ghost function RowOf(db: Database, o: Order, cs: seq<Comparison>, p: Params, key: string): (i: nat)
    requires GroupsTrue(db, o, cs, p) && key in Group(cs)
    ensures Selects(db, o, Group(cs)[key], p, i)
  {
    assert Exists(db, o, Group(cs)[key], p);
    var i: nat :| Selects(db, o, Group(cs)[key], p, i);
    i
  }

  lemma GroupsGiveRows(db: Database, o: Order, cs: seq<Comparison>, p: Params)
    requires GroupsTrue(db, o, cs, p)
    ensures Keyed(db, o, cs, p)
  {
    var rows: Assignment := map key | key in Group(cs).Keys :: RowOf(db, o, cs, p, key);
    forall c | c in cs ensures RowTrue(db, o, cs, rows, c, p) {
      ClauseInGroup(cs, c);
      GroupTable(cs, c.clause.id);
      assert Selects(db, o, Group(cs)[c.clause.id], p, rows[c.clause.id]);
    }
    assert AllRowsTrue(db, o, cs, rows, p);
  }

  lemma RowsGiveGroups(db: Database, o: Order, cs: seq<Comparison>, rows: Assignment, p: Params)
    requires AllRowsTrue(db, o, cs, rows, p)
    ensures GroupsTrue(db, o, cs, p)
  {
    forall key | key in Group(cs) ensures Exists(db, o, Group(cs)[key], p) {
      GroupExactly(cs, key);
      GroupTable(cs, key);
      var k :| 0 <= k < |cs| && cs[k].clause.id == key;
      assert RowTrue(db, o, cs, rows, cs[k], p);
      forall w | w in Group(cs)[key].wheres
        ensures ClauseTrue(o, Rows(db, Group(cs)[key].table)[rows[key]], w, p)
      {
        var c := GroupHasClauses(cs, key, w);
        assert RowTrue(db, o, cs, rows, c, p);
      }
      assert Selects(db, o, Group(cs)[key], p, rows[key]);
    }
  }

  lemma InListing(keys: seq<string>, conj: Conjunction, m: map<string, Selection>, key: string)
    requires ListedBy(keys, conj, m) && key in m
    ensures m[key] in conj
  {
    var i :| 0 <= i < |keys| && keys[i] == key;
    assert conj[i] == m[key];
  }

  lemma ListingTrue(db: Database, o: Order, conj: Conjunction, m: map<string, Selection>, p: Params)
    requires Lists(conj, m)
    ensures ConjunctionTrue(db, o, conj, p) <==> forall key :: key in m ==> Exists(db, o, m[key], p)
  {
    var keys :| ListedBy(keys, conj, m);
    if ConjunctionTrue(db, o, conj, p) {
      forall key | key in m ensures Exists(db, o, m[key], p) {
        InListing(keys, conj, m, key);
      }
    }
    if forall key :: key in m ==> Exists(db, o, m[key], p) {
      forall s | s in conj ensures Exists(db, o, s, p) {
        var i :| 0 <= i < |conj| && conj[i] == s;
        assert keys[i] in m;
      }
    }
  }

  /** For all bodies, whatever their comparisons: the statement is true exactly when some body has, for each of its
      keys, a row of the last comparison's table that satisfies every clause under that key. */
  lemma StatementMeans(db: Database, dbName: string, o: Order, queries: seq<Body>, d: Disjunction, p: Params)
    requires Transpiled(queries, dbName, d)
    ensures DisjunctionTrue(db, o, d, p) <==>
      exists q :: q in queries && Comparisons(q, dbName).Ok? && Keyed(db, o, Comparisons(q, dbName).value, p)
  {
    forall i | 0 <= i < |queries|
      ensures ConjunctionTrue(db, o, d[i], p) <==> Keyed(db, o, Comparisons(queries[i], dbName).value, p)
    {
      ConjunctionMeans(db, o, Comparisons(queries[i], dbName).value, d[i], p);
    }
    if i :| 0 <= i < |d| && ConjunctionTrue(db, o, d[i], p) {
      assert queries[i] in queries;
    }
    if q :| q in queries && Comparisons(q, dbName).Ok? && Keyed(db, o, Comparisons(q, dbName).value, p) {
      var i :| 0 <= i < |queries| && queries[i] == q;
      assert ConjunctionTrue(db, o, d[i], p);
    }
  }

  lemma ConjunctionMeans(db: Database, o: Order, cs: seq<Comparison>, conj: Conjunction, p: Params)
    requires Lists(conj, Group(cs))
    ensures ConjunctionTrue(db, o, conj, p) <==> Keyed(db, o, cs, p)
  {
    ListingTrue(db, o, conj, Group(cs), p);
    if GroupsTrue(db, o, cs, p) {
      GroupsGiveRows(db, o, cs, p);
    }
    if rows :| AllRowsTrue(db, o, cs, rows, p) {
      RowsGiveGroups(db, o, cs, rows, p);
    }
  }

  // One comparison

  ghost predicate Satisfied(db: Database, o: Order, asg: Assignment, c: Comparison) {
    var v := Entry(db, asg, c.term);
    v.Some? && Compare(o, c.clause.operator, v.value, c.clause.value)
  }

  ghost predicate WellMade(c: Comparison) {
    c.clause.id == c.term.id + "_" + c.term.table && c.clause.column == c.term.column
  }

  /** On values that both languages compare alike, the SQL operator accepts what the Rego operator does and is not
      null, and the flipped one the same with its sides swapped. */
  lemma OperatorsAgree(rego: Order, sql: Order, name: string, a: Value, b: Value)
    requires SameOrder(rego, sql, a, b) && name in OPERATORS
    ensures Compare(sql, OPERATORS[name], a, b) == (!a.Null? && !b.Null? && Relates(rego, name, a, b))
    ensures OPERATORS[name] in FLIPS
    ensures Compare(sql, FLIPS[OPERATORS[name]], a, b) == (!a.Null? && !b.Null? && Relates(rego, name, b, a))
  {
  }

  /** Both languages compare the entries of the comparison's column with its constant alike. */
  ghost predicate Alike(db: Database, rego: Order, sql: Order, c: Comparison) {
    forall row :: row in Rows(db, c.term.table) && c.term.column in row ==>
      SameOrder(rego, sql, row[c.term.column], c.clause.value)
  }

  lemma AlikeHere(db: Database, rego: Order, sql: Order, c: Comparison, asg: Assignment)
    requires Alike(db, rego, sql, c)
    ensures var v := Entry(db, asg, c.term); v.Some? ==> SameOrder(rego, sql, v.value, c.clause.value)
  {
    if Entry(db, asg, c.term).Some? {
      assert Rows(db, c.term.table)[asg[c.term.id]] in Rows(db, c.term.table);
    }
  }

  /** The constant of a comparable call. */
  function Constant(e: Expr, dbName: string): Value
    requires Comparable(e, dbName)
  {
    if e.operands[0].Const? then e.operands[0].json.value else e.operands[1].json.value
  }

  /** The entry that a comparable call refers to. */
  function Reference(e: Expr, dbName: string): SelectionTerm
    requires Comparable(e, dbName)
  {
    ParseTerm(if e.operands[0].Const? then e.operands[1].text else e.operands[0].text, dbName).value
  }

  /** In Rego, a comparable call accepts an entry. */
  ghost predicate Accepts(rego: Order, e: Expr, dbName: string, x: Value)
    requires Comparable(e, dbName)
  {
    if e.operands[0].Const? then Relates(rego, e.op, Constant(e, dbName), x)
        else Relates(rego, e.op, x, Constant(e, dbName))
  }

  lemma ComparedParts(e: Expr, dbName: string)
    requires Comparable(e, dbName)
    ensures OPERATORS[e.op] in FLIPS
    ensures var t, op := Reference(e, dbName), OPERATORS[e.op];
      Compared(e, dbName) == Ok(Comparison(t, WhereClause(t.id + "_" + t.table, t.column,
        if e.operands[0].Const? then FLIPS[op] else op, Constant(e, dbName))))
  {
  }

  lemma AcceptsMeans(db: Database, dbName: string, rego: Order, asg: Assignment, e: Expr)
    requires Comparable(e, dbName) && !e.negated
    ensures var x := Entry(db, asg, Reference(e, dbName));
      Holds(db, dbName, rego, asg, e) <==> x.Some? && Accepts(rego, e, dbName, x.value)
  {
  }

  lemma SolidMeans(db: Database, dbName: string, asg: Assignment, e: Expr)
    requires Comparable(e, dbName)
    ensures var x := Entry(db, asg, Reference(e, dbName));
      Solid(db, dbName, asg, e) <==> x.Some? && !x.value.Null? && !Constant(e, dbName).Null?
  {
  }

  /** A comparison is satisfied exactly when its expression, not negated, holds and compares no null. */
  lemma ComparedMeans(db: Database, dbName: string, rego: Order, sql: Order, asg: Assignment, e: Expr)
    requires Comparable(e, dbName) && !e.negated
    requires Compared(e, dbName).Ok? ==> Alike(db, rego, sql, Compared(e, dbName).value)
    ensures Compared(e, dbName).Ok? && WellMade(Compared(e, dbName).value)
    ensures Satisfied(db, sql, asg, Compared(e, dbName).value) <==>
      Holds(db, dbName, rego, asg, e) && Solid(db, dbName, asg, e)
  {
    ComparedParts(e, dbName);
    AcceptsMeans(db, dbName, rego, asg, e);
    SolidMeans(db, dbName, asg, e);
    var c := Compared(e, dbName).value;
    AlikeHere(db, rego, sql, c, asg);
    var v := Entry(db, asg, c.term);
    if v.Some? {
      OperatorsAgree(rego, sql, e.op, v.value, c.clause.value);
    }
  }

  // One body

  /** All comparisons of a body are alike in both languages. */
  ghost predicate BodyAlike(db: Database, dbName: string, rego: Order, sql: Order, body: Body) {
    Comparisons(body, dbName).Ok? ==> forall c :: c in Comparisons(body, dbName).value ==> Alike(db, rego, sql, c)
  }

  lemma {:induction false} BodyCompared(dbName: string, body: Body)
    requires forall e :: e in body && e.Call? ==> Comparable(e, dbName)
    ensures Comparisons(body, dbName).Ok? && forall c :: c in Comparisons(body, dbName).value ==> WellMade(c)
  {
    if body != [] {
      var before, e := body[..|body| - 1], body[|body| - 1];
      assert body == before + [e];
      BodyCompared(dbName, before);
    }
  }

  lemma {:induction false} BodyMeans(db: Database, dbName: string, rego: Order, sql: Order, asg: Assignment, body: Body)
    requires BodyAlike(db, dbName, rego, sql, body) && forall e :: e in body && e.Call? ==> Comparable(e, dbName)
    ensures Comparisons(body, dbName).Ok?
    ensures AllHold(db, dbName, rego, asg, Seen(body)) && AllSolid(db, dbName, asg, Seen(body)) <==>
      forall c :: c in Comparisons(body, dbName).value ==> Satisfied(db, sql, asg, c)
  {
    BodyCompared(dbName, body);
    if body != [] {
      var before, e := body[..|body| - 1], body[|body| - 1];
      assert body == before + [e];
      BodyCompared(dbName, before);
      BodyMeans(db, dbName, rego, sql, asg, before);
      SeenLast(before, e);
      if e.Call? {
        assert Compared(Unnegated(e), dbName) == Compared(e, dbName);
        ComparedMeans(db, dbName, rego, sql, asg, Unnegated(e));
      }
    }
  }

  /** The parameters give every comparison its own value. */
  ghost predicate Own(cs: seq<Comparison>, p: Params) {
    forall c :: c in cs ==> WellMade(c) && ParamName(c.clause) in p && p[ParamName(c.clause)] == c.clause.value
  }

  lemma {:induction false} LastTableIs(cs: seq<Comparison>, c: Comparison)
    requires Separate(cs) && c in cs
    ensures LastTable(cs, c.clause.id) == c.term.table
  {
    var before, last := cs[..|cs| - 1], cs[|cs| - 1];
    assert cs == before + [last] && last in cs;
    if last.clause.id != c.clause.id {
      LastTableIs(before, c);
    }
  }

  /** The key of a selection ID. */
  ghost function KeyFor(cs: seq<Comparison>, id: string): string {
    if c :| c in cs && c.term.id == id then c.clause.id else ""
  }

  lemma KeyForIs(cs: seq<Comparison>, c: Comparison)
    requires Separate(cs) && c in cs && forall d :: d in cs ==> WellMade(d)
    ensures KeyFor(cs, c.term.id) == c.clause.id
  {
    var d :| d in cs && d.term.id == c.term.id && d.clause.id == KeyFor(cs, c.term.id);
  }

  /** The selection ID of a key. */
  ghost function IdFor(cs: seq<Comparison>, key: string): string {
    if c :| c in cs && c.clause.id == key then c.term.id else ""
  }

  lemma IdForIs(cs: seq<Comparison>, c: Comparison)
    requires Separate(cs) && c in cs
    ensures IdFor(cs, c.clause.id) == c.term.id
  {
    var d :| d in cs && d.clause.id == c.clause.id && d.term.id == IdFor(cs, c.clause.id);
  }

  /** With its own value, a comparison is satisfied exactly when its row makes its clause true. */
  lemma SatisfiedIsTrue(db: Database, o: Order, cs: seq<Comparison>, asg: Assignment, rows: Assignment, c: Comparison,
      p: Params)
    requires Separate(cs) && Own(cs, p) && c in cs
    requires c.term.id in asg && c.clause.id in rows && asg[c.term.id] == rows[c.clause.id]
    ensures Satisfied(db, o, asg, c) <==> RowTrue(db, o, cs, rows, c, p)
  {
    LastTableIs(cs, c);
  }

  ghost function At(m: Assignment, k: string): nat {
    if k in m then m[k] else 0
  }

  /** Rows for all keys make one assignment for all comparisons. */
  lemma RowsGiveAssignment(db: Database, o: Order, cs: seq<Comparison>, rows: Assignment,
      p: Params) returns (asg: Assignment)
    requires Separate(cs) && Own(cs, p) && AllRowsTrue(db, o, cs, rows, p)
    ensures forall c :: c in cs ==> Satisfied(db, o, asg, c)
  {
    var ids := set c | c in cs :: c.term.id;
    asg := map id | id in ids :: At(rows, KeyFor(cs, id));
    forall c | c in cs ensures Satisfied(db, o, asg, c) {
      assert c.term.id in ids;
      KeyForIs(cs, c);
      assert RowTrue(db, o, cs, rows, c, p);
      SatisfiedIsTrue(db, o, cs, asg, rows, c, p);
    }
  }

  /** One assignment for all comparisons gives each key its row. */
  lemma AssignmentGivesRows(db: Database, o: Order, asg: Assignment, cs: seq<Comparison>, p: Params)
    requires Separate(cs) && Own(cs, p) && forall c :: c in cs ==> Satisfied(db, o, asg, c)
    ensures Keyed(db, o, cs, p)
  {
    var keys := set c | c in cs :: c.clause.id;
    var rows: Assignment := map key | key in keys :: At(asg, IdFor(cs, key));
    forall c | c in cs ensures RowTrue(db, o, cs, rows, c, p) {
      assert c.clause.id in keys;
      IdForIs(cs, c);
      assert Satisfied(db, o, asg, c);
      SatisfiedIsTrue(db, o, cs, asg, rows, c, p);
    }
    assert AllRowsTrue(db, o, cs, rows, p);
  }

  lemma QueryMeans(db: Database, dbName: string, rego: Order, sql: Order, body: Body, p: Params)
    requires InFragment(body, dbName) && BodyAlike(db, dbName, rego, sql, body)
    requires Comparisons(body, dbName).Ok? && Own(Comparisons(body, dbName).value, p)
    ensures Keyed(db, sql, Comparisons(body, dbName).value, p) <==> HoldsSolidly(db, dbName, rego, Seen(body))
  {
    var cs := Comparisons(body, dbName).value;
    if asg :| AllHold(db, dbName, rego, asg, Seen(body)) && AllSolid(db, dbName, asg, Seen(body)) {
      BodyMeans(db, dbName, rego, sql, asg, body);
      AssignmentGivesRows(db, sql, asg, cs, p);
    }
    if rows :| AllRowsTrue(db, sql, cs, rows, p) {
      var asg := RowsGiveAssignment(db, sql, cs, rows, p);
      BodyMeans(db, dbName, rego, sql, asg, body);
    }
  }

  // All bodies

  ghost predicate Comparing(queries: seq<Body>, dbName: string, c: Comparison) {
    exists q :: q in queries && Comparisons(q, dbName).Ok? && c in Comparisons(q, dbName).value
  }

  /** Comparisons that share a placeholder, in one body or in two, compare with the same value. */
  ghost predicate OneValueEach(queries: seq<Body>, dbName: string) {
    forall c, d :: Comparing(queries, dbName, c) && Comparing(queries, dbName, d) ==>
      ParamName(c.clause) == ParamName(d.clause) ==> c.clause.value == d.clause.value
  }

  /** Both languages compare alike the values other than null that the bodies compare on this database. */
  ghost predicate OrdersAgree(db: Database, dbName: string, rego: Order, sql: Order, queries: seq<Body>) {
    forall q :: q in queries ==> BodyAlike(db, dbName, rego, sql, q)
  }

  lemma ClauseOfGroup(cs: seq<Comparison>, conj: Conjunction, s: Selection, w: WhereClause) returns (c: Comparison)
    requires Lists(conj, Group(cs)) && s in conj && w in s.wheres
    ensures c in cs && c.clause == w
  {
    var keys :| ListedBy(keys, conj, Group(cs));
    var i :| 0 <= i < |conj| && conj[i] == s;
    c := GroupHasClauses(cs, keys[i], w);
  }

  lemma GroupOfClause(cs: seq<Comparison>, conj: Conjunction, c: Comparison)
    requires Lists(conj, Group(cs)) && c in cs
    ensures c.clause in ConjunctionClauses(conj)
  {
    var keys :| ListedBy(keys, conj, Group(cs));
    ClauseInGroup(cs, c);
    InListing(keys, conj, Group(cs), c.clause.id);
    InConjunction(conj, c.clause);
  }

  lemma ClauseIsComparison(queries: seq<Body>, dbName: string, d: Disjunction, w: WhereClause) returns (c: Comparison)
    requires Transpiled(queries, dbName, d) && w in Clauses(d)
    ensures Comparing(queries, dbName, c) && c.clause == w
  {
    InDisjunction(d, w);
    var conj :| conj in d && w in ConjunctionClauses(conj);
    var i :| 0 <= i < |d| && d[i] == conj;
    InConjunction(conj, w);
    var s :| s in conj && w in s.wheres;
    c := ClauseOfGroup(Comparisons(queries[i], dbName).value, conj, s, w);
    assert queries[i] in queries;
  }

  lemma ComparisonIsClause(queries: seq<Body>, dbName: string, d: Disjunction, c: Comparison)
    requires Transpiled(queries, dbName, d) && Comparing(queries, dbName, c)
    ensures c.clause in Clauses(d)
  {
    var q :| q in queries && Comparisons(q, dbName).Ok? && c in Comparisons(q, dbName).value;
    var i :| 0 <= i < |queries| && queries[i] == q;
    GroupOfClause(Comparisons(q, dbName).value, d[i], c);
    InDisjunction(d, c.clause);
    assert d[i] in d;
  }

  /** With one value for each placeholder, the merged parameters give every comparison its own value. */
  lemma OwnValue(dbName: string, queries: seq<Body>, d: Disjunction, p: Params, c: Comparison)
    requires OneValueEach(queries, dbName) && Transpiled(queries, dbName, d) && LastOf(Clauses(d), p)
    requires Comparing(queries, dbName, c)
    ensures ParamName(c.clause) in p && p[ParamName(c.clause)] == c.clause.value
  {
    forall w, v | w in Clauses(d) && v in Clauses(d) && ParamName(w) == ParamName(v) ensures w.value == v.value {
      var c := ClauseIsComparison(queries, dbName, d, w);
      var e := ClauseIsComparison(queries, dbName, d, v);
    }
    FaithfulIffConsistent(Clauses(d), p);
    ComparisonIsClause(queries, dbName, d, c);
  }

  lemma OwnValues(dbName: string, queries: seq<Body>, d: Disjunction, p: Params, q: Body)
    requires q in queries && InFragment(q, dbName) && OneValueEach(queries, dbName)
    requires Transpiled(queries, dbName, d) && LastOf(Clauses(d), p)
    ensures Comparisons(q, dbName).Ok? && Own(Comparisons(q, dbName).value, p)
  {
    BodyCompared(dbName, q);
    forall c | c in Comparisons(q, dbName).value
      ensures ParamName(c.clause) in p && p[ParamName(c.clause)] == c.clause.value
    {
      assert Comparing(queries, dbName, c);
      OwnValue(dbName, queries, d, p, c);
    }
  }

  /** The statement is true on a database exactly when some body, as far as the transpiler sees it, has rows that
      satisfy all its comparisons without comparing a null: whatever the order of the statement's selections and
      the order in which the parameters were merged. */
  lemma TranspilingKeepsMeaning(db: Database, dbName: string, rego: Order, sql: Order,
                                queries: seq<Body>, d: Disjunction, p: Params)
    requires forall q :: q in queries ==> InFragment(q, dbName)
    requires OneValueEach(queries, dbName) && OrdersAgree(db, dbName, rego, sql, queries)
    requires Transpiled(queries, dbName, d) && LastOf(Clauses(d), p)
    ensures DisjunctionTrue(db, sql, d, p) <==> exists q :: q in queries && HoldsSolidly(db, dbName, rego, Seen(q))
  {
    StatementMeans(db, dbName, sql, queries, d, p);
    forall q | q in queries
      ensures Comparisons(q, dbName).Ok?
      ensures Keyed(db, sql, Comparisons(q, dbName).value, p) <==> HoldsSolidly(db, dbName, rego, Seen(q))
    {
      OwnValues(dbName, queries, d, p, q);
      QueryMeans(db, dbName, rego, sql, q, p);
    }
  }

  /** The transpiler sees all of a body exactly when the body has only calls, none of them negated. */
  lemma {:induction false} SeesAll(body: Body)
    ensures Seen(body) == body <==> forall e :: e in body ==> e.Call? && !e.negated
    ensures |Seen(body)| <= |body|
  {
    if body != [] {
      var before, e := body[..|body| - 1], body[|body| - 1];
      assert body == before + [e];
      SeesAll(before);
      if Seen(body) == body {
        assert e.Call? && Seen(body) == Seen(before) + [Unnegated(e)];
        assert body[|body| - 1] == Unnegated(e);
        assert Seen(before) == body[..|body| - 1];
      }
    }
  }

  /** What the transpiler does not see makes no difference to the statement. */
  lemma {:induction false} SeenIsCompared(body: Body, dbName: string)
    ensures Comparisons(Seen(body), dbName) == Comparisons(body, dbName)
  {
    if body != [] {
      var before, e := body[..|body| - 1], body[|body| - 1];
      SeenIsCompared(before, dbName);
      assert body == before + [e];
      ComparedLast(before, e, dbName);
      SeenLast(before, e);
      if e.Call? {
        ComparedLast(Seen(before), Unnegated(e), dbName);
        UnnegatedSame(Comparisons(before, dbName), e, dbName);
      }
    }
  }

  lemma SeenLast(body: Body, e: Expr)
    ensures e.Call? ==> Seen(body + [e]) == Seen(body) + [Unnegated(e)]
    ensures e.Plain? ==> Seen(body + [e]) == Seen(body)
  {
    assert (body + [e])[..|body|] == body;
  }

  lemma UnnegatedSame(r: Result<seq<Comparison>>, e: Expr, dbName: string)
    requires e.Call?
    ensures WithCall(r, Unnegated(e), dbName) == WithCall(r, e, dbName)
  {
  }

  lemma ComparedLast(body: Body, e: Expr, dbName: string)
    ensures Comparisons(body + [e], dbName) == WithCall(Comparisons(body, dbName), e, dbName)
  {
    assert (body + [e])[..|body|] == body;
  }
}
