/** Where transpiling keeps the meaning of query bodies, and inputs on which it does not. */
module QueryLimits {
  import opened Options
  import opened Statements
  import opened Transpiler
  import opened QueryMeaning

  /** Rego never accepts a null in these bodies on this database. */
  ghost predicate NullsRefused(db: Database, dbName: string, rego: Order, queries: seq<Body>) {
    forall q, e, asg :: q in queries && e in q && Holds(db, dbName, rego, asg, e) ==> Solid(db, dbName, asg, e)
  }

  /** For bodies of calls that are not negated and accept no null, the statement is true exactly when some body
      holds. */
  lemma MeaningKept(db: Database, dbName: string, rego: Order, sql: Order, queries: seq<Body>, d: Disjunction,
      p: Params)
    requires forall q :: q in queries ==> InFragment(q, dbName)
    requires forall q, e :: q in queries && e in q ==> e.Call? && !e.negated
    requires NullsRefused(db, dbName, rego, queries)
    requires OneValueEach(queries, dbName) && OrdersAgree(db, dbName, rego, sql, queries)
    requires Transpiled(queries, dbName, d) && LastOf(Clauses(d), p)
    ensures DisjunctionTrue(db, sql, d, p) <==> exists q :: q in queries && BodyHolds(db, dbName, rego, q)
  {
    TranspilingKeepsMeaning(db, dbName, rego, sql, queries, d, p);
    forall q | q in queries ensures Seen(q) == q &&
        (HoldsSolidly(db, dbName, rego, q) <==> BodyHolds(db, dbName, rego, q)) {
      SeesAll(q);
      forall asg: Assignment | AllHold(db, dbName, rego, asg, q) ensures AllSolid(db, dbName, asg, q) {
      }
    }
  }

  /** A true statement never lies about bodies of calls that are not negated: some body holds. */
  lemma StatementIsSound(db: Database, dbName: string, rego: Order, sql: Order, queries: seq<Body>, d: Disjunction,
      p: Params)
    requires forall q :: q in queries ==> InFragment(q, dbName)
    requires forall q, e :: q in queries && e in q ==> e.Call? && !e.negated
    requires OneValueEach(queries, dbName) && OrdersAgree(db, dbName, rego, sql, queries)
    requires Transpiled(queries, dbName, d) && LastOf(Clauses(d), p) && DisjunctionTrue(db, sql, d, p)
    ensures exists q :: q in queries && BodyHolds(db, dbName, rego, q)
  {
    TranspilingKeepsMeaning(db, dbName, rego, sql, queries, d, p);
    var q :| q in queries && HoldsSolidly(db, dbName, rego, Seen(q));
    SeesAll(q);
  }

  // Bodies of one and of two calls

  lemma OneCompared(e: Expr, dbName: string)
    requires e.Call? && Compared(e, dbName).Ok?
    ensures Comparisons([e], dbName) == Ok([Compared(e, dbName).value])
  {
    assert [e][..0] == [];
    assert Comparisons([], dbName) == Ok([]) && [] + [Compared(e, dbName).value] == [Compared(e, dbName).value];
  }

  lemma TwoCompared(e: Expr, f: Expr, dbName: string)
    requires e.Call? && f.Call? && Compared(e, dbName).Ok? && Compared(f, dbName).Ok?
    ensures Comparisons([e, f], dbName) == Ok([Compared(e, dbName).value, Compared(f, dbName).value])
  {
    var c, g := Compared(e, dbName).value, Compared(f, dbName).value;
    OneCompared(e, dbName);
    assert [e, f][..1] == [e] && [c] + [g] == [c, g];
  }

  /** The statement of one body. */
  lemma SoleMeans(db: Database, dbName: string, o: Order, q: Body, d: Disjunction, p: Params)
    requires Transpiled([q], dbName, d)
    ensures Comparisons(q, dbName).Ok? &&
        (DisjunctionTrue(db, o, d, p) <==> Keyed(db, o, Comparisons(q, dbName).value, p))
  {
    StatementMeans(db, dbName, o, [q], d, p);
    assert [q][0] == q && q in [q] && forall x :: x in [q] ==> x == q;
  }

  /** `db.T[I].C`, by its parts, compared for equality with a constant. */
  function Equals(t: SelectionTerm, dbName: string, v: Value): Expr {
    Call(false, "eq", [Ref(Print(t, dbName)), Const(Some(v))])
  }

  function EqualsClause(t: SelectionTerm, v: Value): WhereClause {
    WhereClause(t.id + "_" + t.table, t.column, "=", v)
  }

  lemma EqualsCompared(t: SelectionTerm, dbName: string, v: Value)
    requires Plainly(t)
    ensures Comparable(Equals(t, dbName, v), dbName)
    ensures Compared(Equals(t, dbName, v), dbName) == Ok(Comparison(t, EqualsClause(t, v)))
  {
    PrintedIsParsed(dbName, t);
  }

  lemma PairCompared(t: SelectionTerm, v: Value, t': SelectionTerm, w: Value, dbName: string)
    requires Plainly(t) && Plainly(t')
    ensures Comparisons([Equals(t, dbName, v), Equals(t', dbName, w)], dbName) ==
      Ok([Comparison(t, EqualsClause(t, v)), Comparison(t', EqualsClause(t', w))])
  {
    EqualsCompared(t, dbName, v);
    EqualsCompared(t', dbName, w);
    TwoCompared(Equals(t, dbName, v), Equals(t', dbName, w), dbName);
  }

  /** Both languages take equality for what it is. */
  ghost predicate TrueEquality(rego: Order, sql: Order) {
    (forall a, b :: rego.equal(a, b) <==> a == b) && (forall a, b :: sql.equal(a, b) <==> a == b)
  }

  /** Two equalities hold together exactly for an assignment with both values. */
  lemma PairHolds(db: Database, dbName: string, rego: Order, asg: Assignment, t: SelectionTerm, v: Value,
      t': SelectionTerm, w: Value)
    requires Plainly(t) && Plainly(t') && forall a, b :: rego.equal(a, b) <==> a == b
    ensures AllHold(db, dbName, rego, asg, [Equals(t, dbName, v), Equals(t', dbName, w)]) <==>
      Entry(db, asg, t) == Some(v) && Entry(db, asg, t') == Some(w)
  {
    var e, f := Equals(t, dbName, v), Equals(t', dbName, w);
    EqualsHolds(db, dbName, rego, asg, t, v);
    EqualsHolds(db, dbName, rego, asg, t', w);
    BothHold(db, dbName, rego, asg, e, f);
  }

  lemma BothHold(db: Database, dbName: string, o: Order, asg: Assignment, e: Expr, f: Expr)
    ensures AllHold(db, dbName, o, asg, [e, f]) <==> Holds(db, dbName, o, asg, e) && Holds(db, dbName, o, asg, f)
  {
    assert forall x :: x in [e, f] <==> x == e || x == f;
  }

  lemma EqualsHolds(db: Database, dbName: string, rego: Order, asg: Assignment, t: SelectionTerm, v: Value)
    requires Plainly(t) && forall a, b :: rego.equal(a, b) <==> a == b
    ensures Holds(db, dbName, rego, asg, Equals(t, dbName, v)) <==> Entry(db, asg, t) == Some(v)
  {
    PrintedIsParsed(dbName, t);
    AcceptsMeans(db, dbName, rego, asg, Equals(t, dbName, v));
  }

  /** Rows for two comparisons. */
  lemma PairKeyed(db: Database, o: Order, c: Comparison, g: Comparison, rows: Assignment, p: Params)
    requires RowTrue(db, o, [c, g], rows, c, p) && RowTrue(db, o, [c, g], rows, g, p)
    ensures Keyed(db, o, [c, g], p)
  {
    assert forall x :: x in [c, g] ==> x == c || x == g;
    assert AllRowsTrue(db, o, [c, g], rows, p);
  }

  lemma PairTables(c: Comparison, g: Comparison)
    ensures LastTable([c, g], g.clause.id) == g.term.table
    ensures c.clause.id != g.clause.id ==> LastTable([c, g], c.clause.id) == c.term.table
  {
    assert [c, g][..1] == [c];
  }

  lemma PairComparing(dbName: string, q: Body, c: Comparison, g: Comparison, x: Comparison)
    requires Comparisons(q, dbName) == Ok([c, g])
    ensures Comparing([q], dbName, x) <==> x == c || x == g
  {
    assert forall y :: y in [q] <==> y == q;
    assert forall y :: y in [c, g] <==> y == c || y == g;
  }

  /** Each clause of the statement has a value that one of the clauses with its placeholder carries. */
  lemma PairValue(dbName: string, q: Body, c: Comparison, g: Comparison, d: Disjunction, p: Params)
    requires Comparisons(q, dbName) == Ok([c, g]) && Transpiled([q], dbName, d) && LastOf(Clauses(d), p)
    requires ParamName(c.clause) == ParamName(g.clause)
    ensures ParamName(c.clause) in p &&
        (p[ParamName(c.clause)] == c.clause.value || p[ParamName(c.clause)] == g.clause.value)
  {
    PairComparing(dbName, q, c, g, c);
    ComparisonIsClause([q], dbName, d, c);
    var cs := Clauses(d);
    var i :| 0 <= i < |cs| && LastAt(cs, i, ParamName(c.clause)) && p[ParamName(c.clause)] == cs[i].value;
    var x := ClauseIsComparison([q], dbName, d, cs[i]);
    PairComparing(dbName, q, c, g, x);
  }

  // Negations

  function Negation(e: Expr): Expr
    requires e.Call?
  {
    Call(true, e.op, e.operands)
  }

  /** A comparison together with its own negation never holds, but wherever the comparison is satisfied by itself
      their statement is true. */
  lemma NegationIsDropped(db: Database, dbName: string, rego: Order, sql: Order, e: Expr, asg: Assignment,
      d: Disjunction, p: Params)
    requires Comparable(e, dbName) && !e.negated
    requires Transpiled([[e, Negation(e)]], dbName, d) && LastOf(Clauses(d), p)
    requires Compared(e, dbName).Ok? && Satisfied(db, sql, asg, Compared(e, dbName).value)
    ensures DisjunctionTrue(db, sql, d, p) && !BodyHolds(db, dbName, rego, [e, Negation(e)])
  {
    var q, c := [e, Negation(e)], Compared(e, dbName).value;
    NeverBoth(db, dbName, rego, e);
    TwoCompared(e, Negation(e), dbName);
    SoleMeans(db, dbName, sql, q, d, p);
    PairValue(dbName, q, c, c, d, p);
    PairTables(c, c);
    var rows: Assignment := map[c.clause.id := asg[c.term.id]];
    PairKeyed(db, sql, c, c, rows, p);
  }

  lemma NeverBoth(db: Database, dbName: string, o: Order, e: Expr)
    requires e.Call? && !e.negated
    ensures !BodyHolds(db, dbName, o, [e, Negation(e)])
  {
    var body := [e, Negation(e)];
    forall asg: Assignment ensures !AllHold(db, dbName, o, asg, body) {
      assert body[0] in body && body[1] in body;
      assert Holds(db, dbName, o, asg, e) != Holds(db, dbName, o, asg, Negation(e));
    }
  }

  // One value for each placeholder

  /** One column compared with two values, which no row has at once: on a row with the value that the placeholder got,
      the statement is true. */
  lemma TwoValuesAtOnce(dbName: string, rego: Order, sql: Order, t: SelectionTerm, v: Value, w: Value, d: Disjunction,
      p: Params)
    returns (db: Database)
    requires TrueEquality(rego, sql) && Plainly(t) && v != w && !v.Null? && !w.Null?
    requires Transpiled([[Equals(t, dbName, v), Equals(t, dbName, w)]], dbName, d) && LastOf(Clauses(d), p)
    ensures DisjunctionTrue(db, sql, d, p) && !BodyHolds(db, dbName, rego, [Equals(t, dbName, v), Equals(t, dbName, w)])
  {
    var q := [Equals(t, dbName, v), Equals(t, dbName, w)];
    var c, g := Comparison(t, EqualsClause(t, v)), Comparison(t, EqualsClause(t, w));
    PairCompared(t, v, t, w, dbName);
    PairValue(dbName, q, c, g, d, p);
    var x := p[ParamName(c.clause)];
    db := map[t.table := [map[t.column := x]]];
    SoleMeans(db, dbName, sql, q, d, p);
    PairTables(c, g);
    PairKeyed(db, sql, c, g, map[c.clause.id := 0], p);
    forall asg: Assignment ensures !AllHold(db, dbName, rego, asg, q) {
      PairHolds(db, dbName, rego, asg, t, v, t, w);
    }
  }

  // One table for each selection ID

  /** One selection ID in two tables: a database on which the statement is true, but no row number satisfies both
      comparisons. */
  lemma OneIdTwoTables(dbName: string, rego: Order, sql: Order, t: SelectionTerm, v: Value, t': SelectionTerm, w: Value,
                       d: Disjunction, p: Params) returns (db: Database)
    requires TrueEquality(rego, sql) && Plainly(t) && Plainly(t') && t.id == t'.id && t.table != t'.table &&
        !v.Null? && !w.Null?
    requires OneValueEach([[Equals(t, dbName, v), Equals(t', dbName, w)]], dbName)
    requires Transpiled([[Equals(t, dbName, v), Equals(t', dbName, w)]], dbName, d) && LastOf(Clauses(d), p)
    ensures DisjunctionTrue(db, sql, d, p) &&
        !BodyHolds(db, dbName, rego, [Equals(t, dbName, v), Equals(t', dbName, w)])
  {
    var q := [Equals(t, dbName, v), Equals(t', dbName, w)];
    var c, g := Comparison(t, EqualsClause(t, v)), Comparison(t', EqualsClause(t', w));
    db := map[t.table := [map[t.column := v]], t'.table := [map[], map[t'.column := w]]];
    PairOwn(dbName, t, v, t', w, d, p);
    SoleMeans(db, dbName, sql, q, d, p);
    KeysDiffer(t, t');
    PairTables(c, g);
    PairKeyed(db, sql, c, g, map[c.clause.id := 0, g.clause.id := 1], p);
    forall asg: Assignment ensures !AllHold(db, dbName, rego, asg, q) {
      PairHolds(db, dbName, rego, asg, t, v, t', w);
      assert Entry(db, asg, t).Some? ==> asg[t.id] == 0;
    }
  }

  lemma KeysDiffer(t: SelectionTerm, t': SelectionTerm)
    requires t.id == t'.id && t.table != t'.table
    ensures t.id + "_" + t.table != t'.id + "_" + t'.table
  {
    var n := |t.id| + 1;
    assert (t.id + "_" + t.table)[n..] == t.table && (t'.id + "_" + t'.table)[n..] == t'.table;
  }

  lemma PairOwn(dbName: string, t: SelectionTerm, v: Value, t': SelectionTerm, w: Value, d: Disjunction, p: Params)
    requires Plainly(t) && Plainly(t') && OneValueEach([[Equals(t, dbName, v), Equals(t', dbName, w)]], dbName)
    requires Transpiled([[Equals(t, dbName, v), Equals(t', dbName, w)]], dbName, d) && LastOf(Clauses(d), p)
    ensures Comparisons([Equals(t, dbName, v), Equals(t', dbName, w)], dbName) ==
      Ok([Comparison(t, EqualsClause(t, v)), Comparison(t', EqualsClause(t', w))])
    ensures var n, n' := ParamName(EqualsClause(t, v)), ParamName(EqualsClause(t', w));
      n in p && p[n] == v && n' in p && p[n'] == w
  {
    var q := [Equals(t, dbName, v), Equals(t', dbName, w)];
    var c, g := Comparison(t, EqualsClause(t, v)), Comparison(t', EqualsClause(t', w));
    PairCompared(t, v, t', w, dbName);
    PairComparing(dbName, q, c, g, c);
    PairComparing(dbName, q, c, g, g);
    OwnValue(dbName, [q], d, p, c);
    OwnValue(dbName, [q], d, p, g);
  }

  // One selection for each key

  /** Two selections in two tables with the same key, as `a_b` in `c` and `a` in `b_c`: there is a database on which
      statement and body disagree.  The statement asks both clauses of one row of the second table. */
  lemma OneKeyTwoTables(dbName: string, rego: Order, sql: Order, t: SelectionTerm, v: Value,
                        t': SelectionTerm, w: Value, d: Disjunction, p: Params) returns (db: Database)
    requires TrueEquality(rego, sql) && Plainly(t) && Plainly(t') && t.table != t'.table && !v.Null? && !w.Null?
    requires t.id + "_" + t.table == t'.id + "_" + t'.table
    requires OneValueEach([[Equals(t, dbName, v), Equals(t', dbName, w)]], dbName)
    requires Transpiled([[Equals(t, dbName, v), Equals(t', dbName, w)]], dbName, d) && LastOf(Clauses(d), p)
    ensures DisjunctionTrue(db, sql, d, p) != BodyHolds(db, dbName, rego, [Equals(t, dbName, v), Equals(t', dbName, w)])
  {
    PairOwn(dbName, t, v, t', w, d, p);
    if t.column == t'.column {
      db := OneRowForBoth(dbName, rego, sql, t, v, t', w, d, p);
    } else {
      db := NoRowForBoth(dbName, rego, sql, t, v, t', w, d, p);
    }
  }

  /** The same column: the second table's row serves for both, though the first table is empty. */
  lemma OneRowForBoth(dbName: string, rego: Order, sql: Order, t: SelectionTerm, v: Value, t': SelectionTerm, w: Value,
                      d: Disjunction, p: Params) returns (db: Database)
    requires TrueEquality(rego, sql) && Plainly(t) && Plainly(t') && t.table != t'.table && t.column == t'.column
    requires t.id + "_" + t.table == t'.id + "_" + t'.table && !w.Null?
    requires Transpiled([[Equals(t, dbName, v), Equals(t', dbName, w)]], dbName, d)
    requires var n := ParamName(EqualsClause(t', w)); n in p && p[n] == w
    ensures DisjunctionTrue(db, sql, d, p) &&
        !BodyHolds(db, dbName, rego, [Equals(t, dbName, v), Equals(t', dbName, w)])
  {
    var q := [Equals(t, dbName, v), Equals(t', dbName, w)];
    var c, g := Comparison(t, EqualsClause(t, v)), Comparison(t', EqualsClause(t', w));
    db := map[t'.table := [map[t'.column := w]]];
    PairCompared(t, v, t', w, dbName);
    SoleMeans(db, dbName, sql, q, d, p);
    PairTables(c, g);
    PairKeyed(db, sql, c, g, map[c.clause.id := 0], p);
    forall asg: Assignment ensures !AllHold(db, dbName, rego, asg, q) {
      PairHolds(db, dbName, rego, asg, t, v, t', w);
    }
  }

  /** Two columns: no row of the second table has both, though each table has its row. */
  lemma NoRowForBoth(dbName: string, rego: Order, sql: Order, t: SelectionTerm, v: Value, t': SelectionTerm, w: Value,
                     d: Disjunction, p: Params) returns (db: Database)
    requires TrueEquality(rego, sql) && Plainly(t) && Plainly(t') && t.table != t'.table && t.column != t'.column
    requires t.id + "_" + t.table == t'.id + "_" + t'.table
    requires Transpiled([[Equals(t, dbName, v), Equals(t', dbName, w)]], dbName, d)
    ensures !DisjunctionTrue(db, sql, d, p) &&
        BodyHolds(db, dbName, rego, [Equals(t, dbName, v), Equals(t', dbName, w)])
  {
    var q := [Equals(t, dbName, v), Equals(t', dbName, w)];
    var c, g := Comparison(t, EqualsClause(t, v)), Comparison(t', EqualsClause(t', w));
    db := map[t.table := [map[t.column := v]], t'.table := [map[t'.column := w]]];
    PairCompared(t, v, t', w, dbName);
    SoleMeans(db, dbName, sql, q, d, p);
    PairTables(c, g);
    assert Rows(db, t'.table) == [map[t'.column := w]];
    MissingColumn(db, sql, [c, g], c, p);
    RowEach(db, dbName, rego, t, v, t', w);
  }

  lemma RowEach(db: Database, dbName: string, rego: Order, t: SelectionTerm, v: Value, t': SelectionTerm, w: Value)
    requires Plainly(t) && Plainly(t') && forall a, b :: rego.equal(a, b) <==> a == b
    requires Rows(db, t.table) == [map[t.column := v]] && Rows(db, t'.table) == [map[t'.column := w]]
    ensures BodyHolds(db, dbName, rego, [Equals(t, dbName, v), Equals(t', dbName, w)])
  {
    var asg: Assignment := map[t.id := 0, t'.id := 0];
    PairHolds(db, dbName, rego, asg, t, v, t', w);
  }

  /** Where no row of a key's table has the column of one of its clauses, the body does not hold. */
  lemma MissingColumn(db: Database, o: Order, cs: seq<Comparison>, c: Comparison, p: Params)
    requires c in cs && forall row :: row in Rows(db, LastTable(cs, c.clause.id)) ==> c.clause.column !in row
    ensures !Keyed(db, o, cs, p)
  {
    forall rows: Assignment ensures !AllRowsTrue(db, o, cs, rows, p) {
      assert !RowTrue(db, o, cs, rows, c, p);
    }
  }

  // Nulls and orders

  /** Some row of the table has an entry that the comparison is satisfied by, in SQL. */
  ghost predicate RowSatisfies(db: Database, sql: Order, c: Comparison, i: nat) {
    && i < |Rows(db, c.term.table)| && c.term.column in Rows(db, c.term.table)[i]
    && Compare(sql, c.clause.operator, Rows(db, c.term.table)[i][c.term.column], c.clause.value)
  }

  /** Some row of the table has an entry that the call accepts, in Rego. */
  ghost predicate RowAccepted(db: Database, dbName: string, rego: Order, e: Expr, i: nat)
    requires Comparable(e, dbName)
  {
    var t := Reference(e, dbName);
    && i < |Rows(db, t.table)| && t.column in Rows(db, t.table)[i]
    && Accepts(rego, e, dbName, Rows(db, t.table)[i][t.column])
  }

  /** The statement of one comparison asks for a row. */
  lemma OneStatement(db: Database, dbName: string, sql: Order, e: Expr, d: Disjunction, p: Params)
    requires Comparable(e, dbName) && Transpiled([[e]], dbName, d) && LastOf(Clauses(d), p)
    ensures Compared(e, dbName).Ok?
    ensures DisjunctionTrue(db, sql, d, p) <==> exists i: nat :: RowSatisfies(db, sql, Compared(e, dbName).value, i)
  {
    OneOwn(dbName, e, d, p);
    OneCompared(e, dbName);
    SoleMeans(db, dbName, sql, [e], d, p);
    OneKeyed(db, sql, Compared(e, dbName).value, p);
  }

  lemma OneOwn(dbName: string, e: Expr, d: Disjunction, p: Params)
    requires Comparable(e, dbName) && Transpiled([[e]], dbName, d) && LastOf(Clauses(d), p)
    ensures Compared(e, dbName).Ok? && WellMade(Compared(e, dbName).value)
    ensures var w := Compared(e, dbName).value.clause; ParamName(w) in p && p[ParamName(w)] == w.value
  {
    ComparedParts(e, dbName);
    OneCompared(e, dbName);
    OneFits(dbName, e);
    var c := Compared(e, dbName).value;
    assert [e] in [[e]] && c in [c];
    assert Comparing([[e]], dbName, c);
    OwnValue(dbName, [[e]], d, p, c);
  }

  lemma OneKeyed(db: Database, sql: Order, c: Comparison, p: Params)
    requires WellMade(c) && ParamName(c.clause) in p && p[ParamName(c.clause)] == c.clause.value
    ensures Keyed(db, sql, [c], p) <==> exists i: nat :: RowSatisfies(db, sql, c, i)
  {
    var key := c.clause.id;
    assert LastTable([c], key) == c.term.table && c in [c] && forall x :: x in [c] ==> x == c;
    if rows :| AllRowsTrue(db, sql, [c], rows, p) {
      assert RowTrue(db, sql, [c], rows, c, p);
      assert RowSatisfies(db, sql, c, rows[key]);
    }
    if i: nat :| RowSatisfies(db, sql, c, i) {
      assert AllRowsTrue(db, sql, [c], map[key := i], p);
    }
  }

  /** So does the body. */
  lemma OneBody(db: Database, dbName: string, rego: Order, e: Expr)
    requires Comparable(e, dbName) && !e.negated
    ensures BodyHolds(db, dbName, rego, [e]) <==> exists i: nat :: RowAccepted(db, dbName, rego, e, i)
  {
    var t := Reference(e, dbName);
    assert e in [e] && forall x :: x in [e] ==> x == e;
    if asg :| AllHold(db, dbName, rego, asg, [e]) {
      AcceptsMeans(db, dbName, rego, asg, e);
      assert RowAccepted(db, dbName, rego, e, asg[t.id]);
    }
    if i: nat :| RowAccepted(db, dbName, rego, e, i) {
      var asg: Assignment := map[t.id := i];
      AcceptsMeans(db, dbName, rego, asg, e);
      assert AllHold(db, dbName, rego, asg, [e]);
    }
  }

  lemma OneFits(dbName: string, e: Expr)
    requires Comparable(e, dbName)
    ensures InFragment([e], dbName) && OneValueEach([[e]], dbName)
  {
    ComparedParts(e, dbName);
    OneCompared(e, dbName);
    var c := Compared(e, dbName).value;
    assert forall x :: x in [c] ==> x == c;
    assert forall x :: x in [e] ==> x == e;
    assert forall q :: q in [[e]] <==> q == [e];
  }

  /** SQL compares an entry as Rego does. */
  ghost predicate Agrees(rego: Order, sql: Order, e: Expr, dbName: string, x: Value)
    requires Comparable(e, dbName) && Compared(e, dbName).Ok?
  {
    var c := Compared(e, dbName).value.clause;
    Compare(sql, c.operator, x, c.value) <==> Accepts(rego, e, dbName, x)
  }

  /** Statement and body are true on the same databases. */
  ghost predicate SameMeaning(dbName: string, rego: Order, sql: Order, q: Body, d: Disjunction, p: Params) {
    forall db: Database :: DisjunctionTrue(db, sql, d, p) <==> BodyHolds(db, dbName, rego, q)
  }

  /** One comparison, whatever the two languages make of values: the statement means what the body does, if and only
      if SQL and Rego accept the same entries. */
  lemma OrdersExact(dbName: string, rego: Order, sql: Order, e: Expr, d: Disjunction, p: Params)
    requires Comparable(e, dbName) && !e.negated && Transpiled([[e]], dbName, d) && LastOf(Clauses(d), p)
    ensures Compared(e, dbName).Ok?
    ensures SameMeaning(dbName, rego, sql, [e], d, p) <==> forall x :: Agrees(rego, sql, e, dbName, x)
  {
    ComparedParts(e, dbName);
    var t, c := Reference(e, dbName), Compared(e, dbName).value;
    if forall x :: Agrees(rego, sql, e, dbName, x) {
      forall db: Database ensures DisjunctionTrue(db, sql, d, p) <==> BodyHolds(db, dbName, rego, [e]) {
        OneStatement(db, dbName, sql, e, d, p);
        OneBody(db, dbName, rego, e);
        forall i: nat ensures RowSatisfies(db, sql, c, i) <==> RowAccepted(db, dbName, rego, e, i) {
          if i < |Rows(db, t.table)| && t.column in Rows(db, t.table)[i] {
            assert Agrees(rego, sql, e, dbName, Rows(db, t.table)[i][t.column]);
          }
        }
      }
    } else {
      var x :| !Agrees(rego, sql, e, dbName, x);
      var db := OrdersDisagree(dbName, rego, sql, e, x, d, p);
      assert !SameMeaning(dbName, rego, sql, [e], d, p);
    }
  }

  /** An entry on which the languages disagree makes a database on which statement and body do. */
  lemma OrdersDisagree(dbName: string, rego: Order, sql: Order, e: Expr, x: Value, d: Disjunction, p: Params)
    returns (db: Database)
    requires Comparable(e, dbName) && !e.negated && Transpiled([[e]], dbName, d) && LastOf(Clauses(d), p)
    requires Compared(e, dbName).Ok? && !Agrees(rego, sql, e, dbName, x)
    ensures DisjunctionTrue(db, sql, d, p) != BodyHolds(db, dbName, rego, [e])
  {
    ComparedParts(e, dbName);
    var t, c := Reference(e, dbName), Compared(e, dbName).value;
    db := map[t.table := [map[t.column := x]]];
    OneStatement(db, dbName, sql, e, d, p);
    OneBody(db, dbName, rego, e);
    assert RowSatisfies(db, sql, c, 0) <==> Compare(sql, c.clause.operator, x, c.clause.value);
    assert RowAccepted(db, dbName, rego, e, 0) <==> Accepts(rego, e, dbName, x);
  }

  /** Where the languages agree on all values but null: if and only if Rego accepts no null for the comparison,
      neither as the entry nor with a null constant. */
  lemma NullExact(dbName: string, rego: Order, sql: Order, e: Expr, d: Disjunction, p: Params)
    requires Comparable(e, dbName) && !e.negated && Transpiled([[e]], dbName, d) && LastOf(Clauses(d), p)
    requires forall a, b :: SameOrder(rego, sql, a, b)
    ensures SameMeaning(dbName, rego, sql, [e], d, p) <==>
      forall x :: Accepts(rego, e, dbName, x) ==> !x.Null? && !Constant(e, dbName).Null?
  {
    OrdersExact(dbName, rego, sql, e, d, p);
    ComparedParts(e, dbName);
    forall x ensures Agrees(rego, sql, e, dbName, x) <==>
      (Accepts(rego, e, dbName, x) ==> !x.Null? && !Constant(e, dbName).Null?)
    {
      OperatorsAgree(rego, sql, e.op, x, Constant(e, dbName));
    }
  }

  // Two references, two constants

  /** A call on two references keeps the second one and compares it with null: with one value for each placeholder,
      its body never makes the statement true. */
  lemma TwoReferences(db: Database, dbName: string, sql: Order, queries: seq<Body>, q: Body, e: Expr,
                      d: Disjunction, p: Params)
    requires Transpiled(queries, dbName, d) && LastOf(Clauses(d), p) && OneValueEach(queries, dbName)
    requires q in queries && e in q && e.Call? && |e.operands| == 2 && e.operands[0].Ref? && e.operands[1].Ref?
    ensures Comparisons(q, dbName).Ok? && !Keyed(db, sql, Comparisons(q, dbName).value, p)
  {
    var i :| 0 <= i < |queries| && queries[i] == q;
    var c := CallIsCompared(q, dbName, e);
    NullForReferences(e, dbName);
    assert Comparing(queries, dbName, c);
    OwnValue(dbName, queries, d, p, c);
    NullClause(db, sql, Comparisons(q, dbName).value, c, p);
  }

  lemma NullForReferences(e: Expr, dbName: string)
    requires e.Call? && |e.operands| == 2 && e.operands[0].Ref? && e.operands[1].Ref? && Compared(e, dbName).Ok?
    ensures Compared(e, dbName).value.clause.value == Null
  {
  }

  /** A comparison with null is never true. */
  lemma NullClause(db: Database, sql: Order, cs: seq<Comparison>, c: Comparison, p: Params)
    requires c in cs && ParamName(c.clause) in p && p[ParamName(c.clause)] == Null
    ensures !Keyed(db, sql, cs, p)
  {
    forall rows: Assignment ensures !AllRowsTrue(db, sql, cs, rows, p) {
      assert !RowTrue(db, sql, cs, rows, c, p);
    }
  }

  lemma {:induction false} CallIsCompared(q: Body, dbName: string, e: Expr) returns (c: Comparison)
    requires Comparisons(q, dbName).Ok? && e in q && e.Call?
    ensures c in Comparisons(q, dbName).value && Compared(e, dbName) == Ok(c)
  {
    var before, last := q[..|q| - 1], q[|q| - 1];
    assert q == before + [last];
    if e == last {
      c := Compared(e, dbName).value;
    } else {
      c := CallIsCompared(before, dbName, e);
    }
  }

  /** A call on two constants selects from a table without a name: its body never makes the statement true, whether
      the comparison of the constants holds or not. */
  lemma TwoConstants(db: Database, dbName: string, sql: Order, q: Body, e: Expr, p: Params)
    requires Comparisons(q, dbName).Ok? && "" !in db
    requires e in q && e.Call? && |e.operands| == 2 && e.operands[0].Const? && e.operands[1].Const?
    ensures !Keyed(db, sql, Comparisons(q, dbName).value, p)
  {
    var cs := Comparisons(q, dbName).value;
    var c := CallIsCompared(q, dbName, e);
    assert c.clause.id == "";
    NamelessTable(q, dbName);
    forall rows: Assignment ensures !AllRowsTrue(db, sql, cs, rows, p) {
      assert !RowTrue(db, sql, cs, rows, c, p);
    }
  }

  /** Only calls on two constants have the empty key. */
  lemma {:induction false} NamelessTable(q: Body, dbName: string)
    requires Comparisons(q, dbName).Ok?
    ensures LastTable(Comparisons(q, dbName).value, "") == ""
  {
    if q != [] {
      var before, e := q[..|q| - 1], q[|q| - 1];
      NamelessTable(before, dbName);
      if e.Call? {
        var c, cs := Compared(e, dbName).value, Comparisons(before, dbName).value;
        assert (cs + [c])[..|cs|] == cs;
        assert c.clause.id == "" ==> c.term.table == "";
      }
    }
  }

  /** Two references compared for equality. */
  function Same(t: SelectionTerm, t': SelectionTerm, dbName: string): Expr {
    Call(false, "eq", [Ref(Print(t, dbName)), Ref(Print(t', dbName))])
  }

  /** Two references with equal entries: the body holds, and the statement is false. */
  lemma TwoReferencesBreak(dbName: string, rego: Order, sql: Order, t: SelectionTerm, t': SelectionTerm, v: Value,
                           d: Disjunction, p: Params) returns (db: Database)
    requires Plainly(t) && Plainly(t') && rego.equal(v, v)
    requires Transpiled([[Same(t, t', dbName)]], dbName, d) && LastOf(Clauses(d), p)
    ensures BodyHolds(db, dbName, rego, [Same(t, t', dbName)]) && !DisjunctionTrue(db, sql, d, p)
  {
    db := SameHolds(dbName, rego, t, t', v);
    SameFails(db, dbName, sql, Same(t, t', dbName), d, p);
  }

  lemma SameHolds(dbName: string, rego: Order, t: SelectionTerm, t': SelectionTerm, v: Value) returns (db: Database)
    requires Plainly(t) && Plainly(t') && rego.equal(v, v)
    ensures BodyHolds(db, dbName, rego, [Same(t, t', dbName)])
  {
    var e := Same(t, t', dbName);
    var row: Row := map[t.column := v, t'.column := v];
    db := map[t.table := [row], t'.table := [row]];
    var asg: Assignment := map[t.id := 0, t'.id := 0];
    assert Entry(db, asg, t) == Some(v) && Entry(db, asg, t') == Some(v);
    ValueOfPrinted(db, dbName, asg, t);
    ValueOfPrinted(db, dbName, asg, t');
    SoleHolds(db, dbName, rego, asg, e);
  }

  lemma ValueOfPrinted(db: Database, dbName: string, asg: Assignment, t: SelectionTerm)
    requires Plainly(t)
    ensures ValueOf(db, dbName, asg, Ref(Print(t, dbName))) == Entry(db, asg, t)
  {
    PrintedIsParsed(dbName, t);
  }

  lemma SoleHolds(db: Database, dbName: string, o: Order, asg: Assignment, e: Expr)
    requires Holds(db, dbName, o, asg, e)
    ensures BodyHolds(db, dbName, o, [e])
  {
    assert forall x :: x in [e] ==> x == e;
    assert AllHold(db, dbName, o, asg, [e]);
  }

  lemma SameFails(db: Database, dbName: string, sql: Order, e: Expr, d: Disjunction, p: Params)
    requires Transpiled([[e]], dbName, d) && LastOf(Clauses(d), p)
    requires e.Call? && |e.operands| == 2 && e.operands[0].Ref? && e.operands[1].Ref?
    ensures !DisjunctionTrue(db, sql, d, p)
  {
    SoleMeans(db, dbName, sql, [e], d, p);
    SoleValue(dbName, e);
    assert [e] in [[e]] && e in [e];
    TwoReferences(db, dbName, sql, [[e]], [e], e, d, p);
  }

  /** One call has one value. */
  lemma SoleValue(dbName: string, e: Expr)
    requires e.Call? && Comparisons([e], dbName).Ok?
    ensures OneValueEach([[e]], dbName)
  {
    assert [e][..0] == [] && Comparisons([], dbName) == Ok([]);
    assert |Comparisons([e], dbName).value| == 1;
    assert forall q :: q in [[e]] ==> q == [e];
  }

  /** Two constants that Rego relates: the body holds on the empty database, and the statement is false. */
  lemma TwoConstantsBreak(dbName: string, rego: Order, sql: Order, op: string, v: Value, w: Value,
                          d: Disjunction, p: Params)
    requires op in OPERATORS && Relates(rego, op, v, w)
    requires Transpiled([[Call(false, op, [Const(Some(v)), Const(Some(w))])]], dbName, d)
    ensures BodyHolds(map[], dbName, rego, [Call(false, op, [Const(Some(v)), Const(Some(w))])])
    ensures !DisjunctionTrue(map[], sql, d, p)
  {
    var e := Call(false, op, [Const(Some(v)), Const(Some(w))]);
    assert AllHold(map[], dbName, rego, map[], [e]);
    SoleMeans(map[], dbName, sql, [e], d, p);
    assert e in [e];
    TwoConstants(map[], dbName, sql, [e], e, p);
  }

  // Statements that cannot be printed

  /** A disjunction without conjunctions, or with an empty one, prints to what is not SQL: to nothing, or to `()`. */
  ghost predicate Printable(d: Disjunction) {
    d != [] && forall conj :: conj in d ==> conj != []
  }

  /** A statement can be printed exactly when there is a body and every body has a call. */
  lemma PrintableIff(queries: seq<Body>, dbName: string, d: Disjunction)
    requires Transpiled(queries, dbName, d)
    ensures Printable(d) <==> queries != [] && forall q :: q in queries ==> exists e :: e in q && e.Call?
  {
    forall i | 0 <= i < |d| ensures d[i] != [] <==> exists e :: e in queries[i] && e.Call? {
      assert queries[i] in queries;
      ConjunctionEmpty(queries[i], dbName, d[i]);
    }
    if queries != [] && forall q :: q in queries ==> exists e :: e in q && e.Call? {
      forall conj | conj in d ensures conj != [] {
        var i :| 0 <= i < |d| && d[i] == conj;
        assert queries[i] in queries;
      }
    }
    if Printable(d) {
      forall q | q in queries ensures exists e :: e in q && e.Call? {
        var i :| 0 <= i < |queries| && queries[i] == q;
        assert d[i] in d;
      }
    }
  }

  lemma ConjunctionEmpty(q: Body, dbName: string, conj: Conjunction)
    requires Comparisons(q, dbName).Ok? && Lists(conj, Group(Comparisons(q, dbName).value))
    ensures conj != [] <==> exists e :: e in q && e.Call?
  {
    var cs := Comparisons(q, dbName).value;
    var keys :| ListedBy(keys, conj, Group(cs));
    CallsCompared(q, dbName);
    ListingNotEmpty(keys, conj, Group(cs));
    if cs != [] {
      ClauseInGroup(cs, cs[0]);
      InListing(keys, conj, Group(cs), cs[0].clause.id);
    }
  }

  lemma ListingNotEmpty(keys: seq<string>, conj: Conjunction, m: map<string, Selection>)
    requires ListedBy(keys, conj, m)
    ensures conj != [] ==> m != map[]
  {
    if conj != [] {
      assert keys[0] in m;
    }
  }

  lemma {:induction false} CallsCompared(q: Body, dbName: string)
    requires Comparisons(q, dbName).Ok?
    ensures Comparisons(q, dbName).value != [] <==> exists e :: e in q && e.Call?
  {
    if q != [] {
      var before, last := q[..|q| - 1], q[|q| - 1];
      assert q == before + [last];
      CallsCompared(before, dbName);
      assert last in q && forall e :: e in q <==> e in before || e == last;
    }
  }
}
