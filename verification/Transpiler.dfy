/** From the bodies of Rego queries to SQLite statements. */
module Transpiler {
  import opened Options
  import opened Splitting
  import opened Statements

  datatype Failure = OperandCount | UnknownOperator | BadConstant | NotDatabase | BadTerm | BadTable

  datatype Result<T> = Ok(value: T) | Err(failure: Failure)

  /** A constant with its JSON value, if it has one, or a reference by its text. */
  datatype Term = Const(json: Option<Value>) | Ref(text: string)

  /** A call with its operator and operands, or a term by itself. */
  datatype Expr = Call(negated: bool, op: string, operands: seq<Term>) | Plain(negated: bool, term: Term)

  type Body = seq<Expr>

  datatype SelectionTerm = SelectionTerm(id: string, table: string, column: string)

  datatype Comparison = Comparison(term: SelectionTerm, clause: WhereClause)

  const OPERATORS: map<string, string> :=
    map["eq" := "=", "equal" := "=", "neq" := "!=", "lt" := "<", "lte" := "<=", "gt" := ">", "gte" := ">="]

  const FLIPS: map<string, string> :=
    map["=" := "=", "!=" := "!=", "<" := ">", "<=" := ">=", ">" := "<", ">=" := "<="]

  // Terms

  function ParseTerm(text: string, dbName: string): Result<SelectionTerm> {
    if !(dbName + "." <= text) then Err(NotDatabase)
    else
      var parts := Split(text[|dbName| + 1..], "].");
      if |parts| != 2 then Err(BadTerm)
      else
        var tableParts := Split(parts[0], "[");
        if |tableParts| != 2 then Err(BadTable)
        else Ok(SelectionTerm(tableParts[1], tableParts[0], parts[1]))
  }

  function Print(t: SelectionTerm, dbName: string): string {
    dbName + "." + (t.table + "[" + t.id + "]." + t.column)
  }

  /** The parts of a reference that can be told apart again. */
  ghost predicate Plainly(t: SelectionTerm) {
    && !Contains(t.table, "[") && !Contains(t.id, "[")
    && !Contains(t.table + "[" + t.id, "].") && !Contains(t.column, "].")
  }

  lemma PairOf(s: string, sep: string, a: string, b: string)
    requires sep != "" && forall k :: 0 < k < |sep| ==> sep[k] != sep[0]
    ensures Split(s, sep) == [a, b] <==> s == a + sep + b && !Contains(a, sep) && !Contains(b, sep)
  {
    SplitPair(s, sep, a, b);
    FoundFirst(a, sep, b);
  }

  lemma ParsedIsPrinted(text: string, dbName: string, t: SelectionTerm)
    requires ParseTerm(text, dbName) == Ok(t)
    ensures text == Print(t, dbName) && Plainly(t)
  {
    var trimmed := text[|dbName| + 1..];
    var parts := Split(trimmed, "].");
    PairOf(trimmed, "].", parts[0], t.column);
    PairOf(parts[0], "[", t.table, t.id);
    Trimmed(text, dbName + ".");
  }

  lemma Trimmed(text: string, prefix: string)
    requires prefix <= text
    ensures text == prefix + text[|prefix|..]
  {
  }

  lemma PrintedIsParsed(dbName: string, t: SelectionTerm)
    requires Plainly(t)
    ensures ParseTerm(Print(t, dbName), dbName) == Ok(t)
  {
    var inside := t.table + "[" + t.id;
    PairOf(inside, "[", t.table, t.id);
    PairOf(inside + "]." + t.column, "].", inside, t.column);
    PrintSlices(dbName + ".", inside + "]." + t.column);
  }

  lemma PrintSlices(a: string, b: string)
    ensures a <= a + b && (a + b)[|a|..] == b
  {
  }

  /** Parsing succeeds with given parts exactly on the text that those parts print to, when no separator occurs
      inside them. So the parts are unique, and printing them gives the text back. */
  lemma ParsedIffPrinted(text: string, dbName: string, t: SelectionTerm)
    ensures ParseTerm(text, dbName) == Ok(t) <==>
      && text == dbName + "." + (t.table + "[" + t.id + "]." + t.column)
      && !Contains(t.table, "[") && !Contains(t.id, "[")
      && !Contains(t.table + "[" + t.id, "].") && !Contains(t.column, "].")
  {
    if ParseTerm(text, dbName) == Ok(t) {
      ParsedIsPrinted(text, dbName, t);
    }
    if Plainly(t) {
      PrintedIsParsed(dbName, t);
    }
  }

  /** What is wrong with a text that is no reference: it does not start with the name of the database, or its rest is
      not two parts around a single `].`, or the first part is not two around a single `[`. */
  ghost function TermFault(text: string, dbName: string): Failure {
    if !(dbName + "." <= text) then NotDatabase
    else if !exists a, c ::
        text == dbName + "." + (a + "]." + c) && !Contains(a, "].") && !Contains(c, "].") then BadTerm
    else BadTable
  }

  lemma TwoParts(s: string, sep: string)
    requires sep != "" && forall k :: 0 < k < |sep| ==> sep[k] != sep[0]
    ensures |Split(s, sep)| == 2 <==> exists a, b :: s == a + sep + b && !Contains(a, sep) && !Contains(b, sep)
  {
    if |Split(s, sep)| == 2 {
      var a, b := Split(s, sep)[0], Split(s, sep)[1];
      assert Split(s, sep) == [a, b];
      PairOf(s, sep, a, b);
    }
    if a, b :| s == a + sep + b && !Contains(a, sep) && !Contains(b, sep) {
      PairOf(s, sep, a, b);
    }
  }

  /** A text is parsed exactly when some plain term prints to it; otherwise the first fault is reported. */
  lemma TermParses(text: string, dbName: string)
    ensures ParseTerm(text, dbName).Ok? <==> exists t :: Plainly(t) && text == Print(t, dbName)
    ensures ParseTerm(text, dbName).Err? ==> ParseTerm(text, dbName) == Err(TermFault(text, dbName))
  {
    if ParseTerm(text, dbName).Ok? {
      ParsedIsPrinted(text, dbName, ParseTerm(text, dbName).value);
    }
    if t :| Plainly(t) && text == Print(t, dbName) {
      PrintedIsParsed(dbName, t);
    }
    if dbName + "." <= text {
      TermFaults(text, dbName, text[|dbName| + 1..]);
    }
  }

  lemma TermFaults(text: string, dbName: string, trimmed: string)
    requires dbName + "." <= text && trimmed == text[|dbName| + 1..]
    ensures |Split(trimmed, "].")| == 2 <==>
      exists a, c :: text == dbName + "." + (a + "]." + c) && !Contains(a, "].") && !Contains(c, "].")
  {
    TwoParts(trimmed, "].");
    Trimmed(text, dbName + ".");
    forall a: string, c: string ensures text == dbName + "." + (a + "]." + c) <==> trimmed == a + "]." + c {
      PrintSlices(dbName + ".", a + "]." + c);
    }
  }

  // Expressions

  /** What one operand adds to a comparison. */
  function Absorb(c: Comparison, term: Term, dbName: string): Result<Comparison> {
    match term
    case Const(json) => if json.None? then Err(BadConstant) else Ok(c.(clause := c.clause.(value := json.value)))
    case Ref(text) =>
      var t := ParseTerm(text, dbName);
      if t.Err? then Err(t.failure)
      else Ok(Comparison(t.value, c.clause.(id := t.value.id + "_" + t.value.table, column := t.value.column)))
  }

  function Blank(operator: string): Comparison {
    Comparison(SelectionTerm("", "", ""), WhereClause("", "", operator, Null))
  }

  /** The comparison that an expression stands for. */
  function Compared(e: Expr, dbName: string): Result<Comparison> {
    if e.Plain? || |e.operands| != 2 then Err(OperandCount)
    else if e.op !in OPERATORS then Err(UnknownOperator)
    else
      var one := Absorb(Blank(OPERATORS[e.op]), e.operands[0], dbName);
      if one.Err? then one
      else
        var two := Absorb(one.value, e.operands[1], dbName);
        if two.Ok? && e.operands[0].Const? && e.operands[1].Ref?
        then Ok(two.value.(clause := two.value.clause.(operator := FLIPS[OPERATORS[e.op]])))
        else two
  }

  /** An operand is a constant with a JSON value, or a reference that some plain term prints to. */
  ghost predicate GoodOperand(t: Term, dbName: string) {
    match t
    case Const(json) => json.Some?
    case Ref(text) => exists s :: Plainly(s) && text == Print(s, dbName)
  }

  ghost function OperandFault(t: Term, dbName: string): Failure {
    match t
    case Const(_) => BadConstant
    case Ref(text) => TermFault(text, dbName)
  }

  /** A call of one of the seven comparisons on two good operands. */
  ghost predicate Accepted(e: Expr, dbName: string) {
    && e.Call? && |e.operands| == 2 && e.op in {"eq", "equal", "neq", "lt", "lte", "gt", "gte"}
    && GoodOperand(e.operands[0], dbName) && GoodOperand(e.operands[1], dbName)
  }

  /** What is wrong with an expression, in the order of the checks. */
  ghost function Fault(e: Expr, dbName: string): Failure {
    if e.Plain? || |e.operands| != 2 then OperandCount
    else if e.op !in {"eq", "equal", "neq", "lt", "lte", "gt", "gte"} then UnknownOperator
    else if !GoodOperand(e.operands[0], dbName) then OperandFault(e.operands[0], dbName)
    else OperandFault(e.operands[1], dbName)
  }

  lemma AbsorbFault(c: Comparison, t: Term, dbName: string)
    ensures Absorb(c, t, dbName).Ok? <==> GoodOperand(t, dbName)
    ensures Absorb(c, t, dbName).Err? ==> Absorb(c, t, dbName) == Err(OperandFault(t, dbName))
  {
    if t.Ref? {
      TermParses(t.text, dbName);
    }
  }

  /** An expression is compared exactly when it is accepted; otherwise its first fault is reported. */
  lemma ComparedIff(e: Expr, dbName: string)
    ensures Compared(e, dbName).Ok? <==> Accepted(e, dbName)
    ensures Compared(e, dbName).Err? ==> Compared(e, dbName) == Err(Fault(e, dbName))
  {
    KnownOperators();
    if e.Call? && |e.operands| == 2 && e.op in OPERATORS {
      var blank := Blank(OPERATORS[e.op]);
      AbsorbFault(blank, e.operands[0], dbName);
      if Absorb(blank, e.operands[0], dbName).Ok? {
        AbsorbFault(Absorb(blank, e.operands[0], dbName).value, e.operands[1], dbName);
      }
    }
  }

  lemma KnownOperators()
    ensures OPERATORS.Keys == {"eq", "equal", "neq", "lt", "lte", "gt", "gte"}
  {
  }

  method ParseExpression(e: Expr, dbName: string) returns (r: Result<Comparison>)
    ensures r == Compared(e, dbName)
    ensures r.Ok? <==> Accepted(e, dbName)
    ensures r.Err? ==> r == Err(Fault(e, dbName))
  {
    ComparedIff(e, dbName);
    if e.Plain? || |e.operands| != 2 {
      return Err(OperandCount);
    }
    if e.op !in OPERATORS {
      return Err(UnknownOperator);
    }
    var c := Blank(OPERATORS[e.op]);
    var valueOnLeft := false;
    for i := 0 to 2
      invariant i == 0 ==> c == Blank(OPERATORS[e.op]) && !valueOnLeft
      invariant i == 1 ==> Ok(c) == Absorb(Blank(OPERATORS[e.op]), e.operands[0], dbName)
      invariant i == 1 ==> valueOnLeft == e.operands[0].Const?
      invariant i == 2 ==> Absorb(Blank(OPERATORS[e.op]), e.operands[0], dbName).Ok?
      invariant i == 2 ==> Ok(c) == Absorb(Absorb(Blank(OPERATORS[e.op]), e.operands[0], dbName).value, e.operands[1],
          dbName)
      invariant i == 2 ==> valueOnLeft == (e.operands[0].Const? && e.operands[1].Ref?)
    {
      match e.operands[i]
      case Const(json) =>
        if json.None? {
          return Err(BadConstant);
        }
        c := c.(clause := c.clause.(value := json.value));
        valueOnLeft := i == 0;
      case Ref(text) =>
        var t := ParseTerm(text, dbName);
        if t.Err? {
          return Err(t.failure);
        }
        c := Comparison(t.value, c.clause.(id := t.value.id + "_" + t.value.table, column := t.value.column));
    }
    if c.clause.operator in FLIPS && valueOnLeft {
      c := c.(clause := c.clause.(operator := FLIPS[c.clause.operator]));
    }
    return Ok(c);
  }

  // Bodies

  /** The comparisons of a body's calls, or its first failure. */
  function Comparisons(body: Body, dbName: string): Result<seq<Comparison>> {
    if body == [] then Ok([])
    else
      WithCall(Comparisons(body[..|body| - 1], dbName), body[|body| - 1], dbName)
  }

  /** The comparisons so far and that of one more expression, if it is a call. */
  function WithCall(before: Result<seq<Comparison>>, e: Expr, dbName: string): Result<seq<Comparison>> {
    if before.Err? || e.Plain? then before
    else
      var c := Compared(e, dbName);
      if c.Err? then Err(c.failure) else Ok(before.value + [c.value])
  }

  function AddTo(m: map<string, Selection>, c: Comparison): map<string, Selection> {
    var wheres := if c.clause.id in m then m[c.clause.id].wheres else [];
    m[c.clause.id := Selection(c.term.table, "1", wheres + [c.clause])]
  }

  function Group(cs: seq<Comparison>): map<string, Selection> {
    if cs == [] then map[] else AddTo(Group(cs[..|cs| - 1]), cs[|cs| - 1])
  }

  /** The clauses under one key, in order. */
  function Under(cs: seq<Comparison>, key: string): seq<WhereClause> {
    if cs == [] then []
    else Under(cs[..|cs| - 1], key) + (if cs[|cs| - 1].clause.id == key then [cs[|cs| - 1].clause] else [])
  }

  ghost predicate LastUnder(cs: seq<Comparison>, key: string, i: int) {
    0 <= i < |cs| && cs[i].clause.id == key && forall j :: i < j < |cs| ==> cs[j].clause.id != key
  }

  /** The clauses under a key come in the order of their comparisons. */
  lemma {:induction false} UnderInOrder(cs: seq<Comparison>, ds: seq<Comparison>, key: string)
    ensures Under(cs + ds, key) == Under(cs, key) + Under(ds, key)
    ensures |ds| == 1 ==> Under(ds, key) == if ds[0].clause.id == key then [ds[0].clause] else []
  {
    if ds == [] {
      assert cs + ds == cs && Under(cs, key) + [] == Under(cs, key);
    } else {
      assert (cs + ds)[..|cs + ds| - 1] == cs + ds[..|ds| - 1];
      UnderInOrder(cs, ds[..|ds| - 1], key);
    }
  }

  /** Every comparison goes into the selection under its key, in order, and into no other; the table is the
      last one's. */
  lemma {:induction false} GroupExactly(cs: seq<Comparison>, key: string)
    ensures key in Group(cs) <==> exists i :: 0 <= i < |cs| && cs[i].clause.id == key
    ensures key in Group(cs) ==> Group(cs)[key].wheres == Under(cs, key) && Group(cs)[key].columns == "1"
    ensures key in Group(cs) ==> exists i :: LastUnder(cs, key, i) && Group(cs)[key].table == cs[i].term.table
    ensures key !in Group(cs) ==> Under(cs, key) == []
  {
    if cs != [] {
      var before, last := cs[..|cs| - 1], cs[|cs| - 1];
      GroupExactly(before, key);
      if last.clause.id == key {
        assert LastUnder(cs, key, |cs| - 1);
      } else if key in Group(before) {
        var i :| LastUnder(before, key, i) && Group(before)[key].table == before[i].term.table;
        assert forall j :: i <= j < |cs| - 1 ==> cs[j] == before[j];
        assert LastUnder(cs, key, i);
      } else {
        assert forall i :: 0 <= i < |before| ==> cs[i] == before[i];
      }
    }
  }

  /** The values of a map, in the order of some listing of its keys. */
  ghost predicate ListedBy(keys: seq<string>, conj: Conjunction, m: map<string, Selection>) {
    && |keys| == |conj|
    && (forall i, j :: 0 <= i < j < |keys| ==> keys[i] != keys[j])
    && (forall i :: 0 <= i < |keys| ==> keys[i] in m && conj[i] == m[keys[i]])
    && (forall k :: k in m ==> k in keys)
  }

  ghost predicate Lists(conj: Conjunction, m: map<string, Selection>) {
    exists keys :: ListedBy(keys, conj, m)
  }

  method Listing(m: map<string, Selection>) returns (conj: Conjunction)
    ensures Lists(conj, m)
  {
    conj := [];
    ghost var keys: seq<string> := [];
    var rest := m.Keys;
    while rest != {}
      invariant rest <= m.Keys && |keys| == |conj|
      invariant forall i, j :: 0 <= i < j < |keys| ==> keys[i] != keys[j]
      invariant forall i :: 0 <= i < |keys| ==> keys[i] in m && keys[i] !in rest && conj[i] == m[keys[i]]
      invariant forall k :: k in m ==> k in rest || k in keys
      decreases |rest|
    {
      var key :| key in rest;
      conj, keys := conj + [m[key]], keys + [key];
      rest := rest - {key};
    }
    assert ListedBy(keys, conj, m);
  }

  lemma ComparisonsNext(body: Body, dbName: string, i: nat)
    requires i < |body| && Comparisons(body[..i], dbName).Ok?
    ensures body[i].Plain? ==> Comparisons(body[..i + 1], dbName) == Comparisons(body[..i], dbName)
    ensures body[i].Call? && Compared(body[i], dbName).Err? ==>
      Comparisons(body[..i + 1], dbName) == Err(Compared(body[i], dbName).failure)
    ensures body[i].Call? && Compared(body[i], dbName).Ok? ==>
      Comparisons(body[..i + 1], dbName) == Ok(Comparisons(body[..i], dbName).value + [Compared(body[i], dbName).value])
  {
    assert body[..i + 1][..i] == body[..i];
  }

  lemma GroupNext(cs: seq<Comparison>, c: Comparison)
    ensures Group(cs + [c]) == AddTo(Group(cs), c)
  {
    assert (cs + [c])[..|cs|] == cs;
  }

  /** The `exists` expressions of a body, in whatever order the map gives them. */
  method ParseQuery(query: Body, dbName: string) returns (r: Result<Conjunction>)
    ensures r.Ok? <==> AllAccepted(query, dbName)
    ensures r.Err? ==> exists i :: FirstRefused(query, dbName, i) && r == Err(Fault(query[i], dbName))
    ensures Comparisons(query, dbName).Err? ==> r == Err(Comparisons(query, dbName).failure)
    ensures Comparisons(query, dbName).Ok? ==> r.Ok? && Lists(r.value, Group(Comparisons(query, dbName).value))
  {
    ComparisonsIff(query, dbName);
    var expressions := GroupExpressions(query, dbName);
    if expressions.Err? {
      return Err(expressions.failure);
    }
    var conj := Listing(expressions.value);
    return Ok(conj);
  }

  /** The first loop of `ParseQuery`: the selections under their keys. */
  method GroupExpressions(query: Body, dbName: string) returns (r: Result<map<string, Selection>>)
    ensures Comparisons(query, dbName).Err? ==> r == Err(Comparisons(query, dbName).failure)
    ensures Comparisons(query, dbName).Ok? ==> r == Ok(Group(Comparisons(query, dbName).value))
  {
    var expressions: map<string, Selection> := map[];
    ghost var cs: seq<Comparison> := [];
    for i := 0 to |query|
      invariant Comparisons(query[..i], dbName) == Ok(cs) && expressions == Group(cs)
    {
      ComparisonsNext(query, dbName, i);
      if query[i].Plain? {
        continue;
      }
      var c := ParseExpression(query[i], dbName);
      if c.Err? {
        FailsEarly(query, dbName, i + 1);
        return Err(c.failure);
      }
      var key := c.value.clause.id;
      var statement := if key in expressions then expressions[key] else Selection("", "", []);
      statement := statement.(columns := "1", table := c.value.term.table,
          wheres := statement.wheres + [c.value.clause]);
      expressions := expressions[key := statement];
      GroupNext(cs, c.value);
      cs := cs + [c.value];
    }
    assert query[..|query|] == query;
    return Ok(expressions);
  }

  /** All calls of a body are accepted. */
  ghost predicate AllAccepted(body: Body, dbName: string) {
    forall e :: e in body && e.Call? ==> Accepted(e, dbName)
  }

  /** A body is parsed exactly when all its calls are accepted; otherwise the fault of the first call that is not is
      reported. */
  lemma {:induction false} ComparisonsIff(body: Body, dbName: string)
    ensures Comparisons(body, dbName).Ok? <==> AllAccepted(body, dbName)
    ensures Comparisons(body, dbName).Err? ==>
      exists i :: FirstRefused(body, dbName, i) && Comparisons(body, dbName) == Err(Fault(body[i], dbName))
  {
    if body != [] {
      var before, e := body[..|body| - 1], body[|body| - 1];
      assert body == before + [e] && e in body && forall x :: x in body <==> x in before || x == e;
      ComparisonsIff(before, dbName);
      ComparedIff(e, dbName);
      if Comparisons(before, dbName).Err? {
        var i :| FirstRefused(before, dbName, i) && Comparisons(before, dbName) == Err(Fault(before[i], dbName));
        assert FirstRefused(body, dbName, i);
      } else if e.Call? && !Accepted(e, dbName) {
        assert forall j :: 0 <= j < |before| ==> before[j] in before;
        assert FirstRefused(body, dbName, |body| - 1);
      }
    }
  }

  ghost predicate FirstRefused(body: Body, dbName: string, i: int) {
    && 0 <= i < |body| && body[i].Call? && !Accepted(body[i], dbName)
    && forall j :: 0 <= j < i && body[j].Call? ==> Accepted(body[j], dbName)
  }

  lemma {:induction false} FailsEarly(body: Body, dbName: string, i: nat)
    requires i <= |body| && Comparisons(body[..i], dbName).Err?
    ensures Comparisons(body, dbName) == Comparisons(body[..i], dbName)
  {
    if i == |body| {
      assert body[..i] == body;
    } else {
      assert body[..|body| - 1][..i] == body[..i];
      FailsEarly(body[..|body| - 1], dbName, i);
    }
  }

  /** A disjunction lists, for each body, the selections of its groups in some order. */
  ghost predicate Transpiled(queries: seq<Body>, dbName: string, d: Disjunction) {
    |d| == |queries| && forall i :: 0 <= i < |queries| ==>
      Comparisons(queries[i], dbName).Ok? && Lists(d[i], Group(Comparisons(queries[i], dbName).value))
  }

  ghost predicate FirstFailure(queries: seq<Body>, dbName: string, i: int) {
    && 0 <= i < |queries| && Comparisons(queries[i], dbName).Err?
    && forall j :: 0 <= j < i ==> Comparisons(queries[j], dbName).Ok?
  }

  /** One conjunction for each body, or the first failure. */
  method ParseQueries(queries: seq<Body>, dbName: string) returns (r: Result<Disjunction>)
    ensures r.Ok? <==> forall q :: q in queries ==> AllAccepted(q, dbName)
    ensures r.Ok? ==> Transpiled(queries, dbName, r.value)
    ensures r.Err? ==>
        exists i :: FirstFailure(queries, dbName, i) && Comparisons(queries[i], dbName).failure == r.failure
  {
    var d: Disjunction := [];
    for i := 0 to |queries|
      invariant |d| == i
      invariant forall j :: 0 <= j < i ==> Comparisons(queries[j], dbName).Ok? && AllAccepted(queries[j], dbName)
      invariant forall j :: 0 <= j < i ==> Lists(d[j], Group(Comparisons(queries[j], dbName).value))
    {
      ComparisonsIff(queries[i], dbName);
      var c := ParseQuery(queries[i], dbName);
      if c.Err? {
        assert FirstFailure(queries, dbName, i);
        return Err(c.failure);
      }
      d := d + [c.value];
    }
    return Ok(d);
  }
}
