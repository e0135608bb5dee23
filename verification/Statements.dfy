/** SQLite statements in disjunctive normal form, and their named parameters. */
module Statements {
  /** Constants of queries and entries of tables; `Other` stands for JSON arrays and objects, by their text. */
  datatype Value = Null | Boolean(b: bool) | Number(n: real) | Text(s: string) | Other(json: string)

  datatype WhereClause = WhereClause(id: string, column: string, operator: string, value: Value)

  datatype Selection = Selection(table: string, columns: string, wheres: seq<WhereClause>)

  /** A conjunction of `exists` expressions, and a disjunction of those. */
  type Conjunction = seq<Selection>
  type Disjunction = seq<Conjunction>

  type Params = map<string, Value>

  function ParamName(c: WhereClause): string {
    if c.id == "" then c.column else "$" + c.id + "__" + c.column
  }

  /** Placeholders are told apart by their keys and columns: under one key by the column, for one column by the key.  A
      clause without a key has its column for its placeholder. */
  lemma NamesApart(c: WhereClause, d: WhereClause)
    ensures c.id == "" ==> ParamName(c) == c.column
    ensures c.id != "" ==> ParamName(c) == "$" + c.id + "__" + c.column
    ensures c.id == d.id ==> (ParamName(c) == ParamName(d) <==> c.column == d.column)
    ensures c.id != "" && d.id != "" && c.column == d.column ==> (ParamName(c) == ParamName(d) <==> c.id == d.id)
  {
    if c.id == d.id && c.id != "" {
      SameFront("$" + c.id + "__", c.column, d.column);
    }
    if c.id != "" && d.id != "" && c.column == d.column {
      SameBack(c.id, d.id, "__" + c.column);
      assert ParamName(c) == "$" + (c.id + ("__" + c.column)) && ParamName(d) == "$" + (d.id + ("__" + d.column));
      SameFront("$", c.id + ("__" + c.column), d.id + ("__" + d.column));
    }
  }

  lemma SameFront(front: string, a: string, b: string)
    ensures front + a == front + b <==> a == b
  {
    if front + a == front + b {
      assert a == (front + a)[|front|..] == (front + b)[|front|..] == b;
    }
  }

  lemma SameBack(a: string, b: string, back: string)
    ensures a + back == b + back <==> a == b
  {
    if a + back == b + back {
      assert |a| == |b|;
      assert a == (a + back)[..|a|] == (b + back)[..|b|] == b;
    }
  }

  function ClauseParams(c: WhereClause): Params {
    map[ParamName(c) := c.value]
  }

  /** The clauses of a conjunction and of a disjunction, in the order in which their parameters are merged. */
  function ConjunctionClauses(c: Conjunction): seq<WhereClause> {
    if c == [] then [] else ConjunctionClauses(c[..|c| - 1]) + c[|c| - 1].wheres
  }

  function Clauses(d: Disjunction): seq<WhereClause> {
    if d == [] then [] else Clauses(d[..|d| - 1]) + ConjunctionClauses(d[|d| - 1])
  }

  /** Parameters are merged in the order in which the clauses, the selections and the conjunctions stand. */
  lemma ClausesInOrder(d: Disjunction, c: Conjunction, s: Selection)
    ensures Clauses([]) == [] && Clauses(d + [c]) == Clauses(d) + ConjunctionClauses(c)
    ensures ConjunctionClauses([]) == [] && ConjunctionClauses(c + [s]) == ConjunctionClauses(c) + s.wheres
  {
    assert (d + [c])[..|d|] == d && (c + [s])[..|c|] == c;
  }

  /** For every name, the value of the last clause that bears it. */
  ghost predicate LastOf(cs: seq<WhereClause>, p: Params) {
    && (forall c :: c in cs ==> ParamName(c) in p)
    && (forall name :: name in p ==> exists i :: 0 <= i < |cs| && LastAt(cs, i, name) && p[name] == cs[i].value)
  }

  ghost predicate LastAt(cs: seq<WhereClause>, i: int, name: string)
    requires 0 <= i < |cs|
  {
    ParamName(cs[i]) == name && forall j :: i < j < |cs| ==> ParamName(cs[j]) != name
  }

  lemma LastOfMerged(cs: seq<WhereClause>, p: Params, ds: seq<WhereClause>, q: Params)
    requires LastOf(cs, p) && LastOf(ds, q)
    ensures LastOf(cs + ds, p + q)
  {
    forall name | name in p + q
      ensures exists i :: 0 <= i < |cs + ds| && LastAt(cs + ds, i, name) && (p + q)[name] == (cs + ds)[i].value
    {
      if name in q {
        var i :| 0 <= i < |ds| && LastAt(ds, i, name) && q[name] == ds[i].value;
        LastAtLater(cs, ds, i, name);
        assert (cs + ds)[|cs| + i] == ds[i];
      } else {
        var i :| 0 <= i < |cs| && LastAt(cs, i, name) && p[name] == cs[i].value;
        assert forall d :: d in ds ==> ParamName(d) in q;
        LastAtEarlier(cs, ds, i, name);
        assert (cs + ds)[i] == cs[i];
      }
    }
  }

  lemma LastAtLater(cs: seq<WhereClause>, ds: seq<WhereClause>, i: nat, name: string)
    requires i < |ds| && LastAt(ds, i, name)
    ensures LastAt(cs + ds, |cs| + i, name)
  {
    forall j | |cs| + i < j < |cs + ds| ensures ParamName((cs + ds)[j]) != name {
      assert (cs + ds)[j] == ds[j - |cs|];
    }
  }

  lemma LastAtEarlier(cs: seq<WhereClause>, ds: seq<WhereClause>, i: nat, name: string)
    requires i < |cs| && LastAt(cs, i, name) && forall d :: d in ds ==> ParamName(d) != name
    ensures LastAt(cs + ds, i, name)
  {
    forall j | i < j < |cs + ds| ensures ParamName((cs + ds)[j]) != name {
      if j >= |cs| {
        assert (cs + ds)[j] == ds[j - |cs|];
        assert ds[j - |cs|] in ds;
      }
    }
  }

  /** `params[name] = value` for every entry of a map, in whatever order they come. */
  method MergeInto(params: Params, more: Params) returns (r: Params)
    ensures r == params + more
  {
    r := params;
    var rest := more.Keys;
    MergeEnds(params, more);
    while rest != {}
      invariant rest <= more.Keys && r == params + (more - rest)
      decreases |rest|
    {
      var name :| name in rest;
      MergeOne(params, more, rest, name);
      r := r[name := more[name]];
      rest := rest - {name};
    }
  }

  lemma MergeEnds(params: Params, more: Params)
    ensures params + (more - more.Keys) == params && more - {} == more
  {
  }

  lemma MergeOne(params: Params, more: Params, rest: set<string>, name: string)
    requires name in rest && rest <= more.Keys
    ensures (params + (more - rest))[name := more[name]] == params + (more - (rest - {name}))
  {
  }

  method SelectionParams(s: Selection) returns (params: Params)
    ensures LastOf(s.wheres, params)
  {
    params := map[];
    for i := 0 to |s.wheres|
      invariant LastOf(s.wheres[..i], params)
    {
      assert LastAt([s.wheres[i]], 0, ParamName(s.wheres[i]));
      LastOfMerged(s.wheres[..i], params, [s.wheres[i]], ClauseParams(s.wheres[i]));
      assert s.wheres[..i + 1] == s.wheres[..i] + [s.wheres[i]];
      params := MergeInto(params, ClauseParams(s.wheres[i]));
    }
    assert s.wheres[..|s.wheres|] == s.wheres;
  }

  method ConjunctionParams(c: Conjunction) returns (params: Params)
    ensures LastOf(ConjunctionClauses(c), params)
  {
    params := map[];
    for i := 0 to |c|
      invariant LastOf(ConjunctionClauses(c[..i]), params)
    {
      var more := SelectionParams(c[i]);
      LastOfMerged(ConjunctionClauses(c[..i]), params, c[i].wheres, more);
      assert c[..i + 1][..i] == c[..i];
      params := MergeInto(params, more);
    }
    assert c[..|c|] == c;
  }

  /** The named parameters of a whole statement. */
  method NamedParams(d: Disjunction) returns (params: Params)
    ensures LastOf(Clauses(d), params)
  {
    params := map[];
    for i := 0 to |d|
      invariant LastOf(Clauses(d[..i]), params)
    {
      var more := ConjunctionParams(d[i]);
      LastOfMerged(Clauses(d[..i]), params, ConjunctionClauses(d[i]), more);
      assert d[..i + 1][..i] == d[..i];
      params := MergeInto(params, more);
    }
    assert d[..|d|] == d;
  }

  /** Clauses that share a placeholder compare with the same value. */
  ghost predicate Consistent(cs: seq<WhereClause>) {
    forall c, d :: c in cs && d in cs && ParamName(c) == ParamName(d) ==> c.value == d.value
  }

  /** Every clause's placeholder stands for that clause's own value. */
  ghost predicate Faithful(cs: seq<WhereClause>, p: Params) {
    forall c :: c in cs ==> ParamName(c) in p && p[ParamName(c)] == c.value
  }

  /** The merged parameters give every clause its own value exactly when clauses that share a placeholder
      carry the same value. */
  lemma FaithfulIffConsistent(cs: seq<WhereClause>, p: Params)
    requires LastOf(cs, p)
    ensures Faithful(cs, p) <==> Consistent(cs)
  {
    if Consistent(cs) {
      forall c | c in cs ensures ParamName(c) in p && p[ParamName(c)] == c.value {
        var i :| 0 <= i < |cs| && LastAt(cs, i, ParamName(c)) && p[ParamName(c)] == cs[i].value;
        assert cs[i] in cs;
      }
    }
  }

  /** With consistent clauses the order of merging makes no difference. */
  lemma MergeOrderDoesNotMatter(cs: seq<WhereClause>, p: Params, ds: seq<WhereClause>, q: Params)
    requires LastOf(cs, p) && LastOf(ds, q) && Consistent(cs)
    requires forall c :: c in cs <==> c in ds
    ensures p == q
  {
    FaithfulIffConsistent(cs, p);
    FaithfulIffConsistent(ds, q);
    forall name | name in p ensures name in q && q[name] == p[name] {
      var i :| 0 <= i < |cs| && LastAt(cs, i, name) && p[name] == cs[i].value;
      assert cs[i] in ds;
    }
    forall name | name in q ensures name in p {
      var i :| 0 <= i < |ds| && LastAt(ds, i, name) && q[name] == ds[i].value;
      assert ds[i] in cs;
    }
  }

  // Which clauses a statement has

  lemma {:induction false} InConjunction(c: Conjunction, w: WhereClause)
    ensures w in ConjunctionClauses(c) <==> exists s :: s in c && w in s.wheres
  {
    if c != [] {
      InConjunction(c[..|c| - 1], w);
      assert c == c[..|c| - 1] + [c[|c| - 1]];
    }
  }

  lemma {:induction false} InDisjunction(d: Disjunction, w: WhereClause)
    ensures w in Clauses(d) <==> exists c :: c in d && w in ConjunctionClauses(c)
  {
    if d != [] {
      var front, last := d[..|d| - 1], d[|d| - 1];
      InDisjunction(front, w);
      assert d == front + [last];
      assert last in d && forall c :: c in d <==> c in front || c == last;
    }
  }
}
