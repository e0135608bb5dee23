/** Routing as a function of the table of routes alone.

    `Match` searches a plain table from keys and methods to records, byte by byte, with no tree.  A tree
    that mirrors a table gives the same answer to every search, so the shape of the tree (where nodes were
    split, in which order) does not matter. */
module RouteTable {
  import opened Options
  import opened Text
  import opened RouteTree
  import opened RouteInsert
  import opened RouteSearch

  type Table = map<(string, string), RouteMethod>

  ghost function LongestRoute(tab: Table): (n: nat)
    ensures forall e :: e in tab ==> |e.0| <= n
    decreases |tab|
  {
    if tab == map[] then 0
    else
      var e :| e in tab;
      assert |tab - {e}| < |tab| by { assert (tab - {e}).Keys < tab.Keys; SmallerSet((tab - {e}).Keys, tab.Keys); }
      Max(|e.0|, LongestRoute(tab - {e}))
  }

  lemma SmallerSet<T>(a: set<T>, b: set<T>)
    requires a < b
    ensures |a| < |b|
  {
    assert b == a + (b - a);
  }

  /** Some route goes on along `k`. */
  ghost predicate Reaches(tab: Table, k: string) {
    exists e :: e in tab && k <= e.0
  }

  /** Some route goes on beyond `k`. */
  ghost predicate GoesOn(tab: Table, k: string) {
    exists e :: e in tab && k < e.0
  }

  /** Some method other than the not-found one is registered for `k`. */
  ghost predicate Handles(tab: Table, k: string) {
    exists e :: e in tab && e.0 == k && e.1 != ROUTE_NOT_FOUND
  }

  ghost function Entry(tab: Table, k: string, m: string): Option<RouteMethod> {
    if m != ROUTE_NOT_FOUND && (k, m) in tab then Some(tab[(k, m)]) else None
  }

  ghost function NotFoundEntry(tab: Table, k: string): Option<RouteMethod> {
    if (k, ROUTE_NOT_FOUND) in tab then Some(tab[(k, ROUTE_NOT_FOUND)]) else None
  }

  /** The search at key `k` with `s` left of the path. */
  ghost function Match(tab: Table, m: string, k: string, s: string, vs: seq<string>, best: Option<Best>): Outcome
    requires k == "" || Reaches(tab, k)
    decreases LongestRoute(tab) - |k|, 3
  {
    var best' := if s == "" && Handles(tab, k) && best.None? then Some(Best(k, vs)) else best;
    if s == "" && Handles(tab, k) && Entry(tab, k, m).Some? then Outcome(Hit(k, Entry(tab, k, m).value, vs), best')
    else if s == "" && !Handles(tab, k) &&
        NotFoundEntry(tab, k).Some? then Outcome(Hit(k, NotFoundEntry(tab, k).value, vs), best')
    else MatchByte(tab, m, k, s, vs, best')
  }

  /** The next byte of the path, literally. */
  ghost function MatchByte(tab: Table, m: string, k: string, s: string, vs: seq<string>, best: Option<Best>): Outcome
    requires k == "" || Reaches(tab, k)
    decreases LongestRoute(tab) - |k|, 2
  {
    if s != "" && !IsMarker(s[0]) && Reaches(tab, k + [s[0]]) then
      var o := Match(tab, m, k + [s[0]], s[1..], vs, best);
      if o.verdict.Miss? then MatchParam(tab, m, k, s, vs, o.best) else o
    else MatchParam(tab, m, k, s, vs, best)
  }

  /** A parameter: the next segment, or all the rest when no route goes on after it. */
  ghost function MatchParam(tab: Table, m: string, k: string, s: string, vs: seq<string>, best: Option<Best>): Outcome
    requires k == "" || Reaches(tab, k)
    decreases LongestRoute(tab) - |k|, 1
  {
    if s != "" && Reaches(tab, k + ":") then
      var n := if GoesOn(tab, k + ":") then Slash(s) else |s|;
      var o := Match(tab, m, k + ":", s[n..], vs + [s[..n]], best);
      if o.verdict.Miss? then MatchAny(tab, m, k, s, vs, o.best) else o
    else MatchAny(tab, m, k, s, vs, best)
  }

  /** An any parameter takes the rest and ends the search. */
  ghost function MatchAny(tab: Table, m: string, k: string, s: string, vs: seq<string>, best: Option<Best>): Outcome {
    var a := k + "*";
    if Reaches(tab, a) then
      var best' := if best.None? then Some(Best(a, vs + [s])) else best;
      if Entry(tab, a, m).Some? then Outcome(Hit(a, Entry(tab, a, m).value, vs + [s]), best)
      else if NotFoundEntry(tab, a).Some? then Outcome(Hit(a, NotFoundEntry(tab, a).value, vs + [s]), best')
      else Outcome(Cut(vs), best')
    else Outcome(Miss, best)
  }

  // Trees that mirror a table

  /** The tree holds exactly the records of the table, and every key lies on the way to a route. */
  ghost predicate Mirrors(t: Tree, tab: Table) {
    && WellFormed(t)
    && (forall k: string, m: string, r: RouteMethod :: Stores(t, k, m, r) <==> (k, m) in tab && tab[(k, m)] == r)
    && (forall i: nat :: i < |t.keys| && t.keys[i] != "" ==> Reaches(tab, t.keys[i]))
  }

  lemma RouteHasNode(t: Tree, tab: Table, e: (string, string)) returns (j: nat)
    requires Mirrors(t, tab) && e in tab
    ensures j < |t.nodes| && t.keys[j] == e.0
  {
    assert Stores(t, e.0, e.1, tab[e]);
    j :| j < |t.nodes| && t.keys[j] == e.0 && t.nodes[j].Record(e.1) == Some(tab[e]);
  }

  /** The records of a node are the entries of its key. */
  lemma NodeEntries(t: Tree, tab: Table, i: nat, m: string)
    requires Mirrors(t, tab) && i < |t.nodes|
    ensures (t.keys[i], m) in tab <==> t.nodes[i].Record(m).Some?
    ensures (t.keys[i], m) in tab ==> t.nodes[i].Record(m) == Some(tab[(t.keys[i], m)])
  {
    if (t.keys[i], m) in tab {
      StoresUnique(t, t.keys[i], m, tab[(t.keys[i], m)], i);
    }
    if t.nodes[i].Record(m).Some? {
      StoresUnique(t, t.keys[i], m, t.nodes[i].Record(m).value, i);
    }
  }

  lemma HandlerHasRecord(n: Node, key: string)
    requires RecordsOK(n, key)
    ensures n.methods.IsHandler() <==> exists m: string :: m != ROUTE_NOT_FOUND && n.Record(m).Some?
    ensures forall m: string :: n.methods.Get(m) == if m == ROUTE_NOT_FOUND then None else n.Record(m)
  {
    if n.methods.IsHandler() {
      if n.methods.pub.Some? {
        assert n.Record(METHOD_PUB).Some?;
      } else if n.methods.sub.Some? {
        assert n.Record(METHOD_SUB).Some?;
      } else if n.methods.unsub.Some? {
        assert n.Record(METHOD_UNSUB).Some?;
      } else {
        var v :| v in n.methods.others;
        assert n.Record(v).Some?;
      }
    }
  }

  /** What the table says about a key that has a node. */
  lemma NodeMatches(t: Tree, tab: Table, i: nat, m: string)
    requires Mirrors(t, tab) && i < |t.nodes|
    ensures var k, n := t.keys[i], t.nodes[i];
            && n.isHandler == Handles(tab, k)
            && n.methods.Get(m) == Entry(tab, k, m)
            && n.notFound == NotFoundEntry(tab, k)
  {
    var n := t.nodes[i];
    assert NodeOK(t, i);
    HandlerHasRecord(n, t.keys[i]);
    NodeEntries(t, tab, i, m);
    NodeEntries(t, tab, i, ROUTE_NOT_FOUND);
    if n.isHandler {
      var v: string :| v != ROUTE_NOT_FOUND && n.Record(v).Some?;
      NodeEntries(t, tab, i, v);
      assert (t.keys[i], v) in tab;
    }
    if Handles(tab, t.keys[i]) {
      var e :| e in tab && e.0 == t.keys[i] && e.1 != ROUTE_NOT_FOUND;
      assert e == (t.keys[i], e.1);
      NodeEntries(t, tab, i, e.1);
    }
  }

  /** A route that goes on beyond a node with byte `x` goes through the child for `x`. */
  lemma RouteThrough(t: Tree, tab: Table, i: nat, x: char, e: (string, string)) returns (c: nat)
    requires Mirrors(t, tab) && i < |t.nodes| && e in tab && t.keys[i] + [x] <= e.0
    ensures Under(t, i, c) && t.nodes[c].initial == x && t.keys[c] <= e.0
    ensures t.nodes[i].HasChildOfKind(t.nodes[c].kind, c)
    ensures if x == ':' then t.nodes[c].kind.Param? else if x == '*' then t.nodes[c].kind.Any?
        else t.nodes[c].kind.Static?
  {
    var j := RouteHasNode(t, tab, e);
    assert t.keys[i] == (t.keys[i] + [x])[..|t.keys[i]|] && t.keys[i] < e.0;
    c := ChildToward(t, i, j);
    assert t.keys[c][|t.keys[i]|] == e.0[|t.keys[i]|] == (t.keys[i] + [x])[|t.keys[i]|] == x;
    UnderAll(t, i);
    var n := t.nodes[i];
    assert NodeOK(t, i);
    if c in n.statics {
      assert n.HasChildOfKind(Static, c);
    } else if n.param == Some(c) {
      assert n.HasChildOfKind(Param, c);
    } else {
      assert n.HasChildOfKind(Any, c);
    }
  }

  /** Every child lies on the way to a route. */
  lemma ChildReaches(t: Tree, tab: Table, i: nat, c: nat)
    requires Mirrors(t, tab) && i < |t.nodes| && Under(t, i, c)
    ensures Reaches(tab, t.keys[c]) && Reaches(tab, t.keys[i] + [t.nodes[c].initial])
  {
    var e :| e in tab && t.keys[c] <= e.0;
    assert t.keys[c][..|t.keys[i]| + 1] == t.keys[i] + [t.nodes[c].initial];
    assert t.keys[i] + [t.nodes[c].initial] <= e.0;
  }

  /** The children of a node, read off the table. */
  lemma ChildrenMatch(t: Tree, tab: Table, i: nat, x: char)
    requires Mirrors(t, tab) && i < |t.nodes|
    ensures Reaches(tab, t.keys[i] + ":") <==> t.nodes[i].param.Some?
    ensures Reaches(tab, t.keys[i] + "*") <==> t.nodes[i].any.Some?
    ensures !IsMarker(x) ==> (Reaches(tab, t.keys[i] + [x]) <==> StaticChild(t, i, x).Some?)
  {
    UnderAll(t, i);
    var n := t.nodes[i];
    if n.param.Some? {
      assert n.HasChildOfKind(Param, n.param.value);
      ChildReaches(t, tab, i, n.param.value);
    }
    if n.any.Some? {
      assert n.HasChildOfKind(Any, n.any.value);
      ChildReaches(t, tab, i, n.any.value);
    }
    if StaticChild(t, i, x).Some? {
      ChildReaches(t, tab, i, StaticChild(t, i, x).value);
    }
    if Reaches(tab, t.keys[i] + ":") {
      var e :| e in tab && t.keys[i] + ":" <= e.0;
      var c := RouteThrough(t, tab, i, ':', e);
    }
    if Reaches(tab, t.keys[i] + "*") {
      var e :| e in tab && t.keys[i] + "*" <= e.0;
      var c := RouteThrough(t, tab, i, '*', e);
    }
    if !IsMarker(x) && Reaches(tab, t.keys[i] + [x]) {
      var e :| e in tab && t.keys[i] + [x] <= e.0;
      var c := RouteThrough(t, tab, i, x, e);
      StaticsInRange(t, i);
    }
  }

  /** A node is a leaf exactly when no route goes on beyond it. */
  lemma LeafMatches(t: Tree, tab: Table, i: nat)
    requires Mirrors(t, tab) && i < |t.nodes| && t.keys[i] != ""
    ensures t.nodes[i].isLeaf <==> !GoesOn(tab, t.keys[i])
  {
    assert NodeOK(t, i);
    if GoesOn(tab, t.keys[i]) {
      var e :| e in tab && t.keys[i] < e.0;
      var j := RouteHasNode(t, tab, e);
      var c := ChildToward(t, i, j);
    }
    if !t.nodes[i].isLeaf {
      UnderAll(t, i);
      var n := t.nodes[i];
      var c := if n.statics != [] then n.statics[0] else if n.param.Some? then n.param.value else n.any.value;
      assert n.HasChildOfKind(if n.statics != [] then Static else if n.param.Some? then Param else Any, c);
      ChildReaches(t, tab, i, c);
      var e :| e in tab && t.keys[c] <= e.0;
      assert t.keys[i] < e.0;
    }
  }

  // Inside an edge

  /** Key `k` lies strictly inside the edge that leads to node `c`: after `j` bytes of its prefix. */
  ghost predicate InEdge(t: Tree, c: nat, j: nat, k: string)
    requires |t.nodes| == |t.keys| && c < |t.nodes|
  {
    var n := t.nodes[c];
    && n.kind.Static? && j < |n.prefix| <= |t.keys[c]|
    && t.keys[c] == t.keys[c][..|t.keys[c]| - |n.prefix|] + n.prefix
    && k == t.keys[c][..|t.keys[c]| - |n.prefix|] + n.prefix[..j]
    && (0 < j || c == 0)
  }

  /** Every route that goes through the inside of an edge goes through its lower end. */
  lemma EdgeOnly(t: Tree, tab: Table, c: nat, j: nat, k: string, e: (string, string))
    requires Mirrors(t, tab) && c < |t.nodes| && InEdge(t, c, j, k) && e in tab && k <= e.0
    ensures t.keys[c] <= e.0
  {
    var d := RouteHasNode(t, tab, e);
    RootFirst(t, d);
    if c != 0 {
      var p := ParentBelow(t, c);
      assert t.keys[p] == t.keys[c][..|t.keys[c]| - |t.nodes[c].prefix|];
      assert t.keys[p] + t.nodes[c].prefix[..j] <= e.0;
      assert e.0[..|t.keys[p]|] == k[..|t.keys[p]|] == t.keys[p];
      assert e.0[|t.keys[p]|] == k[|t.keys[p]|] == t.nodes[c].prefix[0];
      var x := ChildToward(t, p, d);
      assert t.keys[x][|t.keys[p]|] == e.0[|t.keys[p]|];
      ChildByLabel(t, p, x, c);
    }
  }

  /** Inside an edge there is no entry, and only the next byte of the prefix goes on. */
  lemma EdgeFacts(t: Tree, tab: Table, c: nat, j: nat, k: string, x: char)
    requires Mirrors(t, tab) && c < |t.nodes| && InEdge(t, c, j, k)
    ensures !Handles(tab, k) && NotFoundEntry(tab, k).None?
    ensures Reaches(tab, k + [x]) <==> x == t.nodes[c].prefix[j]
    ensures Reaches(tab, t.keys[c])
  {
    assert t.keys[c] != "";
    if Handles(tab, k) {
      var e :| e in tab && e.0 == k && e.1 != ROUTE_NOT_FOUND;
      EdgeOnly(t, tab, c, j, k, e);
    }
    if NotFoundEntry(tab, k).Some? {
      EdgeOnly(t, tab, c, j, k, (k, ROUTE_NOT_FOUND));
    }
    assert k + [t.nodes[c].prefix[j]] <= t.keys[c] by {
      assert t.keys[c][..|k| + 1] == k + [t.nodes[c].prefix[j]];
    }
    if Reaches(tab, k + [x]) {
      var e :| e in tab && k + [x] <= e.0;
      assert k == (k + [x])[..|k|];
      assert k <= e.0;
      EdgeOnly(t, tab, c, j, k, e);
      assert e.0[|k|] == (k + [x])[|k|] == x;
      assert e.0[|k|] == t.keys[c][|k|] == t.nodes[c].prefix[j];
    }
    var e :| e in tab && t.keys[c] <= e.0;
    assert k + [t.nodes[c].prefix[j]] <= e.0;
  }

  /** Without a parameter or an any route below it, a key matches nothing but literal bytes. */
  lemma OnlyBytes(tab: Table, m: string, k: string, s: string, vs: seq<string>, best: Option<Best>)
    requires Reaches(tab, k) && !Handles(tab, k) && NotFoundEntry(tab, k).None?
    requires !Reaches(tab, k + ":") && !Reaches(tab, k + "*")
    ensures Match(tab, m, k, s, vs, best) ==
            if s != "" && !IsMarker(s[0]) && Reaches(tab, k + [s[0]]) then Match(tab, m, k + [s[0]], s[1..], vs, best)
            else Outcome(Miss, best)
  {
    assert Match(tab, m, k, s, vs, best) == MatchByte(tab, m, k, s, vs, best);
    assert MatchParam(tab, m, k, s, vs, best) == Outcome(Miss, best);
    if s != "" && !IsMarker(s[0]) && Reaches(tab, k + [s[0]]) {
      var o := Match(tab, m, k + [s[0]], s[1..], vs, best);
      assert MatchParam(tab, m, k, s, vs, o.best) == Outcome(Miss, o.best);
    }
  }

  /** One byte down an edge. */
  lemma EdgeStep(t: Tree, tab: Table, m: string, c: nat, j: nat, k: string, s: string, vs: seq<string>,
      best: Option<Best>)
    requires Mirrors(t, tab) && c < |t.nodes| && InEdge(t, c, j, k)
    ensures Reaches(tab, k) && Reaches(tab, k + [t.nodes[c].prefix[j]])
    ensures Match(tab, m, k, s, vs, best) ==
            if s != "" && s[0] == t.nodes[c].prefix[j] then Match(tab, m, k + [s[0]], s[1..], vs, best)
                else Outcome(Miss, best)
  {
    assert NodeOK(t, c);
    var x := t.nodes[c].prefix[j];
    EdgeFacts(t, tab, c, j, k, ':');
    EdgeFacts(t, tab, c, j, k, '*');
    EdgeFacts(t, tab, c, j, k, x);
    assert Reaches(tab, k) by {
      var e :| e in tab && k + [x] <= e.0;
      assert k <= e.0;
    }
    if s != "" {
      EdgeFacts(t, tab, c, j, k, s[0]);
    }
    OnlyBytes(tab, m, k, s, vs, best);
  }

  /** Walking down an edge byte by byte is matching its prefix. */
  lemma {:induction false} EdgeMatches(t: Tree, tab: Table, m: string, c: nat, j: nat, k: string, s: string,
      vs: seq<string>, best: Option<Best>)
    requires Mirrors(t, tab) && c < |t.nodes| && InEdge(t, c, j, k)
    ensures Reaches(tab, t.keys[c]) && Reaches(tab, k)
    ensures Match(tab, m, k, s, vs, best) ==
            if t.nodes[c].prefix[j..] <= s then Match(tab, m, t.keys[c], s[|t.nodes[c].prefix| - j..], vs, best)
                else Outcome(Miss, best)
    decreases |t.nodes[c].prefix| - j
  {
    var pre := t.nodes[c].prefix;
    var x := pre[j];
    EdgeStep(t, tab, m, c, j, k, s, vs, best);
    EdgeSlices(pre, j, s);
    if j + 1 < |pre| {
      EdgeNext(t, c, j, k);
      if s != "" && s[0] == x {
        EdgeMatches(t, tab, m, c, j + 1, k + [x], s[1..], vs, best);
      }
    } else {
      EdgeEnd(t, c, j, k);
    }
  }

  lemma EdgeSlices(pre: string, j: nat, s: string)
    requires j < |pre|
    ensures pre[j..] <= s <==> s != "" && s[0] == pre[j] && pre[j + 1..] <= s[1..]
    ensures pre[j..] <= s ==> s[1..][|pre| - j - 1..] == s[|pre| - j..]
  {
    assert pre[j..] == [pre[j]] + pre[j + 1..];
    if s != "" {
      assert s == [s[0]] + s[1..];
    }
  }

  lemma EdgeEnd(t: Tree, c: nat, j: nat, k: string)
    requires |t.nodes| == |t.keys| && c < |t.nodes| && InEdge(t, c, j, k) && j + 1 == |t.nodes[c].prefix|
    ensures k + [t.nodes[c].prefix[j]] == t.keys[c]
  {
    var pre := t.nodes[c].prefix;
    assert pre[..j] + [pre[j]] == pre;
  }

  lemma EdgeNext(t: Tree, c: nat, j: nat, k: string)
    requires |t.nodes| == |t.keys| && c < |t.nodes| && InEdge(t, c, j, k) && j + 1 < |t.nodes[c].prefix|
    ensures InEdge(t, c, j + 1, k + [t.nodes[c].prefix[j]])
  {
    var pre := t.nodes[c].prefix;
    assert pre[..j] + [pre[j]] == pre[..j + 1];
  }

  // The tree search is the table search

  lemma PrefixTail(pre: string, s: string)
    requires pre != "" && s != "" && pre[0] == s[0]
    ensures pre <= s <==> pre[1..] <= s[1..]
    ensures pre <= s ==> s[1..][|pre| - 1..] == s[|pre|..]
  {
    assert pre == [s[0]] + pre[1..];
  }

  /** From a node to a static child: the table search walks the whole prefix of the child. */
  lemma EdgeDown(t: Tree, tab: Table, m: string, i: nat, c: nat, s: string, vs: seq<string>, best: Option<Best>)
    requires Mirrors(t, tab) && i < |t.nodes| && Under(t, i, c) && t.nodes[c].kind.Static?
    requires s != "" && s[0] == t.nodes[c].prefix[0]
    ensures Reaches(tab, t.keys[i] + [s[0]]) && Reaches(tab, t.keys[c])
    ensures Match(tab, m, t.keys[i] + [s[0]], s[1..], vs, best) ==
            if t.nodes[c].prefix <= s then Match(tab, m, t.keys[c], s[|t.nodes[c].prefix|..], vs, best)
                else Outcome(Miss, best)
  {
    var pre, k := t.nodes[c].prefix, t.keys[i] + [s[0]];
    ChildReaches(t, tab, i, c);
    PrefixTail(pre, s);
    if |pre| == 1 {
      assert k == t.keys[c];
    } else {
      assert t.keys[c][..|t.keys[c]| - |pre|] == t.keys[i];
      assert k == t.keys[i] + pre[..1];
      EdgeMatches(t, tab, m, c, 1, k, s[1..], vs, best);
    }
  }

  lemma {:induction false} EnterMatches(t: Tree, tab: Table, m: string, i: nat, c: nat, s: string, vs: seq<string>,
      best: Option<Best>)
    requires Mirrors(t, tab) && i < |t.nodes| && Under(t, i, c) && t.nodes[c].kind.Static?
    requires s != "" && s[0] == t.nodes[c].prefix[0]
    ensures Reaches(tab, t.keys[i] + [s[0]])
    ensures Enter(t, m, c, s, vs, best).out == Match(tab, m, t.keys[i] + [s[0]], s[1..], vs, best)
    decreases Longest(t.keys) - |t.keys[c]|, 4
  {
    EdgeDown(t, tab, m, i, c, s, vs, best);
    var pre := t.nodes[c].prefix;
    if pre <= s {
      CheckMatches(t, tab, m, c, s[|pre|..], vs, best);
    }
  }

  lemma {:induction false} CheckMatches(t: Tree, tab: Table, m: string, i: nat, s: string, vs: seq<string>,
      best: Option<Best>)
    requires Mirrors(t, tab) && i < |t.nodes| && t.keys[i] != ""
    ensures Reaches(tab, t.keys[i])
    ensures Check(t, m, i, s, vs, best).out == Match(tab, m, t.keys[i], s, vs, best)
    decreases Longest(t.keys) - |t.keys[i]|, 3
  {
    NodeMatches(t, tab, i, m);
    StaticsMatch(t, tab, m, i, s, vs, if s == "" && t.nodes[i].isHandler &&
        best.None? then Some(Best(t.keys[i], vs)) else best);
  }

  lemma {:induction false} StaticsMatch(t: Tree, tab: Table, m: string, i: nat, s: string, vs: seq<string>,
      best: Option<Best>)
    requires Mirrors(t, tab) && i < |t.nodes| && t.keys[i] != ""
    ensures Reaches(tab, t.keys[i])
    ensures Statics(t, m, i, s, vs, best).out == MatchByte(tab, m, t.keys[i], s, vs, best)
    decreases Longest(t.keys) - |t.keys[i]|, 2
  {
    if s != "" {
      ChildrenMatch(t, tab, i, s[0]);
      if StaticChild(t, i, s[0]).Some? {
        var c := StaticChild(t, i, s[0]).value;
        assert !IsMarker(t.nodes[c].prefix[0]);
        EnterMatches(t, tab, m, i, c, s, vs, best);
        ParamsMatch(t, tab, m, i, s, vs, Enter(t, m, c, s, vs, best).out.best);
      } else {
        ParamsMatch(t, tab, m, i, s, vs, best);
      }
    } else {
      ParamsMatch(t, tab, m, i, s, vs, best);
    }
  }

  lemma {:induction false} ParamsMatch(t: Tree, tab: Table, m: string, i: nat, s: string, vs: seq<string>,
      best: Option<Best>)
    requires Mirrors(t, tab) && i < |t.nodes| && t.keys[i] != ""
    ensures Reaches(tab, t.keys[i])
    ensures Params(t, m, i, s, vs, best).out == MatchParam(tab, m, t.keys[i], s, vs, best)
    decreases Longest(t.keys) - |t.keys[i]|, 1
  {
    ChildrenMatch(t, tab, i, '/');
    UnderAll(t, i);
    if s != "" && t.nodes[i].param.Some? {
      var c := t.nodes[i].param.value;
      assert t.nodes[i].HasChildOfKind(Param, c);
      LeafMatches(t, tab, c);
      var k := Taken(t, c, s);
      CheckMatches(t, tab, m, c, s[k..], vs + [s[..k]], best);
      AnysMatch(t, tab, m, i, s, vs, Enter(t, m, c, s[k..], vs + [s[..k]], best).out.best);
    } else {
      AnysMatch(t, tab, m, i, s, vs, best);
    }
  }

  lemma AnysMatch(t: Tree, tab: Table, m: string, i: nat, s: string, vs: seq<string>, best: Option<Best>)
    requires Mirrors(t, tab) && i < |t.nodes|
    ensures Anys(t, m, i, s, vs, best).out == MatchAny(tab, m, t.keys[i], s, vs, best)
  {
    ChildrenMatch(t, tab, i, '/');
    UnderAll(t, i);
    if t.nodes[i].any.Some? {
      assert t.nodes[i].HasChildOfKind(Any, t.nodes[i].any.value);
      NodeMatches(t, tab, t.nodes[i].any.value, m);
    }
  }

  /** The search of a tree depends on the table of routes only. */
  lemma SearchIsMatch(t: Tree, tab: Table, m: string, path: string)
    requires Mirrors(t, tab)
    ensures Search(t, m, path).out == Match(tab, m, "", path, [], None)
  {
    if t.keys[0] == "" {
      EmptyMatches(t, tab, m, path);
    } else {
      RootMatches(t, tab, m, path);
    }
  }

  lemma RootEntered(t: Tree, m: string, path: string)
    requires WellFormed(t)
    ensures t.nodes[0].prefix == t.keys[0]
    ensures Search(t, m, path).out ==
            if t.keys[0] <= path then Check(t, m, 0, path[|t.keys[0]|..], [], None).out else Outcome(Miss, None)
  {
    assert NodeOK(t, 0);
  }

  lemma FromStart(k: string)
    ensures k[..0] == "" && k == "" + k && k[0..] == k
  {
  }

  lemma RootEdge(t: Tree, tab: Table, m: string, k: string, path: string, vs: seq<string>, best: Option<Best>)
    requires Mirrors(t, tab) && t.keys[0] != "" && t.nodes[0].prefix == t.keys[0] && k == ""
    ensures Reaches(tab, t.keys[0])
    ensures Match(tab, m, k, path, vs, best) ==
            if t.keys[0] <= path then Match(tab, m, t.keys[0], path[|t.keys[0]|..], vs, best) else Outcome(Miss, best)
  {
    assert NodeOK(t, 0);
    FromStart(t.keys[0]);
    EdgeMatches(t, tab, m, 0, 0, k, path, vs, best);
  }

  lemma RootMatches(t: Tree, tab: Table, m: string, path: string)
    requires Mirrors(t, tab) && t.keys[0] != ""
    ensures Search(t, m, path).out == Match(tab, m, "", path, [], None)
  {
    RootEntered(t, m, path);
    RootEdge(t, tab, m, "", path, [], None);
    if t.keys[0] <= path {
      CheckMatches(t, tab, m, 0, path[|t.keys[0]|..], [], None);
    }
  }

  lemma EmptyMatches(t: Tree, tab: Table, m: string, path: string)
    requires Mirrors(t, tab) && t.keys[0] == ""
    ensures Search(t, m, path).out == Match(tab, m, "", path, [], None) == Outcome(Miss, None)
  {
    assert NodeOK(t, 0);
    assert tab == map[] by {
      forall e | e in tab ensures false {
        var j := RouteHasNode(t, tab, e);
        OnlyRoot(t, j);
        NodeEntries(t, tab, 0, e.1);
      }
    }
    forall k: string ensures !Reaches(tab, k) && !Handles(tab, k) {}
    assert path[0..] == path && t.nodes[0].prefix == "";
    assert Enter(t, m, 0, path, [], None) == Check(t, m, 0, path, [], None);
    assert path != "" ==> StaticChild(t, 0, path[0]).None?;
    assert Statics(t, m, 0, path, [], None).out == Outcome(Miss, None);
  }
}
