/** Which nodes the tree has, told from the registered routes alone. */
module RoutePoints {
  import opened Text
  import opened RouteTree
  import opened RouteAdd
  import opened RouteTitles
  import opened RoutePlan

  datatype Route = Route(verb: string, pattern: string, handler: HandlerId)

  function KeyOf(r: Route): string {
    Normal(Rooted(r.pattern))
  }

  predicate Registrable(r: Route) {
    Supported(Rooted(r.pattern), '/')
  }

  ghost predicate AllRegistrable(rs: seq<Route>) {
    forall r :: r in rs ==> Registrable(r)
  }

  /** The tree after registering routes in order. */
  ghost function Build(rs: seq<Route>): Tree {
    if rs == [] then EMPTY_TREE
    else Add(Build(rs[..|rs| - 1]), rs[|rs| - 1].verb, rs[|rs| - 1].pattern, rs[|rs| - 1].handler)
  }

  /** Every series of registrations leaves a well-formed tree. */
  lemma {:induction false} BuildWellFormed(rs: seq<Route>)
    requires AllRegistrable(rs)
    ensures WellFormed(Build(rs))
  {
    if rs == [] {
      EmptyTreeWellFormed();
    } else {
      var r := rs[|rs| - 1];
      assert r in rs;
      BuildWellFormed(rs[..|rs| - 1]);
      AddKeeps(Build(rs[..|rs| - 1]), r.verb, r.pattern, r.handler);
    }
  }

  /** The last registration. */
  lemma BuildLast(rs: seq<Route>)
    requires rs != [] && AllRegistrable(rs)
    ensures var front, r := rs[..|rs| - 1], rs[|rs| - 1];
      && AllRegistrable(front) && Registrable(r) && WellFormed(Build(front)) && WellFormed(Build(rs))
      && Added(Build(front), Build(rs), KeyOf(r), 0, r.verb, RouteFor(r.pattern, r.handler))
      && (forall q :: q in rs <==> q in front || q == r)
  {
    var front, r := rs[..|rs| - 1], rs[|rs| - 1];
    assert rs == front + [r] && r in rs;
    BuildWellFormed(front);
    AddKeeps(Build(front), r.verb, r.pattern, r.handler);
  }

  // Nodes of a well-formed tree

  /** Where two keys of a tree go on differently there is a node. */
  lemma {:induction false} ForkHasNode(t: Tree, i: nat, j: nat, k: string)
    requires WellFormed(t) && i < |t.nodes| && j < |t.nodes|
    requires k < t.keys[i] && k < t.keys[j] && t.keys[i][|k|] != t.keys[j][|k|]
    ensures HasKey(t, k)
    decreases |t.keys[i]|
  {
    RootFirst(t, j);
    assert i != 0;
    var p := ParentBelow(t, i);
    if k < t.keys[p] {
      ForkHasNode(t, p, j, k);
    } else if |t.keys[p]| < |k| {
      assert t.keys[p] < k by {
        assert t.keys[p] == t.keys[i][..|t.keys[p]|] == k[..|t.keys[p]|];
      }
      var c := ChildToward(t, p, j);
      ChildByLabel(t, p, c, i);
    } else {
      assert k == t.keys[i][..|k|] == t.keys[p];
    }
  }

  /** Both sides of a marker have a node. */
  lemma StopHasNode(t: Tree, i: nat, k: string)
    requires WellFormed(t) && i < |t.nodes| && Stop(t.keys[i], k)
    ensures HasKey(t, k)
  {
    if k != t.keys[i] {
      var j: nat :| j < |t.keys[i]| && IsMarker(t.keys[i][j]) && (k == t.keys[i][..j] || k == t.keys[i][..j + 1]);
      MarkerHasNode(t, i, j);
      var c: nat :| c < |t.nodes| && t.keys[c] == t.keys[i][..j + 1];
      MarkerHasParent(t, c, j);
      assert t.keys[c][..j] == t.keys[i][..j];
    }
  }

  lemma MarkerHasParent(t: Tree, c: nat, j: nat)
    requires WellFormed(t) && c < |t.nodes| && |t.keys[c]| == j + 1 && IsMarker(t.keys[c][j])
    ensures HasKey(t, t.keys[c][..j])
  {
    assert NodeOK(t, c) && NodeOK(t, 0);
    assert c != 0;
    var p := ParentBelow(t, c);
    var pre := t.nodes[c].prefix;
    assert t.keys[c][j] == pre[|pre| - 1];
    assert t.keys[p] == t.keys[c][..j];
  }

  // Nodes of a built tree

  /** The places that routes give a node: the stops of their keys, and where two keys go on differently. */
  ghost predicate Point(rs: seq<Route>, k: string) {
    || (exists r :: r in rs && Stop(KeyOf(r), k))
    || (exists r, q :: r in rs && q in rs && Parts(KeyOf(r), KeyOf(q), k))
  }

  ghost predicate Parts(a: string, b: string, k: string) {
    k < a && k < b && a[|k|] != b[|k|]
  }

  lemma {:induction false} RouteHasKey(rs: seq<Route>, r: Route)
    requires AllRegistrable(rs) && r in rs
    ensures HasKey(Build(rs), KeyOf(r))
  {
    BuildLast(rs);
    if r != rs[|rs| - 1] {
      RouteHasKey(rs[..|rs| - 1], r);
    }
    KeyNotEmpty(r);
  }

  lemma KeyNotEmpty(r: Route)
    ensures KeyOf(r) != "" && KeyOf(r)[0] == '/'
  {
  }

  lemma PointReaches(rs: seq<Route>, k: string)
    requires Point(rs, k)
    ensures exists r :: r in rs && k <= KeyOf(r)
  {
  }

  lemma {:induction false} NodeIsPoint(rs: seq<Route>, k: string)
    requires AllRegistrable(rs) && HasKey(Build(rs), k) && k != ""
    ensures Point(rs, k)
  {
    if rs != [] {
      BuildLast(rs);
      var front, r := rs[..|rs| - 1], rs[|rs| - 1];
      if HasKey(Build(front), k) {
        NodeIsPoint(front, k);
      } else if !Stop(KeyOf(r), k) {
        var j: nat :| j < |Build(front).keys| && k < Build(front).keys[j] && Build(front).keys[j][|k|] != KeyOf(r)[|k|];
        assert HasKey(Build(front), Build(front).keys[j]);
        NodeIsPoint(front, Build(front).keys[j]);
        PointReaches(front, Build(front).keys[j]);
        var q :| q in front && Build(front).keys[j] <= KeyOf(q);
        assert Parts(KeyOf(q), KeyOf(r), k);
      }
    }
  }

  lemma PointIsNode(rs: seq<Route>, k: string)
    requires AllRegistrable(rs) && Point(rs, k)
    ensures HasKey(Build(rs), k)
  {
    BuildWellFormed(rs);
    var t := Build(rs);
    if r :| r in rs && Stop(KeyOf(r), k) {
      RouteHasKey(rs, r);
      var i: nat :| i < |t.keys| && t.keys[i] == KeyOf(r);
      StopHasNode(t, i, k);
    } else {
      var r, q :| r in rs && q in rs && Parts(KeyOf(r), KeyOf(q), k);
      RouteHasKey(rs, r);
      RouteHasKey(rs, q);
      var i: nat :| i < |t.keys| && t.keys[i] == KeyOf(r);
      var j: nat :| j < |t.keys| && t.keys[j] == KeyOf(q);
      ForkHasNode(t, i, j, k);
    }
  }

  /** Some route goes on after `k`, and no route gives `k` a node. */
  ghost predicate Skipped(rs: seq<Route>, k: string) {
    !Point(rs, k) && exists r :: r in rs && k < KeyOf(r)
  }

  /** The tree of a series of registrations has exactly the nodes that the routes give it, so where an insertion
      splits a node can be told from the routes. */
  lemma NodesArePoints(rs: seq<Route>, k: string)
    requires AllRegistrable(rs) && k != ""
    ensures HasKey(Build(rs), k) <==> Point(rs, k)
    ensures Inside(Build(rs), k) <==> Skipped(rs, k)
  {
    var t := Build(rs);
    if Point(rs, k) {
      PointIsNode(rs, k);
    } else if HasKey(t, k) {
      NodeIsPoint(rs, k);
    }
    if j: nat :| j < |t.keys| && k < t.keys[j] {
      assert HasKey(t, t.keys[j]);
      NodeIsPoint(rs, t.keys[j]);
      PointReaches(rs, t.keys[j]);
    }
    if r :| r in rs && k < KeyOf(r) {
      RouteHasKey(rs, r);
    }
  }

  // Original paths

  /** The pattern of the last route with a key, with its leading slash; empty when no route has the key. */
  function LastPattern(rs: seq<Route>, k: string): string {
    if rs == [] then ""
    else if KeyOf(rs[|rs| - 1]) == k then Rooted(rs[|rs| - 1].pattern)
    else LastPattern(rs[..|rs| - 1], k)
  }

  lemma {:induction false} LastPatternNone(rs: seq<Route>, k: string)
    requires forall r :: r in rs ==> KeyOf(r) != k
    ensures LastPattern(rs, k) == ""
  {
    if rs != [] {
      assert rs[|rs| - 1] in rs;
      LastPatternNone(rs[..|rs| - 1], k);
    }
  }

  /** It is the pattern of the route with the key that no later route has. */
  lemma {:induction false} LastPatternIs(rs: seq<Route>, k: string, i: int)
    requires LastWithKey(rs, k, i)
    ensures LastPattern(rs, k) == Rooted(rs[i].pattern)
  {
    if i < |rs| - 1 {
      LastPatternIs(rs[..|rs| - 1], k, i);
    }
  }

  ghost predicate LastWithKey(rs: seq<Route>, k: string, i: int) {
    0 <= i < |rs| && KeyOf(rs[i]) == k && forall j :: i < j < |rs| ==> KeyOf(rs[j]) != k
  }

  /** The original path of a node is the pattern last registered at its key, by any method; the nodes that no route
      has as its key have none. */
  lemma {:induction false} NodesTitled(rs: seq<Route>, k: string, o: string)
    requires AllRegistrable(rs) && k != ""
    ensures |Build(rs).nodes| == |Build(rs).keys|
    ensures Titles(Build(rs), k, o) <==> HasKey(Build(rs), k) && o == LastPattern(rs, k)
  {
    BuildWellFormed(rs);
    if rs != [] {
      BuildLast(rs);
      var front := rs[..|rs| - 1];
      NodesTitled(front, k, o);
      if !HasKey(Build(front), k) {
        forall q | q in front ensures KeyOf(q) != k {
          RouteHasKey(front, q);
        }
        LastPatternNone(front, k);
      }
    }
  }
}
