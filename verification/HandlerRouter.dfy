/** The topic router itself: the tree is changed in place, and `Find` is one loop with backtracking by
    parent links. */
module HandlerRouters {
  import opened Options
  import opened Text
  import opened RouteTree
  import opened RouteInsert
  import opened RouteAdd
  import opened RoutePlan
  import opened RouteSearch
  import opened RouteClimb
  import opened RouteTable
  import opened RoutePoints
  import opened RouteLaws
  import opened RouteAnswers
  import opened RouteValues

  datatype HandlerRef = Registered(id: HandlerId) | NotFoundHandler | MethodNotAllowedHandler

  function RefOf(h: Option<HandlerId>): Option<HandlerRef> {
    if h.Some? then Some(Registered(h.value)) else None
  }

  class RouterContext {
    var path: string
    var pnames: seq<string>
    const pvalues: array<string>
    var handler: Option<HandlerRef>

    /** `NewBrokerContext`: room for as many parameters as any route has. */
    constructor (maxParam: nat)
      ensures fresh(pvalues) && pvalues.Length == maxParam && |pnames| == maxParam
      ensures path == "" && handler == Some(NotFoundHandler)
      ensures forall i :: 0 <= i < maxParam ==> pvalues[i] == "" && pnames[i] == ""
    {
      path := "";
      pnames := seq(maxParam, _ => "");
      pvalues := new string[maxParam](_ => "");
      handler := Some(NotFoundHandler);
    }

    /** The value under a name: that of the first parameter with this name, or the empty string. */
    ghost function Named(name: string): string
      reads this, pvalues
    {
      var i := First(pnames, name);
      if i < |pnames| && i < pvalues.Length then pvalues[i] else ""
    }

    method Param(name: string) returns (v: string)
      ensures v == Named(name)
      ensures forall i :: 0 <= i < |pnames| && i < pvalues.Length && pnames[i] == name && name !in pnames[..i] ==>
                v == pvalues[i]
      ensures name !in pnames ==> v == ""
    {
      for i := 0 to |pnames|
        invariant forall j :: 0 <= j < i && j < pvalues.Length ==> pnames[j] != name
      {
        if i < pvalues.Length && pnames[i] == name {
          FirstUnique(pnames, name, i);
          return pvalues[i];
        }
      }
      return "";
    }

    /** One value for each name, and where names differ, each the value under its name. */
    method ParamValues() returns (vs: seq<string>)
      requires |pnames| <= pvalues.Length
      ensures |vs| == |pnames| && vs == pvalues[..|vs|]
      ensures forall i :: 0 <= i < |vs| && pnames[i] !in pnames[..i] ==> vs[i] == Named(pnames[i])
    {
      vs := pvalues[..|pnames|];
      forall i | 0 <= i < |vs| && pnames[i] !in pnames[..i] ensures vs[i] == Named(pnames[i]) {
        FirstUnique(pnames, pnames[i], i);
      }
    }
  }

  /** The place of the first occurrence of a name, or the number of names. */
  function First(names: seq<string>, name: string): (n: nat)
    ensures n <= |names| && (n < |names| ==> names[n] == name)
    ensures forall i :: 0 <= i < n ==> names[i] != name
  {
    if names == [] || names[0] == name then 0 else 1 + First(names[1..], name)
  }

  lemma FirstUnique(names: seq<string>, name: string, n: nat)
    requires n < |names| && names[n] == name && forall i :: 0 <= i < n ==> names[i] != name
    ensures n == First(names, name)
  {
  }

  /** The loop that measures a common prefix. */
  method LcpLen(a: string, b: string) returns (n: nat)
    ensures n == Lcp(a, b)
  {
    var max := if |a| < |b| then |a| else |b|;
    n := 0;
    while n < max && a[n] == b[n]
      invariant n <= max && a[..n] == b[..n]
    {
      assert a[..n + 1] == a[..n] + [a[n]] && b[..n + 1] == b[..n] + [b[n]];
      n := n + 1;
    }
    LcpUnique(a, b, n);
  }

  /** The router can hold the parameters of every pattern in the tree. */
  ghost predicate Sized(t: Tree) {
    && |t.nodes| == |t.keys|
    && (forall i: nat :: i < |t.keys| ==> Markers(t.keys[i]) <= t.maxParam)
    && (forall k: string, m: string, r: RouteMethod :: Stores(t, k, m, r) ==> |r.pnames| <= t.maxParam)
  }

  /** One more child to re-parent. */
  lemma ReparentOne(nodes: seq<Node>, n: Node, n': Node, d: nat, p: nat)
    requires d < |nodes| && forall c: nat :: n'.HasChild(c) <==> n.HasChild(c) || c == d
    ensures var r := Reparent(nodes, n, p); Reparent(nodes, n', p) == r[d := r[d].(parent := Some(p))]
  {
    var r := Reparent(nodes, n, p);
    assert forall k: nat :: k < |nodes| ==> Reparent(nodes, n', p)[k] == r[d := r[d].(parent := Some(p))][k];
  }

  lemma LcpPrefix(s: string, pre: string)
    ensures Lcp(s, pre) == |pre| <==> pre <= s
  {
    if pre <= s {
      LcpUnique(s, pre, |pre|);
    }
  }

  lemma RootHasNoParent(t: Tree, i: nat)
    requires WellFormed(t) && i < |t.nodes|
    ensures t.nodes[i].parent == if i == 0 then None else Some(ParentOf(t, i))
    ensures i == 0 ==> t.nodes[i].kind.Static?
  {
    assert NodeOK(t, i);
  }

  /** The variables of the loop of `Find`. */
  class Cursor {
    var current: Option<nat>
    var best: Option<nat>
    var matched: Option<RouteMethod>
    var search: string
    var searchIndex: nat
    var paramIndex: nat
    var phase: Phase
    const paramValues: array<string>
    ghost var vs: seq<string>      // the values on the way to the current node
    ghost var first: Option<Best>  // the best match, with its values
    ghost var trail: seq<nat>      // the nodes entered so far

    constructor (path: string, values: array<string>)
      ensures paramValues == values && current == Some(0) && best.None? && matched.None? && search == path
      ensures searchIndex == paramIndex == 0 && phase == Top && vs == [] && first.None? && trail == [0]
    {
      current, best, matched, search, searchIndex, paramIndex, phase := Some(0), None, None, path, 0, 0, Top;
      paramValues := values;
      vs, first, trail := [], None, [0];
    }

    /** The slice starts with `values`; beyond them it is cleared or untouched. */
    ghost predicate Holds(values: seq<string>, orig: seq<string>)
      reads this, paramValues
    {
      && paramIndex == |values| <= paramValues.Length == |orig|
      && paramValues[..paramIndex] == values
      && forall j :: paramIndex <= j < paramValues.Length ==> paramValues[j] == "" || paramValues[j] == orig[j]
    }

    /** Stores a parameter value at index `k`. */
    method Push(k: int, v: string, ghost values: seq<string>, ghost orig: seq<string>)
      requires Holds(values, orig) && k == paramIndex < paramValues.Length
      modifies this`paramIndex, paramValues
      ensures Holds(values + [v], orig)
    {
      paramValues[k] := v;
      paramIndex := paramIndex + 1;
      assert paramValues[..paramIndex] == paramValues[..paramIndex - 1] + [v];
    }

    /** Moves on to a parameter child, after a value of `k` bytes. */
    method Enter(child: nat, rest: string, k: nat, ghost vs': seq<string>, ghost trail': seq<nat>)
      modifies this`current, this`phase, this`search, this`searchIndex, this`vs, this`trail
      ensures current == Some(child) && phase == Top && search == rest && searchIndex == old(searchIndex) + k
      ensures vs == vs' && trail == trail'
    {
      current, phase, search, searchIndex := Some(child), Top, rest, searchIndex + k;
      vs, trail := vs', trail';
    }

    /** Moves the search back over the prefix of a static node. */
    method MoveUp(n: Node, path: string)
      requires |n.prefix| <= searchIndex <= |path|
      modifies this`current, this`searchIndex, this`search, this`phase
      ensures current == n.parent && phase == ParamBlock
      ensures searchIndex == old(searchIndex) - |n.prefix| && search == path[searchIndex..]
    {
      current := n.parent;
      searchIndex := searchIndex - |n.prefix|;
      search := path[searchIndex..];
      phase := ParamBlock;
    }

    /** Clears the last parameter value, and moves the search back over it. */
    method Pop(path: string, ghost values: seq<string>, ghost orig: seq<string>)
      requires Holds(values, orig) && values != [] && |values[|values| - 1]| <= searchIndex <= |path|
      modifies this`paramIndex, this`searchIndex, this`search, paramValues
      ensures Holds(values[..|values| - 1], orig)
      ensures searchIndex == old(searchIndex) - |values[|values| - 1]| && search == path[searchIndex..]
    {
      paramIndex := paramIndex - 1;
      assert paramValues[paramIndex] == paramValues[..paramIndex + 1][paramIndex];
      searchIndex := searchIndex - |paramValues[paramIndex]|;
      paramValues[paramIndex] := "";
      search := path[searchIndex..];
    }
  }

  lemma SizedAfter(a: Tree, b: Tree, key: string, verb: string, rm: RouteMethod)
    requires Sized(a) && Added(a, b, key, 0, verb, rm) && |rm.pnames| == Markers(key)
    ensures Sized(b)
  {
    forall i: nat | i < |b.keys| ensures Markers(b.keys[i]) <= b.maxParam {
      assert HasKey(b, b.keys[i]);
      if HasKey(a, b.keys[i]) {
        var j: nat :| j < |a.keys| && a.keys[j] == b.keys[i];
      } else {
        MarkersPrefix(b.keys[i], key);
      }
    }
  }

  /** The names of every record that a search can report fit into the slice. */
  lemma HitFits(t: Tree, m: string, path: string)
    requires WellFormed(t) && Sized(t)
    ensures var v := Search(t, m, path).out.verdict; v.Hit? ==> |v.rm.pnames| <= t.maxParam
    ensures forall i: nat :: i < |t.nodes| && t.nodes[i].notFound.Some? ==>
        |t.nodes[i].notFound.value.pnames| <= t.maxParam
  {
    SearchSound(t, m, path);
    forall i: nat | i < |t.nodes| &&
        t.nodes[i].notFound.Some? ensures |t.nodes[i].notFound.value.pnames| <= t.maxParam {
      assert t.nodes[i].Record(ROUTE_NOT_FOUND) == t.nodes[i].notFound;
      assert Stores(t, t.keys[i], ROUTE_NOT_FOUND, t.nodes[i].notFound.value);
    }
    var v := Search(t, m, path).out.verdict;
    if v.Hit? {
      var c: nat :| c < |t.nodes| && t.keys[c] == v.key &&
          (t.nodes[c].methods.Get(m) == Some(v.rm) || t.nodes[c].notFound == Some(v.rm));
      assert NodeOK(t, c);
      if t.nodes[c].methods.Get(m) == Some(v.rm) {
        HandlerHasRecord(t.nodes[c], t.keys[c]);
        assert t.nodes[c].Record(m) == Some(v.rm);
        assert Stores(t, t.keys[c], m, v.rm);
      }
    }
  }

  class HandlerRouter {
    var nodes: seq<Node>
    var maxParam: nat
    ghost var keys: seq<string>

    ghost function Contents(): Tree
      reads this
    {
      Tree(nodes, keys, maxParam)
    }

    ghost predicate Valid()
      reads this
    {
      WellFormed(Contents()) && Sized(Contents())
    }

    constructor ()
      ensures Contents() == EMPTY_TREE && Valid()
    {
      nodes := [EMPTY_ROOT];
      maxParam := 0;
      keys := [""];
      new;
      EmptyTreeWellFormed();
    }

    /** `findStaticChild`: the first static child with an initial byte. */
    method FindStaticChild(i: nat, c: char) returns (r: Option<nat>)
      requires i < |nodes|
      requires forall k :: 0 <= k < |nodes[i].statics| ==> nodes[i].statics[k] < |nodes|
      ensures r == FindStatic(nodes, nodes[i].statics, c)
    {
      var cs := nodes[i].statics;
      for k := 0 to |cs|
        invariant FindStatic(nodes, cs[k..], c) == FindStatic(nodes, cs, c)
      {
        assert cs[k..][0] == cs[k] && cs[k..][1..] == cs[k + 1..];
        if nodes[cs[k]].initial == c {
          return Some(cs[k]);
        }
      }
      assert cs[|cs|..] == [];
      return None;
    }

    /** `findChildWithLabel`. */
    method FindChildWithInitial(i: nat, c: char) returns (r: Option<nat>)
      requires i < |nodes|
      requires forall k :: 0 <= k < |nodes[i].statics| ==> nodes[i].statics[k] < |nodes|
      ensures r == FindChild(nodes, nodes[i], c)
    {
      r := FindStaticChild(i, c);
      if r.Some? {
        return;
      }
      if c == ':' {
        return nodes[i].param;
      }
      if c == '*' {
        return nodes[i].any;
      }
      return None;
    }

    /** Makes node `p` the parent of every child of node `i`. */
    method ReparentChildren(i: nat, p: nat)
      requires i < |nodes| && forall c: nat :: nodes[i].HasChild(c) ==> c < |nodes|
      modifies `nodes
      ensures nodes == Reparent(old(nodes), old(nodes[i]), p)
    {
      var n := nodes[i];
      ghost var was, m := nodes, n.(statics := [], param := None, any := None);
      assert nodes == Reparent(was, m, p);
      for k := 0 to |n.statics|
        invariant m == n.(statics := n.statics[..k], param := None, any := None) && nodes == Reparent(was, m, p)
      {
        ghost var m' := n.(statics := n.statics[..k + 1], param := None, any := None);
        assert n.HasChild(n.statics[k]) && n.statics[..k + 1] == n.statics[..k] + [n.statics[k]];
        ReparentOne(was, m, m', n.statics[k], p);
        nodes := nodes[n.statics[k] := nodes[n.statics[k]].(parent := Some(p))];
        m := m';
      }
      assert n.statics[..|n.statics|] == n.statics;
      if n.param.Some? {
        assert n.HasChild(n.param.value);
        ReparentOne(was, m, m.(param := n.param), n.param.value, p);
        nodes := nodes[n.param.value := nodes[n.param.value].(parent := Some(p))];
      }
      m := m.(param := n.param);
      if n.any.Some? {
        assert n.HasChild(n.any.value);
        ReparentOne(was, m, m.(any := n.any), n.any.value, p);
        nodes := nodes[n.any.value := nodes[n.any.value].(parent := Some(p))];
      }
      assert m.(any := n.any) == n;
    }

    /** Splits node `i` after `l` bytes of its prefix: the lower half moves to a new node, and the
        children follow it. */
    method SplitNode(i: nat, l: nat)
      requires Shape(Contents()) && i < |nodes| && 0 < l < |nodes[i].prefix| <= |keys[i]|
      modifies this
      ensures Contents() == old(Split(Contents(), i, l))
    {
      ghost var t := Contents();
      var n, c := nodes[i], |nodes|;
      assert !n.HasChild(i) by {
        assert n.HasChild(i) ==> Below(t, i, i);
      }
      var lower := NewNode(n.kind, n.prefix[l..], i, n.statics, n.originalPath, n.methods, n.paramsCount, n.param,
          n.any, n.notFound);
      assert forall d: nat :: n.HasChild(d) ==> Below(t, i, d);
      ReparentChildren(i, c);
      var upper := nodes[i].(kind := Static, initial := n.prefix[0], prefix := n.prefix[..l], statics := [],
                             originalPath := "", methods := NO_METHODS, paramsCount := 0, param := None, any := None,
                             isLeaf := false, isHandler := false, notFound := None);
      upper := upper.(statics := upper.statics + [c]);
      assert upper == Upper(n, l, c);
      nodes := nodes[i := upper] + [lower];
      keys := keys[i := keys[i][..|keys[i]| - |n.prefix| + l]] + [keys[i]];
    }

    /** One round of the descent of `insert`: the child to follow, if the whole prefix matches and bytes
        are left, and how many bytes the prefix takes. */
    method DescendOnce(path: string, i: nat, search: string, ghost p: Place) returns (child: Option<nat>, l: nat,
        ghost q: Place)
      requires WellFormed(Contents()) && OnPath(Contents(), path, p) && p.at == i && search == path[p.used..]
      ensures child.Some? ==>
          0 < l <= |search| && q.at == child.value && OnPath(Contents(), path, q) && search[l..] == path[q.used..]
      ensures Walk(Contents(), path, p) == if child.Some? then Walk(Contents(), path, q) else p
    {
      q := p;
      child := None;
      l := LcpLen(search, nodes[i].prefix);
      if l == 0 || l < |nodes[i].prefix| || l == |search| {
        WalkStep(Contents(), path, p, l, None);
      } else {
        StaticsInRange(Contents(), i);
        child := FindChildWithInitial(i, search[l]);
        WalkStep(Contents(), path, p, l, child);
        if child.Some? {
          q := Place(child.value, p.used + l);
          SliceTwice(path, p.used, l);
        }
      }
    }

    /** The descent of `insert`: whole prefixes are matched and children followed while both exist. */
    method Descend(path: string) returns (i: nat, search: string)
      requires WellFormed(Contents()) && Starts(Contents(), path)
      ensures var p := Walk(Contents(), path, Place(0, 0));
          OnPath(Contents(), path, p) && i == p.at && search == path[p.used..]
    {
      ghost var p := Place(0, 0);
      i, search := 0, path;
      while true
        invariant OnPath(Contents(), path, p)
        invariant p.at == i && search == path[p.used..]
        invariant Walk(Contents(), path, p) == Walk(Contents(), path, Place(0, 0))
        decreases |search|
      {
        var child, l, q := DescendOnce(path, i, search, p);
        if child.None? {
          return;
        }
        i, search, p := child.value, search[l..], q;
      }
    }

    /** `insert`: descends to the place of the path, and stores the record there. */
    method Insert(verb: string, path: string, kind: Kind, rm: RouteMethod)
      requires WellFormed(Contents()) && Ready(Contents(), Op(verb, path, kind, rm))
      modifies this
      ensures Contents() == old(RouteInsert.Insert(Contents(), Op(verb, path, kind, rm)))
    {
      if maxParam < |rm.pnames| {
        maxParam := |rm.pnames|;
      }
      SameButMaxParam(old(Contents()), maxParam);
      ReadyStarts(Contents(), Op(verb, path, kind, rm));
      var i, search := Descend(path);
      EditAt(i, search, verb, kind, rm, path, Walk(Contents(), path, Place(0, 0)));
    }

    /** The edit at the place where the descent ends: fill the empty root, split a node, add a child, or
        store into an existing node. */
    method EditAt(i: nat, search: string, verb: string, kind: Kind, rm: RouteMethod, ghost path: string, ghost p: Place)
      requires Shape(Contents()) && OnPath(Contents(), path, p) && p.at == i && search == path[p.used..]
      modifies this
      ensures Contents() == old(Edit(Contents(), Op(verb, path, kind, rm), p))
    {
      var n := nodes[i];
      var l := LcpLen(search, n.prefix);
      if l == 0 {
        n := n.(initial := search[0], prefix := search);
        if rm.handler.Some? {
          n := n.(kind := kind).AddMethod(verb, rm);
          n := n.(paramsCount := |rm.pnames|, originalPath := rm.ppath);
        }
        n := n.(isLeaf := n.IsLeafNode());
        nodes := nodes[i := n];
        keys := keys[i := search];
      } else if l < |n.prefix| {
        EditSplit(i, l, search, verb, kind, rm, path, p);
      } else if l < |search| {
        EditChild(i, l, search, verb, kind, rm, path, p);
      } else if rm.handler.Some? {
        n := n.AddMethod(verb, rm);
        n := n.(paramsCount := |rm.pnames|, originalPath := rm.ppath);
        nodes := nodes[i := n];
      }
    }

    /** A path that goes on after node `i`, where no child continues it: a new child. */
    method EditChild(i: nat, l: nat, search: string, verb: string, kind: Kind, rm: RouteMethod, ghost path: string,
        ghost p: Place)
      requires Shape(Contents()) && OnPath(Contents(), path, p) && p.at == i && search == path[p.used..]
      requires 0 < l == Lcp(search, nodes[i].prefix) == |nodes[i].prefix| < |search|
      modifies this
      ensures Contents() == old(Edit(Contents(), Op(verb, path, kind, rm), p))
    {
      var c := NewNode(kind, search[l..], i, [], rm.ppath, NO_METHODS, 0, None, None, None);
      if rm.handler.Some? {
        c := c.AddMethod(verb, rm);
        c := c.(paramsCount := |rm.pnames|);
      }
      AddChild(i, kind, c);
    }

    /** A path that leaves the prefix of node `i` after `l` bytes: the node is split, and either its upper half gets
        the record or a new child does. */
    method EditSplit(i: nat, l: nat, search: string, verb: string, kind: Kind, rm: RouteMethod, ghost path: string,
        ghost p: Place)
      requires Shape(Contents()) && OnPath(Contents(), path, p) && p.at == i && search == path[p.used..]
      requires 0 < l == Lcp(search, nodes[i].prefix) < |nodes[i].prefix|
      modifies this
      ensures Contents() == old(Edit(Contents(), Op(verb, path, kind, rm), p))
    {
      SplitNode(i, l);
      if l == |search| {
        var n := nodes[i].(kind := kind).AddMethod(verb, rm);
        n := n.(paramsCount := |rm.pnames|, originalPath := rm.ppath);
        nodes := nodes[i := n];
      } else {
        var c := NewNode(kind, search[l..], i, [], "", NO_METHODS, 0, None, None, None);
        if rm.handler.Some? {
          c := c.AddMethod(verb, rm);
          c := c.(paramsCount := |rm.pnames|, originalPath := rm.ppath);
        }
        AddChild(i, Static, c);
      }
    }

    /** Links a new node below node `i`, in the slot for a kind. */
    method AddChild(i: nat, slot: Kind, c: Node)
      requires i < |nodes| == |keys|
      modifies this
      ensures Contents() == old(Attach(Contents(), i, slot, c))
    {
      var n := nodes[i];
      match slot {
        case Static => n := n.(statics := n.statics + [|nodes|]);
        case Param => n := n.(param := Some(|nodes|));
        case Any => n := n.(any := Some(|nodes|));
      }
      n := n.(isLeaf := n.IsLeafNode());
      nodes := nodes[i := n] + [c];
      keys := keys + [keys[i] + c.prefix];
    }

    /** `Add`: scans the pattern, inserting the part before every parameter, the parameter itself, and at
        the end the whole key. */
    method Add(verb: string, pattern: string, h: HandlerId)
      requires Valid() && Supported(Rooted(pattern), '/')
      modifies this
      ensures Valid()
      ensures Contents() == old(RoutePlan.Add(Contents(), verb, pattern, h))
      ensures Added(old(Contents()), Contents(), Normal(Rooted(pattern)), 0, verb, RouteFor(pattern, h))
      ensures var full := if pattern == "" then "/" else if pattern[0] == '/' then pattern else "/" + pattern;
              Added(old(Contents()), Contents(), Normal(full), 0, verb, RouteMethod(full, Names(full), Some(h)))
    {
      var path := pattern;
      if path == "" {
        path := "/";
      }
      if path[0] != '/' {
        path := "/" + path;
      }
      var ppath := path;
      AddScan(verb, ppath, h);
      AddKeeps(old(Contents()), verb, pattern, h);
      NamesMarkers(ppath);
      SizedAfter(old(Contents()), Contents(), Normal(ppath), verb, RouteFor(pattern, h));
    }

    /** The scan of `Add` over the pattern with its leading slash. */
    method AddScan(verb: string, ppath: string, h: HandlerId)
      requires WellFormed(Contents()) && ppath != "" && ppath[0] == '/' && Supported(ppath, '/')
      modifies this
      ensures Contents() == old(InsertAll(Contents(), Plan(verb, ppath, h, ppath, 0, [])))
    {
      ghost var key := Normal(ppath);
      ghost var done := InsertAll(Contents(), Plan(verb, ppath, h, ppath, 0, []));
      var path, i: nat, pnames: seq<string> := ppath, 0, [];
      ScanStart(Contents(), ppath);
      while i < |path|
        invariant i <= |path| + 1
        invariant Scanned(Contents(), ppath, key, path, if i <= |path| then i else |path|, pnames)
        invariant InsertAll(Contents(), Plan(verb, ppath, h, path, i, pnames)) == done
        decreases |path| - i
      {
        i, path, pnames := AddStep(verb, ppath, h, key, path, i, pnames);
      }
      FinalReady(Contents(), verb, ppath, h, key, path, pnames);
      PlanLast(Contents(), verb, ppath, h, path, i, pnames);
      Insert(verb, path, Static, RouteMethod(ppath, pnames, Some(h)));
    }

    /** One round of the scan. */
    method AddStep(verb: string, ppath: string, h: HandlerId, ghost key: string, path0: string, i0: nat,
        pnames0: seq<string>)
      returns (i: nat, path: string, pnames: seq<string>)
      requires i0 < |path0| && Scanned(Contents(), ppath, key, path0, i0, pnames0)
      modifies this
      ensures i0 < i <= |path| + 1 && |path| <= |path0|
      ensures Scanned(Contents(), ppath, key, path, if i <= |path| then i else |path|, pnames)
      ensures InsertAll(Contents(), Plan(verb, ppath, h, path, i, pnames)) == old(InsertAll(Contents(),
          Plan(verb, ppath, h, path0, i0, pnames0)))
    {
      i, path, pnames := i0 + 1, path0, pnames0;
      if path[i0] == ':' {
        path, pnames := AddParam(verb, ppath, h, key, path, i0, pnames);
        i := i0 + 2;
      } else if path[i0] == '*' {
        pnames := AddAny(verb, ppath, h, key, path, i0, pnames);
      } else {
        PlainScan(Contents(), verb, ppath, h, key, path, i0, pnames);
      }
    }

    /** The parameter block of `Add`: both insertions, and the name cut out of the path. */
    method AddParam(verb: string, ppath: string, h: HandlerId, ghost key: string, path0: string, i: nat,
        pnames0: seq<string>)
      returns (path: string, pnames: seq<string>)
      requires Scanned(Contents(), ppath, key, path0, i, pnames0) && i < |path0| && path0[i] == ':'
      modifies this
      ensures i + 1 <= |path| <= |path0|
      ensures Scanned(Contents(), ppath, key, path, if i + 2 <= |path| then i + 2 else |path|, pnames)
      ensures InsertAll(Contents(), Plan(verb, ppath, h, path, i + 2, pnames)) == old(InsertAll(Contents(),
          Plan(verb, ppath, h, path0, i, pnames0)))
    {
      ghost var t := Contents();
      StaticReady(t, verb, ppath, key, path0, i, pnames0);
      InsertKeeps(t, Op(verb, path0[..i], Static, NO_ROUTE));
      Insert(verb, path0[..i], Static, NO_ROUTE);
      var e := NameEnd(path0, i);
      pnames := pnames0 + [path0[i + 1..e]];
      path := path0[..i + 1] + path0[e..];
      var rm := if i + 1 == |path| then RouteMethod(ppath, pnames, Some(h)) else NO_ROUTE;
      ghost var op := Op(verb, path[..i + 1], Param, rm);
      ghost var t1, t2 := ParamStep(t, verb, ppath, h, key, path0, i, pnames0, path, pnames, op);
      Insert(verb, path[..i + 1], Param, rm);
      ParamResume(t, verb, ppath, h, path0, i, pnames0, path, pnames, op);
    }

    /** The inner loop of `Add`: the end of the parameter that starts at `i`. */
    static method NameEnd(path: string, i: nat) returns (e: nat)
      requires i < |path|
      ensures e == i + Slash(path[i..])
    {
      e := i;
      while e < |path| && path[e] != '/'
        invariant i <= e <= |path|
        invariant forall k :: i <= k < e ==> path[k] != '/'
      {
        e := e + 1;
      }
      SlashUnique(path[i..], e - i);
    }

    /** The any block of `Add`. */
    method AddAny(verb: string, ppath: string, h: HandlerId, ghost key: string, path: string, i: nat,
        pnames0: seq<string>)
      returns (pnames: seq<string>)
      requires Scanned(Contents(), ppath, key, path, i, pnames0) && i < |path| && path[i] == '*'
      modifies this
      ensures i + 1 == |path| && Scanned(Contents(), ppath, key, path, i + 1, pnames)
      ensures InsertAll(Contents(), Plan(verb, ppath, h, path, i + 1, pnames)) == old(InsertAll(Contents(),
          Plan(verb, ppath, h, path, i, pnames0)))
    {
      ghost var t := Contents();
      ghost var op := Op(verb, path[..i + 1], Any, RouteMethod(ppath, pnames0 + ["*"], Some(h)));
      ghost var t1, t2 := AnyStep(t, verb, ppath, h, key, path, i, pnames0, op);
      StaticReady(t, verb, ppath, key, path, i, pnames0);
      Insert(verb, path[..i], Static, NO_ROUTE);
      pnames := pnames0 + ["*"];
      Insert(verb, path[..i + 1], Any, RouteMethod(ppath, pnames, Some(h)));
      InsertTwo(t, Op(verb, path[..i], Static, NO_ROUTE), op, Plan(verb, ppath, h, path, i + 1, pnames));
    }

    /** What `Find` leaves in the context for an outcome of the reference search. */
    ghost predicate Reports(o: Outcome, path: string, ctx: RouterContext, oldPNames: seq<string>,
        oldHandler: Option<HandlerRef>)
      requires |nodes| == |keys|
      reads this, ctx
    {
      if o.verdict.Hit? then
        ctx.path == o.verdict.rm.ppath && ctx.pnames == o.verdict.rm.pnames &&
            ctx.handler == RefOf(o.verdict.rm.handler)
      else if o.best.None? then
        ctx.path == path && ctx.pnames == oldPNames && ctx.handler == oldHandler
      else forall i: nat :: i < |nodes| && keys[i] == o.best.value.key ==> Falls(nodes[i], ctx)
    }

    /** The pattern in the context, filled in with the parameter values, spells the path. */
    static ghost predicate Spelled(ctx: RouterContext, path: string)
      reads ctx, ctx.pvalues
    {
      && |ctx.pnames| == |Names(ctx.path)| <= ctx.pvalues.Length
      && Render(ctx.path, ctx.pvalues[..|ctx.pnames|]) == path
    }

    /** The values of a verdict are at the front of the slice; behind them it is cleared or untouched. */
    static ghost predicate Leaves(v: Verdict, ctx: RouterContext, orig: seq<string>)
      reads ctx.pvalues
    {
      && |Kept(v)| <= ctx.pvalues.Length == |orig| && ctx.pvalues[..|Kept(v)|] == Kept(v)
      && forall j :: |Kept(v)| <= j < ctx.pvalues.Length ==> ctx.pvalues[j] == "" || ctx.pvalues[j] == orig[j]
    }

    static predicate HasNotFound(n: Node) {
      n.notFound.Some? && n.notFound.value.handler.Some?
    }

    /** The context when only the path of a node matched. */
    ghost predicate Falls(n: Node, ctx: RouterContext)
      reads ctx
    {
      if n.notFound.Some? then
        ctx.path == n.notFound.value.ppath && ctx.pnames == n.notFound.value.pnames &&
            ctx.handler == RefOf(n.notFound.value.handler)
      else
        && ctx.path == n.originalPath && ctx.pnames == []
        && ctx.handler == Some(if n.isHandler then MethodNotAllowedHandler else NotFoundHandler)
    }

    /** The state of the loop between blocks, with `orig` the parameter slice before the search. */
    static ghost predicate Running(t: Tree, run: Run, c: Cursor, verb: string, path: string, orig: seq<string>)
      reads c, c.paramValues
    {
      && c.matched.None? && c.current.Some?
      && Here(t, verb, path, run, c.current.value, c.phase, c.search, c.vs, c.first, c.trail)
      && c.trail <= run.trail
      && c.searchIndex == |path| - |c.search|
      && c.Holds(c.vs, orig)
      && BestKnown(t, c.best, c.first)
    }

    static ghost predicate BestKnown(t: Tree, best: Option<nat>, first: Option<Best>) {
      && best.Some? == first.Some?
      && (best.Some? ==> best.value < |t.keys| && t.keys[best.value] == first.value.key)
    }

    /** The state when the loop is over. */
    static ghost predicate Finished(t: Tree, o: Outcome, c: Cursor, orig: seq<string>)
      reads c, c.paramValues
    {
      && c.matched == (if o.verdict.Hit? then Some(o.verdict.rm) else None)
      && (o.verdict.Miss? ==> c.current.None?) && (o.verdict.Hit? ==> c.current.Some?)
      && (!o.verdict.Hit? ==> c.first == o.best)
      && c.Holds(Kept(o.verdict), orig)
      && BestKnown(t, c.best, c.first)
    }

    /** The measure of the loop: nodes not entered yet, the depth of the current node, the blocks left. */
    static ghost function Left(t: Tree, run: Run, c: Cursor): (nat, nat, nat)
      requires c.current.Some? && c.current.value < |t.keys| && c.trail <= run.trail
      reads c
    {
      (|run.trail| - |c.trail|, |t.keys[c.current.value]|,
       match c.phase case Top => 4 case CheckBlock => 3 case StaticBlock => 2 case ParamBlock => 1 case AnyBlock => 0)
    }

    static ghost predicate Smaller(a: (nat, nat, nat), b: (nat, nat, nat)) {
      a.0 < b.0 || (a.0 == b.0 && (a.1 < b.1 || (a.1 == b.1 && a.2 < b.2)))
    }

    /** The length of the prefix of a node and how much of it the search matches; only static nodes match. */
    method PrefixMatch(n: Node, search: string) returns (prefixLen: nat, lcpLen: nat)
      ensures prefixLen == (if n.kind.Static? then |n.prefix| else 0) && lcpLen <= |search|
      ensures lcpLen == prefixLen <==> (n.kind.Static? ==> n.prefix <= search)
    {
      prefixLen, lcpLen := 0, 0;
      if n.kind == Static {
        prefixLen := |n.prefix|;
        lcpLen := LcpLen(search, n.prefix);
      }
      LcpPrefix(search, n.prefix);
    }

    /** Prefix matching. */
    method TopBlock(c: Cursor, verb: string, path: string, ghost orig: seq<string>, ghost t: Tree,
        ghost run: Run) returns (over: bool)
      requires Valid() && t == Contents() && Running(t, run, c, verb, path, orig) && c.phase == Top
      modifies c
      ensures if over then Finished(t, run.out, c, orig)
              else Running(t, run, c, verb, path, orig) && Smaller(Left(t, run, c), old(Left(t, run, c)))
    {
      var i := c.current.value;
      var n := nodes[i];
      var prefixLen, lcpLen := PrefixMatch(n, c.search);
      if lcpLen != prefixLen {
        over := BackFromMismatch(c, verb, path, orig, t, run);
      } else {
        HereMatch(t, verb, path, run, i, c.search, c.search[lcpLen..], c.vs, c.first, c.trail);
        c.search := c.search[lcpLen..];
        c.searchIndex := c.searchIndex + lcpLen;
        c.phase := CheckBlock;
        over := false;
      }
    }

    /** Backtracking from the static block, where the search has not moved. */
    method BackFromMismatch(c: Cursor, verb: string, path: string, ghost orig: seq<string>, ghost t: Tree,
        ghost run: Run) returns (over: bool)
      requires Valid() && t == Contents() && Running(t, run, c, verb, path, orig) && c.phase == Top
      requires nodes[c.current.value].kind.Static? && !(nodes[c.current.value].prefix <= c.search)
      modifies c
      ensures if over then Finished(t, run.out, c, orig)
              else Running(t, run, c, verb, path, orig) && Smaller(Left(t, run, c), old(Left(t, run, c)))
    {
      HereMismatch(t, verb, path, run, c.current.value, c.search, c.vs, c.first, c.trail);
      RootHasNoParent(t, c.current.value);
      c.current := nodes[c.current.value].parent;
      c.phase := ParamBlock;
      over := c.current.None?;
    }

    /** The check for a record when the path is used up. */
    method Check(c: Cursor, verb: string, path: string, ghost orig: seq<string>, ghost t: Tree,
        ghost run: Run) returns (over: bool)
      requires Valid() && t == Contents() && Running(t, run, c, verb, path, orig) && c.phase == CheckBlock
      modifies c
      ensures if over then Finished(t, run.out, c, orig)
              else Running(t, run, c, verb, path, orig) && Smaller(Left(t, run, c), old(Left(t, run, c)))
    {
      var i := c.current.value;
      var n := nodes[i];
      HereCheck(t, verb, path, run, i, c.search, c.vs, c.first, c.trail);
      c.phase := StaticBlock;
      if c.search == "" {
        if n.isHandler {
          if c.best.None? {
            c.best, c.first := Some(i), Some(Best(keys[i], c.vs));
          }
          c.matched := n.methods.Get(verb);
        } else {
          c.matched := n.notFound;
        }
      }
      over := c.matched.Some?;
    }

    method StaticBlockStep(c: Cursor, verb: string, path: string, ghost orig: seq<string>, ghost t: Tree,
        ghost run: Run)
      requires Valid() && t == Contents() && Running(t, run, c, verb, path, orig) && c.phase == StaticBlock
      modifies c
      ensures Running(t, run, c, verb, path, orig) && Smaller(Left(t, run, c), old(Left(t, run, c)))
    {
      var i := c.current.value;
      HereStatic(t, verb, path, run, i, c.search, c.vs, c.first, c.trail);
      c.phase := ParamBlock;
      if c.search != "" {
        StaticsInRange(t, i);
        var child := FindStaticChild(i, c.search[0]);
        if child.Some? {
          EnterStatic(c, child.value, verb, path, orig, t, run);
        }
      }
    }

    /** Down to a static child; the search moves on when its prefix has matched. */
    static method EnterStatic(c: Cursor, child: nat, verb: string, path: string, ghost orig: seq<string>,
        ghost t: Tree, ghost run: Run)
      requires c.matched.None? && c.Holds(c.vs, orig) && BestKnown(t, c.best, c.first) &&
          c.searchIndex == |path| - |c.search|
      requires Here(t, verb, path, run, child, Top, c.search, c.vs, c.first, c.trail + [child]) &&
          c.trail + [child] <= run.trail
      modifies c
      ensures Running(t, run, c, verb, path, orig) && c.current == Some(child) && c.trail == old(c.trail) + [child]
    {
      c.current, c.phase := Some(child), Top;
      c.trail := c.trail + [child];
    }

    /** A parameter child takes the next segment, or all the rest at a leaf. */
    method ParamBlockStep(c: Cursor, verb: string, path: string, ghost orig: seq<string>, ghost t: Tree, ghost run: Run)
      requires Valid() && t == Contents() && Running(t, run, c, verb, path, orig) && c.phase == ParamBlock &&
          maxParam <= c.paramValues.Length
      modifies c, c.paramValues
      ensures Running(t, run, c, verb, path, orig) && Smaller(Left(t, run, c), old(Left(t, run, c)))
    {
      var i := c.current.value;
      if c.search != "" && nodes[i].param.Some? {
        EnterParam(c, nodes[i].param.value, verb, path, orig, t, run);
      } else {
        ParamSkip(t, verb, path, run, i, c.search, c.vs, c.first, c.trail);
        c.phase := AnyBlock;
      }
    }

    method EnterParam(c: Cursor, child: nat, verb: string, path: string, ghost orig: seq<string>, ghost t: Tree,
        ghost run: Run)
      requires Valid() && t == Contents() && Running(t, run, c, verb, path, orig) && c.phase == ParamBlock &&
          maxParam <= c.paramValues.Length
      requires c.search != "" && nodes[c.current.value].param == Some(child)
      modifies c, c.paramValues
      ensures Running(t, run, c, verb, path, orig) && Smaller(Left(t, run, c), old(Left(t, run, c)))
    {
      ghost var vs, first, trail := c.vs, c.first, c.trail;
      ParamDown(t, verb, path, run, c.current.value, c.search, vs, first, trail, child);
      var k := |c.search|;
      if !nodes[child].isLeaf {
        k := SegmentEnd(c.search);
      }
      var v, rest := c.search[..k], c.search[k..];
      assert Here(t, verb, path, run, child, Top, rest, vs + [v], first, trail + [child]);
      c.Push(c.paramIndex, v, vs, orig);
      c.Enter(child, rest, k, vs + [v], trail + [child]);
    }

    /** The inner loop that ends a parameter at the next slash. */
    static method SegmentEnd(s: string) returns (k: nat)
      ensures k == Slash(s)
    {
      k := 0;
      while k < |s| && s[k] != '/'
        invariant k <= |s| && forall j :: 0 <= j < k ==> s[j] != '/'
      {
        k := k + 1;
      }
      SlashUnique(s, k);
    }

    /** An any child ends the search; without one the search goes back. */
    method AnyBlockStep(c: Cursor, verb: string, path: string, ghost orig: seq<string>, ghost t: Tree,
        ghost run: Run) returns (over: bool)
      requires Valid() && t == Contents() && Running(t, run, c, verb, path, orig) && c.phase == AnyBlock &&
          maxParam <= c.paramValues.Length
      modifies c, c.paramValues
      ensures if over then Finished(t, run.out, c, orig)
              else Running(t, run, c, verb, path, orig) && Smaller(Left(t, run, c), old(Left(t, run, c)))
    {
      if nodes[c.current.value].any.Some? {
        var child := nodes[c.current.value].any.value;
        AnyDown(t, verb, path, run, c.current.value, c.search, c.vs, c.first, c.trail, child);
        EnterAny(c, nodes[child], child, verb, path, orig, t, run.out);
        over := true;
      } else {
        over := Backtrack(c, verb, path, orig, t, run);
      }
    }

    /** An any child takes the rest of the path, with or without a record. */
    static method EnterAny(c: Cursor, n: Node, child: nat, verb: string, path: string, ghost orig: seq<string>,
        ghost t: Tree, ghost o: Outcome)
      requires child < |t.keys| && n.parent.Some? && n.paramsCount == |c.vs| + 1 <= c.paramValues.Length
      requires c.Holds(c.vs, orig) && BestKnown(t, c.best, c.first) && c.searchIndex == |path| - |c.search|
      requires o == AnyOutcome(n, verb, t.keys[child], c.vs, c.search, c.first)
      modifies c, c.paramValues
      ensures Finished(t, o, c, orig)
    {
      ghost var vs := c.vs;
      ghost var rest := c.search;
      c.current := Some(child);
      c.Push(n.paramsCount - 1, c.search, c.vs, orig);
      c.searchIndex := c.searchIndex + |c.search|;
      c.search := "";
      c.matched := n.methods.Get(verb);
      if c.matched.None? {
        if c.best.None? {
          c.best, c.first := Some(child), Some(Best(t.keys[child], vs + [rest]));
        }
        c.matched := n.notFound;
        if c.matched.None? {
          assert (vs + [rest])[..|vs|] == vs;
          LeaveAny(c, n, path, vs + [rest], orig, t, o);
        }
      }
    }

    /** Backtracking from an any node: the next kind is static, which ends the loop. */
    static method LeaveAny(c: Cursor, n: Node, path: string, ghost values: seq<string>, ghost orig: seq<string>,
        ghost t: Tree, ghost o: Outcome)
      requires c.Holds(values, orig) && values != [] && |values[|values| - 1]| <= c.searchIndex <= |path|
      requires c.matched.None? && n.parent.Some? && BestKnown(t, c.best, c.first)
      requires o == Outcome(Cut(values[..|values| - 1]), c.first)
      modifies c, c.paramValues
      ensures Finished(t, o, c, orig)
    {
      c.current := n.parent;
      c.Pop(path, values, orig);
    }

    /** Back to the parent from a static or a parameter node, to the kind of child that comes next. */
    method Backtrack(c: Cursor, verb: string, path: string, ghost orig: seq<string>, ghost t: Tree,
        ghost run: Run) returns (over: bool)
      requires Valid() && t == Contents() && Running(t, run, c, verb, path, orig) && c.phase == AnyBlock
      requires nodes[c.current.value].any.None?
      modifies c, c.paramValues
      ensures if over then Finished(t, run.out, c, orig)
              else Running(t, run, c, verb, path, orig) && Smaller(Left(t, run, c), old(Left(t, run, c)))
    {
      RootHasNoParent(t, c.current.value);
      if nodes[c.current.value].kind == Static {
        over := BackFromStatic(c, verb, path, orig, t, run);
      } else {
        BackFromParam(c, verb, path, orig, t, run);
        over := false;
      }
    }

    method BackFromStatic(c: Cursor, verb: string, path: string, ghost orig: seq<string>, ghost t: Tree,
        ghost run: Run) returns (over: bool)
      requires Valid() && t == Contents() && Running(t, run, c, verb, path, orig) && c.phase == AnyBlock
      requires nodes[c.current.value].any.None? && nodes[c.current.value].kind.Static?
      requires nodes[c.current.value].parent.None? <==> c.current.value == 0
      modifies c
      ensures if over then Finished(t, run.out, c, orig)
              else Running(t, run, c, verb, path, orig) && Smaller(Left(t, run, c), old(Left(t, run, c)))
    {
      var i := c.current.value;
      var n := nodes[i];
      ghost var s, vs, first, trail := c.search, c.vs, c.first, c.trail;
      if i == 0 {
        RootUp(t, verb, path, run, s, vs, first, trail);
        c.MoveUp(n, path);
        over := true;
      } else {
        StaticUp(t, verb, path, run, i, s, vs, first, trail, n.parent.value);
        c.MoveUp(n, path);
        assert Here(t, verb, path, run, n.parent.value, ParamBlock, c.search, vs, first, trail);
        over := false;
      }
    }

    method BackFromParam(c: Cursor, verb: string, path: string, ghost orig: seq<string>, ghost t: Tree, ghost run: Run)
      requires Valid() && t == Contents() && Running(t, run, c, verb, path, orig) && c.phase == AnyBlock
      requires nodes[c.current.value].any.None? && nodes[c.current.value].kind.Param?
      requires nodes[c.current.value].parent.Some? && c.current.value != 0
      modifies c, c.paramValues
      ensures Running(t, run, c, verb, path, orig) && Smaller(Left(t, run, c), old(Left(t, run, c)))
    {
      var parent := nodes[c.current.value].parent;
      ParamUp(t, verb, path, run, c.current.value, c.search, c.vs, c.first, c.trail, parent.value);
      BackTo(c, parent.value, verb, path, orig, t, run);
    }

    /** To the parent of a parameter node, with the last value undone. */
    static method BackTo(c: Cursor, parent: nat, verb: string, path: string, ghost orig: seq<string>, ghost t: Tree,
        ghost run: Run)
      requires c.matched.None? && c.Holds(c.vs, orig) && c.vs != [] && BestKnown(t, c.best, c.first) &&
          c.trail <= run.trail
      requires c.searchIndex == |path| - |c.search| && |c.search| + |c.vs[|c.vs| - 1]| <= |path| && c.phase == AnyBlock
      requires var s := path[|path| - |c.search| - |c.vs[|c.vs| - 1]|..];
        Here(t, verb, path, run, parent, AnyBlock, s, c.vs[..|c.vs| - 1], c.first, c.trail)
      modifies c, c.paramValues
      ensures Running(t, run, c, verb, path, orig) && c.current == Some(parent) && c.phase == AnyBlock &&
          c.trail == old(c.trail)
    {
      ghost var vs := c.vs;
      c.current := Some(parent);
      c.vs := vs[..|vs| - 1];
      c.Pop(path, vs, orig);
    }

    /** `Find`: the loop with backtracking.  It gives what the reference search gives, and leaves the values of
        the match at the front of the parameter slice: a registered route that is found spells the path. */
    method Find(verb: string, path: string, ctx: RouterContext)
      requires Valid() && maxParam <= ctx.pvalues.Length
      modifies ctx, ctx.pvalues
      ensures Reports(Search(Contents(), verb, path).out, path, ctx, old(ctx.pnames), old(ctx.handler))
      ensures Leaves(Search(Contents(), verb, path).out.verdict, ctx, old(ctx.pvalues[..]))
      ensures old(|ctx.pnames|) <= ctx.pvalues.Length ==> |ctx.pnames| <= ctx.pvalues.Length
      ensures var v := Search(Contents(), verb, path).out.verdict; v.Hit? && v.rm.handler.Some? ==> Spelled(ctx, path)
    {
      ctx.path := path;
      ghost var t := Contents();
      ghost var run := Search(t, verb, path);
      ghost var orig := ctx.pvalues[..];
      HereStart(t, verb, path);
      SearchSound(t, verb, path);
      HitRendersPath(t, verb, path);
      var c := FindLoop(verb, path, ctx, orig, t, run);
      HitFits(t, verb, path);
      if c.current.None? && c.best.None? {
        return;
      }
      Report(c, ctx, t, run.out, orig);
      assert run.out.verdict.Hit? ==> ctx.pvalues[..|run.out.verdict.values|] == run.out.verdict.values;
    }

    /** The loop itself. */
    method FindLoop(verb: string, path: string, ctx: RouterContext, ghost orig: seq<string>, ghost t: Tree,
        ghost run: Run) returns (c: Cursor)
      requires Valid() && t == Contents() && maxParam <= ctx.pvalues.Length && orig == ctx.pvalues[..]
      requires run == Search(t, verb, path) && Here(t, verb, path, run, 0, Top, path, [], None, [0])
      modifies ctx.pvalues
      ensures c.paramValues == ctx.pvalues && Finished(t, run.out, c, orig)
    {
      c := new Cursor(path, ctx.pvalues);
      var over := false;
      while !over
        invariant fresh(c) && c.paramValues == ctx.pvalues && Contents() == t
        invariant if over then Finished(t, run.out, c, orig) else Running(t, run, c, verb, path, orig)
        decreases !over, if over then 0 else Left(t, run, c).0, if over then 0
            else Left(t, run, c).1, if over then 0 else Left(t, run, c).2
      {
        match c.phase {
          case Top => over := TopBlock(c, verb, path, orig, t, run);
          case CheckBlock => over := Check(c, verb, path, orig, t, run);
          case StaticBlock => StaticBlockStep(c, verb, path, orig, t, run);
          case ParamBlock => ParamBlockStep(c, verb, path, orig, t, run);
          case AnyBlock => over := AnyBlockStep(c, verb, path, orig, t, run);
        }
      }
    }

    /** A new context routed to a path, and its parameter values. */
    method Lookup(verb: string, path: string) returns (ctx: RouterContext, values: seq<string>)
      requires Valid()
      ensures fresh(ctx) && fresh(ctx.pvalues) && |values| == |ctx.pnames| <= ctx.pvalues.Length
      ensures Reports(Search(Contents(), verb, path).out, path, ctx, Padded([], maxParam), Some(NotFoundHandler))
      ensures var v := Search(Contents(), verb, path).out.verdict;
              v.Hit? && v.rm.handler.Some? ==> values == v.values && Spelled(ctx, path)
      ensures var o := Search(Contents(), verb, path).out;
              !o.verdict.Hit? && o.best.Some? ==>
                  forall c: nat :: c < |nodes| && keys[c] == o.best.value.key && HasNotFound(nodes[c]) ==>
                values == Padded(Kept(o.verdict), |values|) && (Spelled(ctx, path) <==> values == o.best.value.values)
    {
      ctx := new RouterContext(maxParam);
      assert ctx.pnames == Padded([], maxParam);
      Find(verb, path, ctx);
      values := ctx.ParamValues();
      ghost var t, o := Contents(), Search(Contents(), verb, path).out;
      HitRendersPath(t, verb, path);
      if !o.verdict.Hit? && o.best.Some? {
        assert values == Padded(Kept(o.verdict), |values|);
        forall c: nat | c < |nodes| && keys[c] == o.best.value.key && HasNotFound(nodes[c])
          ensures Spelled(ctx, path) <==> values == o.best.value.values
        {
          FallbackSpells(t, verb, path, c);
        }
      }
    }

    /** A new context routed by a router with a series of routes, told from the routes: a match gives its record.
        Without one, a best match gives its not-found route, or the error for a method that is not allowed together
        with the pattern last registered there; and without a best match the path is not found. */
    method Resolve(ghost rs: seq<Route>, verb: string, path: string) returns (ctx: RouterContext, values: seq<string>)
      requires Valid() && AllRegistrable(rs) && Contents() == Build(rs)
      ensures fresh(ctx)
      ensures var o := Match(FullTable(rs), verb, "", path, [], None);
              o.verdict.Hit? ==>
                && ctx.path == o.verdict.rm.ppath && ctx.pnames == o.verdict.rm.pnames
                && ctx.handler == (if o.verdict.rm.handler.Some? then
                    Some(Registered(o.verdict.rm.handler.value)) else None)
      ensures var o := Match(FullTable(rs), verb, "", path, [], None);
              !o.verdict.Hit? && o.best.None? ==> ctx.path == path && ctx.handler == Some(NotFoundHandler)
      ensures var o := Match(FullTable(rs), verb, "", path, [], None);
              !o.verdict.Hit? && o.best.Some? && NotFoundEntry(FullTable(rs), o.best.value.key).None? ==>
                && ctx.path == LastPattern(rs, o.best.value.key) && ctx.pnames == []
                && ctx.handler == Some(MethodNotAllowedHandler)
      ensures var o := Match(FullTable(rs), verb, "", path, [], None);
              !o.verdict.Hit? && o.best.Some? && NotFoundEntry(FullTable(rs), o.best.value.key).Some? ==>
                var rm := NotFoundEntry(FullTable(rs), o.best.value.key).value;
                && ctx.path == rm.ppath && ctx.pnames == rm.pnames
                && ctx.handler == (if rm.handler.Some? then Some(Registered(rm.handler.value)) else None)
    {
      RoutesDecide(rs, verb, path);
      SearchSound(Contents(), verb, path);
      ctx, values := Lookup(verb, path);
      ghost var o := Search(Contents(), verb, path).out;
      if !o.verdict.Hit? && o.best.Some? {
        ghost var c: nat :| c < |nodes| && keys[c] == o.best.value.key;
        BestMatchSays(rs, verb, path, c);
      }
    }

    /** The end of `Find`: the record found, or what the best match says. */
    method Report(c: Cursor, ctx: RouterContext, ghost t: Tree, ghost o: Outcome, ghost orig: seq<string>)
      requires WellFormed(Contents()) && t == Contents() && Finished(t, o, c, orig)
      requires c.matched.Some? || c.best.Some?
      modifies ctx
      ensures if o.verdict.Hit? then ctx.path == o.verdict.rm.ppath && ctx.pnames == o.verdict.rm.pnames &&
          ctx.handler == RefOf(o.verdict.rm.handler)
              else o.best.Some? && forall i: nat :: i < |nodes| && keys[i] == o.best.value.key ==> Falls(nodes[i], ctx)
    {
      if c.matched.Some? {
        ctx.path, ctx.pnames, ctx.handler := c.matched.value.ppath, c.matched.value.pnames,
            RefOf(c.matched.value.handler);
      } else {
        var n := nodes[c.best.value];
        ctx.path, ctx.pnames, ctx.handler := n.originalPath, [], Some(NotFoundHandler);
        if n.notFound.Some? {
          ctx.path, ctx.pnames, ctx.handler := n.notFound.value.ppath, n.notFound.value.pnames,
              RefOf(n.notFound.value.handler);
        } else if n.isHandler {
          ctx.handler := Some(MethodNotAllowedHandler);
        }
        forall i: nat | i < |nodes| && keys[i] == o.best.value.key ensures i == c.best.value {
          KeysInjective(t, i, c.best.value);
        }
      }
    }
  }

  method SharedRouter() returns (router: HandlerRouter)
    ensures fresh(router) && router.Valid() && router.Contents() == Build(SHARED)
  {
    SharedKey();
    assert Rooted("/:a") == "/:a";
    router := new HandlerRouter();
    router.Add(METHOD_SUB, "/:a", 1);
    ghost var first := [SHARED[0]];
    assert first[..0] == [] && router.Contents() == Build(first);
    router.Add(ROUTE_NOT_FOUND, "/:a", 2);
    assert SHARED[..1] == first;
  }

  /** SUB and not-found at `/:a`: a PUB at `/x` gets the not-found route with a blank value. */
  method BlankFallback() returns (ctx: RouterContext, values: seq<string>)
    ensures ctx.handler == Some(Registered(2)) && ctx.path == "/:a" && ctx.pnames == ["a"] && values == [""]
  {
    var router := SharedRouter();
    ghost var c := SharedSearch();
    ctx, values := router.Lookup(METHOD_PUB, "/x");
    assert router.keys[c] == "/:";
  }
}
