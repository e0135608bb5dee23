/** Insertion into the routing tree, as a function from trees to trees, and what it keeps. */
module RouteInsert {
  import opened Options
  import opened Text
  import opened RouteTree

  // The edits that an insertion is made of

  /** Where an insertion ends: node `at`, after `used` bytes of the inserted path. */
  datatype Place = Place(at: nat, used: nat)

  lemma StaticsInRange(t: Tree, i: nat)
    requires Shape(t) && i < |t.nodes|
    ensures forall k :: 0 <= k < |t.nodes[i].statics| ==> t.nodes[i].statics[k] < |t.nodes|
  {
    forall k | 0 <= k < |t.nodes[i].statics| ensures t.nodes[i].statics[k] < |t.nodes| {
      assert t.nodes[i].HasChild(t.nodes[i].statics[k]);
    }
  }

  ghost function ChildFor(t: Tree, i: nat, c: char): (r: Option<nat>)
    requires Shape(t) && i < |t.nodes|
    ensures r.Some? ==> t.nodes[i].HasChild(r.value) && Below(t, i, r.value)
  {
    StaticsInRange(t, i);
    FindChild(t.nodes, t.nodes[i], c)
  }

  /** The node and path position that hold during the descent. */
  ghost predicate OnPath(t: Tree, path: string, p: Place)
    requires Shape(t)
  {
    && p.at < |t.nodes| && p.used < |path|
    && t.keys[p.at] == path[..p.used] + t.nodes[p.at].prefix
    && (if t.nodes[p.at].prefix == "" then p == Place(0, 0) else t.nodes[p.at].prefix[0] == path[p.used])
  }

  /** The descent goes on: the whole prefix matches, something is left, and a child takes it. */
  ghost predicate Descends(t: Tree, path: string, p: Place)
    requires Shape(t) && OnPath(t, path, p)
  {
    var pre := t.nodes[p.at].prefix;
    var next := p.used + |pre|;
    Lcp(path[p.used..], pre) == |pre| && next < |path| && pre != "" && ChildFor(t, p.at, path[next]).Some?
      && t.nodes[ChildFor(t, p.at, path[next]).value].initial == path[next]
  }

  ghost function Next(t: Tree, path: string, p: Place): (q: Place)
    requires Shape(t) && OnPath(t, path, p) && Descends(t, path, p)
    ensures OnPath(t, path, q) && p.used < q.used
  {
    var next := p.used + |t.nodes[p.at].prefix|;
    assert path[..p.used] + t.nodes[p.at].prefix == path[..next];
    Place(ChildFor(t, p.at, path[next]).value, next)
  }

  ghost function Walk(t: Tree, path: string, p: Place): Place
    requires Shape(t) && OnPath(t, path, p)
    decreases |path| - p.used
  {
    if Descends(t, path, p) then Walk(t, path, Next(t, path, p)) else p
  }

  lemma {:induction false} WalkEnds(t: Tree, path: string, p: Place)
    requires Shape(t) && OnPath(t, path, p)
    ensures OnPath(t, path, Walk(t, path, p)) && !Descends(t, path, Walk(t, path, p))
    decreases |path| - p.used
  {
    if Descends(t, path, p) {
      WalkEnds(t, path, Next(t, path, p));
    }
  }

  /** `addMethod` together with the two fields that every caller sets after it. */
  function Register(n: Node, verb: string, rm: RouteMethod): Node {
    n.AddMethod(verb, rm).(paramsCount := |rm.pnames|, originalPath := rm.ppath)
  }

  function RegisterIfHandled(n: Node, verb: string, rm: RouteMethod): Node {
    if rm.handler.Some? then Register(n, verb, rm) else n
  }

  /** The children of `n` get node `p` as their parent. */
  function Reparent(nodes: seq<Node>, n: Node, p: nat): (r: seq<Node>)
    ensures |r| == |nodes|
    ensures forall k: nat :: k < |nodes| ==> r[k] == if n.HasChild(k) then nodes[k].(parent := Some(p)) else nodes[k]
  {
    seq(|nodes|, k requires 0 <= k < |nodes| => if n.HasChild(k) then nodes[k].(parent := Some(p)) else nodes[k])
  }

  /** The lower half of a split node: it takes over everything but the first `l` bytes of the prefix. */
  function Lower(n: Node, i: nat, l: nat): Node
    requires l < |n.prefix|
  {
    NewNode(n.kind, n.prefix[l..], i, n.statics, n.originalPath, n.methods, n.paramsCount, n.param, n.any, n.notFound)
  }

  /** The upper half of a split node: an empty static node above node `c`. */
  function Upper(n: Node, l: nat, c: nat): Node
    requires l <= |n.prefix| && n.prefix != ""
  {
    n.(kind := Static, initial := n.prefix[0], prefix := n.prefix[..l], statics := [c], originalPath := "",
       methods := NO_METHODS, paramsCount := 0, param := None, any := None, isLeaf := false, isHandler := false,
       notFound := None)
  }

  ghost function Split(t: Tree, i: nat, l: nat): (r: Tree)
    requires Shape(t) && i < |t.nodes| && l < |t.nodes[i].prefix| <= |t.keys[i]|
    ensures |r.nodes| == |r.keys| == |t.nodes| + 1
  {
    var n, c := t.nodes[i], |t.nodes|;
    Tree(Reparent(t.nodes, n, c)[i := Upper(n, l, c)] + [Lower(n, i, l)],
         t.keys[i := t.keys[i][..|t.keys[i]| - |n.prefix| + l]] + [t.keys[i]],
         t.maxParam)
  }

  /** Node `n` with child `c` in the slot for its kind. */
  function Link(n: Node, slot: Kind, c: nat): Node {
    var m := match slot
      case Static => n.(statics := n.statics + [c])
      case Param => n.(param := Some(c))
      case Any => n.(any := Some(c));
    m.(isLeaf := m.IsLeafNode())
  }

  function Fresh(kind: Kind, prefix: string, parent: nat, originalPath: string, verb: string, rm: RouteMethod): Node
    requires prefix != ""
  {
    RegisterIfHandled(NewNode(kind, prefix, parent, [], originalPath, NO_METHODS, 0, None, None, None), verb, rm)
  }

  ghost function Attach(t: Tree, i: nat, slot: Kind, n: Node): (r: Tree)
    requires i < |t.nodes| == |t.keys|
    ensures |r.nodes| == |r.keys| == |t.nodes| + 1
  {
    Tree(t.nodes[i := Link(t.nodes[i], slot, |t.nodes|)] + [n], t.keys + [t.keys[i] + n.prefix], t.maxParam)
  }

  ghost function Put(t: Tree, i: nat, n: Node): (r: Tree)
    requires i < |t.nodes|
  {
    t.(nodes := t.nodes[i := n])
  }

  /** The first path ever inserted becomes the root's prefix. */
  function FillRoot(n: Node, path: string, kind: Kind, verb: string, rm: RouteMethod): Node
    requires path != ""
  {
    var m := n.(initial := path[0], prefix := path);
    var k := if rm.handler.Some? then Register(m.(kind := kind), verb, rm) else m;
    k.(isLeaf := k.IsLeafNode())
  }

  // Insertion

  datatype Op = Op(verb: string, path: string, kind: Kind, rm: RouteMethod)

  ghost predicate Starts(t: Tree, path: string) {
    Shape(t) && path != "" && OnPath(t, path, Place(0, 0))
  }

  ghost function Edit(t: Tree, op: Op, q: Place): Tree
    requires Shape(t) && OnPath(t, op.path, q)
  {
    var s, n := op.path[q.used..], t.nodes[q.at];
    var l := Lcp(s, n.prefix);
    if l == 0 then
      Tree(t.nodes[q.at := FillRoot(n, s, op.kind, op.verb, op.rm)], t.keys[q.at := s], t.maxParam)
    else if l < |n.prefix| then
      var t1 := Split(t, q.at, l);
      if l == |s| then Put(t1, q.at, Register(t1.nodes[q.at].(kind := op.kind), op.verb, op.rm))
      else Attach(t1, q.at, Static, Fresh(op.kind, s[l..], q.at, "", op.verb, op.rm))
    else if l < |s| then
      Attach(t, q.at, op.kind, Fresh(op.kind, s[l..], q.at, op.rm.ppath, op.verb, op.rm))
    else Put(t, q.at, RegisterIfHandled(n, op.verb, op.rm))
  }

  function Max(a: nat, b: nat): nat {
    if a < b then b else a
  }

  ghost function Insert(t: Tree, op: Op): Tree {
    var t0 := t.(maxParam := Max(t.maxParam, |op.rm.pnames|));
    if Starts(t0, op.path) then WalkEnds(t0, op.path, Place(0, 0)); Edit(t0, op, Walk(t0, op.path, Place(0, 0))) else t0
  }

  // Where an insertion ends in a well-formed tree

  /** Every marker among the first `n` bytes of the path has its node. */
  ghost predicate MarkersKnown(t: Tree, path: string, n: int)
    requires n <= |path|
  {
    forall k: nat :: k < n && IsMarker(path[k]) ==> HasKey(t, path[..k + 1])
  }

  /** What `Add` sees to before it inserts a path: every parameter before the end already has its node,
      and so does the part of the path before a final parameter. */
  ghost predicate Ready(t: Tree, op: Op) {
    var last := |op.path| - 1;
    && op.path != "" && op.path[0] == '/'
    && MarkersKnown(t, op.path, if op.kind.Static? then |op.path| else last)
    && (forall k: nat :: k < last ==> op.path[k] != '*')
    && (!op.kind.Static? ==>
        0 < last && HasKey(t, op.path[..last]) && op.path[last] == (if op.kind.Param? then ':' else '*'))
    && (if op.rm.handler.Some? then Belongs(op.rm, op.path) else op.rm == NO_ROUTE && !op.kind.Any?)
  }

  lemma ReadyStarts(t: Tree, op: Op)
    requires WellFormed(t) && Ready(t, op)
    ensures Starts(t, op.path)
  {
    assert op.path[..0] + t.nodes[0].prefix == t.nodes[0].prefix;
  }

  /** A node whose key goes on along the path beyond the place is below the place's node. */
  lemma Passes(t: Tree, path: string, q: Place, y: nat, j: nat)
    requires WellFormed(t) && OnPath(t, path, q) && q.used < y <= |path|
    requires j < |t.keys| && path[..y] <= t.keys[j]
    ensures t.keys[q.at] <= t.keys[j]
  {
    RootFirst(t, j);
    assert t.keys[j][..y] == path[..y];
    assert t.keys[j][q.used] == path[q.used];
    if q.at != 0 {
      var p := ParentBelow(t, q.at);
      assert t.keys[p] == t.keys[q.at][..q.used] == path[..q.used];
      assert t.keys[j][..q.used] == path[..y][..q.used] == path[..q.used];
      var c := ChildToward(t, p, j);
      assert t.keys[c][q.used] == t.keys[j][q.used];
      ChildByLabel(t, p, c, q.at);
    }
  }

  lemma ChildForLabel(t: Tree, i: nat, c: nat)
    requires WellFormed(t) && i < |t.nodes| && t.nodes[i].HasChild(c) && Below(t, i, c)
    ensures ChildFor(t, i, t.nodes[c].initial) == Some(c)
  {
    var n := t.nodes[i];
    assert NodeOK(t, i) && NodeOK(t, c);
    StaticsInRange(t, i);
    var x := t.nodes[c].initial;
    var s := FindStatic(t.nodes, n.statics, x);
    if c in n.statics {
      assert n.HasChildOfKind(Static, c);
    } else if n.param == Some(c) {
      assert n.HasChildOfKind(Param, c);
    } else {
      assert n.HasChildOfKind(Any, c);
    }
    if s.Some? {
      assert n.HasChildOfKind(Static, s.value) && n.HasChild(s.value) && NodeOK(t, s.value);
      assert !IsMarker(t.nodes[s.value].prefix[0]);
      ChildByLabel(t, i, s.value, c);
    }
  }

  /** The child found for a byte begins with that byte. */
  lemma ChildForInitial(t: Tree, i: nat, x: char)
    requires WellFormed(t) && i < |t.nodes| && ChildFor(t, i, x).Some?
    ensures t.nodes[ChildFor(t, i, x).value].initial == x
  {
    var n, c := t.nodes[i], ChildFor(t, i, x).value;
    assert NodeOK(t, i) && NodeOK(t, c);
    StaticsInRange(t, i);
    if FindStatic(t.nodes, n.statics, x).None? {
      assert n.HasChildOfKind(if x == ':' then Param else Any, c);
    }
  }

  /** The descent goes on exactly when the whole prefix matches, bytes are left, and a child takes them. */
  lemma DescendsIff(t: Tree, path: string, p: Place, l: nat)
    requires WellFormed(t) && OnPath(t, path, p) && l == Lcp(path[p.used..], t.nodes[p.at].prefix)
    ensures Descends(t, path, p) <==>
            0 < l == |t.nodes[p.at].prefix| < |path| - p.used && ChildFor(t, p.at, path[p.used + l]).Some?
  {
    if 0 < l == |t.nodes[p.at].prefix| < |path| - p.used && ChildFor(t, p.at, path[p.used + l]).Some? {
      ChildForInitial(t, p.at, path[p.used + l]);
    }
  }

  /** One step of the descent, or its end. */
  lemma WalkStep(t: Tree, path: string, p: Place, l: nat, c: Option<nat>)
    requires WellFormed(t) && OnPath(t, path, p) && l == Lcp(path[p.used..], t.nodes[p.at].prefix)
    requires 0 < l == |t.nodes[p.at].prefix| < |path| - p.used ==> c == ChildFor(t, p.at, path[p.used + l])
    ensures if 0 < l == |t.nodes[p.at].prefix| < |path| - p.used && c.Some? then
              OnPath(t, path, Place(c.value, p.used + l)) &&
                  Walk(t, path, p) == Walk(t, path, Place(c.value, p.used + l))
            else Walk(t, path, p) == p
  {
    DescendsIff(t, path, p, l);
    if Descends(t, path, p) {
      assert Next(t, path, p) == Place(c.value, p.used + l);
    }
  }

  /** Beyond the end of the descent no key goes on along the path. */
  lemma NoKeyBeyond(t: Tree, path: string, q: Place, y: nat, j: nat)
    requires WellFormed(t) && OnPath(t, path, q) && !Descends(t, path, q)
    requires q.used + Lcp(path[q.used..], t.nodes[q.at].prefix) < y <= |path|
    requires t.nodes[q.at].prefix != "" && j < |t.keys|
    ensures !(path[..y] <= t.keys[j])
  {
    if path[..y] <= t.keys[j] {
      var pre := t.nodes[q.at].prefix;
      var l := Lcp(path[q.used..], pre);
      Passes(t, path, q, y, j);
      assert t.keys[j][q.used + l] == t.keys[j][..y][q.used + l] == path[q.used + l];
      if l == |pre| {
        assert path[q.used..][..l] == pre;
        var c := ChildToward(t, q.at, j);
        assert t.keys[c][q.used + l] == t.keys[j][q.used + l];
        ChildForLabel(t, q.at, c);
      }
    }
  }

  lemma NothingBeyond(t: Tree, path: string, q: Place, y: nat)
    requires WellFormed(t) && OnPath(t, path, q) && !Descends(t, path, q)
    requires q.used + Lcp(path[q.used..], t.nodes[q.at].prefix) < y <= |path|
    requires t.nodes[q.at].prefix != ""
    ensures !HasKey(t, path[..y])
  {
    if HasKey(t, path[..y]) {
      var j: nat :| j < |t.keys| && t.keys[j] == path[..y];
      NoKeyBeyond(t, path, q, y, j);
    }
  }

  /** No marker is left to insert beyond the end of a ready insertion, but for a final one. */
  lemma RestFits(t: Tree, op: Op, q: Place, l: nat)
    requires WellFormed(t) && Ready(t, op)
    requires OnPath(t, op.path, q) && !Descends(t, op.path, q)
    requires 0 < l == Lcp(op.path[q.used..], t.nodes[q.at].prefix)
    ensures op.kind.Static? ==> NoMarkers(op.path[q.used + l..])
    ensures !op.kind.Static? ==> |op.path| - 1 <= q.used + l
  {
    var last: nat := |op.path| - 1;
    forall k: nat | q.used + l <= k < |op.path| && op.kind.Static? ensures !IsMarker(op.path[k]) {
      NothingBeyond(t, op.path, q, k + 1);
    }
    if !op.kind.Static? && q.used + l < last {
      NothingBeyond(t, op.path, q, last);
    }
  }

  /** The first insertion fills the root. */
  lemma FillFits(t: Tree, op: Op, q: Place)
    requires WellFormed(t) && Ready(t, op) && OnPath(t, op.path, q)
    requires Lcp(op.path[q.used..], t.nodes[q.at].prefix) == 0
    ensures q == Place(0, 0) && t.nodes[0].prefix == "" && |t.nodes| == 1 && op.kind.Static? && NoMarkers(op.path)
  {
    forall i: nat | i < |t.keys| ensures t.keys[i] == "" {
      OnlyRoot(t, i);
    }
    OnlyRoot(t, |t.nodes| - 1);
  }

  /** A split happens inside a static prefix, for a static path. */
  lemma SplitFits(t: Tree, op: Op, q: Place, l: nat)
    requires WellFormed(t) && Ready(t, op)
    requires OnPath(t, op.path, q) && !Descends(t, op.path, q)
    requires 0 < l == Lcp(op.path[q.used..], t.nodes[q.at].prefix) < |t.nodes[q.at].prefix|
    ensures t.nodes[q.at].kind.Static? && op.kind.Static?
  {
    assert NodeOK(t, q.at);
    RestFits(t, op, q, l);
    var s, last := op.path[q.used..], |op.path| - 1;
    assert t.nodes[q.at].prefix[l - 1] == t.nodes[q.at].prefix[..l][l - 1] == s[..l][l - 1] == op.path[q.used + l - 1];
    if !op.kind.Static? && q.used + l == last {
      var j: nat :| j < |t.keys| && t.keys[j] == op.path[..last];
      Passes(t, op.path, q, last, j);
    }
  }

  /** A new child has no sibling with its initial byte; it has no marker, or it is exactly one. */
  lemma ChildFits(t: Tree, op: Op, q: Place, l: nat)
    requires WellFormed(t) && Ready(t, op)
    requires OnPath(t, op.path, q) && !Descends(t, op.path, q)
    requires 0 < l == Lcp(op.path[q.used..], t.nodes[q.at].prefix) == |t.nodes[q.at].prefix| < |op.path| - q.used
    ensures t.keys[q.at] == op.path[..q.used + l]
    ensures !t.nodes[q.at].kind.Any?
    ensures forall c: nat :: t.nodes[q.at].HasChild(c) ==> c < |t.nodes| && t.nodes[c].initial != op.path[q.used + l]
    ensures op.kind.Param? ==> op.path[q.used + l..] == ":"
    ensures op.kind.Any? ==> op.path[q.used + l..] == "*"
  {
    assert NodeOK(t, q.at);
    RestFits(t, op, q, l);
    assert op.path[q.used..][..l] == t.nodes[q.at].prefix;
    forall c: nat | t.nodes[q.at].HasChild(c) ensures c < |t.nodes| && t.nodes[c].initial != op.path[q.used + l] {
      ChildForLabel(t, q.at, c);
    }
  }

  lemma {:induction false} OnlyRoot(t: Tree, i: nat)
    requires WellFormed(t) && i < |t.nodes| && t.keys[0] == ""
    ensures i == 0
    decreases |t.keys[i]|
  {
    if i != 0 {
      var p := ParentBelow(t, i);
      OnlyRoot(t, p);
    }
  }
}
