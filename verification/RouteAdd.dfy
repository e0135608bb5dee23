/** Insertion refines a table update, and registering a pattern is a series of insertions. */
module RouteAdd {
  import opened Options
  import opened Text
  import opened RouteTree
  import opened RouteInsert
  import opened RouteEdits

  /** The table of `b` is that of `a` with at most one entry set. */
  ghost predicate Updated(a: Tree, b: Tree, key: string, verb: string, w: Option<RouteMethod>)
    requires |a.nodes| == |a.keys| && |b.nodes| == |b.keys|
  {
    forall k: string, m: string, r: RouteMethod ::
      Stores(b, k, m, r) <==> if w.Some? && k == key && m == verb then r == w.value else Stores(a, k, m, r)
  }

  /** A path without a node that some key goes beyond: inserting it splits a node in two. */
  ghost predicate Inside(t: Tree, path: string) {
    !HasKey(t, path) && exists j: nat :: j < |t.keys| && path < t.keys[j]
  }

  /** The record that an insertion stores: its own, when it has a handler.  Without one nothing is stored,
      except that a split stores the empty record for the methods that can hold it. */
  ghost function Written(t: Tree, op: Op): Option<RouteMethod> {
    if op.rm.handler.Some? then Some(op.rm)
    else if Special(op.verb) && Inside(t, op.path) then Some(NO_ROUTE)
    else None
  }

  /** What one insertion does to a tree. */
  ghost predicate Inserted(a: Tree, b: Tree, op: Op) {
    && |a.nodes| == |a.keys| && WellFormed(b)
    && KeysGrow(a, b, op.path) && HasKey(b, op.path)
    && Updated(a, b, op.path, op.verb, Written(a, op))
  }

  /** The root after the first insertion. */
  lemma FilledRoot(n: Node, path: string, kind: Kind, verb: string, rm: RouteMethod)
    requires n.IsLeafNode() && n.methods == NO_METHODS && n.notFound.None? && !n.isHandler && n.kind.Static?
    requires path != "" && NoMarkers(path) && kind.Static? && (rm.handler.Some? ==> Belongs(rm, path))
    ensures var r := FillRoot(n, path, kind, verb, rm);
            && r.kind.Static? && r.initial == path[0] && r.prefix == path && r.parent == n.parent && r.IsLeafNode() &&
                r.isLeaf
            && Fits(r, path)
            && forall m: string :: r.Record(m) == if rm.handler.Some? && m == verb then Some(rm) else None
  {
    var base := n.(initial := path[0], prefix := path, kind := kind);
    RegisterRecord(base, verb, rm);
    assert forall m: string :: base.Record(m).None?;
  }

  lemma FillInserts(t: Tree, op: Op, q: Place)
    requires WellFormed(t) && Ready(t, op) && OnPath(t, op.path, q)
    requires Lcp(op.path[q.used..], t.nodes[q.at].prefix) == 0
    ensures Inserted(t, Edit(t, op, q), op)
  {
    FillFits(t, op, q);
    var r := Edit(t, op, q);
    assert NodeOK(t, 0);
    assert op.path[0..] == op.path;
    FilledRoot(t.nodes[0], op.path, op.kind, op.verb, op.rm);
    assert r == Tree([FillRoot(t.nodes[0], op.path, op.kind, op.verb, op.rm)], [op.path], t.maxParam);
    FilledTree(t, r, op);
  }

  lemma FilledTree(t: Tree, r: Tree, op: Op)
    requires |t.nodes| == |t.keys| == |r.nodes| == |r.keys| == 1 && t.keys[0] == "" &&
        r.keys[0] == op.path == r.nodes[0].prefix
    requires op.path != "" && op.path[0] == '/' && NoMarkers(op.path)
    requires forall m: string :: t.nodes[0].Record(m).None?
    requires var n := r.nodes[0];
             && n.kind.Static? && n.parent.None? && n.IsLeafNode() && n.isLeaf && Fits(n, op.path)
             && forall m: string :: n.Record(m) == if op.rm.handler.Some? && m == op.verb then Some(op.rm) else None
    ensures Inserted(t, r, op)
  {
    var n := r.nodes[0];
    forall c: nat ensures !n.HasChild(c) {}
    forall k: Kind, c: nat ensures !n.HasChildOfKind(k, c) {}
    assert NodeOK(r, 0);
    assert WellFormed(r);
    forall k: string, m: string, x: RouteMethod
      ensures Stores(r, k, m, x) <==> op.rm.handler.Some? && k == op.path && m == op.verb && x == op.rm
    {
      if k == op.path { StoresUnique(r, k, m, x, 0); }
    }
    assert !Inside(t, op.path);
  }

  /** Storing into the node that a split made. */
  lemma PutAfter(t: Tree, t1: Tree, op: Op, i: nat)
    requires |t.nodes| == |t.keys| && WellFormed(t1) && KeysGrow(t, t1, op.path) && SameTable(t, t1)
    requires i < |t1.nodes| && t1.keys[i] == op.path && op.path != "" && t1.nodes[i].kind == op.kind == Static
    requires forall m: string :: t1.nodes[i].Record(m).None?
    requires if op.rm.handler.Some? then Belongs(op.rm, op.path) else op.rm == NO_ROUTE
    requires Inside(t, op.path)
    ensures Inserted(t, Put(t1, i, Register(t1.nodes[i], op.verb, op.rm)), op)
  {
    var n := t1.nodes[i];
    assert NodeOK(t1, i);
    RegisterRecord(n, op.verb, op.rm);
    RegisterFits(n, op.path, op.verb, op.rm);
    PutKeeps(t1, i, Register(n, op.verb, op.rm));
    forall m: string, x: RouteMethod ensures !Stores(t1, op.path, m, x) {
      StoresUnique(t1, op.path, m, x, i);
    }
  }

  /** Adding the node for a path below the place where the descent ended. */
  lemma AttachAfter(t: Tree, t1: Tree, op: Op, i: nat, rest: string, originalPath: string)
    requires |t.nodes| == |t.keys| && WellFormed(t1) && KeysGrow(t, t1, op.path) && SameTable(t, t1)
    requires i < |t1.nodes| && t1.keys[i] != "" && t1.keys[i] + rest == op.path && rest != "" && !t1.nodes[i].kind.Any?
    requires op.kind.Static? ==> NoMarkers(rest)
    requires op.kind.Param? ==> rest == ":"
    requires op.kind.Any? ==> rest == "*"
    requires forall c: nat :: t1.nodes[i].HasChild(c) ==> c < |t1.nodes| && t1.nodes[c].initial != rest[0]
    requires if op.rm.handler.Some? then Belongs(op.rm, op.path) else op.rm == NO_ROUTE && !op.kind.Any?
    requires !Inside(t, op.path) && forall m: string, x: RouteMethod :: !Stores(t, op.path, m, x)
    ensures Inserted(t, Attach(t1, i, op.kind, Fresh(op.kind, rest, i, originalPath, op.verb, op.rm)), op)
  {
    FreshFits(op, rest, i, originalPath, t1.keys[i]);
    var n := Fresh(op.kind, rest, i, originalPath, op.verb, op.rm);
    AttachKeeps(t1, i, n);
    var r := Attach(t1, i, op.kind, n);
    assert r.keys[|t1.nodes|] == op.path;
  }

  /** What a split inside the path leaves to do. */
  lemma SplitReaches(t: Tree, op: Op, q: Place, l: nat)
    requires WellFormed(t) && Ready(t, op)
    requires OnPath(t, op.path, q) && !Descends(t, op.path, q)
    requires 0 < l == Lcp(op.path[q.used..], t.nodes[q.at].prefix) < |t.nodes[q.at].prefix|
    ensures op.kind.Static? && NoMarkers(op.path[q.used + l..])
    ensures Splits(t, q.at, l)
    ensures Split(t, q.at, l).keys[q.at] == op.path[..q.used + l]
  {
    SplitFits(t, op, q, l);
    RestFits(t, op, q, l);
    var s, n := op.path[q.used..], t.nodes[q.at];
    assert t.keys[q.at][q.used..] == n.prefix;
    assert n.prefix[..l] == s[..l];
    assert t.keys[q.at][..q.used + l] == op.path[..q.used] + s[..l];
  }

  lemma SplitInserts(t: Tree, op: Op, q: Place, l: nat)
    requires WellFormed(t) && Ready(t, op)
    requires OnPath(t, op.path, q) && !Descends(t, op.path, q)
    requires 0 < l == Lcp(op.path[q.used..], t.nodes[q.at].prefix) < |t.nodes[q.at].prefix|
    requires q.used + l == |op.path|
    ensures Inserted(t, Edit(t, op, q), op)
  {
    SplitReaches(t, op, q, l);
    var t1 := Split(t, q.at, l);
    assert op.path[..q.used + l] == op.path;
    UpperIsEmpty(t, q.at, l);
    SplitInside(t, op, q, l);
    PutAfter(t, t1, op, q.at);
    assert t1.nodes[q.at].(kind := op.kind) == t1.nodes[q.at];
  }

  /** The upper half of a split is a static node without records. */
  lemma UpperIsEmpty(t: Tree, i: nat, l: nat)
    requires Splits(t, i, l)
    ensures var r := Split(t, i, l);
      && WellFormed(r) && KeysGrow(t, r, r.keys[i]) && SameTable(t, r)
      && r.nodes[i].kind.Static? && forall m: string :: r.nodes[i].Record(m).None?
  {
    SplitKeeps(t, i, l);
    forall m: string ensures Split(t, i, l).nodes[i].Record(m).None? {}
  }

  /** The upper half of a split has the lower half as its only child. */
  lemma SplitSibling(t: Tree, i: nat, l: nat, r: Tree, c: char)
    requires Splits(t, i, l) && SplitView(t, i, l, r) && t.nodes[i].prefix[l] != c
    ensures forall d: nat :: r.nodes[i].HasChild(d) ==> d < |r.nodes| && r.nodes[d].initial != c
  {
    forall d: nat | r.nodes[i].HasChild(d) ensures d < |r.nodes| && r.nodes[d].initial != c {
      assert d == |t.nodes|;
    }
  }

  /** A split before the end of the path is where the path forks off. */
  lemma SplitForks(t: Tree, path: string, q: Place, l: nat)
    requires WellFormed(t) && OnPath(t, path, q) && q.used + l < |path|
    requires 0 < l == Lcp(path[q.used..], t.nodes[q.at].prefix) < |t.nodes[q.at].prefix|
    ensures Forks(t, path, path[..q.used + l])
  {
    var s, n, k := path[q.used..], t.nodes[q.at], path[..q.used + l];
    assert t.keys[q.at][q.used..] == n.prefix && t.keys[q.at][..q.used] == path[..q.used];
    assert n.prefix[..l] == s[..l];
    assert k == path[..q.used] + s[..l] == t.keys[q.at][..q.used] + n.prefix[..l];
    assert t.keys[q.at][|k|] == n.prefix[l] != s[l] == path[|k|];
  }

  lemma SplitChildInserts(t: Tree, op: Op, q: Place, l: nat)
    requires WellFormed(t) && Ready(t, op)
    requires OnPath(t, op.path, q) && !Descends(t, op.path, q)
    requires 0 < l == Lcp(op.path[q.used..], t.nodes[q.at].prefix) < |t.nodes[q.at].prefix|
    requires q.used + l < |op.path|
    ensures Inserted(t, Edit(t, op, q), op)
  {
    SplitReaches(t, op, q, l);
    NoRecordYet(t, op, q, l);
    var t1 := Split(t, q.at, l);
    var rest := op.path[q.used..][l..];
    SliceTwice(op.path, q.used, l);
    SplitForks(t, op.path, q, l);
    SplitFrees(t, op.path, q.at, op.path[..q.used + l], l, rest[0]);
    AttachAfter(t, t1, op, q.at, rest, "");
    SplitEdit(t, op, q, l);
  }

  /** What a split at a fork leaves for the new child. */
  lemma SplitFrees(t: Tree, path: string, i: nat, k: string, l: nat, c: char)
    requires Splits(t, i, l) && t.nodes[i].prefix[l] != c
    requires Split(t, i, l).keys[i] == k && Forks(t, path, k)
    ensures WellFormed(Split(t, i, l)) && KeysGrow(t, Split(t, i, l), path) && SameTable(t, Split(t, i, l))
    ensures Split(t, i, l).nodes[i].kind.Static?
    ensures var r := Split(t, i, l); forall d: nat :: r.nodes[i].HasChild(d) ==>
        d < |r.nodes| && r.nodes[d].initial != c
  {
    SplitKeeps(t, i, l);
    SplitSibling(t, i, l, Split(t, i, l), c);
    assert forall x: string :: !Forks(t, k, x) || Forks(t, path, x);
  }

  lemma SplitEdit(t: Tree, op: Op, q: Place, l: nat)
    requires WellFormed(t) && OnPath(t, op.path, q)
    requires 0 < l == Lcp(op.path[q.used..], t.nodes[q.at].prefix) < |t.nodes[q.at].prefix| && q.used + l < |op.path|
    requires Splits(t, q.at, l)
    ensures Edit(t, op, q) ==
      Attach(Split(t, q.at, l), q.at, Static, Fresh(op.kind, op.path[q.used..][l..], q.at, "", op.verb, op.rm))
  {
  }

  /** A node made for an insertion fits the inserted path. */
  lemma FreshFits(op: Op, rest: string, parent: nat, originalPath: string, base: string)
    requires rest != "" && base + rest == op.path
    requires op.kind.Static? ==> NoMarkers(rest)
    requires op.kind.Param? ==> rest == ":"
    requires op.kind.Any? ==> rest == "*"
    requires if op.rm.handler.Some? then Belongs(op.rm, op.path) else op.rm == NO_ROUTE && !op.kind.Any?
    ensures var n := Fresh(op.kind, rest, parent, originalPath, op.verb, op.rm);
            && n.kind == op.kind && n.parent == Some(parent) && n.IsLeafNode() && n.isLeaf
            && n.prefix == rest && n.initial == rest[0] && PrefixOK(n) && Fits(n, op.path)
            && forall m: string :: n.Record(m) == if m == op.verb && op.rm.handler.Some? then Some(op.rm) else None
  {
    var n := NewNode(op.kind, rest, parent, [], originalPath, NO_METHODS, 0, None, None, None);
    assert forall m: string :: n.Record(m).None?;
    RegisterRecord(n, op.verb, op.rm);
    NamesMarkers(op.rm.ppath);
  }

  /** No record is stored for a path whose node does not exist. */
  lemma NoRecordYet(t: Tree, op: Op, q: Place, l: nat)
    requires WellFormed(t) && OnPath(t, op.path, q) && !Descends(t, op.path, q)
    requires 0 < l == Lcp(op.path[q.used..], t.nodes[q.at].prefix) < |op.path| - q.used
    ensures !Inside(t, op.path) && forall m: string, x: RouteMethod :: !Stores(t, op.path, m, x)
  {
    assert op.path[..|op.path|] == op.path;
    forall j: nat | j < |t.keys| ensures !(op.path <= t.keys[j]) {
      NoKeyBeyond(t, op.path, q, |op.path|, j);
    }
  }

  /** A split at the end of the path happens inside an edge. */
  lemma SplitInside(t: Tree, op: Op, q: Place, l: nat)
    requires WellFormed(t) && OnPath(t, op.path, q)
    requires 0 < l == Lcp(op.path[q.used..], t.nodes[q.at].prefix) < |t.nodes[q.at].prefix|
    requires q.used + l == |op.path|
    ensures Inside(t, op.path)
  {
    assert op.path[..|op.path|] == op.path;
    assert op.path == op.path[..q.used] + op.path[q.used..][..l];
    assert op.path < t.keys[q.at];
    if HasKey(t, op.path) {
      var j: nat :| j < |t.keys| && t.keys[j] == op.path;
      Passes(t, op.path, q, |op.path|, j);
    }
  }

  lemma ChildInserts(t: Tree, op: Op, q: Place, l: nat)
    requires WellFormed(t) && Ready(t, op)
    requires OnPath(t, op.path, q) && !Descends(t, op.path, q)
    requires 0 < l == Lcp(op.path[q.used..], t.nodes[q.at].prefix) == |t.nodes[q.at].prefix| < |op.path| - q.used
    ensures Inserted(t, Edit(t, op, q), op)
  {
    ChildFits(t, op, q, l);
    RestFits(t, op, q, l);
    var s := op.path[q.used..];
    SliceTwice(op.path, q.used, l);
    NoRecordYet(t, op, q, l);
    AttachAfter(t, t, op, q.at, s[l..], op.rm.ppath);
  }

  lemma PutInserts(t: Tree, op: Op, q: Place)
    requires WellFormed(t) && Ready(t, op) && OnPath(t, op.path, q)
    requires t.nodes[q.at].prefix == op.path[q.used..]
    ensures Inserted(t, Edit(t, op, q), op)
  {
    var n := t.nodes[q.at];
    assert Lcp(op.path[q.used..], n.prefix) == |n.prefix|;
    assert t.keys[q.at] == op.path;
    assert NodeOK(t, q.at);
    assert HasKey(t, op.path);
    if op.rm.handler.Some? {
      PutRegisters(t, op, q.at);
      assert Edit(t, op, q) == Put(t, q.at, Register(n, op.verb, op.rm));
    } else {
      assert Edit(t, op, q) == t;
    }
  }

  lemma PutRegisters(t: Tree, op: Op, i: nat)
    requires WellFormed(t) && Ready(t, op) && i < |t.nodes| && t.keys[i] == op.path && op.rm.handler.Some?
    ensures Inserted(t, Put(t, i, Register(t.nodes[i], op.verb, op.rm)), op)
  {
    var n := t.nodes[i];
    assert NodeOK(t, i);
    assert HasKey(t, op.path);
    RegisterRecord(n, op.verb, op.rm);
    RegisterFits(n, op.path, op.verb, op.rm);
    PutKeeps(t, i, Register(n, op.verb, op.rm));
    forall m: string, x: RouteMethod
      ensures Stores(t, op.path, m, x) <==> n.Record(m) == Some(x)
    {
      StoresUnique(t, op.path, m, x, i);
    }
  }

  lemma SameButMaxParam(t: Tree, n: nat)
    requires WellFormed(t)
    ensures var r := t.(maxParam := n);
            && WellFormed(r)
            && (forall k: string :: HasKey(r, k) <==> HasKey(t, k))
            && (forall k: string, m: string, x: RouteMethod :: Stores(r, k, m, x) <==> Stores(t, k, m, x))
  {
    var r := t.(maxParam := n);
    forall p: nat, c: nat | p < |r.nodes| && r.nodes[p].HasChild(c) ensures Below(r, p, c) {
      assert Below(t, p, c);
    }
    forall i: nat | i < |r.nodes| ensures NodeOK(r, i) {
      assert NodeOK(t, i);
      forall a: nat, b: nat | a < b < |r.nodes[i].statics| ensures Differ(r, r.nodes[i].statics[a],
          r.nodes[i].statics[b]) {
        assert Differ(t, t.nodes[i].statics[a], t.nodes[i].statics[b]);
      }
    }
  }

  lemma EditInserts(t: Tree, op: Op, q: Place)
    requires WellFormed(t) && Ready(t, op)
    requires OnPath(t, op.path, q) && !Descends(t, op.path, q)
    ensures Inserted(t, Edit(t, op, q), op)
  {
    var s, pre := op.path[q.used..], t.nodes[q.at].prefix;
    var l := Lcp(s, pre);
    if l == 0 {
      FillInserts(t, op, q);
    } else if l < |pre| {
      if l == |s| {
        SplitInserts(t, op, q, l);
      } else {
        SplitChildInserts(t, op, q, l);
      }
    } else if l < |s| {
      ChildInserts(t, op, q, l);
    } else {
      assert s == s[..l] == pre[..l] == pre;
      PutInserts(t, op, q);
    }
  }

  lemma EditMaxParam(t: Tree, op: Op, q: Place)
    requires Shape(t) && OnPath(t, op.path, q)
    ensures Edit(t, op, q).maxParam == t.maxParam
  {}

  /** Insertion refines a table update: an insertion with a handler sets exactly its own entry; one
      without a handler sets none, but for the empty record that a split leaves; and the tree stays well
      formed. */
  lemma InsertKeeps(t: Tree, op: Op)
    requires WellFormed(t) && Ready(t, op)
    ensures Inserted(t, Insert(t, op), op)
    ensures Insert(t, op).maxParam == Max(t.maxParam, |op.rm.pnames|)
  {
    var t0 := t.(maxParam := Max(t.maxParam, |op.rm.pnames|));
    SameButMaxParam(t, t0.maxParam);
    assert Ready(t0, op);
    ReadyStarts(t0, op);
    var q := Walk(t0, op.path, Place(0, 0));
    WalkEnds(t0, op.path, Place(0, 0));
    EditInserts(t0, op, q);
    EditMaxParam(t0, op, q);
    InsertedToo(t, t0, Edit(t0, op, q), op);
  }

  lemma InsertedToo(t: Tree, t0: Tree, b: Tree, op: Op)
    requires Inserted(t0, b, op) && t0 == t.(maxParam := t0.maxParam)
    ensures Inserted(t, b, op)
  {
    assert forall k: string :: HasKey(t, k) <==> HasKey(t0, k);
    assert forall k: string :: Forks(t, op.path, k) <==> Forks(t0, op.path, k);
    assert forall k: string, m: string, x: RouteMethod :: Stores(t, k, m, x) <==> Stores(t0, k, m, x);
  }
}
