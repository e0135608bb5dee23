/** The path that a node was last registered with, which a search reports when only the path of a node matches. */
module RouteTitles {
  import opened Options
  import opened Text
  import opened RouteTree
  import opened RouteInsert
  import opened RouteEdits
  import opened RouteAdd

  /** The node of a key has this original path. */
  ghost predicate Titles(t: Tree, k: string, o: string)
    requires |t.nodes| == |t.keys|
  {
    exists i: nat :: i < |t.nodes| && t.keys[i] == k && t.nodes[i].originalPath == o
  }

  /** The original path of a key after an edit that sets that of `p`, if it sets any. */
  ghost predicate TitleAfter(a: Tree, k: string, o: string, p: string, w: Option<string>)
    requires |a.nodes| == |a.keys|
  {
    if k == p && w.Some? then o == w.value
    else if HasKey(a, k) then Titles(a, k, o)
    else o == ""
  }

  /** Original paths are kept, but for the one that is set, and new nodes have none. */
  ghost predicate Titled(a: Tree, b: Tree, p: string, w: Option<string>)
    requires |a.nodes| == |a.keys| && |b.nodes| == |b.keys|
  {
    forall k: string, o: string :: k != "" ==> (Titles(b, k, o) <==> HasKey(b, k) && TitleAfter(a, k, o, p, w))
  }

  /** What an insertion sets: the pattern of its record, when it has a handler. */
  function Title(rm: RouteMethod): Option<string> {
    if rm.handler.Some? then Some(rm.ppath) else None
  }

  lemma TitleIs(t: Tree, i: nat, o: string)
    requires WellFormed(t) && i < |t.nodes|
    ensures Titles(t, t.keys[i], o) <==> t.nodes[i].originalPath == o
  {
    if Titles(t, t.keys[i], o) {
      var j: nat :| j < |t.nodes| && t.keys[j] == t.keys[i] && t.nodes[j].originalPath == o;
      KeysInjective(t, i, j);
    }
  }

  lemma PutTitled(t: Tree, i: nat, n: Node, k: string, o: string)
    requires WellFormed(t) && i < |t.nodes|
    ensures Titles(Put(t, i, n), k, o) <==> if k == t.keys[i] then o == n.originalPath else Titles(t, k, o)
  {
    var r := Put(t, i, n);
    if k == t.keys[i] {
      assert r.keys[i] == k && r.nodes[i].originalPath == n.originalPath;
      if Titles(r, k, o) {
        var j: nat :| j < |r.nodes| && r.keys[j] == k && r.nodes[j].originalPath == o;
        KeysInjective(t, i, j);
      }
    } else {
      if Titles(t, k, o) {
        var j: nat :| j < |t.nodes| && t.keys[j] == k && t.nodes[j].originalPath == o;
        assert r.nodes[j].originalPath == o;
      }
      if Titles(r, k, o) {
        var j: nat :| j < |r.nodes| && r.keys[j] == k && r.nodes[j].originalPath == o;
        assert t.nodes[j].originalPath == o;
      }
    }
  }

  lemma SplitTitled(t: Tree, i: nat, l: nat, k: string, o: string)
    requires Splits(t, i, l)
    ensures !HasKey(t, Split(t, i, l).keys[i])
    ensures Titles(Split(t, i, l), k, o) <==> Titles(t, k, o) || (k == Split(t, i, l).keys[i] && o == "")
  {
    SplitKeeps(t, i, l);
    var r := Split(t, i, l);
    if HasKey(t, r.keys[i]) {
      var j: nat :| j < |t.keys| && t.keys[j] == r.keys[i];
      KeysInjective(r, i, if j == i then |t.nodes| else j);
    }
    if Titles(t, k, o) {
      var j: nat :| j < |t.nodes| && t.keys[j] == k && t.nodes[j].originalPath == o;
      var j' := if j == i then |t.nodes| else j;
      assert r.keys[j'] == k && r.nodes[j'].originalPath == o;
    }
    if Titles(r, k, o) {
      var j: nat :| j < |r.nodes| && r.keys[j] == k && r.nodes[j].originalPath == o;
      if j != i {
        var j' := if j == |t.nodes| then i else j;
        assert t.keys[j'] == k && t.nodes[j'].originalPath == o;
      }
    }
    assert r.nodes[i].originalPath == "";
  }

  lemma AttachTitled(t: Tree, i: nat, slot: Kind, n: Node, k: string, o: string)
    requires i < |t.nodes| == |t.keys|
    ensures Titles(Attach(t, i, slot, n), k, o) <==>
        Titles(t, k, o) || (k == t.keys[i] + n.prefix && o == n.originalPath)
  {
    var r := Attach(t, i, slot, n);
    if Titles(t, k, o) {
      var j: nat :| j < |t.nodes| && t.keys[j] == k && t.nodes[j].originalPath == o;
      assert r.keys[j] == k && r.nodes[j].originalPath == o;
    }
    if Titles(r, k, o) {
      var j: nat :| j < |r.nodes| && r.keys[j] == k && r.nodes[j].originalPath == o;
      if j < |t.nodes| {
        assert t.keys[j] == k && t.nodes[j].originalPath == o;
      }
    }
    assert r.keys[|t.nodes|] == t.keys[i] + n.prefix && r.nodes[|t.nodes|].originalPath == n.originalPath;
  }

  lemma FreshTitle(kind: Kind, prefix: string, parent: nat, originalPath: string, verb: string, rm: RouteMethod)
    requires prefix != ""
    ensures var n := Fresh(kind, prefix, parent, originalPath, verb, rm);
      n.prefix == prefix && n.originalPath == if rm.handler.Some? then rm.ppath else originalPath
  {
  }

  /** What an insertion does to a tree, with the original paths. */
  ghost predicate Entered(a: Tree, b: Tree, op: Op) {
    Inserted(a, b, op) && Titled(a, b, op.path, Title(op.rm))
  }

  lemma FillTitled(t: Tree, op: Op, q: Place)
    requires WellFormed(t) && Ready(t, op) && OnPath(t, op.path, q)
    requires Lcp(op.path[q.used..], t.nodes[q.at].prefix) == 0
    ensures Titled(t, Edit(t, op, q), op.path, Title(op.rm))
  {
    FillFits(t, op, q);
    var r := Edit(t, op, q);
    assert op.path[0..] == op.path;
    assert NodeOK(t, 0);
    assert r.keys == [op.path] && r.nodes[0].originalPath == if op.rm.handler.Some? then op.rm.ppath else "";
    forall k: string, o: string | k != ""
      ensures Titles(r, k, o) <==> HasKey(r, k) && TitleAfter(t, k, o, op.path, Title(op.rm))
    {
      assert Titles(r, k, o) <==> r.keys[0] == k && r.nodes[0].originalPath == o;
      assert HasKey(r, k) <==> r.keys[0] == k;
    }
  }

  lemma PutOver(t: Tree, op: Op, i: nat, n: Node)
    requires WellFormed(t) && i < |t.nodes| && t.keys[i] == op.path
    requires n.originalPath == if op.rm.handler.Some? then op.rm.ppath else t.nodes[i].originalPath
    ensures Titled(t, Put(t, i, n), op.path, Title(op.rm))
  {
    var r := Put(t, i, n);
    forall k: string, o: string | k != ""
      ensures Titles(r, k, o) <==> HasKey(r, k) && TitleAfter(t, k, o, op.path, Title(op.rm))
    {
      PutTitled(t, i, n, k, o);
      TitleIs(t, i, o);
      assert HasKey(r, k) <==> HasKey(t, k);
    }
  }

  /** The upper half of a split gets the record. */
  lemma SplitOver(t: Tree, op: Op, i: nat, l: nat, n: Node)
    requires Splits(t, i, l) && Split(t, i, l).keys[i] == op.path && n.originalPath == op.rm.ppath
    requires op.rm.handler.None? ==> op.rm == NO_ROUTE
    ensures Titled(t, Put(Split(t, i, l), i, n), op.path, Title(op.rm))
  {
    SplitKeeps(t, i, l);
    var t1 := Split(t, i, l);
    var r := Put(t1, i, n);
    forall k: string, o: string | k != ""
      ensures Titles(r, k, o) <==> HasKey(r, k) && TitleAfter(t, k, o, op.path, Title(op.rm))
    {
      PutTitled(t1, i, n, k, o);
      SplitTitled(t, i, l, k, o);
      SplitHasKey(t, i, l, k);
      assert HasKey(r, k) <==> HasKey(t1, k);
    }
  }

  lemma SplitHasKey(t: Tree, i: nat, l: nat, k: string)
    requires Splits(t, i, l)
    ensures HasKey(Split(t, i, l), k) <==> HasKey(t, k) || k == Split(t, i, l).keys[i]
  {
    SplitKeeps(t, i, l);
    var r := Split(t, i, l);
    if HasKey(t, k) {
      var j: nat :| j < |t.keys| && t.keys[j] == k;
      assert r.keys[if j == i then |t.nodes| else j] == k;
    }
    if HasKey(r, k) {
      var j: nat :| j < |r.keys| && r.keys[j] == k;
      assert j != i ==> t.keys[if j == |t.nodes| then i else j] == k;
    }
  }

  lemma AttachHasKey(t: Tree, i: nat, slot: Kind, n: Node, k: string)
    requires i < |t.nodes| == |t.keys|
    ensures HasKey(Attach(t, i, slot, n), k) <==> HasKey(t, k) || k == t.keys[i] + n.prefix
  {
    var r := Attach(t, i, slot, n);
    if HasKey(t, k) {
      var j: nat :| j < |t.keys| && t.keys[j] == k;
      assert r.keys[j] == k;
    }
    assert r.keys[|t.nodes|] == t.keys[i] + n.prefix;
  }

  /** A new child gets the record. */
  lemma AttachOver(t: Tree, op: Op, i: nat, slot: Kind, n: Node)
    requires i < |t.nodes| == |t.keys| && t.keys[i] + n.prefix == op.path && !HasKey(t, op.path)
    requires n.originalPath == op.rm.ppath && (op.rm.handler.None? ==> op.rm == NO_ROUTE)
    ensures Titled(t, Attach(t, i, slot, n), op.path, Title(op.rm))
  {
    var r := Attach(t, i, slot, n);
    forall k: string, o: string | k != ""
      ensures Titles(r, k, o) <==> HasKey(r, k) && TitleAfter(t, k, o, op.path, Title(op.rm))
    {
      AttachTitled(t, i, slot, n, k, o);
      AttachHasKey(t, i, slot, n, k);
    }
  }

  /** One edit after another. */
  lemma TitledThen(a: Tree, b: Tree, c: Tree, p: string, w: Option<string>, q: string, v: Option<string>)
    requires |a.nodes| == |a.keys| && |b.nodes| == |b.keys| && |c.nodes| == |c.keys|
    requires Titled(a, b, p, w) && Titled(b, c, q, v) && (w.None? || (p == q && v.Some?))
    requires forall k: string :: HasKey(a, k) && k != "" ==> HasKey(b, k)
    ensures Titled(a, c, q, v)
  {
    forall k: string, o: string | k != ""
      ensures Titles(c, k, o) <==> HasKey(c, k) && TitleAfter(a, k, o, q, v)
    {
      assert Titles(b, k, o) <==> HasKey(b, k) && TitleAfter(a, k, o, p, w);
    }
  }

  lemma SplitChildTitled(t: Tree, op: Op, q: Place, l: nat)
    requires WellFormed(t) && Ready(t, op)
    requires OnPath(t, op.path, q) && !Descends(t, op.path, q)
    requires 0 < l == Lcp(op.path[q.used..], t.nodes[q.at].prefix) < |t.nodes[q.at].prefix|
    requires q.used + l < |op.path|
    ensures Titled(t, Edit(t, op, q), op.path, Title(op.rm))
  {
    SplitReaches(t, op, q, l);
    NoRecordYet(t, op, q, l);
    SliceTwice(op.path, q.used, l);
    SplitEdit(t, op, q, l);
    SplitKeeps(t, q.at, l);
    var t1, rest := Split(t, q.at, l), op.path[q.used..][l..];
    FreshTitle(op.kind, rest, q.at, "", op.verb, op.rm);
    NotYet(t, op, q, l);
    SplitHasKey(t, q.at, l, op.path);
    SplitNone(t, op, q.at, l);
    AttachOver(t1, op, q.at, Static, Fresh(op.kind, rest, q.at, "", op.verb, op.rm));
    TitledThen(t, t1, Edit(t, op, q), t1.keys[q.at], None, op.path, Title(op.rm));
  }

  /** A split by itself. */
  lemma SplitNone(t: Tree, op: Op, i: nat, l: nat)
    requires Splits(t, i, l)
    ensures Titled(t, Split(t, i, l), Split(t, i, l).keys[i], None)
    ensures forall k: string :: HasKey(t, k) ==> HasKey(Split(t, i, l), k)
  {
    var r := Split(t, i, l);
    forall k: string, o: string | k != ""
      ensures Titles(r, k, o) <==> HasKey(r, k) && TitleAfter(t, k, o, r.keys[i], None)
    {
      SplitTitled(t, i, l, k, o);
      SplitHasKey(t, i, l, k);
    }
    forall k: string | HasKey(t, k) ensures HasKey(r, k) {
      SplitHasKey(t, i, l, k);
    }
  }

  /** A path that leaves the tree before its end has no node. */
  lemma NotYet(t: Tree, op: Op, q: Place, l: nat)
    requires WellFormed(t) && OnPath(t, op.path, q) && !Descends(t, op.path, q)
    requires 0 < l == Lcp(op.path[q.used..], t.nodes[q.at].prefix) < |op.path| - q.used
    ensures !HasKey(t, op.path)
  {
    assert op.path[..|op.path|] == op.path;
    forall j: nat | j < |t.keys| ensures t.keys[j] != op.path {
      NoKeyBeyond(t, op.path, q, |op.path|, j);
    }
  }

  lemma EditTitled(t: Tree, op: Op, q: Place)
    requires WellFormed(t) && Ready(t, op)
    requires OnPath(t, op.path, q) && !Descends(t, op.path, q)
    ensures Titled(t, Edit(t, op, q), op.path, Title(op.rm))
  {
    var s, n := op.path[q.used..], t.nodes[q.at];
    var l := Lcp(s, n.prefix);
    if l == 0 {
      FillTitled(t, op, q);
    } else if l < |n.prefix| {
      if l == |s| {
        SplitReaches(t, op, q, l);
        assert op.path[..q.used + l] == op.path;
        SplitOver(t, op, q.at, l, Register(Split(t, q.at, l).nodes[q.at].(kind := op.kind), op.verb, op.rm));
      } else {
        SplitChildTitled(t, op, q, l);
      }
    } else if l < |s| {
      RestFits(t, op, q, l);
      SliceTwice(op.path, q.used, l);
      NotYet(t, op, q, l);
      FreshTitle(op.kind, s[l..], q.at, op.rm.ppath, op.verb, op.rm);
      ChildKey(t, op.path, q, l);
      AttachOver(t, op, q.at, op.kind, Fresh(op.kind, s[l..], q.at, op.rm.ppath, op.verb, op.rm));
    } else {
      assert s == s[..l] == n.prefix[..l] == n.prefix;
      assert t.keys[q.at] == op.path[..q.used] + n.prefix == op.path;
      PutOver(t, op, q.at, RegisterIfHandled(n, op.verb, op.rm));
    }
  }

  lemma ChildKey(t: Tree, path: string, q: Place, l: nat)
    requires Shape(t) && OnPath(t, path, q)
    requires l == Lcp(path[q.used..], t.nodes[q.at].prefix) == |t.nodes[q.at].prefix|
    ensures t.keys[q.at] + path[q.used..][l..] == path
  {
    var s := path[q.used..];
    assert s == s[..l] + s[l..] && s[..l] == t.nodes[q.at].prefix;
    assert path == path[..q.used] + s;
    assert t.keys[q.at] == path[..q.used] + t.nodes[q.at].prefix;
  }

  /** An insertion with a handler gives its node the pattern as its original path, one without gives none. */
  lemma InsertEnters(t: Tree, op: Op)
    requires WellFormed(t) && Ready(t, op)
    ensures Entered(t, Insert(t, op), op)
    ensures Insert(t, op).maxParam == Max(t.maxParam, |op.rm.pnames|)
  {
    InsertKeeps(t, op);
    var t0 := t.(maxParam := Max(t.maxParam, |op.rm.pnames|));
    SameButMaxParam(t, t0.maxParam);
    assert Ready(t0, op);
    ReadyStarts(t0, op);
    var q := Walk(t0, op.path, Place(0, 0));
    WalkEnds(t0, op.path, Place(0, 0));
    EditTitled(t0, op, q);
    TitledToo(t, t0, Edit(t0, op, q), op);
  }

  lemma TitledToo(t: Tree, t0: Tree, b: Tree, op: Op)
    requires |t.nodes| == |t.keys| && |b.nodes| == |b.keys| && t0 == t.(maxParam := t0.maxParam)
    requires Titled(t0, b, op.path, Title(op.rm))
    ensures Titled(t, b, op.path, Title(op.rm))
  {
    assert forall k: string :: HasKey(t, k) <==> HasKey(t0, k);
    assert forall k: string, o: string :: Titles(t, k, o) <==> Titles(t0, k, o);
  }
}
