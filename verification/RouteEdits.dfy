/** Every edit that an insertion makes keeps the tree well formed and changes the table as it should. */
module RouteEdits {
  import opened Options
  import opened Text
  import opened RouteTree
  import opened RouteInsert

  /** Path `p` and some key go on differently after `k`. */
  ghost predicate Forks(t: Tree, p: string, k: string) {
    k < p && exists j: nat :: j < |t.keys| && k < t.keys[j] && t.keys[j][|k|] != p[|k|]
  }

  /** The keys of `a` are kept, but for the empty key of a new root, and new keys are `path` itself and where it
      forks off. */
  ghost predicate KeysGrow(a: Tree, b: Tree, path: string) {
    && (forall k: string :: HasKey(a, k) && k != "" ==> HasKey(b, k))
    && (forall k: string :: HasKey(b, k) ==> HasKey(a, k) || k == path || Forks(a, path, k))
  }

  ghost predicate SameTable(a: Tree, b: Tree)
    requires |a.nodes| == |a.keys| && |b.nodes| == |b.keys|
  {
    forall k: string, m: string, r: RouteMethod :: Stores(a, k, m, r) <==> Stores(b, k, m, r)
  }

  // Splitting

  /** The conditions of a split. */
  ghost predicate Splits(t: Tree, i: nat, l: nat) {
    && WellFormed(t) && i < |t.nodes| && t.nodes[i].kind.Static? && 0 < l < |t.nodes[i].prefix|
    && |t.nodes[i].prefix| <= |t.keys[i]|
    && t.keys[i][|t.keys[i]| - |t.nodes[i].prefix|..] == t.nodes[i].prefix
  }

  /** Tree `r` is `t` with node `i` split after `l` bytes, node by node. */
  ghost predicate SplitView(t: Tree, i: nat, l: nat, r: Tree)
    requires Splits(t, i, l)
  {
    var c := |t.nodes|;
    && |r.nodes| == |r.keys| == c + 1
    && r.nodes[i] == Upper(t.nodes[i], l, c)
    && r.nodes[c] == Lower(t.nodes[i], i, l)
    && r.keys[c] == t.keys[i]
    && r.keys[i] == t.keys[i][..|t.keys[i]| - |t.nodes[i].prefix| + l]
    && (forall k: nat :: k < c && k != i ==> r.keys[k] == t.keys[k])
    && (forall k: nat :: k < c && k != i ==>
          r.nodes[k] == if t.nodes[k].parent == Some(i) then t.nodes[k].(parent := Some(c)) else t.nodes[k])
  }

  lemma SplitNodes(t: Tree, i: nat, l: nat)
    requires Splits(t, i, l)
    ensures SplitView(t, i, l, Split(t, i, l))
  {
    forall k: nat | k < |t.nodes| && k != i
      ensures t.nodes[i].HasChild(k) <==> t.nodes[k].parent == Some(i)
    {
      assert NodeOK(t, i) && NodeOK(t, k);
      if t.nodes[i].HasChild(k) {
        if k in t.nodes[i].statics {
          assert t.nodes[i].HasChildOfKind(Static, k);
        } else if t.nodes[i].param == Some(k) {
          assert t.nodes[i].HasChildOfKind(Param, k);
        } else {
          assert t.nodes[i].HasChildOfKind(Any, k);
        }
      }
    }
  }

  lemma SplitShape(t: Tree, i: nat, l: nat, r: Tree)
    requires Splits(t, i, l) && SplitView(t, i, l, r)
    ensures Shape(r)
  {
    forall p: nat, c: nat | p < |r.nodes| && r.nodes[p].HasChild(c) ensures Below(r, p, c) {
      if p == i {
        assert c == |t.nodes|;
        assert r.keys[i] + t.nodes[i].prefix[l..] == t.keys[i];
      } else {
        var q := if p == |t.nodes| then i else p;
        assert t.nodes[q].HasChild(c) && Below(t, q, c);
        if c == i {
          assert q != i;
          assert r.keys[i] == t.keys[q] + t.nodes[i].prefix[..l];
        }
      }
    }
  }

  lemma SplitLowerOK(t: Tree, i: nat, l: nat, r: Tree)
    requires Splits(t, i, l) && SplitView(t, i, l, r)
    ensures NodeOK(r, |t.nodes|)
  {
    assert NodeOK(t, i);
    var c := |t.nodes|;
    assert r.nodes[i].HasChildOfKind(Static, c);
    forall m: string ensures r.nodes[c].Record(m) == t.nodes[i].Record(m) {}
    forall k: Kind, d: nat | r.nodes[c].HasChildOfKind(k, d)
      ensures d < |r.nodes| && r.nodes[d].kind == k && r.nodes[d].parent == Some(c)
    {
      assert t.nodes[i].HasChildOfKind(k, d) && t.nodes[i].HasChild(d) && Below(t, i, d);
    }
    forall a: nat, b: nat | a < b < |r.nodes[c].statics|
      ensures Differ(r, r.nodes[c].statics[a], r.nodes[c].statics[b])
    {
      assert Differ(t, t.nodes[i].statics[a], t.nodes[i].statics[b]);
      assert t.nodes[i].HasChild(t.nodes[i].statics[a]) && t.nodes[i].HasChild(t.nodes[i].statics[b]);
    }
  }

  lemma SplitUpperOK(t: Tree, i: nat, l: nat, r: Tree)
    requires Splits(t, i, l) && SplitView(t, i, l, r)
    ensures NodeOK(r, i)
  {
    assert NodeOK(t, i);
    forall m: string ensures r.nodes[i].Record(m).None? {}
    if i != 0 {
      var p := ParentBelow(t, i);
      assert r.nodes[p].HasChildOfKind(Static, i);
    }
  }

  lemma SplitOtherChildren(t: Tree, i: nat, l: nat, r: Tree, k: nat)
    requires Splits(t, i, l) && SplitView(t, i, l, r) && k < |t.nodes| && k != i
    ensures ChildrenOK(r, k)
  {
    assert NodeOK(t, i) && NodeOK(t, k);
    forall x: Kind, d: nat | r.nodes[k].HasChildOfKind(x, d)
      ensures d < |r.nodes| && r.nodes[d].kind == x && r.nodes[d].parent == Some(k)
    {
      assert t.nodes[k].HasChildOfKind(x, d);
    }
    forall a: nat, b: nat | a < b < |r.nodes[k].statics|
      ensures Differ(r, r.nodes[k].statics[a], r.nodes[k].statics[b])
    {
      assert Differ(t, t.nodes[k].statics[a], t.nodes[k].statics[b]);
      assert t.nodes[k].HasChild(t.nodes[k].statics[a]) && t.nodes[k].HasChild(t.nodes[k].statics[b]);
    }
  }

  lemma SplitOtherOK(t: Tree, i: nat, l: nat, r: Tree, k: nat)
    requires Splits(t, i, l) && SplitView(t, i, l, r) && k < |t.nodes| && k != i
    ensures NodeOK(r, k)
  {
    assert NodeOK(t, i) && NodeOK(t, k);
    assert RecordsOK(r.nodes[k], r.keys[k]) by {
      forall m: string ensures r.nodes[k].Record(m) == t.nodes[k].Record(m) {}
    }
    SplitOtherChildren(t, i, l, r, k);
    assert ParentOK(r, k);
  }

  lemma SplitRecord(t: Tree, i: nat, l: nat, r: Tree, j: nat, m: string)
    requires Splits(t, i, l) && SplitView(t, i, l, r) && j < |t.nodes|
    ensures j != i ==> r.nodes[j].Record(m) == t.nodes[j].Record(m)
    ensures r.nodes[i].Record(m).None? && r.nodes[|t.nodes|].Record(m) == t.nodes[i].Record(m)
  {}

  lemma SplitStores(t: Tree, i: nat, l: nat, r: Tree, k: string, m: string, x: RouteMethod)
    requires Splits(t, i, l) && SplitView(t, i, l, r)
    ensures Stores(t, k, m, x) <==> Stores(r, k, m, x)
  {
    if Stores(t, k, m, x) {
      var j: nat :| j < |t.nodes| && t.keys[j] == k && t.nodes[j].Record(m) == Some(x);
      SplitRecord(t, i, l, r, j, m);
      assert r.nodes[if j == i then |t.nodes| else j].Record(m) == Some(x);
    }
    if Stores(r, k, m, x) {
      var j: nat :| j < |r.nodes| && r.keys[j] == k && r.nodes[j].Record(m) == Some(x);
      var j' := if j == |t.nodes| then i else j;
      SplitRecord(t, i, l, r, j', m);
      assert t.nodes[j'].Record(m) == Some(x);
    }
  }

  /** A split keeps the tree well formed and its table as it was; it adds the key of its upper half. */
  lemma SplitKeeps(t: Tree, i: nat, l: nat)
    requires Splits(t, i, l)
    ensures WellFormed(Split(t, i, l))
    ensures SplitView(t, i, l, Split(t, i, l))
    ensures KeysGrow(t, Split(t, i, l), Split(t, i, l).keys[i])
    ensures SameTable(t, Split(t, i, l))
  {
    var r := Split(t, i, l);
    SplitNodes(t, i, l);
    SplitShape(t, i, l, r);
    forall k: string, m: string, x: RouteMethod ensures Stores(t, k, m, x) <==> Stores(r, k, m, x) {
      SplitStores(t, i, l, r, k, m, x);
    }
    forall k: nat | k < |r.nodes| ensures NodeOK(r, k) {
      if k == i {
        SplitUpperOK(t, i, l, r);
      } else if k == |t.nodes| {
        SplitLowerOK(t, i, l, r);
      } else {
        SplitOtherOK(t, i, l, r, k);
      }
    }
    forall k: string | HasKey(t, k) ensures HasKey(r, k) {
      var j: nat :| j < |t.keys| && t.keys[j] == k;
      assert r.keys[if j == i then |t.nodes| else j] == k;
    }
  }

  // Storing a record

  /** Two records of a node that differ in what is stored there only. */
  ghost predicate SameLinks(a: Node, b: Node) {
    b == a.(methods := b.methods, isHandler := b.isHandler, notFound := b.notFound, paramsCount := b.paramsCount,
        originalPath := b.originalPath)
  }

  /** The contents of a node fit its key. */
  ghost predicate Fits(n: Node, key: string) {
    && n.isHandler == n.methods.IsHandler()
    && (n.kind.Any? ==> n.paramsCount == Markers(key))
    && RecordsOK(n, key)
  }

  /** Storing a record overwrites the entry for its method; a custom method without a handler is deleted. */
  lemma RegisterRecord(n: Node, verb: string, rm: RouteMethod)
    ensures SameLinks(n, Register(n, verb, rm))
    ensures n.isHandler == n.methods.IsHandler() ==>
        Register(n, verb, rm).isHandler == Register(n, verb, rm).methods.IsHandler()
    ensures forall m: string :: Register(n, verb, rm).Record(m) ==
                                if m != verb then n.Record(m)
                                else if rm.handler.None? && !Special(verb) then None
                                else Some(rm)
  {
    SetGets(n.methods, verb, rm);
    RegisterLinks(n, verb, rm);
  }

  lemma SetGets(ms: RouteMethods, verb: string, rm: RouteMethod)
    ensures forall m: string :: ms.Set(verb, rm).Get(m) ==
                                if m != verb then ms.Get(m)
                                else if rm.handler.None? && !BuiltIn(verb) then None
                                else Some(rm)
  {
  }

  lemma RegisterLinks(n: Node, verb: string, rm: RouteMethod)
    ensures SameLinks(n, Register(n, verb, rm))
    ensures n.isHandler == n.methods.IsHandler() ==>
        Register(n, verb, rm).isHandler == Register(n, verb, rm).methods.IsHandler()
  {
  }

  lemma RegisterFits(n: Node, key: string, verb: string, rm: RouteMethod)
    requires Fits(n, key)
    requires rm.handler.Some? ==> Belongs(rm, key)
    requires n.kind.Any? ==> rm.handler.Some?
    ensures Fits(Register(n, verb, rm), key)
  {
    RegisterRecord(n, verb, rm);
    NamesMarkers(rm.ppath);
  }

  lemma PutNodeOK(t: Tree, i: nat, n: Node, k: nat)
    requires WellFormed(t) && i < |t.nodes| && k < |t.nodes| && t.keys[i] != ""
    requires SameLinks(t.nodes[i], n) && Fits(n, t.keys[i])
    ensures NodeOK(Put(t, i, n), k)
  {
    var r := Put(t, i, n);
    assert NodeOK(t, k);
    forall a: nat, b: nat | a < b < |r.nodes[k].statics| ensures Differ(r, r.nodes[k].statics[a],
        r.nodes[k].statics[b]) {
      assert Differ(t, t.nodes[k].statics[a], t.nodes[k].statics[b]);
    }
    forall x: Kind, d: nat | r.nodes[k].HasChildOfKind(x, d)
      ensures d < |r.nodes| && r.nodes[d].kind == x && r.nodes[d].parent == Some(k)
    {
      assert t.nodes[k].HasChildOfKind(x, d);
    }
  }

  lemma PutKeeps(t: Tree, i: nat, n: Node)
    requires WellFormed(t) && i < |t.nodes| && t.keys[i] != ""
    requires SameLinks(t.nodes[i], n) && Fits(n, t.keys[i])
    ensures WellFormed(Put(t, i, n))
    ensures forall k: string, m: string, x: RouteMethod ::
              Stores(Put(t, i, n), k, m, x) <==>
              if k == t.keys[i] then n.Record(m) == Some(x) else Stores(t, k, m, x)
  {
    var r := Put(t, i, n);
    assert forall p: nat, c: nat :: p < |r.nodes| && r.nodes[p].HasChild(c) ==> t.nodes[p].HasChild(c);
    forall p: nat, c: nat | p < |r.nodes| && r.nodes[p].HasChild(c) ensures Below(r, p, c) {
      assert Below(t, p, c);
    }
    forall k: nat | k < |r.nodes| ensures NodeOK(r, k) {
      PutNodeOK(t, i, n, k);
    }
    forall k: string, m: string, x: RouteMethod
      ensures Stores(r, k, m, x) <==>
              if k == t.keys[i] then n.Record(m) == Some(x) else Stores(t, k, m, x)
    {
      if k == t.keys[i] {
        StoresUnique(r, k, m, x, i);
      } else {
        if Stores(t, k, m, x) {
          var j: nat :| j < |t.nodes| && t.keys[j] == k && t.nodes[j].Record(m) == Some(x);
          assert r.nodes[j].Record(m) == Some(x);
        }
        if Stores(r, k, m, x) {
          var j: nat :| j < |r.nodes| && r.keys[j] == k && r.nodes[j].Record(m) == Some(x);
          assert t.nodes[j].Record(m) == Some(x);
        }
      }
    }
  }

  // Adding a child

  /** Node `n` can become a child of node `i`. */
  ghost predicate Attaches(t: Tree, i: nat, n: Node) {
    && WellFormed(t) && i < |t.nodes| && t.keys[i] != "" && !t.nodes[i].kind.Any?
    && n.parent == Some(i) && n.IsLeafNode() && n.isLeaf
    && n.prefix != "" && n.initial == n.prefix[0] && PrefixOK(n) && Fits(n, t.keys[i] + n.prefix)
    && forall c: nat :: t.nodes[i].HasChild(c) ==> c < |t.nodes| && t.nodes[c].initial != n.initial
  }

  ghost predicate AttachView(t: Tree, i: nat, n: Node, r: Tree)
    requires Attaches(t, i, n)
  {
    var c := |t.nodes|;
    && |r.nodes| == |r.keys| == c + 1
    && r.nodes[i] == Link(t.nodes[i], n.kind, c)
    && r.nodes[c] == n
    && r.keys[c] == t.keys[i] + n.prefix
    && (forall k: nat :: k < c ==> r.keys[k] == t.keys[k])
    && (forall k: nat :: k < c && k != i ==> r.nodes[k] == t.nodes[k])
  }

  /** The slot for the new child was free. */
  lemma AttachFree(t: Tree, i: nat, n: Node)
    requires Attaches(t, i, n)
    ensures n.kind.Param? ==> t.nodes[i].param.None?
    ensures n.kind.Any? ==> t.nodes[i].any.None?
  {
    var p := t.nodes[i];
    assert NodeOK(t, i);
    if p.param.Some? {
      assert p.HasChildOfKind(Param, p.param.value) && p.HasChild(p.param.value) && NodeOK(t, p.param.value);
    }
    if p.any.Some? {
      assert p.HasChildOfKind(Any, p.any.value) && p.HasChild(p.any.value) && NodeOK(t, p.any.value);
    }
  }

  /** The new parent has the children it had and the new one. */
  lemma LinkChildren(n: Node, slot: Kind, c: nat)
    requires slot.Param? ==> n.param.None?
    requires slot.Any? ==> n.any.None?
    ensures forall k: Kind, d: nat :: Link(n, slot, c).HasChildOfKind(k, d) <==>
        n.HasChildOfKind(k, d) || (k == slot && d == c)
    ensures forall d: nat :: Link(n, slot, c).HasChild(d) <==> n.HasChild(d) || d == c
    ensures Link(n, slot, c).isLeaf == Link(n, slot, c).IsLeafNode()
  {}

  lemma AttachShape(t: Tree, i: nat, n: Node, r: Tree)
    requires Attaches(t, i, n) && AttachView(t, i, n, r)
    ensures Shape(r)
  {
    AttachFree(t, i, n);
    LinkChildren(t.nodes[i], n.kind, |t.nodes|);
    forall p: nat, c: nat | p < |r.nodes| && r.nodes[p].HasChild(c) ensures Below(r, p, c) {
      if c != |t.nodes| || p != i {
        assert t.nodes[p].HasChild(c) && Below(t, p, c);
      }
    }
  }

  lemma AttachOtherOK(t: Tree, i: nat, n: Node, r: Tree, k: nat)
    requires Attaches(t, i, n) && AttachView(t, i, n, r) && k < |t.nodes| && k != i
    ensures NodeOK(r, k)
  {
    AttachFree(t, i, n);
    LinkChildren(t.nodes[i], n.kind, |t.nodes|);
    assert NodeOK(t, k);
    forall x: Kind, d: nat | r.nodes[k].HasChildOfKind(x, d)
      ensures d < |r.nodes| && r.nodes[d].kind == x && r.nodes[d].parent == Some(k)
    {
      assert t.nodes[k].HasChildOfKind(x, d);
    }
    var cs := r.nodes[k].statics;
    forall a: nat, b: nat | a < b < |cs| ensures Differ(r, cs[a], cs[b]) {
      assert Differ(t, cs[a], cs[b]);
    }
  }

  lemma AttachSlots(t: Tree, i: nat, n: Node, r: Tree, x: Kind, d: nat)
    requires Attaches(t, i, n) && AttachView(t, i, n, r) && r.nodes[i].HasChildOfKind(x, d)
    ensures d < |r.nodes| && r.nodes[d].kind == x && r.nodes[d].parent == Some(i)
  {
    AttachFree(t, i, n);
    LinkChildren(t.nodes[i], n.kind, |t.nodes|);
    assert NodeOK(t, i);
    if !(x == n.kind && d == |t.nodes|) {
      assert t.nodes[i].HasChildOfKind(x, d) && t.nodes[i].HasChild(d);
      assert Below(t, i, d);
    }
  }

  lemma AttachDiffer(t: Tree, i: nat, n: Node, r: Tree, a: nat, b: nat)
    requires Attaches(t, i, n) && AttachView(t, i, n, r) && a < b < |r.nodes[i].statics|
    ensures Differ(r, r.nodes[i].statics[a], r.nodes[i].statics[b])
  {
    assert NodeOK(t, i);
    var os := t.nodes[i].statics;
    assert t.nodes[i].HasChild(os[a]) && Below(t, i, os[a]);
    if b < |os| {
      assert t.nodes[i].HasChild(os[b]) && Below(t, i, os[b]);
      assert Differ(t, os[a], os[b]);
    }
  }

  lemma SameRecordsOK(n: Node, n': Node, key: string)
    requires RecordsOK(n, key) && n'.methods == n.methods && n'.notFound == n.notFound
    ensures RecordsOK(n', key)
  {
    assert forall m: string :: n'.Record(m) == n.Record(m);
  }

  lemma AttachParentOK(t: Tree, i: nat, n: Node, r: Tree)
    requires Attaches(t, i, n) && AttachView(t, i, n, r)
    ensures NodeOK(r, i)
  {
    assert NodeOK(t, i);
    SameRecordsOK(t.nodes[i], r.nodes[i], t.keys[i]);
    if i != 0 {
      var p := ParentBelow(t, i);
    }
    AttachChildrenOK(t, i, n, r);
  }

  lemma AttachChildrenOK(t: Tree, i: nat, n: Node, r: Tree)
    requires Attaches(t, i, n) && AttachView(t, i, n, r)
    ensures ChildrenOK(r, i)
  {
    forall x: Kind, d: nat | r.nodes[i].HasChildOfKind(x, d)
      ensures d < |r.nodes| && r.nodes[d].kind == x && r.nodes[d].parent == Some(i)
    {
      AttachSlots(t, i, n, r, x, d);
    }
    forall a: nat, b: nat | a < b < |r.nodes[i].statics| ensures Differ(r, r.nodes[i].statics[a],
        r.nodes[i].statics[b]) {
      AttachDiffer(t, i, n, r, a, b);
    }
  }

  lemma AttachStores(t: Tree, i: nat, n: Node, r: Tree, k: string, m: string, x: RouteMethod)
    requires Attaches(t, i, n) && AttachView(t, i, n, r)
    ensures Stores(r, k, m, x) <==>
            Stores(t, k, m, x) || (k == t.keys[i] + n.prefix && n.Record(m) == Some(x))
  {
    assert forall j: nat :: j < |t.nodes| ==> r.nodes[j].Record(m) == t.nodes[j].Record(m);
    if Stores(t, k, m, x) {
      var j: nat :| j < |t.nodes| && t.keys[j] == k && t.nodes[j].Record(m) == Some(x);
      assert r.keys[j] == k && r.nodes[j].Record(m) == Some(x);
    }
    if k == t.keys[i] + n.prefix && n.Record(m) == Some(x) {
      assert r.keys[|t.nodes|] == k && r.nodes[|t.nodes|].Record(m) == Some(x);
    }
  }

  /** A new child keeps the tree well formed, and adds its own key and records. */
  lemma AttachKeeps(t: Tree, i: nat, n: Node)
    requires Attaches(t, i, n)
    ensures WellFormed(Attach(t, i, n.kind, n))
    ensures AttachView(t, i, n, Attach(t, i, n.kind, n))
    ensures KeysGrow(t, Attach(t, i, n.kind, n), t.keys[i] + n.prefix)
    ensures forall k: string, m: string, x: RouteMethod ::
              Stores(Attach(t, i, n.kind, n), k, m, x) <==>
              Stores(t, k, m, x) || (k == t.keys[i] + n.prefix && n.Record(m) == Some(x))
  {
    var r := Attach(t, i, n.kind, n);
    AttachShape(t, i, n, r);
    forall k: nat | k < |r.nodes| ensures NodeOK(r, k) {
      if k == i {
        AttachParentOK(t, i, n, r);
      } else if k < |t.nodes| {
        AttachOtherOK(t, i, n, r, k);
      } else {
        assert r.nodes[i].HasChildOfKind(n.kind, k);
      }
    }
    forall k: string, m: string, x: RouteMethod
      ensures Stores(r, k, m, x) <==>
              Stores(t, k, m, x) || (k == t.keys[i] + n.prefix && n.Record(m) == Some(x))
    {
      AttachStores(t, i, n, r, k, m, x);
    }
  }
}
