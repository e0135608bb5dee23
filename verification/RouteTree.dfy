/** The routing tree of the topic router: node records in an arena, linked by index.

    `keys[i]` is the concatenation of the prefixes from the root down to node `i`.  It exists for the
    proofs only: it ranks the nodes (a child's key is longer than its parent's), and it is what turns
    the tree into a table from keys and methods to records. */
module RouteTree {
  import opened Options
  import opened Text

  const METHOD_PUB := "PUB"
  const METHOD_SUB := "SUB"
  const METHOD_UNSUB := "UNSUB"
  const ROUTE_NOT_FOUND := "pubsub_route_not_found"

  /** Handlers are opaque: a number tells them apart. */
  type HandlerId = nat

  datatype RouteMethod = RouteMethod(ppath: string, pnames: seq<string>, handler: Option<HandlerId>)

  /** The record an insertion without a handler carries. */
  const NO_ROUTE := RouteMethod("", [], None)

  /** Methods whose records live in their own slot rather than in the map of custom methods. */
  predicate BuiltIn(verb: string) {
    verb == METHOD_PUB || verb == METHOD_SUB || verb == METHOD_UNSUB
  }

  /** Methods that can hold a record without a handler. */
  predicate Special(verb: string) {
    BuiltIn(verb) || verb == ROUTE_NOT_FOUND
  }

  datatype RouteMethods = RouteMethods(
    pub: Option<RouteMethod>,
    sub: Option<RouteMethod>,
    unsub: Option<RouteMethod>,
    others: map<string, RouteMethod>)
  {
    predicate IsHandler() {
      pub.Some? || sub.Some? || unsub.Some? || |others| != 0
    }

    function Set(verb: string, rm: RouteMethod): RouteMethods {
      if verb == METHOD_PUB then this.(pub := Some(rm))
      else if verb == METHOD_SUB then this.(sub := Some(rm))
      else if verb == METHOD_UNSUB then this.(unsub := Some(rm))
      else if rm.handler.None? then this.(others := others - {verb})
      else this.(others := others[verb := rm])
    }

    function Get(verb: string): Option<RouteMethod> {
      if verb == METHOD_PUB then pub
      else if verb == METHOD_SUB then sub
      else if verb == METHOD_UNSUB then unsub
      else if verb in others then Some(others[verb])
      else None
    }
  }

  const NO_METHODS := RouteMethods(None, None, None, map[])

  datatype Kind = Static | Param | Any

  datatype Node = Node(
    kind: Kind,
    initial: char,
    prefix: string,
    parent: Option<nat>,
    statics: seq<nat>,
    originalPath: string,
    methods: RouteMethods,
    param: Option<nat>,
    any: Option<nat>,
    paramsCount: nat,
    isLeaf: bool,
    isHandler: bool,
    notFound: Option<RouteMethod>)
  {
    predicate IsLeafNode() {
      statics == [] && param.None? && any.None?
    }

    predicate HasChild(c: nat) {
      c in statics || param == Some(c) || any == Some(c)
    }

    /** Child `c` sits in the slot for its kind. */
    predicate HasChildOfKind(k: Kind, c: nat) {
      match k
      case Static => c in statics
      case Param => param == Some(c)
      case Any => any == Some(c)
    }

    function AddMethod(verb: string, rm: RouteMethod): Node {
      if verb == ROUTE_NOT_FOUND then this.(notFound := Some(rm))
      else
        var ms := methods.Set(verb, rm);
        this.(methods := ms, isHandler := rm.handler.Some? || ms.IsHandler())
    }

    /** The record stored for a method; the not-found record counts as a method of its own. */
    function Record(verb: string): Option<RouteMethod> {
      if verb == ROUTE_NOT_FOUND then notFound else methods.Get(verb)
    }
  }

  /** The root of a new router. */
  const EMPTY_ROOT := Node(Static, '\0', "", None, [], "", NO_METHODS, None, None, 0, false, false, None)

  function NewNode(kind: Kind, prefix: string, parent: nat, statics: seq<nat>, originalPath: string,
                   methods: RouteMethods, paramsCount: nat, param: Option<nat>, any: Option<nat>,
                   notFound: Option<RouteMethod>): Node
    requires prefix != ""
  {
    Node(kind, prefix[0], prefix, Some(parent), statics, originalPath, methods, param, any, paramsCount,
         statics == [] && param.None? && any.None?, methods.IsHandler(), notFound)
  }

  datatype Tree = Tree(nodes: seq<Node>, keys: seq<string>, maxParam: nat)

  const EMPTY_TREE := Tree([EMPTY_ROOT], [""], 0)

  /** The first child in `cs` with an initial byte (the `label` of the source). */
  function FindStatic(nodes: seq<Node>, cs: seq<nat>, initial: char): (r: Option<nat>)
    requires forall k :: 0 <= k < |cs| ==> cs[k] < |nodes|
    ensures r.Some? ==> r.value in cs && nodes[r.value].initial == initial
    ensures r.None? ==> forall k :: 0 <= k < |cs| ==> nodes[cs[k]].initial != initial
  {
    if cs == [] then None
    else if nodes[cs[0]].initial == initial then Some(cs[0])
    else FindStatic(nodes, cs[1..], initial)
  }

  function FindChild(nodes: seq<Node>, n: Node, initial: char): (r: Option<nat>)
    requires forall k :: 0 <= k < |n.statics| ==> n.statics[k] < |nodes|
    ensures r.Some? ==> n.HasChild(r.value)
  {
    var c := FindStatic(nodes, n.statics, initial);
    if c.Some? then c
    else if initial == ':' then n.param
    else if initial == '*' then n.any
    else None
  }

  // Shape: what every insertion keeps, whatever the pattern

  ghost predicate Below(t: Tree, p: nat, c: nat)
    requires |t.nodes| == |t.keys| && p < |t.nodes|
  {
    && c < |t.nodes|
    && t.nodes[c].prefix != ""
    && t.nodes[c].initial == t.nodes[c].prefix[0]
    && t.keys[c] == t.keys[p] + t.nodes[c].prefix
  }

  ghost predicate Shape(t: Tree) {
    && 0 < |t.nodes| == |t.keys|
    && t.keys[0] == t.nodes[0].prefix
    && (t.keys[0] == "" ==> t.nodes[0].IsLeafNode() && t.nodes[0].methods == NO_METHODS && t.nodes[0].notFound.None?)
    && (t.keys[0] == "" ==> t.nodes[0].originalPath == "")
    && (t.keys[0] != "" ==> t.keys[0][0] == '/')
    && forall p: nat, c: nat :: p < |t.nodes| && t.nodes[p].HasChild(c) ==> Below(t, p, c)
  }

  // Well-formedness: what the documented patterns keep

  ghost predicate ParentOK(t: Tree, i: nat)
    requires i < |t.nodes|
  {
    var n := t.nodes[i];
    if i == 0 then n.parent.None? && n.kind.Static?
    else n.parent.Some? && n.parent.value < |t.nodes| && t.nodes[n.parent.value].HasChildOfKind(n.kind, i)
  }

  /** Two nodes have different initial bytes. */
  ghost predicate Differ(t: Tree, a: nat, b: nat) {
    a < |t.nodes| && b < |t.nodes| && t.nodes[a].initial != t.nodes[b].initial
  }

  ghost predicate ChildrenOK(t: Tree, i: nat)
    requires i < |t.nodes|
  {
    var n := t.nodes[i];
    && (forall k: Kind, c: nat :: n.HasChildOfKind(k, c) ==>
        c < |t.nodes| && t.nodes[c].kind == k && t.nodes[c].parent == Some(i))
    && (forall a: nat, b: nat :: a < b < |n.statics| ==> Differ(t, n.statics[a], n.statics[b]))
  }

  ghost predicate PrefixOK(n: Node) {
    match n.kind
    case Static => NoMarkers(n.prefix)
    case Param => n.prefix == ":"
    case Any => n.prefix == "*"
  }

  /** A record with a handler belongs to a pattern with this key. */
  ghost predicate Belongs(r: RouteMethod, key: string) {
    Normal(r.ppath) == key && r.pnames == Names(r.ppath)
  }

  ghost predicate RecordsOK(n: Node, key: string) {
    && (forall v: string :: v in n.methods.others ==> !Special(v))
    && forall m: string :: n.Record(m).Some? && n.Record(m).value.handler.Some? ==> Belongs(n.Record(m).value, key)
  }

  ghost predicate NodeOK(t: Tree, i: nat)
    requires i < |t.nodes| == |t.keys|
  {
    var n := t.nodes[i];
    && (t.keys[i] != "" ==> n.isLeaf == n.IsLeafNode())
    && n.isHandler == n.methods.IsHandler()
    && ParentOK(t, i)
    && ChildrenOK(t, i)
    && PrefixOK(n)
    && (n.kind.Any? ==> n.IsLeafNode() && n.paramsCount == Markers(t.keys[i]))
    && RecordsOK(n, t.keys[i])
  }

  ghost predicate WellFormed(t: Tree) {
    Shape(t) && forall i: nat :: i < |t.nodes| ==> NodeOK(t, i)
  }

  ghost predicate HasKey(t: Tree, key: string) {
    key in t.keys
  }

  /** The tree as a table: the record that is stored for a key and a method. */
  ghost predicate Stores(t: Tree, key: string, verb: string, r: RouteMethod)
    requires |t.nodes| == |t.keys|
  {
    exists i: nat :: i < |t.nodes| && t.keys[i] == key && t.nodes[i].Record(verb) == Some(r)
  }

  lemma EmptyTreeWellFormed()
    ensures WellFormed(EMPTY_TREE)
    ensures forall k: string, m: string, r: RouteMethod :: !Stores(EMPTY_TREE, k, m, r)
  {
    assert forall m: string :: EMPTY_ROOT.Record(m).None?;
  }

  // Facts about well-formed trees

  lemma ParentBelow(t: Tree, i: nat) returns (p: nat)
    requires WellFormed(t) && 0 < i < |t.nodes|
    ensures p < |t.nodes| && t.nodes[i].parent == Some(p) && t.nodes[p].HasChildOfKind(t.nodes[i].kind, i)
    ensures Below(t, p, i) && t.keys[p] < t.keys[i]
  {
    assert NodeOK(t, i);
    p := t.nodes[i].parent.value;
    assert t.nodes[p].HasChild(i);
    assert t.keys[i][..|t.keys[p]|] == t.keys[p];
  }

  /** The root's key is a prefix of every key. */
  lemma {:induction false} RootFirst(t: Tree, i: nat)
    requires WellFormed(t) && i < |t.nodes|
    ensures t.keys[0] <= t.keys[i]
    decreases |t.keys[i]|
  {
    if i != 0 {
      var p := ParentBelow(t, i);
      RootFirst(t, p);
    }
  }

  /** Two children of a node with the same first byte are the same child. */
  lemma ChildByLabel(t: Tree, p: nat, a: nat, b: nat)
    requires WellFormed(t) && p < |t.nodes|
    requires t.nodes[p].HasChild(a) && t.nodes[p].HasChild(b)
    requires Below(t, p, a) && Below(t, p, b)
    requires t.keys[a][|t.keys[p]|] == t.keys[b][|t.keys[p]|]
    ensures a == b
  {
    assert NodeOK(t, p) && NodeOK(t, a) && NodeOK(t, b);
    var n := t.nodes[p];
    ghost var ka: Kind := if a in n.statics then Static else if n.param == Some(a) then Param else Any;
    ghost var kb: Kind := if b in n.statics then Static else if n.param == Some(b) then Param else Any;
    assert n.HasChildOfKind(ka, a) && n.HasChildOfKind(kb, b);
    assert t.nodes[a].initial == t.nodes[b].initial;
    if ka == Static && kb == Static {
      var x: nat :| x < |n.statics| && n.statics[x] == a;
      var y: nat :| y < |n.statics| && n.statics[y] == b;
    }
  }

  /** The radix property: below a node whose key is a proper prefix of another node's key there is a
      child on the way to that node. */
  lemma {:induction false} ChildToward(t: Tree, p: nat, j: nat) returns (c: nat)
    requires WellFormed(t) && p < |t.nodes| && j < |t.nodes|
    requires t.keys[p] < t.keys[j]
    ensures t.nodes[p].HasChild(c) && Below(t, p, c) && t.keys[c] <= t.keys[j]
    decreases |t.keys[j]|
  {
    RootFirst(t, p);
    var q := ParentBelow(t, j);
    if |t.keys[p]| < |t.keys[q]| {
      assert t.keys[p] < t.keys[q];
      c := ChildToward(t, p, q);
    } else if |t.keys[q]| < |t.keys[p]| {
      assert t.keys[q] < t.keys[p];
      var d := ChildToward(t, q, p);
      ChildByLabel(t, q, d, j);
    } else {
      assert t.keys[p] == t.keys[q];
      KeysInjective(t, p, q);
      c := j;
    }
  }

  /** Distinct nodes have distinct keys. */
  lemma {:induction false} KeysInjective(t: Tree, i: nat, j: nat)
    requires WellFormed(t) && i < |t.nodes| && j < |t.nodes|
    requires t.keys[i] == t.keys[j]
    ensures i == j
    decreases |t.keys[i]|
  {
    if i == 0 || j == 0 {
      if i != j {
        var k := if i == 0 then j else i;
        var p := ParentBelow(t, k);
        RootFirst(t, p);
      }
    } else {
      var p := ParentBelow(t, i);
      var q := ParentBelow(t, j);
      if |t.keys[p]| < |t.keys[q]| {
        var c := ChildToward(t, p, q);
        ChildByLabel(t, p, c, i);
      } else if |t.keys[q]| < |t.keys[p]| {
        var c := ChildToward(t, q, p);
        ChildByLabel(t, q, c, j);
      } else {
        KeysInjective(t, p, q);
        ChildByLabel(t, p, i, j);
      }
    }
  }

  lemma StoresUnique(t: Tree, key: string, verb: string, r: RouteMethod, i: nat)
    requires WellFormed(t) && i < |t.nodes| && t.keys[i] == key
    ensures Stores(t, key, verb, r) <==> t.nodes[i].Record(verb) == Some(r)
  {
    if Stores(t, key, verb, r) {
      var j: nat :| j < |t.nodes| && t.keys[j] == key && t.nodes[j].Record(verb) == Some(r);
      KeysInjective(t, i, j);
    }
  }
}
