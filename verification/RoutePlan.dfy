/** Registering a pattern: the insertions that it makes, in order, and what they amount to. */
module RoutePlan {
  import opened Options
  import opened Text
  import opened RouteTree
  import opened RouteInsert
  import opened RouteEdits
  import opened RouteAdd
  import opened RouteTitles

  /** The record that registering a pattern stores. */
  function RouteFor(pattern: string, h: HandlerId): RouteMethod {
    RouteMethod(Rooted(pattern), Names(Rooted(pattern)), Some(h))
  }

  /** The insertions left when the scan of `path` has reached `i`; the names before `i` are erased
      already and are listed in `names`. */
  function Plan(verb: string, ppath: string, h: HandlerId, path: string, i: nat, names: seq<string>): seq<Op>
    decreases |path| - i
  {
    if |path| <= i then [Op(verb, path, Static, RouteMethod(ppath, names, Some(h)))]
    else if path[i] == ':' then
      var e := i + Slash(path[i..]);
      var path' := path[..i + 1] + path[e..];
      var names' := names + [path[i + 1..e]];
      var rm := if i + 1 == |path'| then RouteMethod(ppath, names', Some(h)) else NO_ROUTE;
      [Op(verb, path[..i], Static, NO_ROUTE), Op(verb, path'[..i + 1], Param, rm)]
      + Plan(verb, ppath, h, path', i + 2, names')
    else if path[i] == '*' then
      var names' := names + ["*"];
      [Op(verb, path[..i], Static, NO_ROUTE), Op(verb, path[..i + 1], Any, RouteMethod(ppath, names', Some(h)))]
      + Plan(verb, ppath, h, path, i + 1, names')
    else Plan(verb, ppath, h, path, i + 1, names)
  }

  ghost function InsertAll(t: Tree, ops: seq<Op>): Tree
    decreases |ops|
  {
    if ops == [] then t else InsertAll(Insert(t, ops[0]), ops[1..])
  }

  ghost function Add(t: Tree, verb: string, pattern: string, h: HandlerId): Tree {
    InsertAll(t, Plan(verb, Rooted(pattern), h, Rooted(pattern), 0, []))
  }

  /** The scan of a pattern with key `key` stands at position `i` of `path`. */
  ghost predicate ScannedText(ppath: string, key: string, path: string, i: nat, names: seq<string>) {
    && i <= |path| && path != "" && path[0] == '/'
    && Normal(ppath) == key == path[..i] + Normal(path[i..])
    && Names(ppath) == names + Names(path[i..])
    && Supported(path[i..], if i == 0 then '/' else path[i - 1])
    && (forall k: nat :: k < i && path[k] == '*' ==> k + 1 == |path|)
  }

  /** The scan together with the tree: every marker before `i` has its node. */
  ghost predicate Scanned(t: Tree, ppath: string, key: string, path: string, i: nat, names: seq<string>) {
    WellFormed(t) && ScannedText(ppath, key, path, i, names) && MarkersKnown(t, path, i)
  }

  /** The part of a key before a marker at or after `i` that splits a node when it is inserted. */
  ghost predicate LeavesEmpty(t: Tree, key: string, i: nat, k: string) {
    exists j: nat :: i <= j < |key| && IsMarker(key[j]) && k == key[..j] && Inside(t, k)
  }

  /** The places of a key that get a node of their own: its end, and both sides of its markers. */
  ghost predicate Stop(key: string, k: string) {
    k == key || exists j: nat :: j < |key| && IsMarker(key[j]) && (k == key[..j] || k == key[..j + 1])
  }

  /** Nodes are kept, and new ones are at the stops of the key and where it forks off. */
  ghost predicate PointsGrow(a: Tree, b: Tree, key: string) {
    && (forall k: string :: HasKey(a, k) && k != "" ==> HasKey(b, k))
    && (forall k: string :: HasKey(b, k) ==> HasKey(a, k) || Stop(key, k) || Forks(a, key, k))
  }

  lemma PointsThen(a: Tree, b: Tree, c: Tree, path: string, key: string)
    requires KeysGrow(a, b, path) && path <= key && Stop(key, path) && PointsGrow(b, c, key)
    ensures PointsGrow(a, c, key)
  {
    forall k: string | HasKey(c, k) ensures HasKey(a, k) || Stop(key, k) || Forks(a, key, k) {
      if HasKey(b, k) {
        assert Forks(a, path, k) ==> Forks(a, key, k);
      } else if Forks(b, key, k) {
        var j: nat :| j < |b.keys| && k < b.keys[j] && b.keys[j][|k|] != key[|k|];
        assert HasKey(b, b.keys[j]);
        assert HasKey(a, b.keys[j]);
      }
    }
  }

  /** What registering does to the tree: the record goes to its key, and the insertions before the markers
      from `i` on leave empty records where they split a node. */
  ghost predicate Added(a: Tree, b: Tree, key: string, i: nat, verb: string, rm: RouteMethod) {
    && |a.nodes| == |a.keys| && WellFormed(b)
    && PointsGrow(a, b, key) && HasKey(b, key) && Titled(a, b, key, Some(rm.ppath))
    && b.maxParam == Max(a.maxParam, |rm.pnames|)
    && forall k: string, m: string, r: RouteMethod ::
         Stores(b, k, m, r) <==>
         if k == key && m == verb then r == rm
         else Stores(a, k, m, r) || (r == NO_ROUTE && m == verb && Special(verb) && LeavesEmpty(a, key, i, k))
  }

  /** Keys that only grow by short ones look the same to longer ones. */
  lemma InsideSame(a: Tree, b: Tree, p: string, k: string)
    requires KeysGrow(a, b, p) && |p| < |k|
    ensures Inside(a, k) <==> Inside(b, k)
  {
    if Inside(a, k) {
      var j: nat :| j < |a.keys| && k < a.keys[j];
      assert HasKey(b, a.keys[j]);
      var x: nat :| x < |b.keys| && b.keys[x] == a.keys[j];
    }
    if Inside(b, k) {
      var j: nat :| j < |b.keys| && k < b.keys[j];
      assert HasKey(b, b.keys[j]) && HasKey(a, b.keys[j]);
      var x: nat :| x < |a.keys| && a.keys[x] == b.keys[j];
    }
  }

  lemma LeavesSame(a: Tree, b: Tree, key: string, n: nat, i: nat, k: string)
    requires n < i && n <= |key| && KeysGrow(a, b, key[..n])
    ensures LeavesEmpty(a, key, i, k) <==> LeavesEmpty(b, key, i, k)
  {
    if |k| > n {
      InsideSame(a, b, key[..n], k);
    }
  }

  /** Markers further on: a position that holds no marker adds nothing. */
  lemma LeavesShift(t: Tree, key: string, i: nat, k: string)
    ensures LeavesEmpty(t, key, i, k) <==>
            LeavesEmpty(t, key, i + 1, k) || (i < |key| && IsMarker(key[i]) && k == key[..i] && Inside(t, k))
  {}

  /** The insertion of the part before the marker at `i`, and then the rest. */
  lemma AfterStatic(a: Tree, b: Tree, c: Tree, op: Op, key: string, i: nat, verb: string, rm: RouteMethod)
    requires Entered(a, b, op) && op.rm == NO_ROUTE && op.verb == verb && i < |key| && IsMarker(key[i]) &&
        op.path == key[..i]
    requires b.maxParam == a.maxParam && Added(b, c, key, i + 1, verb, rm)
    ensures Added(a, c, key, i, verb, rm)
  {
    PointsThen(a, b, c, op.path, key);
    TitledThen(a, b, c, op.path, None, key, Some(rm.ppath));
    forall k: string, m: string, r: RouteMethod
      ensures Stores(c, k, m, r) <==>
              if k == key && m == verb then r == rm
              else Stores(a, k, m, r) || (r == NO_ROUTE && m == verb && Special(verb) && LeavesEmpty(a, key, i, k))
    {
      LeavesSame(a, b, key, i, i + 1, k);
      LeavesShift(a, key, i, k);
    }
  }

  /** The insertion of the parameter at `i` without a handler, and then the rest. */
  lemma AfterParam(a: Tree, b: Tree, c: Tree, op: Op, key: string, i: nat, verb: string, rm: RouteMethod)
    requires WellFormed(a) && Entered(a, b, op) && op.rm == NO_ROUTE && op.verb == verb
    requires i + 1 < |key| && IsMarker(key[i]) && !IsMarker(key[i + 1]) && op.path == key[..i + 1]
    requires b.maxParam == a.maxParam && Added(b, c, key, i + 2, verb, rm)
    ensures Added(a, c, key, i + 1, verb, rm)
  {
    NeverInside(a, op.path);
    PointsThen(a, b, c, op.path, key);
    TitledThen(a, b, c, op.path, None, key, Some(rm.ppath));
    forall k: string, m: string, r: RouteMethod
      ensures Stores(c, k, m, r) <==>
              if k == key && m == verb then r == rm
              else Stores(a, k, m, r) || (r == NO_ROUTE && m == verb && Special(verb) && LeavesEmpty(a, key, i + 1, k))
    {
      LeavesSame(a, b, key, i + 1, i + 2, k);
      LeavesShift(a, key, i + 1, k);
    }
  }

  /** Registering the same record twice is registering it once. */
  lemma AfterSame(a: Tree, b: Tree, c: Tree, op: Op)
    requires Entered(a, b, op) && op.rm.handler.Some? && b.maxParam == Max(a.maxParam, |op.rm.pnames|)
    requires Added(b, c, op.path, |op.path|, op.verb, op.rm)
    ensures Added(a, c, op.path, |op.path|, op.verb, op.rm)
  {
    PointsThen(a, b, c, op.path, op.path);
    TitledThen(a, b, c, op.path, Some(op.rm.ppath), op.path, Some(op.rm.ppath));
  }

  /** A marker in a key has its own node. */
  lemma {:induction false} MarkerHasNode(t: Tree, j: nat, y: nat)
    requires WellFormed(t) && j < |t.nodes| && y < |t.keys[j]| && IsMarker(t.keys[j][y])
    ensures HasKey(t, t.keys[j][..y + 1])
    decreases |t.keys[j]|
  {
    assert NodeOK(t, j) && NodeOK(t, 0);
    if j != 0 {
      var p := ParentBelow(t, j);
      var n := |t.keys[p]|;
      if y < n {
        MarkerHasNode(t, p, y);
        assert t.keys[p][..y + 1] == t.keys[j][..y + 1];
      } else {
        assert t.keys[j][y] == t.nodes[j].prefix[y - n];
        assert t.keys[j][..y + 1] == t.keys[j];
      }
    }
  }

  /** No key goes beyond a marker that has no node. */
  lemma NeverInside(t: Tree, path: string)
    requires WellFormed(t) && path != "" && IsMarker(path[|path| - 1])
    ensures !Inside(t, path)
  {
    if Inside(t, path) {
      var j: nat :| j < |t.keys| && path < t.keys[j];
      assert t.keys[j][..|path|] == path;
      MarkerHasNode(t, j, |path| - 1);
    }
  }

  lemma FinalReady(t: Tree, verb: string, ppath: string, h: HandlerId, key: string, path: string, names: seq<string>)
    requires Scanned(t, ppath, key, path, |path|, names)
    ensures Ready(t, Op(verb, path, Static, RouteMethod(ppath, names, Some(h)))) && key == path && names == Names(ppath)
  {
    assert path[..|path|] == path && path[|path|..] == "";
    assert names + [] == names;
  }

  lemma FinalInsert(t: Tree, verb: string, ppath: string, h: HandlerId, key: string, path: string, names: seq<string>)
    requires Scanned(t, ppath, key, path, |path|, names)
    ensures Added(t, Insert(t, Op(verb, path, Static, RouteMethod(ppath, names, Some(h)))), key, |key|, verb,
        RouteMethod(ppath, Names(ppath), Some(h)))
  {
    FinalReady(t, verb, ppath, h, key, path, names);
    InsertEnters(t, Op(verb, path, Static, RouteMethod(ppath, names, Some(h))));
  }

  lemma KnownPrefix(t: Tree, a: string, b: string, n: nat)
    requires n <= |a| && n <= |b| && a[..n] == b[..n] && MarkersKnown(t, a, n)
    ensures MarkersKnown(t, b, n)
  {
    forall k: nat | k < n && IsMarker(b[k]) ensures HasKey(t, b[..k + 1]) {
      assert b[..k + 1] == b[..n][..k + 1] == a[..k + 1];
      assert a[k] == a[..n][k];
    }
  }

  lemma StaticReady(t: Tree, verb: string, ppath: string, key: string, path: string, i: nat, names: seq<string>)
    requires Scanned(t, ppath, key, path, i, names) && i < |path| && IsMarker(path[i])
    ensures Ready(t, Op(verb, path[..i], Static, NO_ROUTE))
  {
    KnownPrefix(t, path, path[..i], i);
  }

  /** The insertion of the part of a pattern before a marker. */
  lemma StaticInsert(t: Tree, verb: string, ppath: string, key: string, path: string, i: nat,
      names: seq<string>) returns (t1: Tree)
    requires Scanned(t, ppath, key, path, i, names) && i < |path| && IsMarker(path[i])
    ensures t1 == Insert(t, Op(verb, path[..i], Static, NO_ROUTE))
    ensures Entered(t, t1, Op(verb, path[..i], Static, NO_ROUTE)) && t1.maxParam == t.maxParam && path[..i] <= key
    ensures MarkersKnown(t1, path, i)
  {
    var op := Op(verb, path[..i], Static, NO_ROUTE);
    StaticReady(t, verb, ppath, key, path, i, names);
    InsertEnters(t, op);
    t1 := Insert(t, op);
  }

  lemma {:induction false} PlanAdds(t: Tree, verb: string, ppath: string, h: HandlerId, key: string, path: string,
      i: nat, names: seq<string>)
    requires Scanned(t, ppath, key, path, i, names)
    ensures Added(t, InsertAll(t, Plan(verb, ppath, h, path, i, names)), key, i, verb,
        RouteMethod(ppath, Names(ppath), Some(h)))
    decreases |path| - i
  {
    if i == |path| {
      PlanDone(t, verb, ppath, h, key, path, i, names);
      FinalReady(t, verb, ppath, h, key, path, names);
    } else if path[i] == ':' {
      PlanParam(t, verb, ppath, h, key, path, i, names);
    } else if path[i] == '*' {
      PlanAny(t, verb, ppath, h, key, path, i, names);
    } else {
      PlainText(ppath, key, path, i, names);
      PlanAdds(t, verb, ppath, h, key, path, i + 1, names);
      assert key[i] == path[..i + 1][i];
      forall k: string ensures LeavesEmpty(t, key, i, k) <==> LeavesEmpty(t, key, i + 1, k) {
        LeavesShift(t, key, i, k);
      }
    }
  }

  lemma PlanDone(t: Tree, verb: string, ppath: string, h: HandlerId, key: string, path: string, i: nat,
      names: seq<string>)
    requires Scanned(t, ppath, key, path, |path|, names) && |path| <= i
    ensures Added(t, InsertAll(t, Plan(verb, ppath, h, path, i, names)), key, |key|, verb,
        RouteMethod(ppath, Names(ppath), Some(h)))
  {
    FinalInsert(t, verb, ppath, h, key, path, names);
    PlanLast(t, verb, ppath, h, path, i, names);
  }

  lemma PlanLast(t: Tree, verb: string, ppath: string, h: HandlerId, path: string, i: nat, names: seq<string>)
    requires |path| <= i
    ensures InsertAll(t, Plan(verb, ppath, h, path, i, names)) == Insert(t,
        Op(verb, path, Static, RouteMethod(ppath, names, Some(h))))
  {
    var op := Op(verb, path, Static, RouteMethod(ppath, names, Some(h)));
    assert Plan(verb, ppath, h, path, i, names) == [op];
    assert InsertAll(t, [op]) == InsertAll(Insert(t, op), []);
  }

  lemma InsertTwo(t: Tree, a: Op, b: Op, rest: seq<Op>)
    ensures InsertAll(t, [a, b] + rest) == InsertAll(Insert(Insert(t, a), b), rest)
  {
    assert ([a, b] + rest)[1..] == [b] + rest;
    assert ([b] + rest)[1..] == rest;
  }

  /** The scan moves past a parameter: its name is erased from the path. */
  ghost predicate Erases(path: string, i: nat, names: seq<string>, path': string, names': seq<string>) {
    && i < |path| && path[i] == ':'
    && path' == path[..i + 1] + path[i + Slash(path[i..])..]
    && names' == names + [path[i + 1..i + Slash(path[i..])]]
  }

  lemma EraseText(ppath: string, key: string, path: string, i: nat, names: seq<string>, path': string,
      names': seq<string>)
    requires Erases(path, i, names, path', names')
    requires key == path[..i] + Normal(path[i..]) && Names(ppath) == names + Names(path[i..])
    requires Supported(path[i..], if i == 0 then '/' else path[i - 1])
    ensures |path'| <= |path| && path'[..i + 1] == path[..i + 1]
    ensures key == path'[..i + 1] + Normal(path'[i + 1..]) && Names(ppath) == names' + Names(path'[i + 1..])
    ensures Supported(path'[i + 1..], ':')
    ensures i + 1 < |path'| ==> path'[i + 1] == '/'
    ensures i + 1 == |path'| ==> key == path' && Names(ppath) == names'
  {
    EraseSlices(path, i, path');
    EraseNames(ppath, path[i..], names, names');
    if i + 1 == |path'| {
      assert path'[i + 1..] == "" && path'[..i + 1] + "" == path' && names' + [] == names';
    }
  }

  lemma EraseSlices(path: string, i: nat, path': string)
    requires i < |path| && path[i] == ':' && path' == path[..i + 1] + path[i + Slash(path[i..])..]
    ensures var s := path[i..];
      && |path'| <= |path| && path'[..i + 1] == path[..i + 1] == path[..i] + ":"
      && path'[i + 1..] == s[Slash(s)..] && path[i + 1..i + Slash(s)] == s[1..Slash(s)]
  {
  }

  lemma EraseNames(ppath: string, s: string, names: seq<string>, names': seq<string>)
    requires s != "" && s[0] == ':' && Names(ppath) == names + Names(s) && names' == names + [s[1..Slash(s)]]
    ensures Names(ppath) == names' + Names(s[Slash(s)..])
  {
  }

  lemma ParamReady(t: Tree, path: string, i: nat, path': string, op: Op)
    requires 0 < i < |path| && i < |path'| && path'[..i + 1] == path[..i + 1] && path[i] == ':' && path[0] == '/'
    requires MarkersKnown(t, path, i) && HasKey(t, path[..i])
    requires forall k: nat :: k < i ==> path[k] != '*'
    requires op.path == path'[..i + 1] && op.kind == Param
    requires if op.rm.handler.Some? then Belongs(op.rm, op.path) else op.rm == NO_ROUTE
    ensures Ready(t, op)
  {
    assert op.path[..i] == path[..i];
    KnownPrefix(t, path, op.path, i);
  }

  lemma KnownGrows(a: Tree, b: Tree, added: string, path: string, n: nat)
    requires n <= |path| && KeysGrow(a, b, added) && MarkersKnown(a, path, n)
    ensures MarkersKnown(b, path, n)
  {}

  lemma KnownMore(t: Tree, path: string, i: nat)
    requires i < |path| && MarkersKnown(t, path, i) && HasKey(t, path[..i + 1])
    ensures MarkersKnown(t, path, i + 1)
    ensures i + 1 < |path| && !IsMarker(path[i + 1]) ==> MarkersKnown(t, path, i + 2)
  {}

  /** The insertion of a parameter makes its marker known. */
  lemma ParamKnown(t: Tree, r: Tree, path: string, i: nat, path': string, op: Op)
    requires i < |path| && i < |path'| && path'[..i + 1] == path[..i + 1]
    requires MarkersKnown(t, path, i) && Entered(t, r, op) && op.path == path'[..i + 1]
    ensures MarkersKnown(r, path', i + 1)
    ensures i + 1 < |path'| && !IsMarker(path'[i + 1]) ==> MarkersKnown(r, path', i + 2)
  {
    KnownPrefix(t, path, path', i);
    KnownGrows(t, r, op.path, path', i);
    KnownMore(r, path', i);
  }

  /** The scan moves past a byte that is no marker. */
  lemma PlainText(ppath: string, key: string, path: string, i: nat, names: seq<string>)
    requires ScannedText(ppath, key, path, i, names) && i < |path| && !IsMarker(path[i])
    ensures ScannedText(ppath, key, path, i + 1, names)
  {
    assert path[i..][1..] == path[i + 1..];
    assert path[..i] + [path[i]] == path[..i + 1];
  }

  lemma ParamText(ppath: string, key: string, path: string, i: nat, names: seq<string>, path': string,
      names': seq<string>)
    requires ScannedText(ppath, key, path, i, names) && Erases(path, i, names, path', names')
    ensures i + 1 <= |path'| <= |path| && path'[..i + 1] == path[..i + 1] <= key
    ensures ScannedText(ppath, key, path', if i + 1 == |path'| then i + 1 else i + 2, names')
    ensures i + 1 < |path'| ==> path'[i + 1] == '/'
    ensures i + 1 == |path'| ==> path'[..i + 1] == key == path' && Names(ppath) == names'
  {
    EraseText(ppath, key, path, i, names, path', names');
    SameFront(path, path', i + 1);
    if i + 1 == |path'| {
      assert path'[..i + 1] == path';
    } else {
      PlainText(ppath, key, path', i + 1, names');
    }
  }

  lemma SameFront(a: string, b: string, n: nat)
    requires n <= |a| && n <= |b| && a[..n] == b[..n]
    ensures forall k: nat :: k < n ==> a[k] == b[k]
  {
    forall k: nat | k < n ensures a[k] == b[k] {
      assert a[k] == a[..n][k] && b[k] == b[..n][k];
    }
  }

  lemma AnyText(ppath: string, key: string, path: string, i: nat, names: seq<string>)
    requires ScannedText(ppath, key, path, i, names) && i < |path| && path[i] == '*'
    ensures i + 1 == |path| && path[..i + 1] == key == path && Names(ppath) == names + ["*"]
    ensures ScannedText(ppath, key, path, i + 1, names + ["*"])
  {
    var names' := names + ["*"];
    assert path[i..] == "*" && path[i..][1..] == "" && path[i + 1..] == "";
    assert path[..i + 1] == path && path[..i] + "*" == path && names' + [] == names';
  }

  /** Both insertions of a parameter, and where the scan goes on. */
  lemma ParamStep(t: Tree, verb: string, ppath: string, h: HandlerId, key: string, path: string, i: nat,
      names: seq<string>, path': string, names': seq<string>, op: Op)
    returns (t1: Tree, t2: Tree)
    requires Scanned(t, ppath, key, path, i, names) && Erases(path, i, names, path', names')
    requires op == Op(verb, path'[..i + 1], Param, if i + 1 == |path'| then RouteMethod(ppath, names', Some(h))
        else NO_ROUTE)
    ensures t1 == Insert(t, Op(verb, path[..i], Static, NO_ROUTE)) && t2 == Insert(t1, op) && Ready(t1, op)
    ensures Entered(t, t1, Op(verb, path[..i], Static, NO_ROUTE)) && t1.maxParam == t.maxParam && path[..i] <= key
    ensures Entered(t1, t2, op) && t2.maxParam == Max(t1.maxParam, |op.rm.pnames|)
    ensures i + 1 <= |path'| <= |path| &&
        Scanned(t2, ppath, key, path', if i + 1 == |path'| then i + 1 else i + 2, names')
  {
    ParamText(ppath, key, path, i, names, path', names');
    t1 := StaticInsert(t, verb, ppath, key, path, i, names);
    ParamReady(t1, path, i, path', op);
    InsertEnters(t1, op);
    t2 := Insert(t1, op);
    ParamKnown(t1, t2, path, i, path', op);
  }

  /** The plan from a parameter on is its two insertions and the plan of the rest. */
  lemma ParamResume(t: Tree, verb: string, ppath: string, h: HandlerId, path: string, i: nat, names: seq<string>,
      path': string, names': seq<string>, op: Op)
    requires Erases(path, i, names, path', names')
    requires op == Op(verb, path'[..i + 1], Param, if i + 1 == |path'| then RouteMethod(ppath, names', Some(h))
        else NO_ROUTE)
    ensures InsertAll(t, Plan(verb, ppath, h, path, i, names)) ==
            InsertAll(Insert(Insert(t, Op(verb, path[..i], Static, NO_ROUTE)), op),
                Plan(verb, ppath, h, path', i + 2, names'))
  {
    InsertTwo(t, Op(verb, path[..i], Static, NO_ROUTE), op, Plan(verb, ppath, h, path', i + 2, names'));
  }

  lemma ParamKey(key: string, path: string, path': string, i: nat)
    requires i < |path| && path[i] == ':' && i + 1 <= |path'| && path'[..i + 1] == path[..i + 1] && path[..i + 1] <= key
    ensures key[..i + 1] == path'[..i + 1] == path[..i + 1] && key[i] == ':' && key[..i] == path[..i] == path'[..i]
  {
    assert key[i] == key[..i + 1][i] == path[..i + 1][i];
    assert key[..i] == key[..i + 1][..i] == path[..i] && path'[..i] == path'[..i + 1][..i];
  }

  lemma PlanParam(t: Tree, verb: string, ppath: string, h: HandlerId, key: string, path: string, i: nat,
      names: seq<string>)
    requires Scanned(t, ppath, key, path, i, names) && i < |path| && path[i] == ':'
    ensures Added(t, InsertAll(t, Plan(verb, ppath, h, path, i, names)), key, i, verb,
        RouteMethod(ppath, Names(ppath), Some(h)))
    decreases |path| - i, 0
  {
    var full := RouteMethod(ppath, Names(ppath), Some(h));
    var path' := path[..i + 1] + path[i + Slash(path[i..])..];
    var names' := names + [path[i + 1..i + Slash(path[i..])]];
    var op := Op(verb, path'[..i + 1], Param, if i + 1 == |path'| then RouteMethod(ppath, names', Some(h))
        else NO_ROUTE);
    var t1, t2 := ParamStep(t, verb, ppath, h, key, path, i, names, path', names', op);
    ParamResume(t, verb, ppath, h, path, i, names, path', names', op);
    ParamText(ppath, key, path, i, names, path', names');
    var t3 := InsertAll(t2, Plan(verb, ppath, h, path', i + 2, names'));
    ParamKey(key, path, path', i);
    if i + 1 == |path'| {
      PlanDone(t2, verb, ppath, h, key, path', i + 2, names');
      AfterSame(t1, t2, t3, op);
    } else {
      PlanAdds(t2, verb, ppath, h, key, path', i + 2, names');
      assert key[i + 1] == path'[..i + 2][i + 1];
      AfterParam(t1, t2, t3, op, key, i, verb, full);
    }
    AfterStatic(t, t1, t3, Op(verb, path[..i], Static, NO_ROUTE), key, i, verb, full);
  }

  lemma AnyStep(t: Tree, verb: string, ppath: string, h: HandlerId, key: string, path: string, i: nat,
      names: seq<string>, op: Op)
    returns (t1: Tree, t2: Tree)
    requires Scanned(t, ppath, key, path, i, names) && i < |path| && path[i] == '*'
    requires op == Op(verb, path[..i + 1], Any, RouteMethod(ppath, names + ["*"], Some(h)))
    ensures Entered(t, t1, Op(verb, path[..i], Static, NO_ROUTE)) && t1.maxParam == t.maxParam && path[..i] <= key
    ensures Entered(t1, t2, op) && t2.maxParam == Max(t1.maxParam, |op.rm.pnames|)
    ensures i + 1 == |path| && op.path == key == path && Names(ppath) == names + ["*"]
    ensures Scanned(t2, ppath, key, path, i + 1, names + ["*"])
    ensures t1 == Insert(t, Op(verb, path[..i], Static, NO_ROUTE)) && t2 == Insert(t1, op) && Ready(t1, op)
  {
    t1 := StaticInsert(t, verb, ppath, key, path, i, names);
    AnyText(ppath, key, path, i, names);
    KnownPrefix(t1, path, path[..i + 1], i);
    assert path[..i + 1][..i] == path[..i];
    assert Ready(t1, op);
    InsertEnters(t1, op);
    t2 := Insert(t1, op);
  }

  lemma PlanAny(t: Tree, verb: string, ppath: string, h: HandlerId, key: string, path: string, i: nat,
      names: seq<string>)
    requires Scanned(t, ppath, key, path, i, names) && i < |path| && path[i] == '*'
    ensures Added(t, InsertAll(t, Plan(verb, ppath, h, path, i, names)), key, i, verb,
        RouteMethod(ppath, Names(ppath), Some(h)))
  {
    var before, op := Op(verb, path[..i], Static, NO_ROUTE),
        Op(verb, path[..i + 1], Any, RouteMethod(ppath, names + ["*"], Some(h)));
    var t1, t2 := AnyStep(t, verb, ppath, h, key, path, i, names, op);
    var rest := Plan(verb, ppath, h, path, i + 1, names + ["*"]);
    PlanDone(t2, verb, ppath, h, key, path, i + 1, names + ["*"]);
    var t3 := InsertAll(t2, rest);
    AfterSame(t1, t2, t3, op);
    AfterStatic(t, t1, t3, before, key, i, verb, op.rm);
    InsertTwo(t, before, op, rest);
  }

  lemma ScanStart(t: Tree, p: string)
    requires WellFormed(t) && p != "" && p[0] == '/' && Supported(p, '/')
    ensures Scanned(t, p, Normal(p), p, 0, [])
  {
    assert p[0..] == p && p[..0] == "";
    assert [] + Names(p) == Names(p) && "" + Normal(p) == Normal(p);
  }

  /** The scan moves past a byte that is no marker. */
  lemma PlainScan(t: Tree, verb: string, ppath: string, h: HandlerId, key: string, path: string, i: nat,
      names: seq<string>)
    requires Scanned(t, ppath, key, path, i, names) && i < |path| && !IsMarker(path[i])
    ensures Scanned(t, ppath, key, path, i + 1, names)
    ensures Plan(verb, ppath, h, path, i, names) == Plan(verb, ppath, h, path, i + 1, names)
  {
    PlainText(ppath, key, path, i, names);
  }

  /** Registering a pattern sets the entry for its key and method; no other entry changes, except that the
      methods which can hold a record without a handler get empty ones where a part of the pattern before
      a marker splits a node.  The tree stays well formed. */
  lemma AddKeeps(t: Tree, verb: string, pattern: string, h: HandlerId)
    requires WellFormed(t) && Supported(Rooted(pattern), '/')
    ensures Added(t, Add(t, verb, pattern, h), Normal(Rooted(pattern)), 0, verb, RouteFor(pattern, h))
  {
    var p := Rooted(pattern);
    ScanStart(t, p);
    PlanAdds(t, verb, p, h, Normal(p), p, 0, []);
  }
}
