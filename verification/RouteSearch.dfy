/** The reference search: a plain recursive descent that tries the static child, then the parameter
    child, then the any child of a node.  An any node ends the whole search. */
module RouteSearch {
  import opened Options
  import opened Text
  import opened RouteTree
  import opened RouteInsert

  /** A node whose path matches, with the parameter values on the way to it. */
  datatype Best = Best(key: string, values: seq<string>)

  datatype Verdict =
    | Hit(key: string, rm: RouteMethod, values: seq<string>)  // a record for the method, or a not-found record
    | Cut(values: seq<string>)                                // an any node without a record ended the search
    | Miss

  /** The verdict, and the first node whose path matches without regard to the method. */
  datatype Outcome = Outcome(verdict: Verdict, best: Option<Best>)

  /** An outcome, and the nodes entered on the way to it, in order. */
  datatype Run = Run(out: Outcome, trail: seq<nat>)

  function Chain(a: Run, b: Run): Run {
    Run(b.out, a.trail + b.trail)
  }

  function Visit(c: nat, r: Run): Run {
    Run(r.out, [c] + r.trail)
  }

  function Longest(keys: seq<string>): (n: nat)
    ensures forall k :: 0 <= k < |keys| ==> |keys[k]| <= n
  {
    if keys == [] then 0 else Max(|keys[0]|, Longest(keys[1..]))
  }

  ghost function StaticChild(t: Tree, i: nat, c: char): (r: Option<nat>)
    requires WellFormed(t) && i < |t.nodes|
    ensures r.Some? ==> Under(t, i, r.value) && t.nodes[r.value].kind == Static && t.nodes[r.value].initial == c
  {
    StaticsInRange(t, i);
    var r := FindStatic(t.nodes, t.nodes[i].statics, c);
    assert r.Some? ==> t.nodes[i].HasChildOfKind(Static, r.value);
    UnderAll(t, i);
    r
  }

  /** Node `c` is a child of node `i`, with everything that follows from it. */
  ghost predicate Under(t: Tree, i: nat, c: nat)
    requires Shape(t) && i < |t.nodes|
  {
    && Below(t, i, c) && t.nodes[i].HasChild(c) && t.nodes[c].parent == Some(i) && 0 < c
    && |t.keys[i]| < |t.keys[c]| <= Longest(t.keys) && PrefixOK(t.nodes[c])
  }

  lemma UnderAll(t: Tree, i: nat)
    requires WellFormed(t) && i < |t.nodes|
    ensures forall k: Kind, c: nat :: t.nodes[i].HasChildOfKind(k, c) ==> Under(t, i, c) && t.nodes[c].kind == k
  {
    assert NodeOK(t, i);
    forall k: Kind, c: nat | t.nodes[i].HasChildOfKind(k, c) ensures Under(t, i, c) && t.nodes[c].kind == k {
      assert t.nodes[i].HasChild(c) && NodeOK(t, c);
      assert NodeOK(t, 0);
    }
  }

  /** How much of the rest a parameter node takes: all of it at a leaf, otherwise up to the next slash. */
  ghost function Taken(t: Tree, c: nat, s: string): (k: nat)
    requires c < |t.nodes|
    ensures k <= |s|
  {
    if t.nodes[c].isLeaf then |s| else Slash(s)
  }

  ghost function Enter(t: Tree, m: string, i: nat, s: string, vs: seq<string>, best: Option<Best>): Run
    requires WellFormed(t) && i < |t.nodes|
    decreases Longest(t.keys) - |t.keys[i]|, 4
  {
    var n := t.nodes[i];
    if n.kind.Static? && !(n.prefix <= s) then Run(Outcome(Miss, best), [])
    else Check(t, m, i, if n.kind.Static? then s[|n.prefix|..] else s, vs, best)
  }

  /** The prefix of node `i` has matched and `s` is left. */
  ghost function Check(t: Tree, m: string, i: nat, s: string, vs: seq<string>, best: Option<Best>): Run
    requires WellFormed(t) && i < |t.nodes|
    decreases Longest(t.keys) - |t.keys[i]|, 3
  {
    var n := t.nodes[i];
    var best' := if s == "" && n.isHandler && best.None? then Some(Best(t.keys[i], vs)) else best;
    if s == "" && n.isHandler && n.methods.Get(m).Some? then
      Run(Outcome(Hit(t.keys[i], n.methods.Get(m).value, vs), best'), [])
    else if s == "" && !n.isHandler && n.notFound.Some? then
      Run(Outcome(Hit(t.keys[i], n.notFound.value, vs), best'), [])
    else Statics(t, m, i, s, vs, best')
  }

  ghost function Statics(t: Tree, m: string, i: nat, s: string, vs: seq<string>, best: Option<Best>): Run
    requires WellFormed(t) && i < |t.nodes|
    decreases Longest(t.keys) - |t.keys[i]|, 2
  {
    if s != "" && StaticChild(t, i, s[0]).Some? then
      var c := StaticChild(t, i, s[0]).value;
      var r := Visit(c, Enter(t, m, c, s, vs, best));
      if r.out.verdict.Miss? then Chain(r, Params(t, m, i, s, vs, r.out.best)) else r
    else Params(t, m, i, s, vs, best)
  }

  ghost function Params(t: Tree, m: string, i: nat, s: string, vs: seq<string>, best: Option<Best>): Run
    requires WellFormed(t) && i < |t.nodes|
    decreases Longest(t.keys) - |t.keys[i]|, 1
  {
    UnderAll(t, i);
    if s != "" && t.nodes[i].param.Some? then
      var c := t.nodes[i].param.value;
      assert t.nodes[i].HasChildOfKind(Param, c);
      var k := Taken(t, c, s);
      var r := Visit(c, Enter(t, m, c, s[k..], vs + [s[..k]], best));
      if r.out.verdict.Miss? then Chain(r, Anys(t, m, i, s, vs, r.out.best)) else r
    else Anys(t, m, i, s, vs, best)
  }

  ghost function Anys(t: Tree, m: string, i: nat, s: string, vs: seq<string>, best: Option<Best>): Run
    requires WellFormed(t) && i < |t.nodes|
    decreases Longest(t.keys) - |t.keys[i]|, 0
  {
    UnderAll(t, i);
    if t.nodes[i].any.Some? then
      var c := t.nodes[i].any.value;
      assert t.nodes[i].HasChildOfKind(Any, c);
      var n, vs' := t.nodes[c], vs + [s];
      var best' := if best.None? then Some(Best(t.keys[c], vs')) else best;
      if n.methods.Get(m).Some? then Run(Outcome(Hit(t.keys[c], n.methods.Get(m).value, vs'), best), [c])
      else if n.notFound.Some? then Run(Outcome(Hit(t.keys[c], n.notFound.value, vs'), best'), [c])
      else Run(Outcome(Cut(vs), best'), [c])
    else Run(Outcome(Miss, best), [])
  }

  /** The search for a method and a path, from the root. */
  ghost function Search(t: Tree, m: string, path: string): Run
    requires WellFormed(t)
  {
    Visit(0, Enter(t, m, 0, path, [], None))
  }

  // Every matched path is spelled by its key and values

  /** Nodes that may take a value with slashes in it: any nodes, and parameter nodes without children. */
  ghost predicate TakesRest(t: Tree, key: string)
    requires |t.nodes| == |t.keys|
  {
    exists c: nat :: c < |t.nodes| && t.keys[c] == key &&
        (t.nodes[c].kind.Any? || (t.nodes[c].kind.Param? && t.nodes[c].isLeaf))
  }

  /** The key, filled with the values, spells the path; only the last value may contain a slash, and
      only where a node takes the rest of the path. */
  ghost predicate Spells(t: Tree, path: string, key: string, values: seq<string>)
    requires |t.nodes| == |t.keys|
  {
    && HasKey(t, key) && |values| == Markers(key) && Fill(key, values) == path
    && forall j: nat :: j < |values| ==> NoSlash(values[j]) || (j + 1 == |values| && TakesRest(t, key))
  }

  /** Some node with this key answers the method with this record. */
  ghost predicate Answers(t: Tree, m: string, key: string, rm: RouteMethod)
    requires |t.nodes| == |t.keys|
  {
    exists c: nat :: c < |t.nodes| && t.keys[c] == key &&
        (t.nodes[c].methods.Get(m) == Some(rm) || t.nodes[c].notFound == Some(rm))
  }

  ghost predicate Sound(t: Tree, m: string, path: string, o: Outcome)
    requires |t.nodes| == |t.keys|
  {
    && (o.verdict.Hit? ==>
        Spells(t, path, o.verdict.key, o.verdict.values) && Answers(t, m, o.verdict.key, o.verdict.rm))
    && (o.verdict.Cut? ==> o.best.Some? && forall j: nat :: j < |o.verdict.values| ==> NoSlash(o.verdict.values[j]))
    && (o.best.Some? ==> Spells(t, path, o.best.value.key, o.best.value.values))
    && (o.best.Some? && !o.verdict.Hit? ==> Offers(t, o.best.value.key))
  }

  /** A node that can be a best match: it has a method, or it is an any node without a not-found record. */
  ghost predicate Offers(t: Tree, key: string)
    requires |t.nodes| == |t.keys|
  {
    exists c: nat :: c < |t.nodes| && t.keys[c] == key &&
        (t.nodes[c].isHandler || (t.nodes[c].kind.Any? && t.nodes[c].notFound.None?))
  }

  /** The search stands at node `i` with `s` left of the path. */
  ghost predicate At(t: Tree, path: string, i: nat, s: string, vs: seq<string>)
    requires |t.nodes| == |t.keys| && i < |t.nodes|
  {
    && |vs| == Markers(t.keys[i]) && Fill(t.keys[i], vs) + s == path
    && forall j: nat :: j < |vs| ==> NoSlash(vs[j]) || (j + 1 == |vs| && t.nodes[i].kind.Param? && t.nodes[i].isLeaf)
  }

  /** The search is about to enter node `i`. */
  ghost predicate Before(t: Tree, path: string, i: nat, s: string, vs: seq<string>)
    requires |t.nodes| == |t.keys| && i < |t.nodes|
  {
    if t.nodes[i].kind.Static? && t.nodes[i].prefix <= s then At(t, path, i, s[|t.nodes[i].prefix|..], vs)
    else t.nodes[i].kind.Param? ==> At(t, path, i, s, vs)
  }

  lemma RootBefore(t: Tree, path: string)
    requires WellFormed(t)
    ensures Before(t, path, 0, path, [])
  {
    assert NodeOK(t, 0);
    FillNone(t.keys[0]);
  }

  /** A node with children is no leaf, so every value so far is free of slashes. */
  lemma NoSlashAbove(t: Tree, path: string, i: nat, s: string, vs: seq<string>, c: nat)
    requires WellFormed(t) && i < |t.nodes| && At(t, path, i, s, vs) && t.nodes[i].HasChild(c)
    ensures forall j: nat :: j < |vs| ==> NoSlash(vs[j])
  {
    assert NodeOK(t, i);
    if t.nodes[i].kind.Param? {
      assert t.nodes[i].prefix == ":" ==> t.keys[i] != "" by {
        if i != 0 { var p := ParentBelow(t, i); }
      }
    }
  }

  lemma StaticBefore(t: Tree, path: string, i: nat, s: string, vs: seq<string>, c: nat)
    requires WellFormed(t) && i < |t.nodes| && At(t, path, i, s, vs) && Under(t, i, c) && t.nodes[c].kind.Static?
    ensures Before(t, path, c, s, vs)
    ensures Markers(t.keys[c]) == Markers(t.keys[i])
  {
    NoSlashAbove(t, path, i, s, vs, c);
    var pre := t.nodes[c].prefix;
    FillAppend(t.keys[i], pre, vs);
    if pre <= s {
      assert s == pre + s[|pre|..];
      assert Fill(t.keys[i], vs) + s == Fill(t.keys[i], vs) + pre + s[|pre|..];
    }
  }

  lemma ParamBefore(t: Tree, path: string, i: nat, s: string, vs: seq<string>, c: nat)
    requires WellFormed(t) && i < |t.nodes| && At(t, path, i, s, vs) && Under(t, i, c) && t.nodes[c].kind.Param?
    ensures At(t, path, c, s[Taken(t, c, s)..], vs + [s[..Taken(t, c, s)]])
    ensures Markers(t.keys[c]) == Markers(t.keys[i]) + 1
  {
    NoSlashAbove(t, path, i, s, vs, c);
    var k := Taken(t, c, s);
    FillMark(t.keys[i], ":", vs, s[..k]);
    CutAt(Fill(t.keys[i], vs), s, k);
  }

  lemma CutAt(a: string, s: string, k: nat)
    requires k <= |s|
    ensures a + s == a + s[..k] + s[k..]
  {
    assert s == s[..k] + s[k..];
  }

  lemma AnySpells(t: Tree, path: string, i: nat, s: string, vs: seq<string>, c: nat)
    requires WellFormed(t) && i < |t.nodes| && At(t, path, i, s, vs) && Under(t, i, c) && t.nodes[c].kind.Any?
    ensures Spells(t, path, t.keys[c], vs + [s])
    ensures Markers(t.keys[c]) == Markers(t.keys[i]) + 1
  {
    NoSlashAbove(t, path, i, s, vs, c);
    FillMark(t.keys[i], "*", vs, s);
  }

  lemma AtSpells(t: Tree, path: string, i: nat, vs: seq<string>)
    requires |t.nodes| == |t.keys| && i < |t.nodes| && At(t, path, i, "", vs)
    ensures Spells(t, path, t.keys[i], vs)
  {
    assert Fill(t.keys[i], vs) + "" == Fill(t.keys[i], vs);
  }

  lemma {:induction false} EnterSound(t: Tree, m: string, path: string, i: nat, s: string, vs: seq<string>,
      best: Option<Best>)
    requires WellFormed(t) && i < |t.nodes| && Before(t, path, i, s, vs) && !t.nodes[i].kind.Any?
    requires Sound(t, m, path, Outcome(Miss, best))
    ensures Sound(t, m, path, Enter(t, m, i, s, vs, best).out)
    decreases Longest(t.keys) - |t.keys[i]|, 4
  {
    var n := t.nodes[i];
    if !(n.kind.Static? && !(n.prefix <= s)) {
      CheckSound(t, m, path, i, if n.kind.Static? then s[|n.prefix|..] else s, vs, best);
    }
  }

  lemma {:induction false} CheckSound(t: Tree, m: string, path: string, i: nat, s: string, vs: seq<string>,
      best: Option<Best>)
    requires WellFormed(t) && i < |t.nodes| && At(t, path, i, s, vs)
    requires Sound(t, m, path, Outcome(Miss, best))
    ensures Sound(t, m, path, Check(t, m, i, s, vs, best).out)
    decreases Longest(t.keys) - |t.keys[i]|, 3
  {
    if s == "" {
      AtSpells(t, path, i, vs);
    }
    StaticsSound(t, m, path, i, s, vs, if s == "" && t.nodes[i].isHandler &&
        best.None? then Some(Best(t.keys[i], vs)) else best);
  }

  lemma {:induction false} StaticsSound(t: Tree, m: string, path: string, i: nat, s: string, vs: seq<string>,
      best: Option<Best>)
    requires WellFormed(t) && i < |t.nodes| && At(t, path, i, s, vs)
    requires Sound(t, m, path, Outcome(Miss, best))
    ensures Sound(t, m, path, Statics(t, m, i, s, vs, best).out)
    decreases Longest(t.keys) - |t.keys[i]|, 2
  {
    if s != "" && StaticChild(t, i, s[0]).Some? {
      var c := StaticChild(t, i, s[0]).value;
      StaticBefore(t, path, i, s, vs, c);
      EnterSound(t, m, path, c, s, vs, best);
      if Enter(t, m, c, s, vs, best).out.verdict.Miss? {
        ParamsSound(t, m, path, i, s, vs, Enter(t, m, c, s, vs, best).out.best);
      }
    } else {
      ParamsSound(t, m, path, i, s, vs, best);
    }
  }

  lemma {:induction false} ParamsSound(t: Tree, m: string, path: string, i: nat, s: string, vs: seq<string>,
      best: Option<Best>)
    requires WellFormed(t) && i < |t.nodes| && At(t, path, i, s, vs)
    requires Sound(t, m, path, Outcome(Miss, best))
    ensures Sound(t, m, path, Params(t, m, i, s, vs, best).out)
    decreases Longest(t.keys) - |t.keys[i]|, 1
  {
    UnderAll(t, i);
    if s != "" && t.nodes[i].param.Some? {
      var c := t.nodes[i].param.value;
      assert t.nodes[i].HasChildOfKind(Param, c);
      var k := Taken(t, c, s);
      ParamBefore(t, path, i, s, vs, c);
      EnterSound(t, m, path, c, s[k..], vs + [s[..k]], best);
      if Enter(t, m, c, s[k..], vs + [s[..k]], best).out.verdict.Miss? {
        AnysSound(t, m, path, i, s, vs, Enter(t, m, c, s[k..], vs + [s[..k]], best).out.best);
      }
    } else {
      AnysSound(t, m, path, i, s, vs, best);
    }
  }

  lemma AnysSound(t: Tree, m: string, path: string, i: nat, s: string, vs: seq<string>, best: Option<Best>)
    requires WellFormed(t) && i < |t.nodes| && At(t, path, i, s, vs)
    requires Sound(t, m, path, Outcome(Miss, best))
    ensures Sound(t, m, path, Anys(t, m, i, s, vs, best).out)
  {
    UnderAll(t, i);
    if t.nodes[i].any.Some? {
      var c := t.nodes[i].any.value;
      assert t.nodes[i].HasChildOfKind(Any, c);
      AnySpells(t, path, i, s, vs, c);
      NoSlashAbove(t, path, i, s, vs, c);
    }
  }

  /** Whatever the search finds, the key with its values spells the searched path, and an any node only
      ends the search with a best match in hand. */
  lemma SearchSound(t: Tree, m: string, path: string)
    requires WellFormed(t)
    ensures Sound(t, m, path, Search(t, m, path).out)
  {
    assert NodeOK(t, 0);
    RootBefore(t, path);
    EnterSound(t, m, path, 0, path, [], None);
  }

  // No node is entered twice

  ghost predicate NoRepeats(s: seq<nat>) {
    forall a: nat, b: nat :: a < b < |s| ==> s[a] != s[b]
  }

  /** The nodes of a trail are below node `i`, and the byte of their keys after the key of `i` is not in `bytes`. */
  ghost predicate Beyond(t: Tree, i: nat, x: nat, bytes: set<char>)
    requires |t.nodes| == |t.keys| && i < |t.nodes|
  {
    x < |t.nodes| && t.keys[i] < t.keys[x] && t.keys[x][|t.keys[i]|] !in bytes
  }

  /** A trail below node `i` without repetition. */
  ghost predicate TrailOK(t: Tree, i: nat, trail: seq<nat>, bytes: set<char>)
    requires |t.nodes| == |t.keys| && i < |t.nodes|
  {
    NoRepeats(trail) && forall k :: 0 <= k < |trail| ==> Beyond(t, i, trail[k], bytes)
  }

  /** The trail through a child: the child, then nodes below it. */
  lemma VisitTrail(t: Tree, i: nat, c: nat, trail: seq<nat>)
    requires WellFormed(t) && i < |t.nodes| && Under(t, i, c) && TrailOK(t, c, trail, {})
    ensures TrailOK(t, i, [c] + trail, {})
    ensures forall k :: 0 <= k < |[c] + trail| ==> t.keys[([c] + trail)[k]][|t.keys[i]|] == t.nodes[c].initial
  {
    var all := [c] + trail;
    forall k | 0 <= k < |all| ensures Beyond(t, i, all[k], {}) && t.keys[all[k]][|t.keys[i]|] == t.nodes[c].initial {
      if k > 0 {
        assert all[k] == trail[k - 1] && Beyond(t, c, trail[k - 1], {});
        assert t.keys[all[k]][..|t.keys[c]|] == t.keys[c];
        assert t.keys[c] == t.keys[i] + t.nodes[c].prefix;
      }
    }
    forall a: nat, b: nat | a < b < |all| ensures all[a] != all[b] {
      assert all[b] == trail[b - 1] && Beyond(t, c, trail[b - 1], {});
    }
  }

  /** Trails through children with different initial bytes join without repetition. */
  lemma JoinTrails(t: Tree, i: nat, a: seq<nat>, b: seq<nat>, x: char, more: set<char>)
    requires |t.nodes| == |t.keys| && i < |t.nodes|
    requires TrailOK(t, i, a, {}) && TrailOK(t, i, b, more)
    requires forall k :: 0 <= k < |a| ==> t.keys[a[k]][|t.keys[i]|] == x
    requires x in more
    ensures TrailOK(t, i, a + b, {})
  {
    var all := a + b;
    forall k | 0 <= k < |all| ensures Beyond(t, i, all[k], {}) {
      assert if k < |a| then Beyond(t, i, a[k], {}) else Beyond(t, i, b[k - |a|], more);
    }
    forall u: nat, v: nat | u < v < |all| ensures all[u] != all[v] {
      if u < |a| <= v {
        assert Beyond(t, i, b[v - |a|], more);
      }
    }
  }

  lemma {:induction false} EnterTrail(t: Tree, m: string, i: nat, s: string, vs: seq<string>, best: Option<Best>)
    requires WellFormed(t) && i < |t.nodes|
    ensures TrailOK(t, i, Enter(t, m, i, s, vs, best).trail, {})
    decreases Longest(t.keys) - |t.keys[i]|, 3
  {
    var n := t.nodes[i];
    if !(n.kind.Static? && !(n.prefix <= s)) {
      var rest := if n.kind.Static? then s[|n.prefix|..] else s;
      StaticsTrail(t, m, i, rest, vs, if rest == "" && n.isHandler && best.None? then Some(Best(t.keys[i], vs))
          else best);
    }
  }

  lemma {:induction false} StaticsTrail(t: Tree, m: string, i: nat, s: string, vs: seq<string>, best: Option<Best>)
    requires WellFormed(t) && i < |t.nodes|
    ensures TrailOK(t, i, Statics(t, m, i, s, vs, best).trail, {})
    decreases Longest(t.keys) - |t.keys[i]|, 2
  {
    if s != "" && StaticChild(t, i, s[0]).Some? {
      var c := StaticChild(t, i, s[0]).value;
      var r := Enter(t, m, c, s, vs, best);
      EnterTrail(t, m, c, s, vs, best);
      VisitTrail(t, i, c, r.trail);
      ParamsTrail(t, m, i, s, vs, r.out.best, s[0]);
      JoinTrails(t, i, [c] + r.trail, Params(t, m, i, s, vs, r.out.best).trail, s[0], {s[0]});
    } else {
      ParamsTrail(t, m, i, s, vs, best, '/');
      WiderTrail(t, i, Params(t, m, i, s, vs, best).trail, {'/'});
    }
  }

  lemma WiderTrail(t: Tree, i: nat, trail: seq<nat>, bytes: set<char>)
    requires |t.nodes| == |t.keys| && i < |t.nodes| && TrailOK(t, i, trail, bytes)
    ensures TrailOK(t, i, trail, {})
  {
    forall k | 0 <= k < |trail| ensures Beyond(t, i, trail[k], {}) {
      assert Beyond(t, i, trail[k], bytes);
    }
  }

  lemma {:induction false} ParamsTrail(t: Tree, m: string, i: nat, s: string, vs: seq<string>, best: Option<Best>,
      x: char)
    requires WellFormed(t) && i < |t.nodes| && !IsMarker(x)
    ensures TrailOK(t, i, Params(t, m, i, s, vs, best).trail, {x})
    decreases Longest(t.keys) - |t.keys[i]|, 1
  {
    UnderAll(t, i);
    if s != "" && t.nodes[i].param.Some? {
      var c := t.nodes[i].param.value;
      assert t.nodes[i].HasChildOfKind(Param, c);
      var k := Taken(t, c, s);
      var r := Enter(t, m, c, s[k..], vs + [s[..k]], best);
      EnterTrail(t, m, c, s[k..], vs + [s[..k]], best);
      VisitTrail(t, i, c, r.trail);
      AnysTrail(t, m, i, s, vs, r.out.best, {':', x});
      var rest := Anys(t, m, i, s, vs, r.out.best).trail;
      JoinTrails(t, i, [c] + r.trail, rest, ':', {':', x});
      SharpTrail(t, i, [c] + r.trail, rest, x);
      SharpTrail(t, i, [c] + r.trail, [], x);
    } else {
      AnysTrail(t, m, i, s, vs, best, {x});
    }
  }

  lemma SharpTrail(t: Tree, i: nat, a: seq<nat>, b: seq<nat>, x: char)
    requires |t.nodes| == |t.keys| && i < |t.nodes| && x != ':'
    requires TrailOK(t, i, a, {}) && forall k :: 0 <= k < |a| ==> t.keys[a[k]][|t.keys[i]|] == ':'
    requires TrailOK(t, i, b, {':', x})
    requires TrailOK(t, i, a + b, {})
    ensures TrailOK(t, i, a + b, {x})
  {
    forall k | 0 <= k < |a + b| ensures Beyond(t, i, (a + b)[k], {x}) {
      assert if k < |a| then Beyond(t, i, a[k], {}) else Beyond(t, i, b[k - |a|], {':', x});
    }
  }

  lemma AnysTrail(t: Tree, m: string, i: nat, s: string, vs: seq<string>, best: Option<Best>, bytes: set<char>)
    requires WellFormed(t) && i < |t.nodes| && '*' !in bytes
    ensures TrailOK(t, i, Anys(t, m, i, s, vs, best).trail, bytes)
  {
    UnderAll(t, i);
    if t.nodes[i].any.Some? {
      assert t.nodes[i].HasChildOfKind(Any, t.nodes[i].any.value);
    }
  }

  /** A search enters every node at most once. */
  lemma SearchOnce(t: Tree, m: string, path: string)
    requires WellFormed(t)
    ensures NoRepeats(Search(t, m, path).trail)
    ensures forall k :: 0 <= k < |Search(t, m, path).trail| ==> Search(t, m, path).trail[k] < |t.nodes|
  {
    var r := Enter(t, m, 0, path, [], None);
    EnterTrail(t, m, 0, path, [], None);
    var all := [0] + r.trail;
    forall k | 0 < k < |all| ensures 0 != all[k] < |t.nodes| {
      assert Beyond(t, 0, r.trail[k - 1], {});
    }
    assert forall a: nat, b: nat :: 0 < a < b < |all| ==> all[a] == r.trail[a - 1] && all[b] == r.trail[b - 1];
  }
}
