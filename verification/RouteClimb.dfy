/** Backtracking by parent links: what is left of the reference search when the loop of `Find` stands at
    a node, and why each move of the loop leaves it unchanged. */
module RouteClimb {
  import opened Options
  import opened Text
  import opened RouteTree
  import opened RouteSearch

  /** The part of the path after a key filled with values. */
  ghost function Rest(path: string, key: string, vs: seq<string>): string
    requires |vs| == Markers(key)
  {
    if |Fill(key, vs)| <= |path| then path[|Fill(key, vs)|..] else ""
  }

  lemma AtRest(t: Tree, path: string, i: nat, s: string, vs: seq<string>)
    requires |t.nodes| == |t.keys| && i < |t.nodes| && At(t, path, i, s, vs)
    ensures s == Rest(path, t.keys[i], vs)
    ensures |path| == |Fill(t.keys[i], vs)| + |s|
  {}

  ghost function ParentOf(t: Tree, i: nat): (p: nat)
    requires WellFormed(t) && 0 < i < |t.nodes|
    ensures t.nodes[i].parent == Some(p) && p < |t.nodes| && Under(t, p, i)
    ensures Markers(t.keys[i]) == Markers(t.keys[p]) + if t.nodes[i].kind.Static? then 0 else 1
  {
    assert NodeOK(t, i);
    var p := t.nodes[i].parent.value;
    UnderAll(t, p);
    assert t.nodes[p].HasChildOfKind(t.nodes[i].kind, i);
    MarkersConcat(t.keys[p], t.nodes[i].prefix);
    assert t.nodes[i].kind.Static? ==>
        Markers(t.nodes[i].prefix) == 0 by { if t.nodes[i].kind.Static? { MarkersNone(t.nodes[i].prefix); } }
    assert !t.nodes[i].kind.Static? ==> t.nodes[i].prefix[1..] == "";
    p
  }

  /** The search after node `i` has given `r`: a miss sends it back to the parent, to the kind of child
      that comes next, and so on up to the root. */
  ghost function Climb(t: Tree, m: string, path: string, i: nat, vs: seq<string>, r: Run): Run
    requires WellFormed(t) && i < |t.nodes| && |vs| == Markers(t.keys[i])
    decreases |t.keys[i]|
  {
    if !r.out.verdict.Miss? || i == 0 then r
    else
      var p := ParentOf(t, i);
      var vs' := vs[..Markers(t.keys[p])];
      var s := Rest(path, t.keys[p], vs');
      var next := if t.nodes[i].kind.Static? then Params(t, m, p, s, vs', r.out.best)
          else Anys(t, m, p, s, vs', r.out.best);
      Climb(t, m, path, p, vs', Chain(r, next))
  }

  /** The block of the loop that runs next. */
  datatype Phase = Top | CheckBlock | StaticBlock | ParamBlock | AnyBlock

  ghost function Local(t: Tree, m: string, i: nat, phase: Phase, s: string, vs: seq<string>, best: Option<Best>): Run
    requires WellFormed(t) && i < |t.nodes|
  {
    match phase
    case Top => Enter(t, m, i, s, vs, best)
    case CheckBlock => Check(t, m, i, s, vs, best)
    case StaticBlock => Statics(t, m, i, s, vs, best)
    case ParamBlock => Params(t, m, i, s, vs, best)
    case AnyBlock => Anys(t, m, i, s, vs, best)
  }

  /** The run that the loop completes from here. */
  ghost function Pending(t: Tree, m: string, path: string, i: nat, vs: seq<string>, trail: seq<nat>, r: Run): Run
    requires WellFormed(t) && i < |t.nodes| && |vs| == Markers(t.keys[i])
  {
    Climb(t, m, path, i, vs, Run(r.out, trail + r.trail))
  }

  lemma PendingStart(t: Tree, m: string, path: string)
    requires WellFormed(t)
    ensures Markers(t.keys[0]) == 0
    ensures Pending(t, m, path, 0, [], [0], Local(t, m, 0, Top, path, [], None)) == Search(t, m, path)
  {
    assert NodeOK(t, 0);
    MarkersNone(t.keys[0]);
  }

  /** Going back to the parent: where the search resumes. */
  lemma PendingUp(t: Tree, m: string, path: string, i: nat, vs: seq<string>, trail: seq<nat>, best: Option<Best>)
    requires WellFormed(t) && 0 < i < |t.nodes| && |vs| == Markers(t.keys[i])
    ensures var p := ParentOf(t, i); var vs' := vs[..Markers(t.keys[p])];
            Pending(t, m, path, i, vs, trail, Run(Outcome(Miss, best), [])) ==
            Pending(t, m, path, p, vs', trail,
                    Local(t, m, p, if t.nodes[i].kind.Static? then ParamBlock
                        else AnyBlock, Rest(path, t.keys[p], vs'), vs', best))
  {
    assert trail + [] == trail;
  }

  /** Moving down to a child leaves the run unchanged. */
  lemma PendingDown(t: Tree, m: string, path: string, i: nat, s: string, vs: seq<string>, trail: seq<nat>, c: nat,
      s': string, vs': seq<string>, best: Option<Best>)
    requires WellFormed(t) && i < |t.nodes| && At(t, path, i, s, vs) && Under(t, i, c) && !t.nodes[c].kind.Any?
    requires |vs'| == Markers(t.keys[c]) && vs <= vs'
    ensures var r := Visit(c, Enter(t, m, c, s', vs', best));
            var next := if t.nodes[c].kind.Static? then Params(t, m, i, s, vs, r.out.best)
                else Anys(t, m, i, s, vs, r.out.best);
            Pending(t, m, path, i, vs, trail, if r.out.verdict.Miss? then Chain(r, next) else r) ==
            Pending(t, m, path, c, vs', trail + [c], Local(t, m, c, Top, s', vs', best))
  {
    var e := Enter(t, m, c, s', vs', best);
    var r := Visit(c, e);
    assert trail + [c] + e.trail == trail + r.trail;
    AtRest(t, path, i, s, vs);
    assert ParentOf(t, c) == i;
    if e.out.verdict.Miss? {
      assert vs'[..|vs|] == vs;
      var next := if t.nodes[c].kind.Static? then Params(t, m, i, s, vs, r.out.best)
          else Anys(t, m, i, s, vs, r.out.best);
      assert (trail + r.trail) + next.trail == trail + (r.trail + next.trail);
    }
  }

  lemma {:induction false} ClimbTrail(t: Tree, m: string, path: string, i: nat, vs: seq<string>, r: Run)
    requires WellFormed(t) && i < |t.nodes| && |vs| == Markers(t.keys[i])
    ensures r.trail <= Climb(t, m, path, i, vs, r).trail
    decreases |t.keys[i]|
  {
    if r.out.verdict.Miss? && i != 0 {
      var p := ParentOf(t, i);
      var vs' := vs[..Markers(t.keys[p])];
      var s := Rest(path, t.keys[p], vs');
      var next := if t.nodes[i].kind.Static? then Params(t, m, p, s, vs', r.out.best)
          else Anys(t, m, p, s, vs', r.out.best);
      ClimbTrail(t, m, path, p, vs', Chain(r, next));
    }
  }

  /** What holds whenever the loop of `Find` starts a block. */
  ghost predicate Here(t: Tree, m: string, path: string, run: Run, i: nat, phase: Phase, s: string, vs: seq<string>,
      best: Option<Best>, trail: seq<nat>) {
    && WellFormed(t) && i < |t.nodes| && |vs| == Markers(t.keys[i]) && !t.nodes[i].kind.Any?
    && Suffix(s, path)
    && Pending(t, m, path, i, vs, trail, Local(t, m, i, phase, s, vs, best)) == run
    && (if phase != Top then At(t, path, i, s, vs)
        else if i == 0 then s == path && vs == []
        else if t.nodes[i].kind.Static? then At(t, path, ParentOf(t, i), s, vs)
        else At(t, path, i, s, vs))
  }

  ghost predicate Suffix(s: string, path: string) {
    |s| <= |path| && s == path[|path| - |s|..]
  }

  lemma AtSuffix(t: Tree, path: string, i: nat, s: string, vs: seq<string>)
    requires |t.nodes| == |t.keys| && i < |t.nodes| && At(t, path, i, s, vs)
    ensures Suffix(s, path)
  {}

  lemma HereStart(t: Tree, m: string, path: string)
    requires WellFormed(t)
    ensures Here(t, m, path, Search(t, m, path), 0, Top, path, [], None, [0])
  {
    assert NodeOK(t, 0);
    PendingStart(t, m, path);
  }

  lemma HereBefore(t: Tree, m: string, path: string, run: Run, i: nat, s: string, vs: seq<string>, best: Option<Best>,
      trail: seq<nat>)
    requires Here(t, m, path, run, i, Top, s, vs, best, trail)
    ensures Before(t, path, i, s, vs)
  {
    if i == 0 {
      RootBefore(t, path);
    } else if t.nodes[i].kind.Static? {
      StaticBefore(t, path, ParentOf(t, i), s, vs, i);
    }
  }

  /** A prefix that does not match sends the search to the parent's parameter block, or ends it at the root. */
  lemma HereMismatch(t: Tree, m: string, path: string, run: Run, i: nat, s: string, vs: seq<string>,
      best: Option<Best>, trail: seq<nat>)
    requires Here(t, m, path, run, i, Top, s, vs, best, trail)
    requires t.nodes[i].kind.Static? && !(t.nodes[i].prefix <= s)
    ensures i == 0 ==> run.out == Outcome(Miss, best)
    ensures i != 0 ==> Here(t, m, path, run, ParentOf(t, i), ParamBlock, s, vs, best, trail)
  {
    if i != 0 {
      var p := ParentOf(t, i);
      PendingUp(t, m, path, i, vs, trail, best);
      assert vs[..Markers(t.keys[p])] == vs;
      AtRest(t, path, p, s, vs);
      NoAnyParent(t, p, i);
    }
  }

  lemma NoAnyParent(t: Tree, p: nat, i: nat)
    requires WellFormed(t) && p < |t.nodes| && t.nodes[p].HasChild(i)
    ensures !t.nodes[p].kind.Any?
  {
    assert NodeOK(t, p);
  }

  /** A full match of the prefix: the check for a record follows. */
  lemma HereMatch(t: Tree, m: string, path: string, run: Run, i: nat, s: string, rest: string, vs: seq<string>,
      best: Option<Best>, trail: seq<nat>)
    requires Here(t, m, path, run, i, Top, s, vs, best, trail)
    requires if t.nodes[i].kind.Static? then t.nodes[i].prefix <= s && rest == s[|t.nodes[i].prefix|..] else rest == s
    ensures Here(t, m, path, run, i, CheckBlock, rest, vs, best, trail)
  {
    HereBefore(t, m, path, run, i, s, vs, best, trail);
    AtSuffix(t, path, i, rest, vs);
  }

  /** A record ends the search, otherwise the static block follows. */
  lemma HereCheck(t: Tree, m: string, path: string, run: Run, i: nat, s: string, vs: seq<string>, best: Option<Best>,
      trail: seq<nat>)
    requires Here(t, m, path, run, i, CheckBlock, s, vs, best, trail)
    ensures var n := t.nodes[i];
            var best' := if s == "" && n.isHandler && best.None? then Some(Best(t.keys[i], vs)) else best;
            if s == "" && n.isHandler && n.methods.Get(m).Some? then
              run.out == Outcome(Hit(t.keys[i], n.methods.Get(m).value, vs), best')
            else if s == "" && !n.isHandler && n.notFound.Some? then
              run.out == Outcome(Hit(t.keys[i], n.notFound.value, vs), best')
            else Here(t, m, path, run, i, StaticBlock, s, vs, best', trail)
  {}

  lemma HereStatic(t: Tree, m: string, path: string, run: Run, i: nat, s: string, vs: seq<string>, best: Option<Best>,
      trail: seq<nat>)
    requires Here(t, m, path, run, i, StaticBlock, s, vs, best, trail)
    ensures if s != "" && StaticChild(t, i, s[0]).Some? then
              var c := StaticChild(t, i, s[0]).value;
              Here(t, m, path, run, c, Top, s, vs, best, trail + [c]) && trail + [c] <= run.trail
            else Here(t, m, path, run, i, ParamBlock, s, vs, best, trail)
  {
    if s != "" && StaticChild(t, i, s[0]).Some? {
      var c := StaticChild(t, i, s[0]).value;
      StaticBefore(t, path, i, s, vs, c);
      PendingDown(t, m, path, i, s, vs, trail, c, s, vs, best);
      assert ParentOf(t, c) == i;
      var e := Enter(t, m, c, s, vs, best);
      ClimbTrail(t, m, path, c, vs, Run(e.out, trail + [c] + e.trail));
    }
  }

  /** The run is unchanged by the move to a parameter child. */
  lemma ParamRun(t: Tree, m: string, path: string, i: nat, s: string, vs: seq<string>, best: Option<Best>,
      trail: seq<nat>, c: nat, rest: string, vs': seq<string>)
    requires WellFormed(t) && i < |t.nodes| && At(t, path, i, s, vs) && s != ""
    requires t.nodes[i].param == Some(c) && Under(t, i, c) && t.nodes[c].kind.Param?
    requires rest == s[Taken(t, c, s)..] && vs' == vs + [s[..Taken(t, c, s)]]
    requires Markers(t.keys[c]) == |vs| + 1
    ensures var r := Pending(t, m, path, c, vs', trail + [c], Local(t, m, c, Top, rest, vs', best));
            Pending(t, m, path, i, vs, trail, Local(t, m, i, ParamBlock, s, vs, best)) == r && trail + [c] <= r.trail
  {
    PendingDown(t, m, path, i, s, vs, trail, c, rest, vs', best);
    var e := Enter(t, m, c, rest, vs', best);
    ClimbTrail(t, m, path, c, vs', Run(e.out, trail + [c] + e.trail));
  }

  /** Where the search is after the move. */
  lemma ParamAt(t: Tree, path: string, i: nat, s: string, vs: seq<string>, c: nat)
    requires WellFormed(t) && i < |t.nodes| && At(t, path, i, s, vs) && t.nodes[i].param == Some(c)
    ensures Under(t, i, c) && t.nodes[c].kind.Param? && c != 0 && Markers(t.keys[c]) == |vs| + 1
    ensures Taken(t, c, s) == if t.nodes[c].isLeaf then |s| else Slash(s)
    ensures var k := Taken(t, c, s); At(t, path, c, s[k..], vs + [s[..k]]) && Suffix(s[k..], path)
  {
    UnderAll(t, i);
    assert t.nodes[i].HasChildOfKind(Param, c);
    assert NodeOK(t, 0);
    ParamBefore(t, path, i, s, vs, c);
    AtSuffix(t, path, c, s[Taken(t, c, s)..], vs + [s[..Taken(t, c, s)]]);
  }

  lemma ParamDown(t: Tree, m: string, path: string, run: Run, i: nat, s: string, vs: seq<string>, best: Option<Best>,
      trail: seq<nat>, c: nat)
    requires Here(t, m, path, run, i, ParamBlock, s, vs, best, trail) && s != "" && t.nodes[i].param == Some(c)
    ensures c < |t.nodes| && Markers(t.keys[c]) == |vs| + 1
    ensures var k := if t.nodes[c].isLeaf then |s| else Slash(s);
            k <= |s| && Here(t, m, path, run, c, Top, s[k..], vs + [s[..k]], best, trail + [c]) &&
                trail + [c] <= run.trail
  {
    ParamAt(t, path, i, s, vs, c);
    var k := Taken(t, c, s);
    var rest, vs' := s[k..], vs + [s[..k]];
    ParamRun(t, m, path, i, s, vs, best, trail, c, rest, vs');
    HereTop(t, m, path, run, c, rest, vs', best, trail + [c]);
  }

  lemma HereTop(t: Tree, m: string, path: string, run: Run, c: nat, rest: string, vs: seq<string>, best: Option<Best>,
      trail: seq<nat>)
    requires WellFormed(t) && 0 < c < |t.nodes| && t.nodes[c].kind.Param? && |vs| == Markers(t.keys[c])
    requires At(t, path, c, rest, vs) && Suffix(rest, path)
    requires run == Pending(t, m, path, c, vs, trail, Local(t, m, c, Top, rest, vs, best))
    ensures Here(t, m, path, run, c, Top, rest, vs, best, trail)
  {
  }

  lemma ParamSkip(t: Tree, m: string, path: string, run: Run, i: nat, s: string, vs: seq<string>, best: Option<Best>,
      trail: seq<nat>)
    requires Here(t, m, path, run, i, ParamBlock, s, vs, best, trail) && (s == "" || t.nodes[i].param.None?)
    ensures Here(t, m, path, run, i, AnyBlock, s, vs, best, trail)
  {}

  /** The any block: an any child ends the search, otherwise the search goes back to the parent. */
  lemma HereAny(t: Tree, m: string, path: string, run: Run, i: nat, s: string, vs: seq<string>, best: Option<Best>,
      trail: seq<nat>)
    requires Here(t, m, path, run, i, AnyBlock, s, vs, best, trail)
    ensures t.nodes[i].any.Some? ==>
              var c := t.nodes[i].any.value;
              && Under(t, i, c) && t.nodes[c].kind.Any? && t.nodes[c].paramsCount == |vs| + 1 == Markers(t.keys[c])
              && run.out == Anys(t, m, i, s, vs, best).out
    ensures t.nodes[i].any.None? && i == 0 ==> run.out == Outcome(Miss, best)
    ensures t.nodes[i].any.None? && i != 0 ==>
              var p := ParentOf(t, i);
              var vs' := vs[..Markers(t.keys[p])];
              var s' := Rest(path, t.keys[p], vs');
              && Here(t, m, path, run, p, if t.nodes[i].kind.Static? then ParamBlock
                  else AnyBlock, s', vs', best, trail)
              && |s'| == |s| + (if t.nodes[i].kind.Static? then |t.nodes[i].prefix| else |vs[|vs| - 1]|)
              && vs' == (if t.nodes[i].kind.Static? then vs else vs[..|vs| - 1])
  {
    UnderAll(t, i);
    if t.nodes[i].any.Some? {
      var c := t.nodes[i].any.value;
      assert t.nodes[i].HasChildOfKind(Any, c) && NodeOK(t, c);
      AnySpells(t, path, i, s, vs, c);
    } else if i != 0 {
      var p := ParentOf(t, i);
      PendingUp(t, m, path, i, vs, trail, best);
      BackAt(t, path, i, s, vs);
      NoAnyParent(t, p, i);
    }
  }

  /** The state at the parent, restored from the state at the child. */
  lemma BackAt(t: Tree, path: string, i: nat, s: string, vs: seq<string>)
    requires WellFormed(t) && 0 < i < |t.nodes| && At(t, path, i, s, vs) && !t.nodes[i].kind.Any?
    ensures var p := ParentOf(t, i);
            var vs' := vs[..Markers(t.keys[p])];
            var s' := (if t.nodes[i].kind.Static? then t.nodes[i].prefix else vs[|vs| - 1]) + s;
            At(t, path, p, s', vs') && s' == Rest(path, t.keys[p], vs') && Suffix(s', path)
  {
    var p := ParentOf(t, i);
    var pre := t.nodes[i].prefix;
    var vs' := vs[..Markers(t.keys[p])];
    if t.nodes[i].kind.Static? {
      assert vs' == vs;
      FillAppend(t.keys[p], pre, vs);
      assert Fill(t.keys[p], vs) + pre + s == Fill(t.keys[p], vs) + (pre + s);
    } else {
      var v := vs[|vs| - 1];
      assert vs == vs' + [v];
      FillMark(t.keys[p], pre, vs', v);
      assert Fill(t.keys[p], vs') + v + s == Fill(t.keys[p], vs') + (v + s);
    }
    var s' := (if t.nodes[i].kind.Static? then pre else vs[|vs| - 1]) + s;
    assert Fill(t.keys[p], vs') + s' == path;
    assert forall j: nat :: j < |vs'| ==> NoSlash(vs'[j]) by {
      forall j: nat | j < |vs'| ensures NoSlash(vs'[j]) { assert vs'[j] == vs[j]; }
    }
    AtRest(t, path, p, s', vs');
    AtSuffix(t, path, p, s', vs');
  }

  // The moves once more, in the shape in which the loop makes them

  lemma StaticUp(t: Tree, m: string, path: string, run: Run, i: nat, s: string, vs: seq<string>, best: Option<Best>,
      trail: seq<nat>, p: nat)
    requires Here(t, m, path, run, i, AnyBlock, s, vs, best, trail) && t.nodes[i].any.None?
    requires i != 0 && t.nodes[i].kind.Static? && t.nodes[i].parent == Some(p)
    ensures p < |t.nodes| && |t.keys[p]| < |t.keys[i]| && |s| + |t.nodes[i].prefix| <= |path|
    ensures Here(t, m, path, run, p, ParamBlock, path[|path| - |s| - |t.nodes[i].prefix|..], vs, best, trail)
  {
    HereAny(t, m, path, run, i, s, vs, best, trail);
    assert ParentOf(t, i) == p;
  }

  lemma ParamUp(t: Tree, m: string, path: string, run: Run, i: nat, s: string, vs: seq<string>, best: Option<Best>,
      trail: seq<nat>, p: nat)
    requires Here(t, m, path, run, i, AnyBlock, s, vs, best, trail) && t.nodes[i].any.None?
    requires i != 0 && t.nodes[i].kind.Param? && t.nodes[i].parent == Some(p)
    ensures p < |t.nodes| && |t.keys[p]| < |t.keys[i]| && vs != [] && |s| + |vs[|vs| - 1]| <= |path|
    ensures Here(t, m, path, run, p, AnyBlock, path[|path| - |s| - |vs[|vs| - 1]|..], vs[..|vs| - 1], best, trail)
  {
    HereAny(t, m, path, run, i, s, vs, best, trail);
    assert ParentOf(t, i) == p;
  }

  /** Running out of alternatives at the root. */
  lemma RootUp(t: Tree, m: string, path: string, run: Run, s: string, vs: seq<string>, best: Option<Best>,
      trail: seq<nat>)
    requires Here(t, m, path, run, 0, AnyBlock, s, vs, best, trail) && t.nodes[0].any.None?
    ensures run.out == Outcome(Miss, best) && vs == [] && t.nodes[0].kind.Static? && |s| + |t.nodes[0].prefix| == |path|
  {
    HereAny(t, m, path, run, 0, s, vs, best, trail);
    assert NodeOK(t, 0);
    FillNone(t.keys[0]);
  }

  /** What an any node makes of the rest `s` of the path. */
  ghost function AnyOutcome(n: Node, m: string, key: string, vs: seq<string>, s: string, best: Option<Best>): Outcome {
    var best' := if best.None? then Some(Best(key, vs + [s])) else best;
    if n.methods.Get(m).Some? then Outcome(Hit(key, n.methods.Get(m).value, vs + [s]), best)
    else if n.notFound.Some? then Outcome(Hit(key, n.notFound.value, vs + [s]), best')
    else Outcome(Cut(vs), best')
  }

  /** The verdict of an any child. */
  lemma AnyDown(t: Tree, m: string, path: string, run: Run, i: nat, s: string, vs: seq<string>, best: Option<Best>,
      trail: seq<nat>, c: nat)
    requires Here(t, m, path, run, i, AnyBlock, s, vs, best, trail) && t.nodes[i].any == Some(c)
    ensures c < |t.nodes| && t.nodes[c].paramsCount == |vs| + 1 == Markers(t.keys[c]) && t.nodes[c].parent == Some(i)
    ensures run.out == AnyOutcome(t.nodes[c], m, t.keys[c], vs, s, best)
  {
    HereAny(t, m, path, run, i, s, vs, best, trail);
  }
}
