/** When a search answers, and when its answer has a handler. */
module RouteAnswers {
  import opened Options
  import opened Text
  import opened RouteTree
  import opened RouteTitles
  import opened RoutePlan
  import opened RouteSearch
  import opened RouteTable
  import opened RoutePoints
  import opened RouteLaws

  predicate Starred(k: string) {
    k != "" && k[|k| - 1] == '*'
  }

  predicate Coloned(k: string) {
    k != "" && k[|k| - 1] == ':'
  }

  /** Values that the parameters of a key can take: free of slashes, but for a last one that takes the rest of the path,
      and not blank at the end of the key. */
  ghost predicate Slots(tab: Table, k: string, vs: seq<string>) {
    && (forall j: nat :: j < |vs| ==>
          NoSlash(vs[j]) || (j + 1 == |vs| && (Starred(k) || (Coloned(k) && !GoesOn(tab, k)))))
    && (Coloned(k) ==> vs != [] && vs[|vs| - 1] != "")
  }

  /** The key, filled in with values that it can take, spells the path. */
  ghost predicate Fills(tab: Table, k: string, vs: seq<string>, path: string) {
    |vs| == Markers(k) && Fill(k, vs) == path && Slots(tab, k, vs)
  }

  /** A search for the method that comes to this key does not go on: there is a record for the method, or a not-found
      record and no method, or the key is that of an any route. */
  ghost predicate Answers(tab: Table, m: string, k: string) {
    || Entry(tab, k, m).Some?
    || (NotFoundEntry(tab, k).Some? && !Handles(tab, k))
    || (Starred(k) && Reaches(tab, k))
  }

  /** The record that a search for the method gets at this key. */
  ghost predicate Gives(tab: Table, m: string, k: string, rm: RouteMethod) {
    || Entry(tab, k, m) == Some(rm)
    || (NotFoundEntry(tab, k) == Some(rm) && (!Handles(tab, k) || Starred(k)))
  }

  // What a search finds

  ghost predicate Found(tab: Table, m: string, path: string, v: Verdict) {
    match v
    case Hit(k, rm, vs) => Fills(tab, k, vs, path) && Answers(tab, m, k) && Gives(tab, m, k, rm)
    case Cut(_) => exists k, vs :: Fills(tab, k, vs, path) && Answers(tab, m, k)
    case Miss => true
  }

  /** The search stands at key `k` with `s` left of the path. */
  ghost predicate Placed(tab: Table, k: string, s: string, vs: seq<string>, path: string) {
    && |vs| == Markers(k) && Fill(k, vs) + s == path
    && (forall j: nat :: j < |vs| ==> NoSlash(vs[j]) || (j + 1 == |vs| && Coloned(k) && !GoesOn(tab, k)))
    && (Coloned(k) && s == "" ==> vs != [] && vs[|vs| - 1] != "")
  }

  lemma PlacedFills(tab: Table, k: string, vs: seq<string>, path: string)
    requires Placed(tab, k, "", vs, path)
    ensures Fills(tab, k, vs, path)
  {
    assert Fill(k, vs) + "" == Fill(k, vs);
  }

  lemma PlacedByte(tab: Table, k: string, s: string, vs: seq<string>, path: string)
    requires Placed(tab, k, s, vs, path) && s != "" && !IsMarker(s[0]) && Reaches(tab, k + [s[0]])
    ensures Placed(tab, k + [s[0]], s[1..], vs, path)
  {
    var e :| e in tab && k + [s[0]] <= e.0;
    assert k < e.0;
    FillAppend(k, [s[0]], vs);
    assert Fill(k, vs) + s == Fill(k, vs) + [s[0]] + s[1..];
  }

  lemma PlacedParam(tab: Table, k: string, s: string, vs: seq<string>, path: string, n: nat)
    requires Placed(tab, k, s, vs, path) && s != "" && Reaches(tab, k + ":")
    requires n == if GoesOn(tab, k + ":") then Slash(s) else |s|
    ensures Placed(tab, k + ":", s[n..], vs + [s[..n]], path)
  {
    var e :| e in tab && k + ":" <= e.0;
    assert k < e.0;
    FillMark(k, ":", vs, s[..n]);
    CutAt(Fill(k, vs), s, n);
  }

  lemma PlacedAny(tab: Table, k: string, s: string, vs: seq<string>, path: string)
    requires Placed(tab, k, s, vs, path) && Reaches(tab, k + "*")
    ensures Fills(tab, k + "*", vs + [s], path)
  {
    var e :| e in tab && k + "*" <= e.0;
    assert k < e.0;
    FillMark(k, "*", vs, s);
  }

  lemma {:induction false} MatchFinds(tab: Table, m: string, k: string, s: string,
                                      vs: seq<string>, best: Option<Best>, path: string)
    requires (k == "" || Reaches(tab, k)) && Placed(tab, k, s, vs, path)
    ensures Found(tab, m, path, Match(tab, m, k, s, vs, best).verdict)
    decreases LongestRoute(tab) - |k|, 3
  {
    if s == "" {
      PlacedFills(tab, k, vs, path);
    }
    ByteFinds(tab, m, k, s, vs, if s == "" && Handles(tab, k) && best.None? then Some(Best(k, vs)) else best, path);
  }

  lemma {:induction false} ByteFinds(tab: Table, m: string, k: string, s: string,
                                      vs: seq<string>, best: Option<Best>, path: string)
    requires (k == "" || Reaches(tab, k)) && Placed(tab, k, s, vs, path)
    ensures Found(tab, m, path, MatchByte(tab, m, k, s, vs, best).verdict)
    decreases LongestRoute(tab) - |k|, 2
  {
    if s != "" && !IsMarker(s[0]) && Reaches(tab, k + [s[0]]) {
      PlacedByte(tab, k, s, vs, path);
      MatchFinds(tab, m, k + [s[0]], s[1..], vs, best, path);
      ParamFinds(tab, m, k, s, vs, Match(tab, m, k + [s[0]], s[1..], vs, best).best, path);
    } else {
      ParamFinds(tab, m, k, s, vs, best, path);
    }
  }

  lemma {:induction false} ParamFinds(tab: Table, m: string, k: string, s: string,
                                      vs: seq<string>, best: Option<Best>, path: string)
    requires (k == "" || Reaches(tab, k)) && Placed(tab, k, s, vs, path)
    ensures Found(tab, m, path, MatchParam(tab, m, k, s, vs, best).verdict)
    decreases LongestRoute(tab) - |k|, 1
  {
    if s != "" && Reaches(tab, k + ":") {
      var n := if GoesOn(tab, k + ":") then Slash(s) else |s|;
      PlacedParam(tab, k, s, vs, path, n);
      MatchFinds(tab, m, k + ":", s[n..], vs + [s[..n]], best, path);
      AnyFinds(tab, m, k, s, vs, Match(tab, m, k + ":", s[n..], vs + [s[..n]], best).best, path);
    } else {
      AnyFinds(tab, m, k, s, vs, best, path);
    }
  }

  lemma AnyFinds(tab: Table, m: string, k: string, s: string, vs: seq<string>, best: Option<Best>, path: string)
    requires Placed(tab, k, s, vs, path)
    ensures Found(tab, m, path, MatchAny(tab, m, k, s, vs, best).verdict)
  {
    if Reaches(tab, k + "*") {
      PlacedAny(tab, k, s, vs, path);
      assert Answers(tab, m, k + "*");
    }
  }

  // What a search does not miss

  /** The search comes to the key, or it ends before; it does not miss. */
  lemma {:induction false} MatchCompletes(tab: Table, m: string, u: string, rest: string,
                                          vs: seq<string>, ws: seq<string>, best: Option<Best>)
    requires Reaches(tab, u + rest) && Spaced(rest) && Answers(tab, m, u + rest) && (rest == "" ==> !Starred(u))
    requires |ws| == Markers(rest) && (rest != "" ==> Slots(tab, u + rest, ws))
    ensures u == "" || Reaches(tab, u)
    ensures !Match(tab, m, u, Fill(rest, ws), vs, best).verdict.Miss?
    decreases |rest|, 1
  {
    assert Reaches(tab, u);
    if rest == "" {
      assert u + rest == u;
    } else {
      var s := Fill(rest, ws);
      var best' := if s == "" && Handles(tab, u) && best.None? then Some(Best(u, vs)) else best;
      if IsMarker(rest[0]) {
        var literal := s != "" && !IsMarker(s[0]) && Reaches(tab, u + [s[0]]);
        var seen := if literal then Match(tab, m, u + [s[0]], s[1..], vs, best').best else best';
        ParamCompletes(tab, m, u, rest, vs, ws, seen);
      } else {
        var u', rest' := u + [rest[0]], rest[1..];
        assert u' + rest' == u + rest && Reaches(tab, u');
        SpacedTail(rest);
        assert rest' == "" ==> u' == u + rest;
        MatchCompletes(tab, m, u', rest', vs, ws, best');
        assert s[0] == rest[0] && s[1..] == Fill(rest', ws);
      }
    }
  }

  lemma {:induction false} ParamCompletes(tab: Table, m: string, u: string, rest: string,
                                          vs: seq<string>, ws: seq<string>, best: Option<Best>)
    requires Reaches(tab, u + rest) && Spaced(rest) && Answers(tab, m, u + rest) && rest != "" && IsMarker(rest[0])
    requires |ws| == Markers(rest) && Slots(tab, u + rest, ws) && Reaches(tab, u)
    ensures !MatchParam(tab, m, u, Fill(rest, ws), vs, best).verdict.Miss?
    decreases |rest|, 0
  {
    if rest[0] == '*' {
      assert rest == "*";
    } else {
      var u', rest' := u + ":", rest[1..];
      assert u' + rest' == u + rest && Reaches(tab, u');
      SpacedTail(rest);
      SlotSegment(tab, u, rest, ws);
      MatchCompletes(tab, m, u', rest', vs + [ws[0]], ws[1..], best);
    }
  }

  /** A parameter takes the first of the values that its key can take. */
  lemma SlotSegment(tab: Table, u: string, rest: string, ws: seq<string>)
    requires Reaches(tab, u + rest) && Spaced(rest) && rest != "" && rest[0] == ':'
    requires |ws| == Markers(rest) && Slots(tab, u + rest, ws)
    ensures var s := Fill(rest, ws); var n := if GoesOn(tab, u + ":") then Slash(s) else |s|;
      s != "" && n == |ws[0]| && s[..n] == ws[0] && s[n..] == Fill(rest[1..], ws[1..])
    ensures rest[1..] != "" ==> Slots(tab, u + rest, ws[1..])
  {
    var s := Fill(rest, ws);
    assert (u + rest)[|u + rest| - 1] == rest[|rest| - 1];
    assert s == ws[0] + Fill(rest[1..], ws[1..]);
    if |rest| > 1 {
      FirstSegment(rest, ws);
      var e :| e in tab && u + rest <= e.0;
      assert u + ":" == (u + rest)[..|u| + 1];
      assert u + ":" < e.0;
      LastMarker(rest);
    } else {
      assert rest == ":" && rest[1..] == "" && s == ws[0];
      if NoSlash(s) {
        SlashUnique(s, |s|);
      }
    }
  }

  /** A parameter at the end of a longer key has its own value. */
  lemma LastMarker(rest: string)
    requires |rest| > 1 && rest[0] == ':'
    ensures IsMarker(rest[|rest| - 1]) ==> Markers(rest) > 1
  {
    if IsMarker(rest[|rest| - 1]) && Markers(rest[1..]) == 0 {
      MarkersLast(rest[1..]);
    }
  }

  /** A search misses exactly when no key that answers it can be filled in to spell the path. */
  lemma MissIff(rs: seq<Route>, m: string, path: string)
    requires AllRegistrable(rs)
    ensures WellFormed(Build(rs))
    ensures Search(Build(rs), m, path).out.verdict.Miss? <==>
      !exists k, vs :: Fills(FullTable(rs), k, vs, path) && Answers(FullTable(rs), m, k)
  {
    var tab := FullTable(rs);
    RoutesDecide(rs, m, path);
    assert "" + path == path;
    MatchFinds(tab, m, "", path, [], None, path);
    if k, vs :| Fills(tab, k, vs, path) && Answers(tab, m, k) {
      AnswersReached(rs, m, k);
      assert "" + k == k;
      MatchCompletes(tab, m, "", k, [], vs, None);
    }
  }

  lemma AnswersReached(rs: seq<Route>, m: string, k: string)
    requires AllRegistrable(rs) && Answers(FullTable(rs), m, k)
    ensures Reaches(FullTable(rs), k) && Spaced(k)
  {
    var tab := FullTable(rs);
    assert Reaches(tab, k) by {
      if Entry(tab, k, m).Some? {
        assert (k, m) in tab;
      } else if NotFoundEntry(tab, k).Some? {
        assert (k, ROUTE_NOT_FOUND) in tab;
      }
    }
    var e :| e in tab && k <= e.0;
    EntriesOnRoutes(rs, e);
    var r :| r in rs && e.0 <= KeyOf(r);
    NormalSpaced(Rooted(r.pattern), '/');
    assert k == KeyOf(r)[..|k|];
    SpacedFront(KeyOf(r), |k|);
  }

  // Answers without a handler

  /** A record without a handler that some search gets: a not-found record counts only where there is no method. */
  ghost predicate Bare(tab: Table, e: (string, string)) {
    e in tab && tab[e].handler.None? && (e.1 == ROUTE_NOT_FOUND ==> !Handles(tab, e.0))
  }

  ghost predicate NoneBare(tab: Table) {
    forall e: (string, string) :: !Bare(tab, e)
  }

  /** If the search matches a record, that has a handler. */
  ghost predicate Handled(t: Tree, m: string, path: string)
    requires WellFormed(t)
  {
    var v := Search(t, m, path).out.verdict;
    v.Hit? ==> v.rm.handler.Some?
  }

  ghost predicate AllHandled(t: Tree)
    requires WellFormed(t)
  {
    forall m: string, path: string :: Handled(t, m, path)
  }

  /** Where an entry of the table of a series comes from. */
  lemma EntryFrom(front: Table, left: Table, key: (string, string), rm: RouteMethod, e: (string, string))
    requires e in (front + left)[key := rm] && e != key
    ensures e in left ==> (front + left)[key := rm][e] == left[e]
    ensures e !in left ==> e in front && (front + left)[key := rm][e] == front[e]
  {
  }

  lemma {:induction false} EmptySpaced(rs: seq<Route>, e: (string, string))
    requires AllRegistrable(rs) && e in FullTable(rs) && FullTable(rs)[e].handler.None?
    ensures Spaced(e.0) && '*' !in e.0
  {
    var front, r := rs[..|rs| - 1], rs[|rs| - 1];
    assert rs == front + [r] && r in rs;
    EntryFrom(FullTable(front), Emptied(front, r), (KeyOf(r), r.verb), RouteFor(r.pattern, r.handler), e);
    if e in Emptied(front, r) {
      LeftoverSpaced(front, r, e.0);
    } else {
      EmptySpaced(front, e);
    }
  }

  /** Without such records, every match has a handler. */
  lemma NoBareNoEmptyMatch(rs: seq<Route>, m: string, path: string)
    requires AllRegistrable(rs) && NoneBare(FullTable(rs))
    ensures WellFormed(Build(rs))
    ensures Handled(Build(rs), m, path)
  {
    var tab := FullTable(rs);
    RoutesDecide(rs, m, path);
    assert "" + path == path;
    MatchFinds(tab, m, "", path, [], None, path);
    var v := Search(Build(rs), m, path).out.verdict;
    if v.Hit? && v.rm.handler.None? {
      if Entry(tab, v.key, m) == Some(v.rm) {
        assert Bare(tab, (v.key, m));
      } else {
        EmptySpaced(rs, (v.key, ROUTE_NOT_FOUND));
        assert Bare(tab, (v.key, ROUTE_NOT_FOUND));
      }
    }
  }

  /** Every match of every search has a handler, if and only if the routes leave no record without one where a
      search gets it; given a byte that no route uses. */
  lemma MatchesHaveHandlers(rs: seq<Route>, b: char)
    requires AllRegistrable(rs) && b != '/' && forall r :: r in rs ==> b !in KeyOf(r)
    ensures WellFormed(Build(rs))
    ensures AllHandled(Build(rs)) <==> NoneBare(FullTable(rs))
  {
    BuildWellFormed(rs);
    if NoneBare(FullTable(rs)) {
      forall m: string, path: string ensures Handled(Build(rs), m, path) {
        NoBareNoEmptyMatch(rs, m, path);
      }
    } else {
      var e: (string, string) :| Bare(FullTable(rs), e);
      var path := BareIsFound(rs, b, e);
      assert !AllHandled(Build(rs));
    }
  }

  lemma BareIsFound(rs: seq<Route>, b: char, e: (string, string)) returns (path: string)
    requires AllRegistrable(rs) && b != '/' && (forall r :: r in rs ==> b !in KeyOf(r)) && Bare(FullTable(rs), e)
    ensures WellFormed(Build(rs))
    ensures !Handled(Build(rs), e.1, path)
  {
    var tab, k := FullTable(rs), e.0;
    var vs := seq(Markers(k), _ => [b]);
    path := Fill(k, vs);
    RoutesDecide(rs, e.1, path);
    EmptySpaced(rs, e);
    forall j: nat | j < |vs| ensures Foreign(tab, vs[j]) {
      ForeignToTable(rs, vs[j]);
    }
    assert (k, e.1) == e && Reaches(tab, k);
    if e.1 == ROUTE_NOT_FOUND {
      assert NotFoundEntry(tab, k) == Some(tab[e]);
    } else {
      assert Handles(tab, k) && Entry(tab, k, e.1) == Some(tab[e]);
    }
    ForeignFromStart(tab, e.1, k, vs);
  }

  /** So registrations that leave no empty record give a router whose every match has a handler. */
  lemma LeavesNothingMatches(rs: seq<Route>, m: string, path: string)
    requires AllRegistrable(rs) && LeavesNothing(rs)
    ensures WellFormed(Build(rs))
    ensures Handled(Build(rs), m, path)
  {
    FullIsPlain(rs);
    forall e: (string, string) ensures !Bare(FullTable(rs), e) {
      PlainHandlers(rs, e);
    }
    NoBareNoEmptyMatch(rs, m, path);
  }

  lemma {:induction false} PlainHandlers(rs: seq<Route>, e: (string, string))
    ensures e in TableOf(rs) ==> TableOf(rs)[e].handler.Some?
  {
    if rs != [] {
      PlainHandlers(rs[..|rs| - 1], e);
    }
  }

  // What a best match says

  lemma StarredHandles(rs: seq<Route>, k: string)
    requires AllRegistrable(rs) && Starred(k) && Reaches(FullTable(rs), k) && NotFoundEntry(FullTable(rs), k).None?
    ensures Handles(FullTable(rs), k)
  {
    var tab := FullTable(rs);
    var e :| e in tab && k <= e.0;
    EntriesOnRoutes(rs, e);
    var r :| r in rs && e.0 <= KeyOf(r);
    NormalSpaced(Rooted(r.pattern), '/');
    assert KeyOf(r)[|k| - 1] == e.0[|k| - 1] == k[|k| - 1] == '*';
    assert |k| == |e.0|;
    assert e.0 == k && (k, e.1) == e;
  }

  /** The node of a best match has the not-found record of the table; without one, it has a method, and its original
      path is the pattern last registered at its key. */
  lemma BestMatchSays(rs: seq<Route>, m: string, path: string, c: nat)
    requires AllRegistrable(rs) && WellFormed(Build(rs)) && c < |Build(rs).nodes|
    requires var o := Search(Build(rs), m, path).out;
        !o.verdict.Hit? && o.best.Some? && o.best.value.key == Build(rs).keys[c]
    ensures var n, k := Build(rs).nodes[c], Build(rs).keys[c];
      && n.notFound == NotFoundEntry(FullTable(rs), k)
      && (n.notFound.None? ==> n.isHandler && Handles(FullTable(rs), k) && n.originalPath == LastPattern(rs, k))
  {
    var t, tab := Build(rs), FullTable(rs);
    var n, k := t.nodes[c], t.keys[c];
    BuildMirrors(rs);
    SearchSound(t, m, path);
    NodeMatches(t, tab, c, m);
    var d: nat :| d < |t.nodes| && t.keys[d] == k &&
        (t.nodes[d].isHandler || (t.nodes[d].kind.Any? && t.nodes[d].notFound.None?));
    KeysInjective(t, c, d);
    OfferedKey(t, c);
    if n.notFound.None? {
      if !n.isHandler {
        StarredHandles(rs, k);
      }
      NodesTitled(rs, k, n.originalPath);
      TitleIs(t, c, n.originalPath);
    }
  }

  /** A node that can be a best match has a key, and an any node one that ends in `*`. */
  lemma OfferedKey(t: Tree, c: nat)
    requires WellFormed(t) && c < |t.nodes| && (t.nodes[c].isHandler || t.nodes[c].kind.Any?)
    ensures t.keys[c] != "" && (t.nodes[c].kind.Any? ==> Starred(t.keys[c]))
  {
    assert NodeOK(t, c) && NodeOK(t, 0);
    if c != 0 {
      var p := ParentBelow(t, c);
      assert t.keys[c][|t.keys[c]| - 1] == t.nodes[c].prefix[|t.nodes[c].prefix| - 1];
    }
  }
}
