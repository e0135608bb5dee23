/** What parameter values mean: whether a route, filled in with the values that a search leaves, spells the path. */
module RouteValues {
  import opened Options
  import opened Text
  import opened RouteTree
  import opened RoutePlan
  import opened RouteSearch
  import opened RouteTable
  import opened RoutePoints
  import opened RouteLaws

  // What a found route means

  /** A route that a search finds spells the searched path: its pattern, with the i-th parameter replaced
      by the i-th value, is the path; and only a parameter that takes the rest of the path can contain a
      slash. */
  lemma HitRendersPath(t: Tree, m: string, path: string)
    requires WellFormed(t)
    ensures var v := Search(t, m, path).out.verdict;
            v.Hit? && v.rm.handler.Some? ==>
              && v.rm.pnames == Names(v.rm.ppath) && |v.values| == |v.rm.pnames|
              && Render(v.rm.ppath, v.values) == path
              && forall j: nat :: j < |v.values| ==>
                  NoSlash(v.values[j]) || (j + 1 == |v.values| && TakesRest(t, v.key))
  {
    SearchSound(t, m, path);
    var v := Search(t, m, path).out.verdict;
    if v.Hit? && v.rm.handler.Some? {
      var c: nat :| c < |t.nodes| && t.keys[c] == v.key &&
          (t.nodes[c].methods.Get(m) == Some(v.rm) || t.nodes[c].notFound == Some(v.rm));
      assert NodeOK(t, c);
      HandlerHasRecord(t.nodes[c], t.keys[c]);
      assert t.nodes[c].Record(m) == Some(v.rm) || t.nodes[c].Record(ROUTE_NOT_FOUND) == Some(v.rm);
      assert Belongs(v.rm, v.key);
      NamesMarkers(v.rm.ppath);
      RenderIsFill(v.rm.ppath, v.values);
    }
  }

  // The not-found route of a best match

  /** The parameter values that an outcome leaves in the context. */
  function Kept(v: Verdict): seq<string> {
    match v
    case Hit(_, _, values) => values
    case Cut(values) => values
    case Miss => []
  }

  /** The first `n` values of a slice that starts with `vs` and is blank otherwise. */
  function Padded(vs: seq<string>, n: nat): (r: seq<string>)
    ensures |r| == n
  {
    seq(n, j => if 0 <= j < |vs| then vs[j] else "")
  }

  lemma {:induction false} NormalColons(p: string)
    ensures forall i :: 0 <= i < |Normal(p)| - 1 && Normal(p)[i] == ':' ==> Normal(p)[i + 1] == '/'
    decreases |p|
  {
    if p != "" {
      var rest := if p[0] == ':' then p[Slash(p)..] else p[1..];
      NormalColons(rest);
      assert p[0] == ':' && rest != "" ==> Normal(rest)[0] == '/';
      assert forall i :: 0 < i < |Normal(p)| ==> Normal(p)[i] == Normal(rest)[i - 1];
    }
  }

  /** An any marker ends its key. */
  lemma StarEnds(t: Tree, c: nat, y: nat)
    requires WellFormed(t) && c < |t.nodes| && y < |t.keys[c]| && t.keys[c][y] == '*'
    ensures y + 1 == |t.keys[c]|
  {
    MarkerHasNode(t, c, y);
    var a: nat :| a < |t.nodes| && t.keys[a] == t.keys[c][..y + 1];
    if y + 1 < |t.keys[c]| {
      assert t.keys[a] < t.keys[c];
      var d := ChildToward(t, a, c);
      StarIsLeaf(t, a);
    }
  }

  lemma StarIsLeaf(t: Tree, a: nat)
    requires WellFormed(t) && a < |t.nodes| && t.keys[a] != "" && t.keys[a][|t.keys[a]| - 1] == '*'
    ensures t.nodes[a].kind.Any? && forall d: nat :: !t.nodes[a].HasChild(d)
  {
    assert NodeOK(t, a) && NodeOK(t, 0);
    var pre := t.nodes[a].prefix;
    if a != 0 {
      var p := ParentBelow(t, a);
      assert t.keys[a][|t.keys[a]| - 1] == pre[|pre| - 1];
    }
  }

  lemma RouteKeySpaced(t: Tree, c: nat, r: RouteMethod)
    requires WellFormed(t) && c < |t.nodes| && Belongs(r, t.keys[c])
    ensures Spaced(t.keys[c])
  {
    NormalColons(r.ppath);
    forall i | 0 <= i < |t.keys[c]| - 1 ensures t.keys[c][i] != '*' {
      if t.keys[c][i] == '*' {
        StarEnds(t, c, i);
      }
    }
  }

  lemma SpellsSegments(t: Tree, path: string, key: string, vs: seq<string>)
    requires WellFormed(t) && Spells(t, path, key, vs)
    ensures Segments(key, vs)
  {
    if TakesRest(t, key) {
      var c: nat :| c < |t.nodes| && t.keys[c] == key &&
          (t.nodes[c].kind.Any? || (t.nodes[c].kind.Param? && t.nodes[c].isLeaf));
      assert NodeOK(t, c) && NodeOK(t, 0);
      var p := ParentBelow(t, c);
      assert t.keys[c][|t.keys[c]| - 1] == t.nodes[c].prefix[0];
    }
  }

  /** When a search finds no record and falls back on the not-found route of its best match, that route spells the
      path exactly when the values that are left, padded with blanks, are the values of the best match.  When the
      search ran out nothing is left, and when an any node ended it, the values above that node. */
  lemma FallbackSpells(t: Tree, m: string, path: string, c: nat)
    requires WellFormed(t) && c < |t.nodes|
    requires var o := Search(t, m, path).out; !o.verdict.Hit? && o.best.Some? && t.keys[c] == o.best.value.key
    requires t.nodes[c].notFound.Some? && t.nodes[c].notFound.value.handler.Some?
    ensures var r, o := t.nodes[c].notFound.value, Search(t, m, path).out;
            var left := Padded(Kept(o.verdict), |r.pnames|);
            |r.pnames| == |Names(r.ppath)| == |o.best.value.values| &&
                (Render(r.ppath, left) == path <==> left == o.best.value.values)
  {
    SearchSound(t, m, path);
    var o, r := Search(t, m, path).out, t.nodes[c].notFound.value;
    var b, left := o.best.value, Padded(Kept(o.verdict), |r.pnames|);
    assert NodeOK(t, c);
    assert t.nodes[c].Record(ROUTE_NOT_FOUND) == Some(r);
    assert Belongs(r, t.keys[c]);
    NamesMarkers(r.ppath);
    RenderIsFill(r.ppath, left);
    RouteKeySpaced(t, c, r);
    SpellsSegments(t, path, b.key, b.values);
    if Fill(b.key, left) == path {
      FillInjective(b.key, left, b.values);
    }
  }

  /** Every not-found route with parameters is alone at its key. */
  ghost predicate NotFoundAlone(tab: Table) {
    forall k: string ::
        NotFoundEntry(tab, k).Some? && NotFoundEntry(tab, k).value.handler.Some? && Handles(tab, k) ==> Markers(k) == 0
  }

  /** If so, the not-found route of a best match always spells the path, whatever is searched. */
  lemma NotFoundSpells(rs: seq<Route>, m: string, path: string, c: nat)
    requires AllRegistrable(rs) && NotFoundAlone(FullTable(rs)) && WellFormed(Build(rs)) && c < |Build(rs).nodes|
    requires var o := Search(Build(rs), m, path).out;
        !o.verdict.Hit? && o.best.Some? && Build(rs).keys[c] == o.best.value.key
    requires Build(rs).nodes[c].notFound.Some? && Build(rs).nodes[c].notFound.value.handler.Some?
    ensures var r := Build(rs).nodes[c].notFound.value; r.pnames == Names(r.ppath) == [] && Render(r.ppath, []) == path
  {
    var t, tab := Build(rs), FullTable(rs);
    var o, r := Search(t, m, path).out, t.nodes[c].notFound.value;
    BuildMirrors(rs);
    SearchSound(t, m, path);
    var d: nat :| d < |t.nodes| && t.keys[d] == o.best.value.key &&
        (t.nodes[d].isHandler || (t.nodes[d].kind.Any? && t.nodes[d].notFound.None?));
    KeysInjective(t, c, d);
    NodeEntries(t, tab, c, ROUTE_NOT_FOUND);
    NodeMatches(t, tab, c, m);
    assert NodeOK(t, c);
    assert t.nodes[c].Record(ROUTE_NOT_FOUND) == Some(r);
    assert Belongs(r, t.keys[c]);
    NamesMarkers(r.ppath);
    RenderIsFill(r.ppath, []);
  }

  // Where it does not

  /** Searches for this method find no record: it is registered nowhere, there are no any routes, and where there is
      a not-found route there is a method. */
  ghost predicate Quiet(tab: Table, m: string) {
    && m != ROUTE_NOT_FOUND
    && (forall e :: e in tab ==> e.1 != m && '*' !in e.0)
    && (forall k: string :: NotFoundEntry(tab, k).Some? ==> Handles(tab, k))
  }

  lemma {:induction false} QuietMatch(tab: Table, m: string, k: string, s: string, vs: seq<string>, best: Option<Best>)
    requires Quiet(tab, m) && (k == "" || Reaches(tab, k))
    ensures Match(tab, m, k, s, vs, best).verdict.Miss?
    ensures best.Some? ==> Match(tab, m, k, s, vs, best).best == best
    decreases LongestRoute(tab) - |k|, 3
  {
    QuietByte(tab, m, k, s, vs, if s == "" && Handles(tab, k) && best.None? then Some(Best(k, vs)) else best);
  }

  lemma {:induction false} QuietByte(tab: Table, m: string, k: string, s: string, vs: seq<string>, best: Option<Best>)
    requires Quiet(tab, m) && (k == "" || Reaches(tab, k))
    ensures MatchByte(tab, m, k, s, vs, best).verdict.Miss?
    ensures best.Some? ==> MatchByte(tab, m, k, s, vs, best).best == best
    decreases LongestRoute(tab) - |k|, 2
  {
    if s != "" && !IsMarker(s[0]) && Reaches(tab, k + [s[0]]) {
      QuietMatch(tab, m, k + [s[0]], s[1..], vs, best);
      QuietParam(tab, m, k, s, vs, Match(tab, m, k + [s[0]], s[1..], vs, best).best);
    } else {
      QuietParam(tab, m, k, s, vs, best);
    }
  }

  lemma {:induction false} QuietParam(tab: Table, m: string, k: string, s: string, vs: seq<string>, best: Option<Best>)
    requires Quiet(tab, m) && (k == "" || Reaches(tab, k))
    ensures MatchParam(tab, m, k, s, vs, best).verdict.Miss?
    ensures best.Some? ==> MatchParam(tab, m, k, s, vs, best).best == best
    decreases LongestRoute(tab) - |k|, 1
  {
    forall e | e in tab ensures !(k + "*" <= e.0) {
      assert (k + "*")[|k|] == '*';
    }
    if s != "" && Reaches(tab, k + ":") {
      var n := if GoesOn(tab, k + ":") then Slash(s) else |s|;
      QuietMatch(tab, m, k + ":", s[n..], vs + [s[..n]], best);
    }
  }

  /** With foreign values, the best match is the key that they fill in. */
  lemma {:induction false} ForeignBest(tab: Table, m: string, u: string, rest: string, vs: seq<string>, ws: seq<string>)
    requires Quiet(tab, m) && Handles(tab, u + rest) && Reaches(tab, u + rest) && Spaced(rest)
    requires |ws| == Markers(rest) && forall j: nat :: j < |ws| ==> Foreign(tab, ws[j])
    ensures u == "" || Reaches(tab, u)
    ensures Match(tab, m, u, Fill(rest, ws), vs, None).best == Some(Best(u + rest, vs + ws))
    decreases |rest|
  {
    assert Reaches(tab, u);
    if rest == "" {
      assert u + rest == u && vs + ws == vs;
      QuietByte(tab, m, u, "", vs, Some(Best(u, vs)));
    } else {
      var s, u', rest' := Fill(rest, ws), u + [rest[0]], rest[1..];
      assert u' + rest' == u + rest && Reaches(tab, u');
      SpacedTail(rest);
      var found := Some(Best(u + rest, vs + ws));
      if !IsMarker(rest[0]) {
        ForeignBest(tab, m, u', rest', vs, ws);
        assert s[1..] == Fill(rest', ws);
        QuietMatch(tab, m, u', s[1..], vs, None);
        QuietParam(tab, m, u, s, vs, found);
      } else {
        assert rest[0] == ':' by {
          var e :| e in tab && u + rest <= e.0;
          assert e.0[|u|] == rest[0];
        }
        assert vs + ws == (vs + [ws[0]]) + ws[1..];
        ForeignBest(tab, m, u', rest', vs + [ws[0]], ws[1..]);
        ForeignSegment(tab, u, rest, ws);
        QuietMatch(tab, m, u', Fill(rest', ws[1..]), vs + [ws[0]], None);
        assert Match(tab, m, u, s, vs, None) == MatchParam(tab, m, u, s, vs, None);
        forall e | e in tab ensures !(u + "*" <= e.0) {
          assert (u + "*")[|u|] == '*';
        }
      }
    }
  }

  lemma QuietBest(tab: Table, m: string, k: string, vs: seq<string>)
    requires Quiet(tab, m) && Handles(tab, k) && Spaced(k)
    requires |vs| == Markers(k) && forall j: nat :: j < |vs| ==> Foreign(tab, vs[j])
    ensures Match(tab, m, "", Fill(k, vs), [], None) == Outcome(Miss, Some(Best(k, vs)))
  {
    assert "" + k == k && [] + vs == vs && Reaches(tab, k);
    ForeignBest(tab, m, "", k, [], vs);
    QuietMatch(tab, m, "", Fill(k, vs), [], None);
  }

  /** Where nothing else answers, a not-found route with parameters that shares its key with a method is fallen back
      on with blank values: for every method that is not registered and all values with a foreign first byte, it
      does not spell the path. */
  lemma SharedNotFoundMisspells(rs: seq<Route>, m: string, c: nat, vs: seq<string>)
    requires AllRegistrable(rs) && WellFormed(Build(rs)) && c < |Build(rs).nodes| && Quiet(FullTable(rs), m)
    requires Build(rs).nodes[c].notFound.Some? && Build(rs).nodes[c].notFound.value.handler.Some?
    requires |vs| == Markers(Build(rs).keys[c]) > 0 && forall j: nat :: j < |vs| ==> Foreign(FullTable(rs), vs[j])
    ensures var k, r := Build(rs).keys[c], Build(rs).nodes[c].notFound.value;
      && Search(Build(rs), m, Fill(k, vs)).out == Outcome(Miss, Some(Best(k, vs)))
      && |r.pnames| == |Names(r.ppath)| && Render(r.ppath, Padded([], |r.pnames|)) != Fill(k, vs)
  {
    var t, tab := Build(rs), FullTable(rs);
    var k, r := t.keys[c], t.nodes[c].notFound.value;
    var path := Fill(k, vs);
    BuildMirrors(rs);
    NodeMatches(t, tab, c, m);
    assert NodeOK(t, c);
    assert t.nodes[c].Record(ROUTE_NOT_FOUND) == Some(r);
    RouteKeySpaced(t, c, r);
    RoutesDecide(rs, m, path);
    QuietBest(tab, m, k, vs);
    FallbackSpells(t, m, path, c);
    assert Padded([], |r.pnames|)[0] == "" != vs[0];
  }

  // An example: SUB and not-found at the same pattern

  const SHARED: seq<Route> := [Route(METHOD_SUB, "/:a", 1), Route(ROUTE_NOT_FOUND, "/:a", 2)]

  lemma SharedKey()
    ensures KeyOf(SHARED[0]) == KeyOf(SHARED[1]) == "/:" && Registrable(SHARED[0]) && Registrable(SHARED[1])
    ensures Names("/:a") == ["a"]
  {
    assert "/:a"[1..] == ":a" && ":a"[1..] == "a" && "a"[1..] == "";
    assert Slash("a") == 1 && Slash(":a") == 2 && ":a"[2..] == "" && ":a"[1..2] == "a";
    assert Normal(":a") == ":" && Normal("/:a") == "/:";
    assert Supported(":a", '/') && Supported("/:a", '/');
    assert Names(":a") == ["a"];
  }

  lemma SharedTable()
    ensures AllRegistrable(SHARED) && FullTable(SHARED).Keys == {("/:", METHOD_SUB), ("/:", ROUTE_NOT_FOUND)}
    ensures FullTable(SHARED)[("/:", ROUTE_NOT_FOUND)] == RouteMethod("/:a", ["a"], Some(2))
  {
    SharedKey();
    var first := [SHARED[0]];
    assert SHARED[..1] == first && first[..0] == [];
    assert Leftovers([], SHARED[0]) == {};
    assert Leftovers(first, SHARED[1]) == {} by {
      assert Stop("/:", "/") by {
        assert "/:"[..1] == "/";
      }
      assert SHARED[0] in first;
      assert Point(first, "/") && "/:"[..1] == "/";
    }
    assert FullTable([]) == map[] && FullTable(first).Keys == {("/:", METHOD_SUB)};
  }

  lemma SharedQuiet(tab: Table)
    requires tab.Keys == {("/:", METHOD_SUB), ("/:", ROUTE_NOT_FOUND)}
    ensures Quiet(tab, METHOD_PUB) && Foreign(tab, "x")
  {
    assert ("/:", METHOD_SUB) in tab;
    forall e | e in tab ensures e.0 == "/:" && e.1 != METHOD_PUB && '*' !in e.0 && 'x' !in e.0 {
    }
  }

  lemma SharedFill()
    ensures Markers("/:") == 1 && Fill("/:", ["x"]) == "/x"
  {
    assert "/:"[1..] == ":" && ":"[1..] == "" && Markers(":") == 1;
    assert Fill(":", ["x"]) == "x";
  }

  /** A search for PUB at `/x` runs out, with the parameter node as its best match. */
  lemma SharedSearch() returns (c: nat)
    ensures WellFormed(Build(SHARED)) && c < |Build(SHARED).nodes| && Build(SHARED).keys[c] == "/:"
    ensures Build(SHARED).nodes[c].notFound == Some(RouteMethod("/:a", ["a"], Some(2)))
    ensures Search(Build(SHARED), METHOD_PUB, "/x").out == Outcome(Miss, Some(Best("/:", ["x"])))
  {
    SharedTable();
    var tab := FullTable(SHARED);
    BuildMirrors(SHARED);
    SharedQuiet(tab);
    SharedFill();
    assert ("/:", ROUTE_NOT_FOUND) in tab;
    c := RouteHasNode(Build(SHARED), tab, ("/:", ROUTE_NOT_FOUND));
    NodeMatches(Build(SHARED), tab, c, METHOD_PUB);
    SharedNotFoundMisspells(SHARED, METHOD_PUB, c, ["x"]);
  }
}
