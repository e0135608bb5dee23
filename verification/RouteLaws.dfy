/** What the router promises over whole series of registrations. */
module RouteLaws {
  import opened Options
  import opened Text
  import opened RouteTree
  import opened RouteAdd
  import opened RoutePlan
  import opened RoutePoints
  import opened RouteSearch
  import opened RouteTable

  // The table of a series of routes

  /** The table of routes registered in order: a later route replaces an earlier one with its key and method. */
  function TableOf(rs: seq<Route>): Table {
    if rs == [] then map[]
    else
      var r := rs[|rs| - 1];
      TableOf(rs[..|rs| - 1])[(KeyOf(r), r.verb) := RouteFor(r.pattern, r.handler)]
  }

  /** The parts of a route's key before its parameters that earlier routes go beyond without stopping there: the
      insertion of each splits a node at its end. */
  ghost function Leftovers(rs: seq<Route>, r: Route): set<string> {
    set j: nat | j < |KeyOf(r)| && IsMarker(KeyOf(r)[j]) && Skipped(rs, KeyOf(r)[..j]) :: KeyOf(r)[..j]
  }

  /** Registering this route after those leaves an empty record, because its method can hold one. */
  ghost predicate Spoils(rs: seq<Route>, r: Route) {
    Special(r.verb) && Leftovers(rs, r) != {}
  }

  /** The empty records that registering a route leaves. */
  ghost function Emptied(rs: seq<Route>, r: Route): Table {
    if Special(r.verb) then map k | k in Leftovers(rs, r) :: (k, r.verb) := NO_ROUTE else map[]
  }

  /** The table of routes with the empty records that they leave. */
  ghost function FullTable(rs: seq<Route>): Table {
    if rs == [] then map[]
    else
      var front, r := rs[..|rs| - 1], rs[|rs| - 1];
      (FullTable(front) + Emptied(front, r))[(KeyOf(r), r.verb) := RouteFor(r.pattern, r.handler)]
  }

  lemma LeavesLeftovers(rs: seq<Route>, r: Route, k: string)
    requires AllRegistrable(rs) && Registrable(r)
    ensures LeavesEmpty(Build(rs), KeyOf(r), 0, k) <==> k in Leftovers(rs, r)
    ensures k in Leftovers(rs, r) ==> k != "" && k < KeyOf(r)
  {
    var key := KeyOf(r);
    KeyNotEmpty(r);
    forall j: nat | j < |key| && IsMarker(key[j])
      ensures key[..j] != "" && (Inside(Build(rs), key[..j]) <==> Skipped(rs, key[..j]))
    {
      assert j != 0;
      NodesArePoints(rs, key[..j]);
    }
  }

  lemma MirrorsAfter(t: Tree, b: Tree, tab: Table, left: Table, key: string, verb: string, rm: RouteMethod)
    requires Mirrors(t, tab) && Added(t, b, key, 0, verb, rm)
    requires forall e :: e in left ==> left[e] == NO_ROUTE && (e.0, e.1) !in tab
    requires forall k: string, m: string :: (k, m) in left <==> m == verb && Special(verb) && LeavesEmpty(t, key, 0, k)
    ensures Mirrors(b, (tab + left)[(key, verb) := rm])
  {
    var tab' := (tab + left)[(key, verb) := rm];
    forall k: string, m: string, x: RouteMethod ensures Stores(b, k, m, x) <==> (k, m) in tab' && tab'[(k, m)] == x {
      assert Stores(t, k, m, x) <==> (k, m) in tab && tab[(k, m)] == x;
    }
    forall i: nat | i < |b.keys| && b.keys[i] != "" ensures Reaches(tab', b.keys[i]) {
      assert HasKey(b, b.keys[i]);
      if HasKey(t, b.keys[i]) {
        var j: nat :| j < |t.keys| && t.keys[j] == b.keys[i];
        var e :| e in tab && t.keys[j] <= e.0;
        assert e in tab';
      } else {
        assert (key, verb) in tab';
      }
    }
  }

  lemma EmptyMirrors()
    ensures Mirrors(EMPTY_TREE, map[])
  {
    EmptyTreeWellFormed();
    assert forall m: string :: EMPTY_ROOT.Record(m).None?;
  }

  /** After every series of registrations, for all methods, the tree mirrors the full table. */
  lemma {:induction false} BuildMirrors(rs: seq<Route>)
    requires AllRegistrable(rs)
    ensures Mirrors(Build(rs), FullTable(rs))
  {
    if rs == [] {
      EmptyMirrors();
    } else {
      var front, r := rs[..|rs| - 1], rs[|rs| - 1];
      BuildLast(rs);
      BuildMirrors(front);
      forall k: string
        ensures LeavesEmpty(Build(front), KeyOf(r), 0, k) <==> k in Leftovers(front, r)
        ensures k in Leftovers(front, r) ==> forall m: string :: (k, m) !in FullTable(front)
      {
        LeavesLeftovers(front, r, k);
        if k in Leftovers(front, r) {
          NoEntryAt(front, k);
        }
      }
      MirrorsAfter(Build(front), Build(rs), FullTable(front), Emptied(front, r), KeyOf(r), r.verb,
          RouteFor(r.pattern, r.handler));
    }
  }

  /** Where routes give no node the table has no entry. */
  lemma NoEntryAt(rs: seq<Route>, k: string)
    requires AllRegistrable(rs) && Mirrors(Build(rs), FullTable(rs)) && k != "" && !Point(rs, k)
    ensures forall m: string :: (k, m) !in FullTable(rs)
  {
    NodesArePoints(rs, k);
    forall m: string ensures (k, m) !in FullTable(rs) {
      if (k, m) in FullTable(rs) {
        var j := RouteHasNode(Build(rs), FullTable(rs), (k, m));
      }
    }
  }

  /** The router's answer to every method and path is that of a search of the full table, which is a function of
      the registered routes alone. */
  lemma RoutesDecide(rs: seq<Route>, m: string, path: string)
    requires AllRegistrable(rs)
    ensures WellFormed(Build(rs))
    ensures Search(Build(rs), m, path).out == Match(FullTable(rs), m, "", path, [], None)
  {
    BuildMirrors(rs);
    SearchIsMatch(Build(rs), FullTable(rs), m, path);
  }

  lemma MirrorsUnique(t: Tree, a: Table, b: Table)
    requires Mirrors(t, a) && Mirrors(t, b)
    ensures a == b
  {
    forall e: (string, string) | e in a ensures e in b && b[e] == a[e] {
      assert (e.0, e.1) == e && Stores(t, e.0, e.1, a[e]);
    }
    forall e: (string, string) | e in b ensures e in a {
      assert (e.0, e.1) == e && Stores(t, e.0, e.1, b[e]);
    }
  }

  /** A registration just sets its entry of the table exactly when it leaves no empty record. */
  lemma AddMirrors(rs: seq<Route>, r: Route)
    requires AllRegistrable(rs) && Registrable(r)
    ensures Mirrors(Build(rs + [r]), FullTable(rs)[(KeyOf(r), r.verb) := RouteFor(r.pattern, r.handler)]) <==>
        !Spoils(rs, r)
  {
    var tab, key, rm := FullTable(rs), KeyOf(r), RouteFor(r.pattern, r.handler);
    assert (rs + [r])[..|rs|] == rs;
    BuildMirrors(rs);
    BuildMirrors(rs + [r]);
    if Spoils(rs, r) {
      var k :| k in Leftovers(rs, r);
      LeftoverEntries(rs, r, k);
      LeavesLeftovers(rs, r, k);
      NoEntryAt(rs, k);
      if Mirrors(Build(rs + [r]), tab[(key, r.verb) := rm]) {
        MirrorsUnique(Build(rs + [r]), tab[(key, r.verb) := rm], FullTable(rs + [r]));
      }
    } else {
      assert Emptied(rs, r) == map[];
      assert tab + map[] == tab;
    }
  }

  /** No registration of the series leaves an empty record. */
  ghost predicate LeavesNothing(rs: seq<Route>) {
    forall i :: 0 <= i < |rs| ==> !Spoils(rs[..i], rs[i])
  }

  lemma CustomLeavesNothing(rs: seq<Route>)
    requires forall r :: r in rs ==> !Special(r.verb)
    ensures LeavesNothing(rs)
  {
  }

  lemma {:induction false} FullIsPlain(rs: seq<Route>)
    requires LeavesNothing(rs)
    ensures FullTable(rs) == TableOf(rs)
  {
    if rs != [] {
      var front, r := rs[..|rs| - 1], rs[|rs| - 1];
      assert forall i :: 0 <= i < |front| ==> front[i] == rs[i] && front[..i] == rs[..i];
      FullIsPlain(front);
      assert !Spoils(front, r);
      assert Emptied(front, r) == map[];
    }
  }

  /** No two routes have the same key and method. */
  ghost predicate Distinct(rs: seq<Route>) {
    forall i: nat, j: nat :: i < j < |rs| ==> KeyOf(rs[i]) != KeyOf(rs[j]) || rs[i].verb != rs[j].verb
  }

  lemma {:induction false} TableHas(rs: seq<Route>, e: (string, string))
    ensures e in TableOf(rs) <==> exists r :: r in rs && e == (KeyOf(r), r.verb)
  {
    if rs != [] {
      var front, last := rs[..|rs| - 1], rs[|rs| - 1];
      TableHas(front, e);
      assert rs == front + [last];
      assert last in rs && forall r :: r in rs <==> r in front || r == last;
    }
  }

  lemma {:induction false} TableEntry(rs: seq<Route>, i: nat)
    requires Distinct(rs) && i < |rs|
    ensures var e := (KeyOf(rs[i]), rs[i].verb);
        e in TableOf(rs) && TableOf(rs)[e] == RouteFor(rs[i].pattern, rs[i].handler)
  {
    if i < |rs| - 1 {
      TableEntry(rs[..|rs| - 1], i);
      assert rs[..|rs| - 1][i] == rs[i];
      assert (KeyOf(rs[i]), rs[i].verb) != (KeyOf(rs[|rs| - 1]), rs[|rs| - 1].verb);
    }
  }

  lemma TableEntries(rs: seq<Route>, e: (string, string))
    requires Distinct(rs)
    ensures e in TableOf(rs) <==> exists r :: r in rs && e == (KeyOf(r), r.verb)
    ensures forall r :: r in rs && e == (KeyOf(r), r.verb) ==>
        e in TableOf(rs) && TableOf(rs)[e] == RouteFor(r.pattern, r.handler)
  {
    TableHas(rs, e);
    forall r | r in rs && e == (KeyOf(r), r.verb) ensures e in TableOf(rs) &&
        TableOf(rs)[e] == RouteFor(r.pattern, r.handler) {
      var i: nat :| i < |rs| && rs[i] == r;
      TableEntry(rs, i);
    }
  }

  /** With distinct routes that leave no empty records, the order of registration does not change what any
      search finds: the record, the parameter values and the best match are the same. */
  lemma OrderDoesNotMatter(rs: seq<Route>, qs: seq<Route>, m: string, path: string)
    requires AllRegistrable(rs) && LeavesNothing(rs) && LeavesNothing(qs)
    requires forall r :: r in rs <==> r in qs
    requires Distinct(rs) && Distinct(qs)
    ensures WellFormed(Build(rs)) && WellFormed(Build(qs))
    ensures Search(Build(rs), m, path).out == Search(Build(qs), m, path).out
  {
    FullIsPlain(rs);
    FullIsPlain(qs);
    forall e: (string, string) ensures e in TableOf(rs) <==> e in TableOf(qs) {
      TableEntries(rs, e);
      TableEntries(qs, e);
    }
    forall e: (string, string) | e in TableOf(rs) ensures TableOf(rs)[e] == TableOf(qs)[e] {
      TableEntries(rs, e);
      TableEntries(qs, e);
    }
    assert TableOf(rs) == TableOf(qs);
    RoutesDecide(rs, m, path);
    RoutesDecide(qs, m, path);
  }

  /** In particular with custom methods, which hold no empty records. */
  lemma CustomOrderDoesNotMatter(rs: seq<Route>, qs: seq<Route>, m: string, path: string)
    requires AllRegistrable(rs) && forall r :: r in rs ==> !Special(r.verb)
    requires (forall r :: r in rs <==> r in qs) && Distinct(rs) && Distinct(qs)
    ensures WellFormed(Build(rs)) && WellFormed(Build(qs))
    ensures Search(Build(rs), m, path).out == Search(Build(qs), m, path).out
  {
    CustomLeavesNothing(rs);
    CustomLeavesNothing(qs);
    OrderDoesNotMatter(rs, qs, m, path);
  }

  // Routes that nothing can get in the way of

  /** A value that no route can take for anything but a parameter: its first byte is in no key. */
  ghost predicate Foreign(tab: Table, v: string) {
    v != "" && NoSlash(v) && forall e :: e in tab ==> v[0] !in e.0
  }

  /** A search whose values are foreign goes straight along the key. */
  lemma {:induction false} ForeignMatch(tab: Table, m: string, u: string, rest: string, vs: seq<string>,
      ws: seq<string>, best: Option<Best>)
    requires Reaches(tab, u + rest) && Spaced(rest) && '*' !in rest
    requires |ws| == Markers(rest) && forall j: nat :: j < |ws| ==> Foreign(tab, ws[j])
    requires Match(tab, m, u + rest, "", vs + ws, best).verdict.Hit?
    ensures u == "" || Reaches(tab, u)
    ensures Match(tab, m, u, Fill(rest, ws), vs, best) == Match(tab, m, u + rest, "", vs + ws, best)
    decreases |rest|
  {
    assert Reaches(tab, u);
    if rest == "" {
      assert u + rest == u && vs + ws == vs;
    } else {
      var u', rest' := u + [rest[0]], rest[1..];
      assert u' + rest' == u + rest;
      assert Reaches(tab, u');
      SpacedTail(rest);
      if !IsMarker(rest[0]) {
        ForeignMatch(tab, m, u', rest', vs, ws, best);
        assert Fill(rest, ws)[1..] == Fill(rest', ws);
      } else {
        var v, ws' := ws[0], ws[1..];
        assert vs + ws == (vs + [v]) + ws';
        ForeignMatch(tab, m, u', rest', vs + [v], ws', best);
        ForeignSegment(tab, u, rest, ws);
        var s := Fill(rest, ws);
        assert Match(tab, m, u, s, vs, best) == MatchParam(tab, m, u, s, vs, best);
      }
    }
  }

  lemma ForeignSegment(tab: Table, u: string, rest: string, ws: seq<string>)
    requires Reaches(tab, u + rest) && Spaced(rest) && rest != "" && rest[0] == ':'
    requires |ws| == Markers(rest) && forall j: nat :: j < |ws| ==> Foreign(tab, ws[j])
    ensures var s := Fill(rest, ws); var n := if GoesOn(tab, u + ":") then Slash(s) else |s|;
      && s != "" && !Reaches(tab, u + [s[0]])
      && n == |ws[0]| && s[..n] == ws[0] && s[n..] == Fill(rest[1..], ws[1..])
  {
    var s, v := Fill(rest, ws), ws[0];
    assert s == v + Fill(rest[1..], ws[1..]) && s[0] == v[0];
    forall e | e in tab ensures !(u + [s[0]] <= e.0) {
      assert (u + [s[0]])[|u|] == v[0];
    }
    if |rest| > 1 {
      FirstSegment(rest, ws);
      var e :| e in tab && u + rest <= e.0;
      assert u + ":" == (u + rest)[..|u| + 1];
      assert u + ":" < e.0;
    } else {
      assert rest[1..] == "" && s == v;
      SlashUnique(v, |v|);
    }
  }

  /** A registered route is found wherever its values are foreign to all routes; with a literal topic, always. */
  lemma ForeignWins(rs: seq<Route>, m: string, k: string, vs: seq<string>)
    requires AllRegistrable(rs) && (k, m) in FullTable(rs) && m != ROUTE_NOT_FOUND
    requires Spaced(k) && '*' !in k && |vs| == Markers(k) && forall j: nat :: j < |vs| ==> Foreign(FullTable(rs), vs[j])
    ensures WellFormed(Build(rs))
    ensures Search(Build(rs), m, Fill(k, vs)).out.verdict == Hit(k, FullTable(rs)[(k, m)], vs)
  {
    var tab := FullTable(rs);
    RoutesDecide(rs, m, Fill(k, vs));
    assert Handles(tab, k) && Entry(tab, k, m) == Some(tab[(k, m)]);
    ForeignFromStart(tab, m, k, vs);
  }

  /** The keys of a table lie on the keys of its routes. */
  lemma {:induction false} EntriesOnRoutes(rs: seq<Route>, e: (string, string))
    requires e in FullTable(rs)
    ensures exists r :: r in rs && e.0 <= KeyOf(r)
  {
    var front, r := rs[..|rs| - 1], rs[|rs| - 1];
    assert rs == front + [r] && r in rs;
    if e in FullTable(front) {
      EntriesOnRoutes(front, e);
      var q :| q in front && e.0 <= KeyOf(q);
      assert q in rs;
    }
  }

  lemma LeftoverSpaced(rs: seq<Route>, r: Route, k: string)
    requires Registrable(r) && k in Leftovers(rs, r)
    ensures Spaced(k) && '*' !in k
  {
    var key := KeyOf(r);
    NormalSpaced(Rooted(r.pattern), '/');
    var j: nat :| j < |key| && IsMarker(key[j]) && k == key[..j];
    SpacedFront(key, j);
    forall i | 0 <= i < |k| ensures k[i] != '*' {
      assert k[i] == key[i];
    }
  }

  /** A value without a slash that starts with a byte of no route's key. */
  ghost predicate ForeignTo(rs: seq<Route>, v: string) {
    v != "" && NoSlash(v) && forall q :: q in rs ==> v[0] !in KeyOf(q)
  }

  lemma ForeignToTable(rs: seq<Route>, v: string)
    requires ForeignTo(rs, v)
    ensures Foreign(FullTable(rs), v)
  {
    forall e | e in FullTable(rs) ensures v[0] !in e.0 {
      EntriesOnRoutes(rs, e);
      var q :| q in rs && e.0 <= KeyOf(q);
    }
  }

  /** Where a registration for PUB, SUB, UNSUB or the not-found method leaves an empty record, searches match it:
      the context gets no handler at all.  For the not-found method these are the searches of every method. */
  lemma EmptyRecordIsFound(rs: seq<Route>, r: Route, m: string, k: string, vs: seq<string>)
    requires AllRegistrable(rs) && Registrable(r) && Special(r.verb) && k in Leftovers(rs, r)
    requires m == r.verb || r.verb == ROUTE_NOT_FOUND
    requires |vs| == Markers(k) && forall j: nat :: j < |vs| ==> ForeignTo(rs + [r], vs[j])
    ensures WellFormed(Build(rs + [r]))
    ensures Search(Build(rs + [r]), m, Fill(k, vs)).out.verdict == Hit(k, NO_ROUTE, vs)
  {
    var tab := FullTable(rs + [r]);
    RoutesDecide(rs + [r], m, Fill(k, vs));
    LeftoverMatch(rs, r, m, k, vs);
    LeftoverSpaced(rs, r, k);
    forall j: nat | j < |vs| ensures Foreign(tab, vs[j]) {
      ForeignToTable(rs + [r], vs[j]);
    }
    ForeignFromStart(tab, m, k, vs);
  }

  lemma ForeignFromStart(tab: Table, m: string, k: string, vs: seq<string>)
    requires Reaches(tab, k) && Spaced(k) && '*' !in k
    requires |vs| == Markers(k) && forall j: nat :: j < |vs| ==> Foreign(tab, vs[j])
    requires Match(tab, m, k, "", vs, None).verdict.Hit?
    ensures Match(tab, m, "", Fill(k, vs), [], None) == Match(tab, m, k, "", vs, None)
  {
    assert "" + k == k && [] + vs == vs;
    ForeignMatch(tab, m, "", k, [], vs, None);
  }

  lemma LeftoverMatch(rs: seq<Route>, r: Route, m: string, k: string, vs: seq<string>)
    requires AllRegistrable(rs) && Registrable(r) && Special(r.verb) && k in Leftovers(rs, r)
    requires m == r.verb || r.verb == ROUTE_NOT_FOUND
    ensures Reaches(FullTable(rs + [r]), k)
    ensures Match(FullTable(rs + [r]), m, k, "", vs, None).verdict == Hit(k, NO_ROUTE, vs)
  {
    var tab := FullTable(rs + [r]);
    LeftoverEntries(rs, r, k);
    assert (k, r.verb) in tab;
    if r.verb == ROUTE_NOT_FOUND {
      assert !Handles(tab, k) && NotFoundEntry(tab, k) == Some(NO_ROUTE);
    } else {
      assert Handles(tab, k) && Entry(tab, k, m) == Some(NO_ROUTE);
    }
  }

  /** The empty record is the only one at its key. */
  lemma LeftoverEntries(rs: seq<Route>, r: Route, k: string)
    requires AllRegistrable(rs) && Registrable(r) && Special(r.verb) && k in Leftovers(rs, r)
    ensures var tab := FullTable(rs + [r]);
      (k, r.verb) in tab && tab[(k, r.verb)] == NO_ROUTE && forall m: string :: (k, m) in tab ==> m == r.verb
  {
    assert (rs + [r])[..|rs|] == rs;
    BuildMirrors(rs);
    LeavesLeftovers(rs, r, k);
    NoEntryAt(rs, k);
    assert (k, r.verb) in Emptied(rs, r) && Emptied(rs, r)[(k, r.verb)] == NO_ROUTE;
  }

  // What is registered is found

  /** A leading slash is added where it is missing, and the empty pattern is the root; a pattern with a leading slash
      is registered as it is. */
  lemma SlashIsAdded(t: Tree, verb: string, pattern: string, h: HandlerId)
    ensures pattern != "" && pattern[0] != '/' ==> Add(t, verb, pattern, h) == Add(t, verb, "/" + pattern, h)
    ensures Add(t, verb, "", h) == Add(t, verb, "/", h)
    ensures pattern != "" && pattern[0] == '/' ==> RouteFor(pattern, h) == RouteMethod(pattern, Names(pattern), Some(h))
  {
  }

  /** The last route with its key and method is in the table. */
  lemma {:induction false} FullEntry(rs: seq<Route>, i: nat)
    requires AllRegistrable(rs) && i < |rs|
    requires forall j :: i < j < |rs| ==> KeyOf(rs[j]) != KeyOf(rs[i]) || rs[j].verb != rs[i].verb
    ensures var e := (KeyOf(rs[i]), rs[i].verb);
      e in FullTable(rs) && FullTable(rs)[e] == RouteFor(rs[i].pattern, rs[i].handler)
  {
    if i < |rs| - 1 {
      var front, r := rs[..|rs| - 1], rs[|rs| - 1];
      BuildLast(rs);
      assert front[i] == rs[i] && rs[i] in front;
      FullEntry(front, i);
      assert Stop(KeyOf(rs[i]), KeyOf(rs[i]));
      assert Point(front, KeyOf(rs[i]));
      assert (KeyOf(rs[i]), rs[i].verb) !in Emptied(front, r);
    }
  }

  /** A registered handler is found, with its pattern, by every search for its method at a path that fills its key
      with foreign values, unless a later route takes its place. */
  lemma RegisteredIsFound(rs: seq<Route>, i: nat, vs: seq<string>)
    requires AllRegistrable(rs) && i < |rs| && rs[i].verb != ROUTE_NOT_FOUND && '*' !in KeyOf(rs[i])
    requires forall j :: i < j < |rs| ==> KeyOf(rs[j]) != KeyOf(rs[i]) || rs[j].verb != rs[i].verb
    requires |vs| == Markers(KeyOf(rs[i])) && forall j: nat :: j < |vs| ==> ForeignTo(rs, vs[j])
    ensures WellFormed(Build(rs))
    ensures Search(Build(rs), rs[i].verb, Fill(KeyOf(rs[i]), vs)).out.verdict ==
      Hit(KeyOf(rs[i]), RouteFor(rs[i].pattern, rs[i].handler), vs)
  {
    FullEntry(rs, i);
    assert rs[i] in rs;
    NormalSpaced(Rooted(rs[i].pattern), '/');
    forall j: nat | j < |vs| ensures Foreign(FullTable(rs), vs[j]) {
      ForeignToTable(rs, vs[j]);
    }
    ForeignWins(rs, rs[i].verb, KeyOf(rs[i]), vs);
  }

  lemma {:induction false} LiteralKey(p: string)
    requires NoMarkers(p)
    ensures Normal(p) == p && Names(p) == [] && Markers(p) == 0 && Fill(p, []) == p && forall c: char :: Supported(p, c)
  {
    if p != "" {
      LiteralKey(p[1..]);
    }
  }

  /** A literal topic without a leading slash is found under the topic with one, and a topic with one under itself. */
  lemma LiteralIsFound(rs: seq<Route>, i: nat, topic: string)
    requires AllRegistrable(rs) && i < |rs| && rs[i].verb != ROUTE_NOT_FOUND && NoMarkers(topic)
    requires topic != "" && topic[0] == '/' && (rs[i].pattern == topic || ("/" + rs[i].pattern == topic
             && (rs[i].pattern == "" || rs[i].pattern[0] != '/')))
    requires forall j :: i < j < |rs| ==> KeyOf(rs[j]) != topic || rs[j].verb != rs[i].verb
    ensures WellFormed(Build(rs))
    ensures Search(Build(rs), rs[i].verb, topic).out.verdict == Hit(topic,
        RouteMethod(topic, [], Some(rs[i].handler)), [])
  {
    LiteralKey(topic);
    assert Rooted(rs[i].pattern) == topic;
    RegisteredIsFound(rs, i, []);
  }

  // Where the order of registration does matter

  const LITERAL := Route(METHOD_PUB, "/n", 1)
  const PARAMETER := Route(METHOD_PUB, "/:i", 2)

  lemma ExampleKeys()
    ensures KeyOf(LITERAL) == "/n" && Registrable(LITERAL)
    ensures KeyOf(PARAMETER) == "/:" && Registrable(PARAMETER)
  {
    assert "/n"[1..] == "n" && "n"[1..] == "";
    assert Normal("n") == "n" && Normal("/n") == "/n";
    assert Supported("n", '/') && Supported("/n", '/');
    assert "/:i"[1..] == ":i";
    assert Slash("i"[1..]) == 0 && ":i"[1..] == "i" && Slash("i") == 1 && Slash(":i") == 2;
    assert ":i"[2..] == "" && Normal(":i") == ":" && Normal("/:i") == "/:";
    assert Supported(":i", '/') && Supported("/:i", '/');
  }

  /** The literal route first: a search for the topic `/` finds a record without a handler. */
  lemma LiteralFirst()
    ensures WellFormed(Build([LITERAL, PARAMETER]))
    ensures Search(Build([LITERAL, PARAMETER]), METHOD_PUB, "/").out.verdict == Hit("/", NO_ROUTE, [])
  {
    ExampleKeys();
    var rs := [LITERAL];
    assert rs + [PARAMETER] == [LITERAL, PARAMETER];
    assert "/:"[..1] == "/";
    assert Skipped(rs, "/") by {
      assert LITERAL in rs && "/" < "/n";
      forall r | r in rs ensures !Stop(KeyOf(r), "/") {
        assert KeyOf(r) == "/n";
      }
    }
    assert "/" in Leftovers(rs, PARAMETER);
    assert "/"[1..] == "" && Fill("/", []) == "/";
    EmptyRecordIsFound(rs, PARAMETER, METHOD_PUB, "/", []);
  }

  /** The parameter route first: the same search finds nothing. */
  lemma ParameterFirst()
    ensures WellFormed(Build([PARAMETER, LITERAL]))
    ensures Search(Build([PARAMETER, LITERAL]), METHOD_PUB, "/").out.verdict == Miss
  {
    ExampleKeys();
    var rs := [PARAMETER, LITERAL];
    assert LeavesNothing(rs) by {
      assert rs[..0] == [] && rs[0] == PARAMETER && rs[1] == LITERAL;
      assert Leftovers([], PARAMETER) == {} && Leftovers(rs[..1], LITERAL) == {};
    }
    FullIsPlain(rs);
    assert rs[..1] == [PARAMETER] && [PARAMETER][..0] == [];
    assert TableOf([]) == map[] && TableOf([PARAMETER]).Keys == {("/:", METHOD_PUB)};
    assert TableOf(rs).Keys == {("/:", METHOD_PUB), ("/n", METHOD_PUB)};
    RoutesDecide(rs, METHOD_PUB, "/");
    ExampleMisses(TableOf(rs));
  }

  lemma ExampleMisses(tab: Table)
    requires tab.Keys == {("/:", METHOD_PUB), ("/n", METHOD_PUB)}
    ensures Match(tab, METHOD_PUB, "", "/", [], None).verdict == Miss
  {
    assert ("/n", METHOD_PUB) in tab && "/" <= "/n";
    assert Reaches(tab, "" + ['/']) && "" + ['/'] == "/" && "/"[1..] == "";
    assert "/" + "*" == "/*" && "" + ":" == ":" && "" + "*" == "*";
    forall e | e in tab ensures e.0 != "/" && !("/*" <= e.0) && !(":" <= e.0) && !("*" <= e.0) {
      assert e.0[0] == '/' && e.0[1] != '*' && "/*"[1] == '*' && ":"[0] == ':' && "*"[0] == '*';
    }
    assert !Handles(tab, "/") && NotFoundEntry(tab, "/").None?;
    assert Reaches(tab, "/");
    assert MatchAny(tab, METHOD_PUB, "/", "", [], None) == Outcome(Miss, None);
    assert MatchParam(tab, METHOD_PUB, "/", "", [], None) == Outcome(Miss, None);
    assert MatchByte(tab, METHOD_PUB, "/", "", [], None) == Outcome(Miss, None);
    assert Match(tab, METHOD_PUB, "/", "", [], None) == Outcome(Miss, None);
    assert MatchParam(tab, METHOD_PUB, "", "/", [], None) == Outcome(Miss, None);
    assert MatchByte(tab, METHOD_PUB, "", "/", [], None) == Outcome(Miss, None);
  }
}
