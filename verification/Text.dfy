/** Topic patterns and topic paths, as byte strings.

    A *pattern* is what a caller registers (`/users/:id/files`); a *key* is the pattern with every
    parameter name erased (`/users/:/files`), which is the form the routing tree stores.  The two
    marker bytes `:` and `*` stand for one parameter each. */
module Text {

  predicate IsMarker(c: char) {
    c == ':' || c == '*'
  }

  predicate NoMarkers(s: string) {
    forall i :: 0 <= i < |s| ==> !IsMarker(s[i])
  }

  /** The number of parameters in a key. */
  function Markers(key: string): nat {
    if key == "" then 0 else (if IsMarker(key[0]) then 1 else 0) + Markers(key[1..])
  }

  /** Position of the first slash, or the length of the string when there is none. */
  function Slash(s: string): (n: nat)
    ensures n <= |s|
    ensures forall i :: 0 <= i < n ==> s[i] != '/'
    ensures n < |s| ==> s[n] == '/'
  {
    if s == "" || s[0] == '/' then 0 else 1 + Slash(s[1..])
  }

  lemma {:induction false} SlashUnique(s: string, n: nat)
    requires n <= |s| && (n < |s| ==> s[n] == '/')
    requires forall i :: 0 <= i < n ==> s[i] != '/'
    ensures n == Slash(s)
  {
    if n > 0 {
      SlashUnique(s[1..], n - 1);
    }
  }

  /** The length of the longest common prefix. */
  function Lcp(a: string, b: string): (n: nat)
    ensures n <= |a| && n <= |b|
    ensures a[..n] == b[..n]
    ensures n < |a| && n < |b| ==> a[n] != b[n]
  {
    if a == "" || b == "" || a[0] != b[0] then 0
    else
      var n := 1 + Lcp(a[1..], b[1..]);
      assert a[..n] == [a[0]] + a[1..][..n - 1] && b[..n] == [b[0]] + b[1..][..n - 1];
      n
  }

  lemma {:induction false} LcpUnique(a: string, b: string, n: nat)
    requires n <= |a| && n <= |b| && a[..n] == b[..n]
    requires n < |a| && n < |b| ==> a[n] != b[n]
    ensures n == Lcp(a, b)
  {
    if 0 < n {
      assert a[0] == a[..n][0] == b[..n][0] == b[0];
      assert a[1..][..n - 1] == a[..n][1..] == b[..n][1..] == b[1..][..n - 1];
      LcpUnique(a[1..], b[1..], n - 1);
    }
  }

  lemma SliceTwice(s: string, a: nat, l: nat)
    requires a + l <= |s|
    ensures s[a..][l..] == s[a + l..]
    ensures s[..a + l] + s[a + l..] == s
  {}

  // Patterns

  /** The pattern with a leading slash. */
  function Rooted(path: string): (p: string)
    ensures p != "" && p[0] == '/'
  {
    if path == "" then "/" else if path[0] != '/' then "/" + path else path
  }

  /** The key of a pattern: parameter names are erased. */
  function Normal(p: string): string {
    if p == "" then ""
    else if p[0] == ':' then ":" + Normal(p[Slash(p)..])
    else [p[0]] + Normal(p[1..])
  }

  /** The parameter names of a pattern, in order. */
  function Names(p: string): seq<string> {
    if p == "" then []
    else if p[0] == ':' then [p[1..Slash(p)]] + Names(p[Slash(p)..])
    else if p[0] == '*' then ["*"] + Names(p[1..])
    else Names(p[1..])
  }

  /** The path that a pattern spells when its i-th parameter is replaced with `values[i]`. */
  function Render(p: string, values: seq<string>): string
    requires |values| == |Names(p)|
  {
    if p == "" then ""
    else if p[0] == ':' then values[0] + Render(p[Slash(p)..], values[1..])
    else if p[0] == '*' then values[0] + Render(p[1..], values[1..])
    else [p[0]] + Render(p[1..], values)
  }

  /** Patterns without an escaped colon where the router looks for one, and with `*` only at the end.
      `previous` is the byte before the pattern. */
  predicate Supported(p: string, previous: char) {
    if p == "" then true
    else if p[0] == ':' then previous != '\\' && Supported(p[Slash(p)..], ':')
    else if p[0] == '*' then |p| == 1
    else Supported(p[1..], p[0])
  }

  // Keys

  /** The path that a key spells when its markers are replaced with `values`. */
  function Fill(key: string, values: seq<string>): string
    requires |values| == Markers(key)
  {
    if key == "" then ""
    else if IsMarker(key[0]) then values[0] + Fill(key[1..], values[1..])
    else [key[0]] + Fill(key[1..], values)
  }

  lemma {:induction false} MarkersConcat(a: string, b: string)
    ensures Markers(a + b) == Markers(a) + Markers(b)
  {
    if a == "" {
      assert a + b == b;
    } else {
      assert (a + b)[1..] == a[1..] + b;
      MarkersConcat(a[1..], b);
    }
  }

  lemma {:induction false} MarkersNone(s: string)
    requires NoMarkers(s)
    ensures Markers(s) == 0
  {
    if s != "" {
      MarkersNone(s[1..]);
    }
  }

  lemma MarkersPrefix(a: string, b: string)
    requires a <= b
    ensures Markers(a) <= Markers(b)
  {
    MarkersConcat(a, b[|a|..]);
    assert a + b[|a|..] == b;
  }

  lemma {:induction false} FillConcat(a: string, b: string, va: seq<string>, vb: seq<string>)
    requires |va| == Markers(a) && |vb| == Markers(b)
    ensures |va + vb| == Markers(a + b)
    ensures Fill(a + b, va + vb) == Fill(a, va) + Fill(b, vb)
  {
    MarkersConcat(a, b);
    if a == "" {
      assert a + b == b && va + vb == vb;
    } else {
      assert (a + b)[1..] == a[1..] + b;
      if IsMarker(a[0]) {
        assert (va + vb)[1..] == va[1..] + vb;
        FillConcat(a[1..], b, va[1..], vb);
      } else {
        FillConcat(a[1..], b, va, vb);
      }
    }
  }

  lemma {:induction false} FillNone(s: string)
    requires NoMarkers(s)
    ensures Markers(s) == 0 && Fill(s, []) == s
  {
    if s != "" {
      FillNone(s[1..]);
    }
  }

  lemma FillAppend(key: string, s: string, values: seq<string>)
    requires NoMarkers(s) && |values| == Markers(key)
    ensures Markers(key + s) == Markers(key)
    ensures Fill(key + s, values) == Fill(key, values) + s
  {
    FillNone(s);
    FillConcat(key, s, values, []);
    assert values + [] == values;
  }

  lemma FillMark(key: string, mark: string, values: seq<string>, v: string)
    requires mark == ":" || mark == "*"
    requires |values| == Markers(key)
    ensures Markers(key + mark) == Markers(key) + 1
    ensures Fill(key + mark, values + [v]) == Fill(key, values) + v
  {
    assert mark[1..] == "" && Markers(mark) == 1;
    assert Fill(mark, [v]) == v + "";
    FillConcat(key, mark, values, [v]);
  }

  /** A key has one marker for every parameter name of its pattern. */
  lemma {:induction false} NamesMarkers(p: string)
    ensures |Names(p)| == Markers(Normal(p))
    decreases |p|
  {
    if p == "" {
    } else {
      NamesMarkers(if p[0] == ':' then p[Slash(p)..] else p[1..]);
    }
  }

  /** Rendering a pattern is filling its key. */
  lemma {:induction false} RenderIsFill(p: string, values: seq<string>)
    requires |values| == |Names(p)|
    ensures |values| == Markers(Normal(p))
    ensures Render(p, values) == Fill(Normal(p), values)
    decreases |p|
  {
    NamesMarkers(p);
    if p == "" {
    } else if p[0] == ':' {
      RenderIsFill(p[Slash(p)..], values[1..]);
    } else if p[0] == '*' {
      RenderIsFill(p[1..], values[1..]);
    } else {
      RenderIsFill(p[1..], values);
    }
  }

  // Keys of supported patterns

  /** After a parameter comes a slash or nothing, and after an any parameter nothing. */
  predicate Spaced(key: string) {
    && (forall i :: 0 <= i < |key| - 1 && key[i] == ':' ==> key[i + 1] == '/')
    && (forall i :: 0 <= i < |key| - 1 ==> key[i] != '*')
  }

  lemma SpacedTail(key: string)
    requires key != "" && Spaced(key)
    ensures Spaced(key[1..])
  {
    assert forall i :: 0 <= i < |key| - 1 ==> key[1..][i] == key[i + 1];
  }

  lemma SpacedFront(key: string, n: nat)
    requires n <= |key| && Spaced(key)
    ensures Spaced(key[..n])
  {
  }

  lemma {:induction false} NormalSpaced(p: string, previous: char)
    requires Supported(p, previous)
    ensures Spaced(Normal(p))
    decreases |p|
  {
    if p != "" {
      if p[0] == ':' {
        var rest := p[Slash(p)..];
        NormalSpaced(rest, ':');
        assert rest != "" ==> Normal(rest)[0] == '/';
        SpacedCons(':', Normal(rest));
      } else if p[0] == '*' {
        assert p[1..] == "";
      } else {
        NormalSpaced(p[1..], p[0]);
        SpacedCons(p[0], Normal(p[1..]));
      }
    }
  }

  lemma SpacedCons(c: char, rest: string)
    requires Spaced(rest) && c != '*' && (c == ':' && rest != "" ==> rest[0] == '/')
    ensures Spaced([c] + rest)
  {
    var key := [c] + rest;
    assert forall i :: 0 < i < |key| ==> key[i] == rest[i - 1];
  }

  predicate NoSlash(s: string) {
    '/' !in s
  }

  /** Values free of slashes, but for a last one that ends the key. */
  predicate Segments(key: string, vs: seq<string>) {
    forall j: nat :: j < |vs| ==> NoSlash(vs[j]) || (j + 1 == |vs| && key != "" && IsMarker(key[|key| - 1]))
  }

  /** Different segments spell different paths. */
  lemma {:induction false} FillInjective(key: string, vs: seq<string>, ws: seq<string>)
    requires Spaced(key) && |vs| == |ws| == Markers(key) && Segments(key, vs) && Segments(key, ws)
    requires Fill(key, vs) == Fill(key, ws)
    ensures vs == ws
  {
    if key != "" {
      SpacedTail(key);
      if IsMarker(key[0]) {
        FirstSame(key, vs, ws);
        if |key| > 1 {
          FillInjective(key[1..], vs[1..], ws[1..]);
        }
        SameSeq(vs, ws);
      } else {
        assert Fill(key, vs)[1..] == Fill(key[1..], vs) && Fill(key, ws)[1..] == Fill(key[1..], ws);
        TailSegments(key, vs);
        TailSegments(key, ws);
        FillInjective(key[1..], vs, ws);
      }
    }
  }

  lemma SameSeq(vs: seq<string>, ws: seq<string>)
    requires |vs| == |ws| > 0 && vs[0] == ws[0] && vs[1..] == ws[1..]
    ensures vs == ws
  {
    assert vs == [vs[0]] + vs[1..] && ws == [ws[0]] + ws[1..];
  }

  /** The first segments of one path are the same, and so is what is left. */
  lemma FirstSame(key: string, vs: seq<string>, ws: seq<string>)
    requires Spaced(key) && |vs| == |ws| == Markers(key) && Segments(key, vs) && Segments(key, ws)
    requires key != "" && IsMarker(key[0]) && Fill(key, vs) == Fill(key, ws)
    ensures vs[0] == ws[0] && Fill(key[1..], vs[1..]) == Fill(key[1..], ws[1..])
    ensures |key| == 1 ==> vs[1..] == ws[1..]
    ensures |key| > 1 ==> Segments(key[1..], vs[1..]) && Segments(key[1..], ws[1..])
  {
    if |key| == 1 {
      assert key[1..] == "" && vs[0] + "" == vs[0] && ws[0] + "" == ws[0];
    } else {
      FirstSegment(key, vs);
      FirstSegment(key, ws);
    }
  }

  lemma TailSegments(key: string, vs: seq<string>)
    requires key != "" && !IsMarker(key[0]) && |vs| == Markers(key) && Segments(key, vs)
    ensures Segments(key[1..], vs)
  {
    if key[1..] != "" {
      assert key[1..][|key| - 2] == key[|key| - 1];
    } else {
      assert Markers(key) == 0;
    }
  }

  /** The first segment of a path ends at its first slash. */
  lemma FirstSegment(key: string, vs: seq<string>)
    requires Spaced(key) && |vs| == Markers(key) && Segments(key, vs) && |key| > 1 && IsMarker(key[0])
    ensures var s := Fill(key, vs);
        Slash(s) == |vs[0]| && s[..|vs[0]|] == vs[0] && s[|vs[0]|..] == Fill(key[1..], vs[1..])
    ensures Segments(key[1..], vs[1..])
  {
    var rest := key[1..];
    var s := Fill(key, vs);
    assert rest[0] == '/';
    assert rest[|rest| - 1] == key[|key| - 1];
    if |vs| == 1 {
      MarkersLast(rest);
    }
    assert NoSlash(vs[0]);
    assert Fill(rest, vs[1..]) == [rest[0]] + Fill(rest[1..], vs[1..]);
    assert s == vs[0] + Fill(rest, vs[1..]);
    SlashUnique(s, |vs[0]|);
    assert forall j: nat :: j < |vs[1..]| ==> vs[1..][j] == vs[j + 1];
  }

  lemma {:induction false} MarkersLast(key: string)
    requires key != "" && Markers(key) == 0
    ensures !IsMarker(key[|key| - 1])
  {
    if |key| > 1 {
      MarkersLast(key[1..]);
    }
  }

  // Names

  /** The pattern with a key and names: each `:` is followed by its name, and each `*` is its own. */
  function Respell(key: string, names: seq<string>): string
    requires |names| == Markers(key)
  {
    if key == "" then ""
    else if key[0] == ':' then ":" + names[0] + Respell(key[1..], names[1..])
    else if key[0] == '*' then names[0] + Respell(key[1..], names[1..])
    else [key[0]] + Respell(key[1..], names)
  }

  lemma RespellMarker(c: char, key: string, name: string, names: seq<string>)
    requires IsMarker(c) && |names| == Markers(key)
    ensures Markers([c] + key) == |[name] + names|
    ensures Respell([c] + key, [name] + names) == (if c == ':' then ":" else "") + name + Respell(key, names)
  {
    assert ([c] + key)[1..] == key && ([name] + names)[1..] == names;
  }

  lemma RespellByte(c: char, key: string, names: seq<string>)
    requires !IsMarker(c) && |names| == Markers(key)
    ensures Markers([c] + key) == |names| && Respell([c] + key, names) == [c] + Respell(key, names)
  {
    assert ([c] + key)[1..] == key;
  }

  /** A parameter at the start of a pattern, and what comes after it. */
  lemma FirstName(p: string)
    requires p != "" && p[0] == ':'
    ensures 0 < Slash(p) && NoSlash(p[1..Slash(p)]) && p == ":" + p[1..Slash(p)] + p[Slash(p)..]
  {
    ThreeParts(p, Slash(p));
    forall i | 0 <= i < |p[1..Slash(p)]| ensures p[1..Slash(p)][i] != '/' {
      assert p[1..Slash(p)][i] == p[i + 1];
    }
  }

  lemma ThreeParts(p: string, n: nat)
    requires 0 < n <= |p|
    ensures p == [p[0]] + p[1..n] + p[n..]
  {
  }

  /** A pattern is spelled by its key and its names: nothing of it is lost, and no name has a slash. */
  lemma {:induction false} NamesRespell(p: string)
    ensures |Names(p)| == Markers(Normal(p)) && Respell(Normal(p), Names(p)) == p
    ensures forall i :: 0 <= i < |Names(p)| ==> NoSlash(Names(p)[i])
    decreases |p|
  {
    if p != "" {
      if p[0] == ':' {
        var n := Slash(p);
        FirstName(p);
        NamesRespell(p[n..]);
        RespellMarker(':', Normal(p[n..]), p[1..n], Names(p[n..]));
      } else if p[0] == '*' {
        ThreeParts(p, 1);
        NamesRespell(p[1..]);
        RespellMarker('*', Normal(p[1..]), "*", Names(p[1..]));
      } else {
        ThreeParts(p, 1);
        NamesRespell(p[1..]);
        RespellByte(p[0], Normal(p[1..]), Names(p[1..]));
      }
    }
  }
}
