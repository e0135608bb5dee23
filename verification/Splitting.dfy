/** Splitting a string at a separator. */
module Splitting {
  import opened Options

  ghost predicate Occurs(s: string, sep: string, i: nat) {
    i + |sep| <= |s| && s[i..i + |sep|] == sep
  }

  ghost predicate Contains(s: string, sep: string) {
    exists i: nat :: Occurs(s, sep, i)
  }

  /** The place of the first occurrence. */
  function Index(s: string, sep: string): (r: Option<nat>)
    ensures r.None? <==> !Contains(s, sep)
    ensures r.Some? ==> Occurs(s, sep, r.value) && forall i: nat :: i < r.value ==> !Occurs(s, sep, i)
  {
    if |s| < |sep| then None
    else if s[..|sep|] == sep then
      assert Occurs(s, sep, 0);
      Some(0)
    else
      var r := Index(s[1..], sep);
      assert forall i: nat :: 0 < i ==> (Occurs(s, sep, i) <==> Occurs(s[1..], sep, i - 1)) by {
        forall i: nat | 0 < i ensures Occurs(s, sep, i) <==> Occurs(s[1..], sep, i - 1) {
          OccursInTail(s, sep, i);
        }
      }
      assert Contains(s, sep) <==> Contains(s[1..], sep) by {
        ContainsInTail(s, sep);
      }
      if r.None? then None else Some(r.value + 1)
  }

  lemma OccursInTail(s: string, sep: string, i: nat)
    requires 0 < i && s != ""
    ensures Occurs(s, sep, i) <==> Occurs(s[1..], sep, i - 1)
  {
    if i + |sep| <= |s| {
      assert s[i..i + |sep|] == s[1..][i - 1..i - 1 + |sep|];
    }
  }

  lemma ContainsInTail(s: string, sep: string)
    requires s != "" && !Occurs(s, sep, 0)
    ensures Contains(s, sep) <==> Contains(s[1..], sep)
  {
    if i: nat :| Occurs(s, sep, i) {
      OccursInTail(s, sep, i);
    }
    if i: nat :| Occurs(s[1..], sep, i) {
      OccursInTail(s, sep, i + 1);
      assert Occurs(s, sep, i + 1);
    }
  }

  function Split(s: string, sep: string): seq<string>
    requires sep != ""
    decreases |s|
  {
    var i := Index(s, sep);
    if i.None? then [s] else [s[..i.value]] + Split(s[i.value + |sep|..], sep)
  }

  lemma Apart(a: string, sep: string, b: string)
    ensures (a + sep + b)[..|a|] == a && (a + sep + b)[|a| + |sep|..] == b
  {
  }

  lemma Together(s: string, sep: string, i: nat)
    requires Occurs(s, sep, i)
    ensures s == s[..i] + sep + s[i + |sep|..]
  {
  }

  lemma SplitOnce(s: string, sep: string)
    requires sep != ""
    ensures |Split(s, sep)| >= 1 && (|Split(s, sep)| == 1 <==> !Contains(s, sep))
    ensures |Split(s, sep)| == 1 ==> Split(s, sep) == [s]
  {
    if Index(s, sep).Some? {
      assert |Split(s[Index(s, sep).value + |sep|..], sep)| >= 1;
    }
  }

  /** A string splits into two parts exactly when the separator is between them, found there first, and not
      found again. */
  lemma SplitPair(s: string, sep: string, a: string, b: string)
    requires sep != ""
    ensures Split(s, sep) == [a, b] <==> s == a + sep + b && Index(s, sep) == Some(|a|) && !Contains(b, sep)
  {
    var i := Index(s, sep);
    if i.Some? {
      Apart(a, sep, b);
      Together(s, sep, i.value);
      var first, rest := s[..i.value], s[i.value + |sep|..];
      SplitOnce(rest, sep);
      assert Split(s, sep) == [first] + Split(rest, sep);
      if Split(s, sep) == [a, b] {
        SplitSame(first, Split(rest, sep), a, b);
      }
    }
  }

  lemma SplitSame(first: string, more: seq<string>, a: string, b: string)
    requires [first] + more == [a, b]
    ensures first == a && more == [b]
  {
    assert ([first] + more)[0] == first && ([first] + more)[1..] == more;
  }

  /** The separator is found at its first place after `a` exactly when `a` does not contain it, provided that
      no proper end of the separator starts it. */
  lemma FoundFirst(a: string, sep: string, b: string)
    requires sep != "" && forall k :: 0 < k < |sep| ==> sep[k] != sep[0]
    ensures Index(a + sep + b, sep) == Some(|a|) <==> !Contains(a, sep)
  {
    var s := a + sep + b;
    assert s[|a|..|a| + |sep|] == sep;
    assert Occurs(s, sep, |a|);
    forall i: nat | i < |a| ensures Occurs(s, sep, i) <==> Occurs(a, sep, i) {
      if i + |sep| <= |a| {
        assert s[i..i + |sep|] == a[i..i + |sep|];
      } else {
        assert s[|a|] == sep[0] != sep[|a| - i];
      }
    }
    assert forall i: nat :: Occurs(a, sep, i) ==> i < |a|;
  }
}
