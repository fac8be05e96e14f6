/** Trimming: what taking marks off both ends of a text does to a core in the middle. */
module Trims {
  import opened Bits
  import opened Written
  import opened ValuesFile

  function Trim(s: string, cs: set<char>): string {
    DropRight(DropLeft(s, cs), cs)
  }

  predicate AllIn(s: string, cs: set<char>) {
    forall k :: 0 <= k < |s| ==> s[k] in cs
  }

  function Around(left: string, core: string, right: string): string {
    Join(left, Join(core, right))
  }

  function Front(s: string, cs: set<char>): (l: string)
    ensures AllIn(l, cs)
  {
    s[..Span(s, cs, true)]
  }

  function Back(s: string, cs: set<char>): (r: string)
    ensures AllIn(r, cs)
  {
    DropLeft(s, cs)[|Trim(s, cs)|..]
  }

  lemma Surrounded(s: string, cs: set<char>)
    ensures s == Around(Front(s, cs), Trim(s, cs), Back(s, cs))
    ensures Trim(s, cs) == "" ==> AllIn(s, cs)
    ensures var m := Trim(s, cs); m != "" ==> m[0] !in cs && m[|m| - 1] !in cs
  {
    hide DropRight;
    var d, m := DropLeft(s, cs), Trim(s, cs);
    assert d == "" || d[0] !in cs;
    assert d == m + d[|m|..];
    assert s == s[..Span(s, cs, true)] + d;
  }

  lemma LeftOn(l: string, m: string, r: string, cs: set<char>)
    requires m != "" && m[0] !in cs
    ensures DropLeft(Around(l, m, r), cs) == Around(DropLeft(l, cs), m, r)
  {
    hide SpanFrom;
    var s, n := Around(l, m, r), Span(l, cs, true);
    assert s[|l|] == m[0];
    SpanUnique(s, cs, true, n);
    assert s[n..] == l[n..] + (m + r);
  }

  lemma RightOn(l: string, m: string, r: string, cs: set<char>)
    requires m != "" && m[|m| - 1] !in cs
    ensures DropRight(Around(l, m, r), cs) == Around(l, m, DropRight(r, cs))
  {
    hide DropRight;
    var s, d := Around(l, m, r), DropRight(r, cs);
    var n := |l| + |m| + |d|;
    AroundAt(l, m, r, |d|);
    assert d != "" ==> s[n - 1] == d[|d| - 1];
    assert d == "" ==> s[n - 1] == m[|m| - 1];
    hide Around;
    DropRightUnique(s, cs, n);
  }

  lemma AroundAt(l: string, m: string, r: string, k: nat)
    requires k <= |r|
    ensures var s, at := Around(l, m, r), |l| + |m|;
            && |s| == at + |r| && s[..at + k] == Around(l, m, r[..k])
            && (forall i :: at <= i < |s| ==> s[i] == r[i - at])
            && (m != "" ==> s[at - 1] == m[|m| - 1])
  {
  }

  lemma TrimOn(l: string, m: string, r: string, cs: set<char>)
    requires m != "" && m[0] !in cs && m[|m| - 1] !in cs
    ensures Trim(Around(l, m, r), cs) == Around(DropLeft(l, cs), m, DropRight(r, cs))
  {
    hide DropLeft, DropRight, Around;
    LeftOn(l, m, r, cs);
    RightOn(DropLeft(l, cs), m, r, cs);
  }

  /** What trimming leaves of a string of marks is a string of marks. */
  lemma TrimIn(s: string, cs: set<char>, all: set<char>)
    requires AllIn(s, all)
    ensures AllIn(Trim(s, cs), all) && AllIn(DropLeft(s, cs), all) && AllIn(DropRight(s, cs), all)
  {
  }

  lemma DropsAll(s: string, cs: set<char>)
    ensures DropLeft(s, cs) == "" <==> AllIn(s, cs)
    ensures DropRight(s, cs) == "" <==> AllIn(s, cs)
  {
  }

  lemma FrontDrops(s: string, cs: set<char>)
    ensures s == Join(Front(s, cs), DropLeft(s, cs))
    ensures DropLeft(s, cs) == "" || DropLeft(s, cs)[0] !in cs
  {
  }

  lemma JoinFacts(a: string, b: string, c: string)
    ensures Join(Join(a, b), c) == Join(a, Join(b, c))
    ensures Join("", c) == c
    ensures a != "" ==> Join(a, b) != "" && Join(a, b)[0] == a[0]
  {
    Assoc(a, b, c);
  }
}
