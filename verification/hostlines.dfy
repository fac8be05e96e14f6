/** What the host's reader makes of a line, mark by mark, beside what the shim's parser makes of it. */
module HostLines {
  import opened Bits
  import opened Number
  import opened Written
  import opened ValuesFile
  import opened Rendering
  import opened Trims
  import opened HostReader
  import opened Agreement

  /** Blanks, then braces and commas, then blanks, then quotes. */
  ghost predicate HostBefore(l: string) {
    exists a, b, c, d :: l == a + (b + (c + d)) && Blanks(a) && Braces(b) && Blanks(c) && Quotes(d)
  }

  /** Quotes, then blanks. */
  ghost predicate HostAfter(r: string) {
    exists a, b :: r == a + b && Quotes(a) && Blanks(b)
  }

  /** Blanks, then quotes, then blanks. */
  ghost predicate HostBetween(gap: string) {
    exists a, b, c :: gap == a + (b + c) && Blanks(a) && Quotes(b) && Blanks(c)
  }

  predicate Blanks(s: string) {
    forall k :: 0 <= k < |s| ==> s[k] in {' ', '\t', '\n', '\U{0B}', '\U{0C}', '\r'}
  }

  predicate Braces(s: string) {
    forall k :: 0 <= k < |s| ==> s[k] in {'{', '}', ','}
  }

  predicate Quotes(s: string) {
    forall k :: 0 <= k < |s| ==> s[k] in {'"', '\''}
  }

  lemma Peel(x: string, y: string, cs: set<char>)
    requires AllIn(x, cs)
    ensures DropLeft(x + y, cs) == DropLeft(y, cs)
  {
    var s, n := x + y, Span(y, cs, true);
    assert forall k :: |x| <= k < |s| ==> s[k] == y[k - |x|];
    SpanUnique(s, cs, true, |x| + n);
    assert s[|x| + n..] == y[n..];
  }

  lemma Stay(y: string, cs: set<char>)
    requires y == "" || y[0] !in cs
    ensures DropLeft(y, cs) == y
  {
    SpanUnique(y, cs, true, 0);
    assert y[0..] == y;
  }

  lemma Split(s: string, cs: set<char>)
    ensures s == Front(s, cs) + DropLeft(s, cs)
    ensures DropLeft(s, cs) == "" || DropLeft(s, cs)[0] !in cs
  {
  }

  lemma LeftMeans(l: string)
    ensures HostLeft(l) <==> HostBefore(l)
  {
    hide DropLeft, Front;
    if HostLeft(l) {
      var s := DropLeft(l, SPACES);
      var t := DropLeft(s, BRACES);
      var u := DropLeft(t, SPACES);
      Split(l, SPACES);
      Split(s, BRACES);
      Split(t, SPACES);
      Stay(u, SPACES);
      DropsAll(u, QUOTES);
      assert Blanks(Front(l, SPACES)) && Braces(Front(s, BRACES)) && Blanks(Front(t, SPACES)) && Quotes(u);
      assert l == Front(l, SPACES) + (Front(s, BRACES) + (Front(t, SPACES) + u));
    }
    if HostBefore(l) {
      var a, b, c, d :| l == a + (b + (c + d)) && Blanks(a) && Braces(b) && Blanks(c) && Quotes(d);
      LeftOfParts(a, b, c, d);
    }
  }

  lemma LeftOfParts(a: string, b: string, c: string, d: string)
    requires Blanks(a) && Braces(b) && Blanks(c) && Quotes(d)
    ensures HostLeft(a + (b + (c + d)))
  {
    hide DropLeft;
    Peel(a, b + (c + d), SPACES);
    Stay(d, SPACES);
    Stay(d, BRACES);
    DropsAll(d, QUOTES);
    Peel(c, d, SPACES);
    if b == "" {
      assert b + (c + d) == c + d;
    } else {
      assert (b + (c + d))[0] == b[0];
      Stay(b + (c + d), SPACES);
      Peel(b, c + d, BRACES);
      assert c != "" ==> (c + d)[0] == c[0];
      assert c == "" ==> c + d == d;
      Stay(c + d, BRACES);
    }
  }

  lemma GapMeans(gap: string)
    ensures HostGap(gap) <==> HostBetween(gap)
  {
    hide DropLeft, Front;
    if HostGap(gap) {
      var s := DropLeft(gap, SPACES);
      Split(gap, SPACES);
      Stay(s, SPACES);
      Split(s, QUOTES);
      var t := DropLeft(s, QUOTES);
      DropsAll(t, SPACES);
      assert Blanks(Front(gap, SPACES)) && Quotes(Front(s, QUOTES)) && Blanks(t);
      assert gap == Front(gap, SPACES) + (Front(s, QUOTES) + t);
    }
    if HostBetween(gap) {
      var a, b, c :| gap == a + (b + c) && Blanks(a) && Quotes(b) && Blanks(c);
      Peel(a, b + c, SPACES);
      Peel(b, c, QUOTES);
      DropsAll(c, SPACES);
      Stay(c, QUOTES);
      if b == "" {
        assert b + c == c;
        Stay("", SPACES);
        Stay("", QUOTES);
      } else {
        assert (b + c)[0] == b[0];
        Stay(b + c, SPACES);
      }
    }
  }

  lemma RightMeans(r: string)
    ensures HostRight(r) <==> HostAfter(r)
  {
    if HostRight(r) {
      RightParts(r);
    }
    if HostAfter(r) {
      var a, b :| r == a + b && Quotes(a) && Blanks(b);
      RightOfParts(a, b);
    }
  }

  lemma RightParts(r: string)
    requires HostRight(r)
    ensures HostAfter(r)
  {
    hide DropRight, HostAfter;
    var d := DropRight(r, SPACES);
    SplitRight(r, SPACES);
    DropsAll(d, QUOTES);
    After(d, r[|d|..]);
  }

  lemma SplitRight(s: string, cs: set<char>)
    ensures var d := DropRight(s, cs); s == d + s[|d|..] && AllIn(s[|d|..], cs)
  {
    hide DropRight;
  }

  lemma After(a: string, b: string)
    requires AllIn(a, QUOTES) && AllIn(b, SPACES)
    ensures HostAfter(a + b)
  {
    assert Quotes(a) && Blanks(b);
  }

  lemma RightOfParts(a: string, b: string)
    requires Quotes(a) && Blanks(b)
    ensures HostRight(a + b)
  {
    hide DropRight;
    DropRightUnique(a + b, SPACES, |a|);
    assert (a + b)[..|a|] == a;
    DropsAll(a, QUOTES);
  }

  // ---- a name between marks --------------------------------------------------

  lemma LettersAreNotJunk(c: char)
    ensures Letter(c) ==> c !in JUNK && c != '#'
    ensures !Letter(c) ==> !Letter(Lower(c))
  {
  }

  /** Where the marks are all ones that some trim takes, the name is left. */
  lemma NameBetween(l: string, name: string, r: string)
    requires Word(name) && AllIn(l, JUNK) && AllIn(r, JUNK)
    ensures var part := l + (name + r);
            Front(part, JUNK) == l && Trim(part, JUNK) == name && Back(part, JUNK) == r
  {
    hide SpanFrom, DropRight;
    LettersAreNotJunk(name[0]);
    LettersAreNotJunk(name[|name| - 1]);
    var part := l + (name + r);
    assert part[|l|] == name[0];
    SpanUnique(part, JUNK, true, |l|);
    assert part[|l|..] == name + r;
    DropRightUnique(name + r, JUNK, |name|);
    assert (name + r)[..|name|] == name && (name + r)[|name|..] == r;
    assert part[..|l|] == l;
  }

  /** Where one is not, something is left that no key is. */
  lemma MarkStays(l: string, name: string, r: string, key: string)
    requires Word(name) && Marks(l) && Marks(r) && PlainName(key)
    requires !AllIn(l, JUNK) || !AllIn(r, JUNK)
    ensures LowerAll(Trim(l + (name + r), JUNK)) != key
  {
    hide DropRight, Trim, Front, LowerAll;
    var part, at := l + (name + r), |l| + |name|;
    var m, n := Trim(part, JUNK), |Front(part, JUNK)|;
    LettersAreNotJunk(name[0]);
    assert part[|l|] == name[0];
    TrimEnds(part, |l|, JUNK);
    if !AllIn(l, JUNK) {
      var k :| 0 <= k < |l| && l[k] !in JUNK;
      assert part[k] == l[k];
      TrimEnds(part, k, JUNK);
      assert m[0] == part[n] == l[n];
      NotAKey(m, 0, key);
    } else {
      var k :| 0 <= k < |r| && r[k] !in JUNK;
      assert part[at + k] == r[k];
      TrimEnds(part, at + k, JUNK);
      var e := n + |m| - 1;
      assert m[|m| - 1] == part[e] == r[e - at];
      NotAKey(m, |m| - 1, key);
    }
  }

  lemma NotAKey(m: string, i: nat, key: string)
    requires i < |m| && !Letter(m[i]) && PlainName(key)
    ensures LowerAll(m) != key
  {
    LettersAreNotJunk(m[i]);
    hide Lower;
    assert LowerAll(m)[i] == Lower(m[i]);
  }

  /** A character that is not trimmed lies in what is left. */
  lemma TrimEnds(s: string, k: nat, cs: set<char>)
    requires k < |s| && s[k] !in cs
    ensures var n, m := |Front(s, cs)|, Trim(s, cs);
            m != "" && n <= k < n + |m| <= |s| && m == s[n..n + |m|]
  {
    hide SpanFrom;
    var n, d, m := |Front(s, cs)|, DropLeft(s, cs), Trim(s, cs);
    hide DropRight;
    assert d[k - n] == s[k];
    assert m == d[..|m|];
  }

  /** The marks some trim takes are the only ones a host's marks are made of. */
  lemma HostMarks(l: string)
    ensures HostBefore(l) || HostAfter(l) ==> AllIn(l, JUNK)
  {
  }

  /**
   * What the host makes of a name between marks, a separator, a gap and a value, for any marks: it takes blanks, then
   * braces and commas, then blanks, then quotes before the name, quotes and then blanks after it, and quotes among
   * blanks before the value; and it lowers the name.
   */
  lemma HostMarkedLine(l: string, name: string, r: string, sep: char, gap: string, v: string, key: string)
    requires Word(name) && PlainName(key) && Marks(l) && Marks(r) && (sep == '=' || sep == ':')
    requires forall k :: 0 <= k < |gap| ==> gap[k] in {' ', '\t', '\n', '\U{0B}', '\U{0C}', '\r', '"', '\''}
    requires v == "" || v[0] !in {' ', '\t', '\n', '\U{0B}', '\U{0C}', '\r', '"', '\''}
    ensures HostMatch(l + (name + r) + ([sep] + (gap + v)), key, Convert)
            == if LowerAll(name) == key && HostBefore(l) && HostAfter(r) && HostBetween(gap) then Convert(v) else None
  {
    hide Convert, HostMatch, HostBefore, HostAfter, HostBetween, HostLeft, HostRight, HostGap, Front, Back, Trim, Span,
         LowerAll, Word, Marks, DropLeft;
    var part := l + (name + r);
    var line := part + ([sep] + (gap + v));
    PartIsClear(l, name, r);
    SeparatorAt(part, sep, gap + v);
    HostLine(line, key);
    GapThenValue(gap, v);
    GapMeans(gap);
    LeftMeans(l);
    RightMeans(r);
    HostMarks(l);
    HostMarks(r);
    if AllIn(l, JUNK) && AllIn(r, JUNK) {
      NameBetween(l, name, r);
    } else {
      MarkStays(l, name, r, key);
    }
  }

  lemma PartIsClear(l: string, name: string, r: string)
    requires Word(name) && Marks(l) && Marks(r)
    ensures forall k :: 0 <= k < |l + (name + r)| ==> (l + (name + r))[k] !in {'=', ':'}
  {
  }

  lemma GapThenValue(gap: string, v: string)
    requires AllIn(gap, NEAR) && (v == "" || v[0] !in NEAR)
    ensures Front(gap + v, NEAR) == gap && Bare(gap + v) == v
  {
    hide SpanFrom;
    SpanUnique(gap + v, NEAR, true, |gap|);
    assert (gap + v)[..|gap|] == gap && (gap + v)[|gap|..] == v;
  }

  /** One comma after a value is not part of it, whatever reads the value; a second one is. */
  lemma OneCommaGoes(m: string)
    requires m != "" && m[0] !in NEAR && m[|m| - 1] !in JUNK
    ensures HostValue(m + ",") == m && HostValue(m + ",,") == m + ","
  {
    hide DropLeft, DropRight, HostValue;
    HostValueOn("", m, ",");
    HostValueOn("", m, ",,");
    Stay("", SPACES);
    Stay("", QUOTES);
    RightStays(",");
    RightStays("");
    RightStays(",,");
    assert TrimComma(",") == "" && TrimComma(",,") == ",";
    assert Around("", m, ",") == m + "," && Around("", m, ",,") == m + ",," && Around("", m, "") == m;
  }

  lemma RightStays(s: string)
    requires s == "" || s[|s| - 1] == ','
    ensures DropRight(s, SPACES) == s && DropRight(s, QUOTES) == s
  {
  }
}
