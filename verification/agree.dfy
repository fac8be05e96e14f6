/**
 * When the host's reader and the shim's read a line alike. Both are given the same reader of numbers, so what is
 * compared is the grammar around them.
 */
module Agreement {
  import opened Bits
  import opened Number
  import opened Written
  import opened ValuesFile
  import opened Rendering
  import opened Trims
  import opened HostReader

  const JUNK: set<char> := SPACES + BRACES + QUOTES

  lemma CommaOn(l: string, m: string, r: string)
    requires m != "" && m[|m| - 1] != ','
    ensures TrimComma(Around(l, m, r)) == Around(l, m, TrimComma(r))
  {
    var s := Around(l, m, r);
    assert s[|s| - 1] == if r == "" then m[|m| - 1] else r[|r| - 1];
    if r != "" {
      assert s[..|s| - 1] == l + (m + r[..|r| - 1]);
    }
  }

  // ---- the name ------------------------------------------------------------

  /** The three trims of a line, on its left and on its right. */
  function LineLeft(l: string): string {
    DropLeft(DropLeft(DropLeft(l, SPACES), BRACES), SPACES)
  }

  function LineRight(r: string): string {
    DropRight(DropRight(DropRight(r, SPACES), BRACES), SPACES)
  }

  lemma CleanedOn(l: string, m: string, r: string)
    requires m != "" && m[0] !in SPACES + BRACES && m[|m| - 1] !in SPACES + BRACES
    ensures Cleaned(Around(l, m, r)) == Around(LineLeft(l), m, LineRight(r))
  {
    hide Trim, DropLeft, DropRight, Around;
    TrimOn(l, m, r, SPACES);
    TrimOn(DropLeft(l, SPACES), m, DropRight(r, SPACES), BRACES);
    TrimOn(DropLeft(DropLeft(l, SPACES), BRACES), m, DropRight(DropRight(r, SPACES), BRACES), SPACES);
  }

  /** Marks the host takes off a name, on its left and on its right. */
  predicate HostLeft(l: string) {
    DropLeft(DropLeft(LineLeft(l), SPACES), QUOTES) == ""
  }

  predicate HostRight(r: string) {
    DropRight(DropRight(r, SPACES), QUOTES) == ""
  }

  /** Whether the host takes this text before the separator for `key`. */
  predicate HostNames(part: string, key: string) {
    LowerAll(Trim(part, JUNK)) == key && HostLeft(Front(part, JUNK)) && HostRight(Back(part, JUNK))
  }

  /** Whether the shim does. */
  predicate ShimNames(part: string, key: string) {
    Trim(part, JUNK) == key && AllIn(Front(part, JUNK), KEY_LEFT) && AllIn(Back(part, JUNK), KEY_RIGHT)
  }

  lemma JunkAround(a: string, g: string, b: string, key: string)
    requires AllIn(a, JUNK) && AllIn(b, JUNK) && PlainName(key)
    ensures Around(a, g, b) == key <==> a == "" && b == "" && g == key
    ensures LowerAll(Around(a, g, b)) == key <==> a == "" && b == "" && LowerAll(g) == key
  {
    var s := Around(a, g, b);
    assert a != "" ==> s[0] == a[0];
    assert b != "" ==> s[|s| - 1] == b[|b| - 1];
    assert a == "" && b == "" ==> s == g;
    assert forall c :: c in JUNK ==> Lower(c) == c;
  }

  lemma HostNameIs(part: string, key: string)
    requires PlainName(key)
    ensures var p := LineLeft(part);
            (p != "" && p[0] != '#' && HostName(p) == key) <==> HostNames(part, key)
  {
    var l, g, r := Front(part, JUNK), Trim(part, JUNK), Back(part, JUNK);
    Surrounded(part, JUNK);
    if g == "" {
      NamelessHost(part, key);
    } else {
      NamedHost(l, g, r, key);
    }
  }

  lemma NamelessHost(part: string, key: string)
    requires PlainName(key) && AllIn(part, JUNK)
    ensures HostName(LineLeft(part)) != key
    ensures LowerAll(Trim(part, JUNK)) != key || Trim(part, JUNK) != ""
  {
    hide DropLeft, DropRight, Trim, LowerAll;
    LineLeftIn(part);
    var p := LineLeft(part);
    TrimIn(p, SPACES, JUNK);
    TrimIn(Trim(p, SPACES), QUOTES, JUNK);
    var t := Trim(Trim(p, SPACES), QUOTES);
    assert t != "" ==> Lower(t[0]) != key[0];
  }

  lemma LineLeftIn(l: string)
    requires AllIn(l, JUNK)
    ensures AllIn(LineLeft(l), JUNK)
  {
    hide DropLeft;
    TrimIn(l, SPACES, JUNK);
    TrimIn(DropLeft(l, SPACES), BRACES, JUNK);
    TrimIn(DropLeft(DropLeft(l, SPACES), BRACES), SPACES, JUNK);
  }

  lemma LineLeftOn(l: string, m: string, r: string)
    requires m != "" && m[0] !in SPACES + BRACES
    ensures LineLeft(Around(l, m, r)) == Around(LineLeft(l), m, r)
  {
    hide DropLeft, Around;
    LeftOn(l, m, r, SPACES);
    LeftOn(DropLeft(l, SPACES), m, r, BRACES);
    LeftOn(DropLeft(DropLeft(l, SPACES), BRACES), m, r, SPACES);
  }

  lemma NamedHost(l: string, g: string, r: string, key: string)
    requires PlainName(key) && AllIn(l, JUNK) && AllIn(r, JUNK)
    requires g != "" && g[0] !in JUNK && g[|g| - 1] !in JUNK
    ensures var p := LineLeft(Around(l, g, r));
            (p != "" && p[0] != '#' && HostName(p) == key) <==> LowerAll(g) == key && HostLeft(l) && HostRight(r)
  {
    hide DropLeft, DropRight, Trim, LowerAll, Around, LineLeft;
    LineLeftOn(l, g, r);
    LineLeftIn(l);
    var a := LineLeft(l);
    TrimOn(a, g, r, SPACES);
    TrimIn(a, SPACES, JUNK);
    TrimIn(r, SPACES, JUNK);
    var b, c := DropLeft(a, SPACES), DropRight(r, SPACES);
    TrimOn(b, g, c, QUOTES);
    TrimIn(b, QUOTES, JUNK);
    TrimIn(c, QUOTES, JUNK);
    JunkAround(DropLeft(b, QUOTES), g, DropRight(c, QUOTES), key);
    AroundHead(a, g, r);
  }

  lemma AroundHead(l: string, g: string, r: string)
    requires g != ""
    ensures var s := Around(l, g, r); s != "" && s[0] == if l == "" then g[0] else l[0]
  {
  }

  lemma ShimNameIs(part: string, key: string)
    requires PlainName(key)
    ensures DropRight(DropLeft(part, KEY_LEFT), KEY_RIGHT) == key <==> ShimNames(part, key)
  {
    var l, g, r := Front(part, JUNK), Trim(part, JUNK), Back(part, JUNK);
    Surrounded(part, JUNK);
    if g == "" {
      NamelessShim(part, key);
    } else {
      NamedShim(l, g, r, key);
    }
  }

  lemma NamelessShim(part: string, key: string)
    requires PlainName(key) && AllIn(part, JUNK)
    ensures DropRight(DropLeft(part, KEY_LEFT), KEY_RIGHT) != key
  {
    hide DropLeft, DropRight;
    TrimIn(part, KEY_LEFT, JUNK);
    TrimIn(DropLeft(part, KEY_LEFT), KEY_RIGHT, JUNK);
    assert key[0] !in JUNK;
  }

  lemma NamedShim(l: string, g: string, r: string, key: string)
    requires PlainName(key) && AllIn(l, JUNK) && AllIn(r, JUNK)
    requires g != "" && g[0] !in JUNK && g[|g| - 1] !in JUNK
    ensures DropRight(DropLeft(Around(l, g, r), KEY_LEFT), KEY_RIGHT) == key
            <==> g == key && AllIn(l, KEY_LEFT) && AllIn(r, KEY_RIGHT)
  {
    hide DropLeft, DropRight, Around;
    LeftOn(l, g, r, KEY_LEFT);
    RightOn(DropLeft(l, KEY_LEFT), g, r, KEY_RIGHT);
    TrimIn(l, KEY_LEFT, JUNK);
    TrimIn(r, KEY_RIGHT, JUNK);
    JunkAround(DropLeft(l, KEY_LEFT), g, DropRight(r, KEY_RIGHT), key);
    DropsAll(l, KEY_LEFT);
    DropsAll(r, KEY_RIGHT);
  }

  // ---- the value -----------------------------------------------------------

  const NEAR: set<char> := SPACES + QUOTES

  /** What the trims of a value leave before and after it. */
  function ValueLeft(gap: string): string {
    DropLeft(DropLeft(DropLeft(gap, SPACES), SPACES), QUOTES)
  }

  function ValueRight(r: string): string {
    DropRight(DropRight(TrimComma(DropRight(r, SPACES)), SPACES), QUOTES)
  }

  /** Marks before a value that the host passes over. */
  predicate HostGap(gap: string) {
    DropLeft(ValueLeft(gap), SPACES) == ""
  }

  /** Marks before a value that the shim passes over. */
  predicate ShimGap(gap: string) {
    DropLeft(DropLeft(gap, VALUE_LEFT), SPACES) == ""
  }

  /** Marks that are no part of a number are not taken for one. */
  lemma JunkConverts(s: string)
    requires AllIn(s, JUNK)
    ensures Convert(s) == None
  {
    hide Convert, DropLeft, Join;
    var x := DropLeft(s, SPACES);
    FrontDrops(s, SPACES);
    TrimIn(s, SPACES, JUNK);
    ConvertSkips(Front(s, SPACES), x);
    NoNumber(x);
  }

  /** Blanks and quotes, then something else: a number is found there exactly when the gap is only blanks. */
  lemma GapConverts(gap: string, y: string)
    requires AllIn(gap, NEAR) && y != "" && y[0] !in NEAR
    ensures Convert(Join(gap, y)) == if DropLeft(gap, SPACES) == "" then Convert(y) else None
  {
    hide Convert, DropLeft, Join;
    var f, d := Front(gap, SPACES), DropLeft(gap, SPACES);
    FrontDrops(gap, SPACES);
    TrimIn(gap, SPACES, NEAR);
    JoinFacts(f, d, y);
    JoinFacts(d, y, y);
    ConvertSkips(f, Join(d, y));
    if d != "" {
      NoNumber(Join(d, y));
    }
  }

  /** Marks after a core do not change its number. */
  lemma CoreConverts(gap: string, m: string, w: string)
    requires AllIn(gap, NEAR) && AllIn(w, JUNK) && m != "" && m[0] !in NEAR
    ensures Convert(Around(gap, m, w)) == if DropLeft(gap, SPACES) == "" then Convert(m) else None
  {
    hide Convert, DropLeft;
    assert Join(m, w)[0] == m[0];
    hide Join;
    JoinedAt(m, w, 0);
    GapConverts(gap, Join(m, w));
    assert AllNeutral(w);
    ConvertTail(m, w);
  }

  lemma LineRightOn(l: string, m: string, r: string)
    requires m != "" && m[|m| - 1] !in SPACES + BRACES
    ensures LineRight(Around(l, m, r)) == Around(l, m, LineRight(r))
  {
    hide DropRight, Around;
    RightOn(l, m, r, SPACES);
    RightOn(l, m, DropRight(r, SPACES), BRACES);
    RightOn(l, m, DropRight(DropRight(r, SPACES), BRACES), SPACES);
  }

  lemma HostValueOn(l: string, m: string, r: string)
    requires m != "" && m[0] !in NEAR && m[|m| - 1] !in JUNK
    ensures HostValue(Around(l, m, r)) == Around(ValueLeft(l), m, ValueRight(r))
  {
    hide DropLeft, DropRight, Around, Trim, TrimComma;
    TrimOn(l, m, r, SPACES);
    var a, b := DropLeft(l, SPACES), DropRight(r, SPACES);
    CommaOn(a, m, b);
    TrimOn(a, m, TrimComma(b), SPACES);
    TrimOn(DropLeft(a, SPACES), m, DropRight(TrimComma(b), SPACES), QUOTES);
  }

  lemma RightsIn(r: string)
    requires AllIn(r, JUNK)
    ensures AllIn(LineRight(r), JUNK) && AllIn(ValueRight(r), JUNK)
  {
    hide DropRight;
    TrimIn(r, SPACES, JUNK);
    TrimIn(DropRight(r, SPACES), BRACES, JUNK);
    TrimIn(DropRight(DropRight(r, SPACES), BRACES), SPACES, JUNK);
    var c := TrimComma(DropRight(r, SPACES));
    TrimIn(c, SPACES, JUNK);
    TrimIn(DropRight(c, SPACES), QUOTES, JUNK);
  }

  lemma ValueLeftIn(l: string, all: set<char>)
    requires AllIn(l, all)
    ensures AllIn(ValueLeft(l), all)
  {
    hide DropLeft;
    TrimIn(l, SPACES, all);
    TrimIn(DropLeft(l, SPACES), SPACES, all);
    TrimIn(DropLeft(DropLeft(l, SPACES), SPACES), QUOTES, all);
  }

  lemma HostValueIn(s: string)
    requires AllIn(s, JUNK)
    ensures AllIn(HostValue(s), JUNK)
  {
    hide Trim;
    TrimIn(s, SPACES, JUNK);
    var c := TrimComma(Trim(s, SPACES));
    TrimIn(c, SPACES, JUNK);
    TrimIn(Trim(c, SPACES), QUOTES, JUNK);
  }

  /** The number after the separator, where both readers get to it. */
  function Bare(v: string): string {
    DropLeft(v, NEAR)
  }

  lemma ValueSplit(v: string)
    ensures var x := Bare(v);
            var m := DropRight(x, JUNK);
            && v == Around(Front(v, NEAR), m, x[|m|..]) && x == Join(m, x[|m|..])
            && AllIn(x[|m|..], JUNK)
            && (m == "" ==> AllIn(v, JUNK))
            && (m != "" ==> m[0] !in NEAR && m[|m| - 1] !in JUNK)
  {
    hide DropLeft, DropRight;
    FrontDrops(v, NEAR);
    var x := Bare(v);
    var m := DropRight(x, JUNK);
    assert x == m + x[|m|..];
  }

  /** What the host makes of the text after the separator. */
  lemma HostReads(v: string)
    ensures Convert(HostValue(LineRight(v))) == if HostGap(Front(v, NEAR)) then Convert(Bare(v)) else None
  {
    hide Convert, HostValue, LineRight, Bare, DropRight, Around, ValueLeft, ValueRight, Front, Join, DropLeft;
    var gap, x := Front(v, NEAR), Bare(v);
    var m := DropRight(x, JUNK);
    var w := x[|m|..];
    ValueSplit(v);
    if m == "" {
      RightsIn(v);
      HostValueIn(LineRight(v));
      JunkConverts(HostValue(LineRight(v)));
      JoinFacts("", w, w);
      JunkConverts(x);
    } else {
      LineRightOn(gap, m, w);
      HostValueOn(gap, m, LineRight(w));
      RightsIn(w);
      RightsIn(LineRight(w));
      ValueLeftIn(gap, NEAR);
      CoreConverts(ValueLeft(gap), m, ValueRight(LineRight(w)));
      CoreAlone(m, w);
    }
  }

  lemma CoreAlone(m: string, w: string)
    requires m != "" && m[0] !in NEAR && AllIn(w, JUNK)
    ensures Convert(Join(m, w)) == Convert(m)
  {
    hide Convert, Join;
    assert AllNeutral(w);
    ConvertTail(m, w);
  }

  /** What the shim makes of it. */
  lemma ShimReads(v: string)
    ensures Convert(DropLeft(v, VALUE_LEFT)) == if ShimGap(Front(v, NEAR)) then Convert(Bare(v)) else None
  {
    hide Convert, Bare, DropRight, Around, Front, Join, DropLeft;
    var gap, x := Front(v, NEAR), Bare(v);
    var m := DropRight(x, JUNK);
    var w := x[|m|..];
    ValueSplit(v);
    if m == "" {
      TrimIn(v, VALUE_LEFT, JUNK);
      JunkConverts(DropLeft(v, VALUE_LEFT));
      JoinFacts("", w, w);
      JunkConverts(x);
    } else {
      LeftOn(gap, m, w, VALUE_LEFT);
      TrimIn(gap, VALUE_LEFT, NEAR);
      CoreConverts(DropLeft(gap, VALUE_LEFT), m, w);
      CoreAlone(m, w);
    }
  }

  // ---- a line, and a file --------------------------------------------------

  const SEPARATORS: set<char> := {'=', ':'}

  function SepAt(line: string): (n: nat)
    ensures n <= |line|
  {
    Span(line, SEPARATORS, false)
  }

  /** The number a line would give, where a reader gets to it. */
  function Denoted(line: string): Option<real> {
    if SepAt(line) == |line| then None else Convert(Bare(line[SepAt(line) + 1..]))
  }

  /** Whether the shim takes a line for one about `key`: on the name and the marks alone. */
  predicate ShimTakes(line: string, key: string) {
    var n := SepAt(line);
    n < |line| && ShimNames(line[..n], key) && ShimGap(Front(line[n + 1..], NEAR))
  }

  /** Whether the host does. */
  predicate HostTakes(line: string, key: string) {
    var n := SepAt(line);
    n < |line| && HostNames(line[..n], key) && HostGap(Front(line[n + 1..], NEAR))
  }

  lemma ShimLine(line: string, key: string)
    requires PlainName(key)
    ensures Match(line, key, Convert) == if ShimTakes(line, key) then Denoted(line) else None
  {
    hide Convert, Bare, DropLeft, DropRight, ShimNames, ShimGap, Front, SpanFrom;
    var n := SepAt(line);
    if n < |line| {
      ShimNameIs(line[..n], key);
      ShimReads(line[n + 1..]);
      assert key[0] != '#';
      MatchParts(line, n, DropRight(DropLeft(line[..n], KEY_LEFT), KEY_RIGHT), DropLeft(line[n + 1..], VALUE_LEFT),
                 key, Convert);
    }
  }

  predicate Clear(s: string) {
    forall k :: 0 <= k < |s| ==> s[k] !in SEPARATORS
  }

  lemma TrimClear(s: string, cs: set<char>)
    requires Clear(s)
    ensures Clear(DropLeft(s, cs)) && Clear(Trim(s, cs))
  {
  }

  lemma LineLeftClear(s: string)
    requires Clear(s)
    ensures Clear(LineLeft(s))
  {
    hide DropLeft, Clear;
    TrimClear(s, SPACES);
    TrimClear(DropLeft(s, SPACES), BRACES);
    TrimClear(DropLeft(DropLeft(s, SPACES), BRACES), SPACES);
  }

  lemma CleanedClear(s: string)
    requires Clear(s)
    ensures SepAt(Cleaned(s)) == |Cleaned(s)|
  {
    hide Trim, SpanFrom;
    TrimClear(s, SPACES);
    TrimClear(Trim(s, SPACES), BRACES);
    TrimClear(Trim(Trim(s, SPACES), BRACES), SPACES);
  }

  lemma SepAround(p: string, c: char, u: string)
    requires Clear(p) && c in SEPARATORS
    ensures var s := Around(p, [c], u);
            s != "" && SepAt(s) == |p| < |s| && s[..|p|] == p && s[|p| + 1..] == u && (p != "" ==> s[0] == p[0])
  {
    var s := Around(p, [c], u);
    assert s[|p|] == c;
    SpanUnique(s, SEPARATORS, false, |p|);
  }

  /** The line cut at its separator. */
  lemma CutAt(line: string)
    requires SepAt(line) < |line|
    ensures var n := SepAt(line);
            line == Around(line[..n], [line[n]], line[n + 1..]) && Clear(line[..n]) && line[n] in SEPARATORS
  {
    hide SpanFrom;
    var n := SepAt(line);
    assert line == line[..n] + ([line[n]] + line[n + 1..]);
  }

  lemma HostLine(line: string, key: string)
    requires PlainName(key)
    ensures HostMatch(line, key, Convert) == if HostTakes(line, key) then Denoted(line) else None
  {
    hide Convert, Bare, Cleaned, LineLeft, LineRight, HostName, HostValue, HostNames, HostGap, Front, Around, SepAt;
    var n := SepAt(line);
    if n < |line| {
      var part, c, v := line[..n], line[n], line[n + 1..];
      CutAt(line);
      CleanedOn(part, [c], v);
      LineLeftClear(part);
      SepAround(LineLeft(part), c, LineRight(v));
      HostNameIs(part, key);
      HostReads(v);
      HostMatchAt(line, key, Convert);
    } else {
      NoSeparator(line);
      CleanedClear(line);
      HostMatchAt(line, key, Convert);
    }
  }

  lemma NoSeparator(line: string)
    requires SepAt(line) == |line|
    ensures Clear(line)
  {
  }

  lemma HostMatchAt(line: string, key: string, scan: Conv)
    ensures var l := Cleaned(line);
            var n := SepAt(l);
            HostMatch(line, key, scan) ==
              if l == "" || n == |l| || n == 0 || l[0] == '#' || HostName(l[..n]) != key then None
              else scan(HostValue(l[n + 1..]))
  {
    hide Cleaned, HostName, HostValue, SpanFrom;
  }

  /**
   * The two readers say the same of a line exactly when it gives no number at all or both, or neither, take its name
   * and its marks for the key's.
   */
  lemma ReadersAgreeIff(line: string, key: string)
    requires PlainName(key)
    ensures Match(line, key, Convert) == HostMatch(line, key, Convert)
            <==> Denoted(line).None? || (ShimTakes(line, key) <==> HostTakes(line, key))
  {
    ShimLine(line, key);
    HostLine(line, key);
  }

  lemma {:induction false} HostLastFront(lines: seq<string>, key: string, scan: Conv)
    requires lines != []
    ensures HostLast(lines, key, scan)
            == var rest := HostLast(lines[1..], key, scan);
               if rest.Some? then rest else HostMatch(lines[0], key, scan)
    decreases |lines|
  {
    hide HostMatch;
    var n := |lines| - 1;
    if n > 0 {
      assert lines[1..][|lines[1..]| - 1] == lines[n];
      assert lines[1..][..n - 1] == lines[..n][1..];
      HostLastFront(lines[..n], key, scan);
    } else {
      assert lines[1..] == [] && lines[..0] == [];
    }
  }

  lemma {:induction false} SplitAgrees(t: string, key: string)
    requires forall line :: line in Lines(t) ==> Match(line, key, Convert) == HostMatch(line, key, Convert)
    ensures LastMatch(Lines(t), key, Convert) == HostLast(Split(t), key, Convert)
    decreases |t|
  {
    hide Match, HostMatch, Convert, SpanFrom;
    HostLastFront(Split(t), key, Convert);
    if t == "" {
      EmptyLine(key);
    } else {
      var e := Span(t, {'\n'}, false);
      var rest := Lines(t)[1..];
      assert Lines(t)[0] in Lines(t);
      if e < |t| {
        assert forall line :: line in rest ==> line in Lines(t);
        SplitAgrees(t[e + 1..], key);
      }
    }
  }

  lemma EmptyLine(key: string)
    ensures HostMatch("", key, Convert) == None
  {
  }

  /** A file of lines the two read alike gives both the same value of the key. */
  lemma FilesAgree(file: string, key: string)
    requires |file| < BUFFER_SIZE && NUL !in file
    requires forall line :: line in Lines(file) ==> Match(line, key, Convert) == HostMatch(line, key, Convert)
    ensures Lookup(file, key) == HostParse(file, key, Convert)
  {
    hide Match, HostMatch, Convert, Lines, LastMatch, Split, HostLast, SpanFrom;
    SpanUnique(file, {NUL}, false, |file|);
    assert CString(file) == file;
    SplitAgrees(file, key);
  }

  // ---- what the host writes, and two lines that part the readers ------------

  lemma NoJunk(name: string)
    requires name != "" && name[0] !in JUNK && name[|name| - 1] !in JUNK
    ensures Trim(name, JUNK) == name && Front(name, JUNK) == "" && Back(name, JUNK) == ""
  {
    SpanUnique(name, JUNK, true, 0);
    assert name[0..] == name;
    DropRightUnique(name, JUNK, |name|);
  }

  lemma NoMarks()
    ensures HostLeft("") && HostRight("") && HostGap("") && ShimGap("")
  {
    hide SpanFrom, DropRight;
    DropsAll("", SPACES);
    DropsAll("", BRACES);
    DropsAll("", QUOTES);
    DropsAll("", VALUE_LEFT);
  }

  /** A bare name, a separator and a value that starts at once: both take it for the name's, the host in any case. */
  lemma BareLineTaken(name: string, c: char, v: string, key: string)
    requires c in SEPARATORS && Clear(name)
    requires name != "" && name[0] !in JUNK && name[|name| - 1] !in JUNK && (v == "" || v[0] !in NEAR)
    ensures var line := Around(name, [c], v);
            && (ShimTakes(line, key) <==> name == key) && (HostTakes(line, key) <==> LowerAll(name) == key)
            && Denoted(line) == Convert(v)
  {
    hide Convert, Trim, HostLeft, HostRight, HostGap, ShimGap, SepAt, Around, Back;
    SepAround(name, c, v);
    NoJunk(name);
    NoMarks();
    SpanUnique(v, NEAR, true, 0);
    assert v[0..] == v;
    hide Span;
  }

  lemma RenderedLineAgrees(f: Field, key: string)
    requires PlainName(f.name) && PlainName(key)
    ensures Match(Line(f), key, Convert) == HostMatch(Line(f), key, Convert)
  {
    var v := Fixed4(f.value);
    ConvertFixed(f.value);
    hide Convert, Fixed4, Match, HostMatch, ShimTakes, HostTakes, Denoted;
    FixedStarts(f.value);
    assert Around(f.name, ['='], v) == Line(f);
    BareLineTaken(f.name, '=', v, key);
    assert LowerAll(f.name) == f.name;
    ReadersAgreeIff(Line(f), key);
  }

  lemma FixedStarts(v: real)
    ensures Fixed4(v) != "" && Fixed4(v)[0] !in NEAR
  {
    hide Decimal, FourDigits, Digits, TenThousandths;
    DecimalDigits(TenThousandths(v) / 10000);
  }

  lemma {:induction false} RenderedLines(fields: seq<Field>)
    requires forall i :: 0 <= i < |fields| ==> PlainName(fields[i].name)
    ensures |Lines(Render(fields))| == |fields|
    ensures forall i :: 0 <= i < |fields| ==> Lines(Render(fields))[i] == Line(fields[i])
    ensures NUL !in Render(fields)
  {
    hide Line, SpanFrom;
    if fields != [] {
      var t, l := Render(fields), Line(fields[0]);
      LineIsClean(fields[0]);
      assert t[|l|] == '\n';
      SpanUnique(t, {'\n'}, false, |l|);
      assert t[..|l|] == l && t[|l| + 1..] == Render(fields[1..]);
      RenderedLines(fields[1..]);
    }
  }

  /** The host reads back what it rendered, as the shim does: each field as printed, and no other. */
  lemma HostReadsBack(fields: seq<Field>, key: string)
    requires forall i :: 0 <= i < |fields| ==> PlainName(fields[i].name)
    requires forall i, j :: 0 <= i < j < |fields| ==> fields[i].name != fields[j].name
    requires PlainName(key)
    ensures HostParse(Render(fields), key, Convert) == Parse(Render(fields), key, Convert)
    ensures forall i :: 0 <= i < |fields| && fields[i].name == key ==>
              HostParse(Render(fields), key, Convert) == Finite(Printed(fields[i].value))
    ensures (forall i :: 0 <= i < |fields| ==> fields[i].name != key) ==>
              HostParse(Render(fields), key, Convert) == None
  {
    hide Match, HostMatch, Convert, Lines, LastMatch, Split, HostLast, SpanFrom, Line, Finite, Printed, Render, PlainName;
    RenderedReadsBack(fields, key);
    RenderedLines(fields);
    var t := Render(fields);
    forall line | line in Lines(t)
      ensures Match(line, key, Convert) == HostMatch(line, key, Convert)
    {
      var i :| 0 <= i < |Lines(t)| && Lines(t)[i] == line;
      RenderedLineAgrees(fields[i], key);
    }
    SpanUnique(t, {NUL}, false, |t|);
    assert CString(t) == t;
    SplitAgrees(t, key);
  }

  lemma FiveConverts()
    ensures Convert("5") == Some(5.0)
  {
    var n := Numeral("", "", "5", false, "", None);
    Spelling(n, "", "5");
    Unit("5", 10);
    hide Whole, Convert, Text;
    assert "5" + "" == "5";
    Sample(n, "", "5", 5.0);
  }

  /** The host reads a name in capitals, and the shim does not. */
  lemma CapitalsPartThem()
    ensures HostMatch("Temperature=5", "temperature", Convert) == Some(5.0)
    ensures Match("Temperature=5", "temperature", Convert) == None
  {
    hide Convert, Match, HostMatch, ShimTakes, HostTakes, Denoted;
    FiveConverts();
    BareLineTaken("Temperature", '=', "5", "temperature");
    assert Around("Temperature", ['='], "5") == "Temperature=5";
    assert LowerAll("Temperature") == "temperature";
    HostLine("Temperature=5", "temperature");
    ShimLine("Temperature=5", "temperature");
  }

  /** The shim takes a quote and then a brace off a name, and the host does not. */
  lemma QuotedBracePartsThem()
    ensures HostMatch("\"{temperature=5", "temperature", Convert) == None
    ensures Match("\"{temperature=5", "temperature", Convert) == Some(5.0)
  {
    FiveConverts();
    hide Convert, HostMatch, Match, Span, SepAt, Front, Back, Trim, HostLeft, HostGap, Denoted;
    MarkedLine("\"{", "temperature", "", '=', "", "5", "temperature", Convert);
    var part, line := "\"{temperature", "\"{temperature=5";
    assert "\"{" + ("temperature" + "") + (['='] + ("" + "5")) == line;
    assert Around(part, ['='], "5") == line;
    SepAround(part, '=', "5");
    HostLine(line, "temperature");
    BraceStays(part);
  }

  lemma BraceStays(part: string)
    requires |part| > 2 && part[0] == '"' && part[1] == '{' && part[2] !in JUNK
    ensures !HostLeft(Front(part, JUNK))
  {
    SpanUnique(part, JUNK, true, 2);
    var l := Front(part, JUNK);
    assert l == "\"{";
    SpanUnique(l, SPACES, true, 0);
    assert l[0..] == l;
    SpanUnique(l, BRACES, true, 0);
    SpanUnique(l, QUOTES, true, 1);
    hide SpanFrom;
  }
}
