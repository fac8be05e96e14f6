/** The readings file: what one lookup of a key in it returns, and the in-place parser that finds it. */
module ValuesFile {
  import opened Bits
  import Number

  /** How a value is turned into a number; the laws below hold for any such function. */
  type Conv = string -> Option<real>

  const NUL: char := '\0'
  const KEY_LEFT: set<char> := {' ', '\t', '{', '"', '\''}
  const KEY_RIGHT: set<char> := {' ', '\t', '"', '\''}
  const VALUE_LEFT: set<char> := {' ', '\t', '"', '\''}
  const BUFFER_SIZE: nat := 8192

  function SpanFrom(s: string, i: nat, cs: set<char>, inside: bool): (n: nat)
    requires i <= |s|
    ensures i <= n <= |s|
    ensures forall k :: i <= k < n ==> (s[k] in cs) == inside
    ensures n < |s| ==> (s[n] in cs) != inside
    decreases |s| - i
  {
    if i == |s| || (s[i] in cs) != inside then i else SpanFrom(s, i + 1, cs, inside)
  }

  /** How many leading characters of `s` are in `cs` (or, with `inside` false, are not in `cs`). */
  function Span(s: string, cs: set<char>, inside: bool): (n: nat)
    ensures n <= |s|
    ensures forall k :: 0 <= k < n ==> (s[k] in cs) == inside
    ensures n < |s| ==> (s[n] in cs) != inside
  {
    SpanFrom(s, 0, cs, inside)
  }

  /** The contract of `Span` has only one solution. */
  lemma SpanUnique(s: string, cs: set<char>, inside: bool, n: nat)
    requires n <= |s|
    requires forall k :: 0 <= k < n ==> (s[k] in cs) == inside
    requires n < |s| ==> (s[n] in cs) != inside
    ensures Span(s, cs, inside) == n
  {
    var m := Span(s, cs, inside);
    assert n < |s| ==> m <= n;
  }

  function DropLeft(s: string, cs: set<char>): string {
    s[Span(s, cs, true)..]
  }

  function DropRight(s: string, cs: set<char>): (r: string)
    ensures r <= s
    ensures r != "" ==> r[|r| - 1] !in cs
    ensures forall k :: |r| <= k < |s| ==> s[k] in cs
  {
    if s == "" || s[|s| - 1] !in cs then s else DropRight(s[..|s| - 1], cs)
  }

  lemma DropRightUnique(s: string, cs: set<char>, n: nat)
    requires n <= |s|
    requires n > 0 ==> s[n - 1] !in cs
    requires forall k :: n <= k < |s| ==> s[k] in cs
    ensures DropRight(s, cs) == s[..n]
  {
    var r := DropRight(s, cs);
    assert |r| == 0 || s[|r| - 1] !in cs;
  }

  /** The C string that starts `s`: everything before the first NUL. */
  function CString(s: string): string {
    s[..Span(s, {NUL}, false)]
  }

  // ---- one line, and a whole text -----------------------------------------

  /** What one line says about `key`: a finite value, or nothing. */
  function Match(line: string, key: string, conv: Conv): Option<real> {
    var sep := Span(line, {'=', ':'}, false);
    if sep == |line| then None
    else
      var k := DropRight(DropLeft(line[..sep], KEY_LEFT), KEY_RIGHT);
      if k != key || (k != "" && k[0] == '#') then None else conv(DropLeft(line[sep + 1..], VALUE_LEFT))
  }

  /** The lines of a text; a final newline does not start another line. */
  function Lines(t: string): seq<string> {
    if t == "" then []
    else
      var e := Span(t, {'\n'}, false);
      if e == |t| then [t] else [t[..e]] + Lines(t[e + 1..])
  }

  function LastMatch(lines: seq<string>, key: string, conv: Conv): Option<real> {
    if lines == [] then None
    else
      var rest := LastMatch(lines[1..], key, conv);
      if rest.Some? then rest else Match(lines[0], key, conv)
  }

  /** The value a text gives `key`. */
  function Parse(text: string, key: string, conv: Conv): Option<real> {
    LastMatch(Lines(CString(text)), key, conv)
  }

  /** The part of a file that one buffer takes in. */
  function Visible(file: string): string {
    if |file| < BUFFER_SIZE then file else file[..BUFFER_SIZE - 1]
  }

  /** The value a file gives `key`. */
  function Lookup(file: string, key: string): Option<real> {
    Parse(Visible(file), key, Number.Convert)
  }

  /** `rest` if it says something, else what was found before it. */
  function Later(rest: Option<real>, before: Option<real>): Option<real> {
    if rest.Some? then rest else before
  }

  /** `Match` from its parts, for a caller that has found them. */
  lemma MatchParts(line: string, sep: nat, k: string, v: string, key: string, conv: Conv)
    requires sep == Span(line, {'=', ':'}, false) < |line|
    requires k == DropRight(DropLeft(line[..sep], KEY_LEFT), KEY_RIGHT)
    requires v == DropLeft(line[sep + 1..], VALUE_LEFT)
    ensures Match(line, key, conv) == if k != key || (k != "" && k[0] == '#') then None else conv(v)
  {
  }

  // ---- what the parser promises -------------------------------------------

  /** The last line that says something about the key decides, whatever lines that say nothing follow it. */
  lemma {:induction false} LastLineWins(lines: seq<string>, key: string, conv: Conv)
    ensures LastMatch(lines, key, conv).None? <==> forall i :: 0 <= i < |lines| ==> Match(lines[i], key, conv).None?
    ensures LastMatch(lines, key, conv).Some? ==>
              exists i :: 0 <= i < |lines| && LastMatch(lines, key, conv) == Match(lines[i], key, conv)
                          && forall j :: i < j < |lines| ==> Match(lines[j], key, conv).None?
  {
    if lines != [] {
      var rest := lines[1..];
      LastLineWins(rest, key, conv);
      assert forall i :: 0 < i < |lines| ==> lines[i] == rest[i - 1];
      if LastMatch(rest, key, conv).Some? {
        var i :| 0 <= i < |rest| && LastMatch(rest, key, conv) == Match(rest[i], key, conv)
                 && forall j :: i < j < |rest| ==> Match(rest[j], key, conv).None?;
        assert rest[i] == lines[i + 1];
        forall j | i + 1 < j < |lines| ensures Match(lines[j], key, conv).None? {
          assert lines[j] == rest[j - 1];
        }
      }
    }
  }

  predicate WholeLines(t: string) {
    t == "" || t[|t| - 1] == '\n'
  }

  /** What the lines of a text say, with the first line taken off. */
  lemma FirstLine(t: string, e: nat, key: string, conv: Conv)
    requires e < |t| && t[e] == '\n'
    requires forall k :: 0 <= k < e ==> t[k] != '\n'
    ensures LastMatch(Lines(t), key, conv)
         == Later(LastMatch(Lines(t[e + 1..]), key, conv), Match(t[..e], key, conv))
  {
    SpanUnique(t, {'\n'}, false, e);
    assert Lines(t)[1..] == Lines(t[e + 1..]);
  }

  lemma FirstLineConcat(a: string, b: string, e: nat, key: string, conv: Conv)
    requires e < |a| && a[e] == '\n'
    requires forall k :: 0 <= k < e ==> a[k] != '\n'
    ensures LastMatch(Lines(a + b), key, conv)
         == Later(LastMatch(Lines(a[e + 1..] + b), key, conv), Match(a[..e], key, conv))
  {
    FirstLine(a + b, e, key, conv);
    assert (a + b)[..e] == a[..e];
    assert (a + b)[e + 1..] == a[e + 1..] + b;
  }

  /** Whole lines followed by more text: what the later text says comes first. */
  lemma {:induction false} LinesConcat(a: string, b: string, key: string, conv: Conv)
    requires WholeLines(a)
    ensures LastMatch(Lines(a + b), key, conv)
         == Later(LastMatch(Lines(b), key, conv), LastMatch(Lines(a), key, conv))
    decreases |a|
  {
    if a == "" {
      assert a + b == b;
    } else {
      hide Lines, LastMatch, Match;
      var e := Span(a, {'\n'}, false);
      assert a[|a| - 1] in {'\n'};
      FirstLineConcat(a, b, e, key, conv);
      FirstLine(a, e, key, conv);
      LinesConcat(a[e + 1..], b, key, conv);
    }
  }

  lemma CStringConcat(a: string, b: string)
    ensures NUL in a ==> CString(a + b) == CString(a)
    ensures NUL !in a ==> CString(a + b) == a + CString(b)
  {
    var n := Span(a, {NUL}, false);
    if NUL in a {
      var k :| 0 <= k < |a| && a[k] == NUL;
      assert n <= k;
      SpanUnique(a + b, {NUL}, false, n);
      assert (a + b)[..n] == a[..n];
    } else {
      var m := Span(b, {NUL}, false);
      assert forall k :: 0 <= k < |a| + m ==> (a + b)[k] == if k < |a| then a[k] else b[k - |a|];
      assert |a| + m < |a + b| ==> (a + b)[|a| + m] == b[m];
      SpanUnique(a + b, {NUL}, false, |a| + m);
      assert (a + b)[..|a| + m] == a + b[..m];
    }
  }

  /** The same for texts that may hold a NUL. */
  lemma ParseConcat(a: string, b: string, key: string, conv: Conv)
    requires WholeLines(a) && NUL !in a
    ensures Parse(a + b, key, conv) == Later(Parse(b, key, conv), Parse(a, key, conv))
  {
    CStringConcat(a, b);
    CStringConcat(a, "");
    assert a + "" == a && CString("") == "";
    LinesConcat(a, CString(b), key, conv);
  }

  lemma ParseLine(line: string, key: string, conv: Conv)
    requires NUL !in line && '\n' !in line
    ensures Parse(line + "\n", key, conv) == Match(line, key, conv)
  {
    var l := line + "\n";
    SpanUnique(l, {NUL}, false, |l|);
    assert CString(l) == l;
    SpanUnique(l, {'\n'}, false, |line|);
    assert l[..|line|] == line;
    assert l[|line| + 1..] == "";
    assert Lines(l) == [line] + Lines("") == [line];
    assert LastMatch([line][1..], key, conv).None?;
  }

  /** Junk, comments, unknown keys and malformed values may be inserted or removed anywhere as whole lines. */
  lemma JunkLineIgnored(before: string, line: string, after: string, key: string, conv: Conv)
    requires WholeLines(before)
    requires NUL !in line && '\n' !in line
    requires Match(line, key, conv).None?
    ensures Parse(before + (line + "\n") + after, key, conv) == Parse(before + after, key, conv)
    ensures |before + (line + "\n") + after| < BUFFER_SIZE ==>
              Parse(Visible(before + (line + "\n") + after), key, conv) == Parse(Visible(before + after), key, conv)
  {
    var l := line + "\n";
    assert before + l + after == before + (l + after);
    if NUL in before {
      CStringConcat(before, l + after);
      CStringConcat(before, after);
    } else {
      ParseConcat(before, l + after, key, conv);
      ParseConcat(before, after, key, conv);
      ParseConcat(l, after, key, conv);
      ParseLine(line, key, conv);
    }
  }

  /** A line whose first character past blanks, braces and quotes is the comment mark says nothing about any key. */
  lemma CommentsSayNothing(line: string, skip: nat, key: string, conv: Conv)
    requires skip < |line| && line[skip] == '#'
    requires forall k :: 0 <= k < skip ==> line[k] in {' ', '\t', '{', '"', '\''}
    ensures Match(line, key, conv).None?
  {
    hide DropRight;
    var sep := Span(line, {'=', ':'}, false);
    if sep < |line| {
      var part := line[..sep];
      assert skip < sep;
      SpanUnique(part, KEY_LEFT, true, skip);
      var k := DropRight(part[skip..], KEY_RIGHT);
      assert part[skip] !in KEY_RIGHT;
      MatchParts(line, sep, k, DropLeft(line[sep + 1..], VALUE_LEFT), key, conv);
    }
  }

  /** A well-formed last line decides, whatever the text before it says. */
  lemma AppendedLineWins(before: string, line: string, key: string, conv: Conv)
    requires WholeLines(before) && NUL !in before
    requires NUL !in line && '\n' !in line
    requires Match(line, key, conv).Some?
    ensures Parse(before + (line + "\n"), key, conv) == Match(line, key, conv)
  {
    ParseConcat(before, line + "\n", key, conv);
    ParseLine(line, key, conv);
  }

  /** Only the first 8191 characters of a file count, and all of those: text after them changes no lookup. */
  lemma LongFileTruncated(file: string, more: string, key: string, conv: Conv)
    ensures |file| >= 8191 ==> Parse(Visible(file + more), key, conv) == Parse(Visible(file), key, conv)
    ensures |file| <= 8191 ==> Parse(Visible(file), key, conv) == Parse(file, key, conv)
  {
    assert file[..|file|] == file;
    if |file| >= 8191 {
      assert (file + more)[..8191] == file[..8191];
      if more == "" {
        assert file + more == file;
      }
    }
  }

  /** A NUL ends the text. */
  lemma NulEnds(a: string, b: string, key: string, conv: Conv)
    ensures Parse(a + ("\0" + b), key, conv) == Parse(a, key, conv)
  {
    var n := "\0" + b;
    CStringConcat(a, n);
    SpanUnique(n, {NUL}, false, 0);
    assert n[..0] == "" && a + "" == a;
    CStringConcat(a, "");
    assert CString("") == "";
  }

  /** The last line need not end in a newline. */
  lemma UnendedLine(line: string, key: string, conv: Conv)
    requires '\0' !in line && '\n' !in line
    ensures Parse(line, key, conv) == Match(line, key, conv)
  {
    SpanUnique(line, {NUL}, false, |line|);
    assert CString(line) == line;
    if line != "" {
      SpanUnique(line, {'\n'}, false, |line|);
      assert LastMatch([line][1..], key, conv).None?;
    } else {
      assert Lines("") == [];
    }
  }

  // ---- the marks around a name --------------------------------------------

  /** What field names are made of. */
  predicate Word(s: string) {
    s != "" && forall k :: 0 <= k < |s| ==> Letter(s[k])
  }

  predicate Letter(c: char) {
    'a' <= c <= 'z' || 'A' <= c <= 'Z' || '0' <= c <= '9' || c == '_'
  }

  /** Neither part of a name nor the end of it. */
  predicate Marks(s: string) {
    forall k :: 0 <= k < |s| ==> !Letter(s[k]) && s[k] != '=' && s[k] != ':'
  }

  /** Trimming a name with marks around it gives a word exactly when every mark is one that is trimmed. */
  lemma TrimmedName(l: string, name: string, r: string, key: string)
    requires Word(name) && Word(key) && Marks(l) && Marks(r)
    ensures DropRight(DropLeft(l + (name + r), KEY_LEFT), KEY_RIGHT) == key
            <==> name == key && (forall k :: 0 <= k < |l| ==> l[k] in KEY_LEFT)
                 && forall k :: 0 <= k < |r| ==> r[k] in KEY_RIGHT
  {
    hide DropRight, SpanFrom;
    var part, n := l + (name + r), Span(l, KEY_LEFT, true);
    assert part[|l|] == name[0];
    SpanUnique(part, KEY_LEFT, true, n);
    var d := DropLeft(part, KEY_LEFT);
    assert d == l[n..] + (name + r);
    if n < |l| {
      HeadStays(l[n..], name, r, key);
    } else {
      assert d == name + r;
      TrimmedRight(name, r, key);
    }
  }

  lemma HeadStays(l: string, name: string, r: string, key: string)
    requires Word(name) && Word(key) && Marks(l) && l != ""
    ensures DropRight(l + (name + r), KEY_RIGHT) != key
  {
    var d, at := l + (name + r), |l| + |name|;
    var k := DropRight(d, KEY_RIGHT);
    hide DropRight;
    assert d[at - 1] == name[|name| - 1];
    assert |k| >= at && k[0] == d[0] == l[0];
  }

  lemma TrimmedRight(name: string, r: string, key: string)
    requires Word(name) && Word(key) && Marks(r)
    ensures DropRight(name + r, KEY_RIGHT) == key
            <==> name == key && forall k :: 0 <= k < |r| ==> r[k] in KEY_RIGHT
  {
    var d, at := name + r, |name|;
    var k := DropRight(d, KEY_RIGHT);
    hide DropRight;
    assert d[at - 1] == name[at - 1];
    assert |k| >= at;
    if forall j :: 0 <= j < |r| ==> r[j] in KEY_RIGHT {
      DropRightUnique(d, KEY_RIGHT, at);
      assert d[..at] == name;
    } else {
      var j :| 0 <= j < |r| && r[j] !in KEY_RIGHT;
      assert d[at + j] == r[j];
      assert |k| > at && k[at] == d[at] == r[0];
      assert !Letter(r[0]);
    }
  }

  /**
   * A name with any marks around it, either separator, a gap and a value: the name gets the value exactly when the
   * marks before it are blanks, tabs, braces and quotes, and those after it blanks, tabs and quotes. No other name
   * gets anything.
   */
  lemma MarkedLine(l: string, name: string, r: string, sep: char, gap: string, v: string, key: string, conv: Conv)
    requires Word(name) && Word(key) && Marks(l) && Marks(r) && (sep == '=' || sep == ':')
    requires forall k :: 0 <= k < |gap| ==> gap[k] in {' ', '\t', '"', '\''}
    requires v == "" || v[0] !in {' ', '\t', '"', '\''}
    ensures Match(l + (name + r) + ([sep] + (gap + v)), key, conv)
            == if name == key && (forall k :: 0 <= k < |l| ==> l[k] in {' ', '\t', '{', '"', '\''})
                  && (forall k :: 0 <= k < |r| ==> r[k] in {' ', '\t', '"', '\''})
               then conv(v) else None
  {
    hide DropLeft, DropRight, Span, Match;
    var part := l + (name + r);
    SeparatorAt(part, sep, gap + v);
    TrimmedName(l, name, r, key);
    GapDrops(gap, v);
    MatchParts(part + ([sep] + (gap + v)), |part|, DropRight(DropLeft(part, KEY_LEFT), KEY_RIGHT), v, key, conv);
  }

  /** The quoted forms of the documentation: `"name": v` and `'name' = "v`. */
  lemma QuotedForms(name: string, v: string, conv: Conv)
    requires Word(name) && v != "" && v[0] !in {' ', '\t', '"', '\''}
    ensures Match("\"" + (name + "\"") + ([':'] + (" " + v)), name, conv) == conv(v)
    ensures Match("'" + (name + "' ") + (['='] + (" \"" + v)), name, conv) == conv(v)
  {
    hide Match, Word;
    MarkedLine("\"", name, "\"", ':', " ", v, name, conv);
    MarkedLine("'", name, "' ", '=', " \"", v, name, conv);
  }

  /** The bare name, for any key at all. */
  lemma BareLine(name: string, sep: char, v: string, key: string, conv: Conv)
    requires Word(name) && (sep == '=' || sep == ':') && (v == "" || v[0] !in {' ', '\t', '"', '\''})
    ensures Match(name + ([sep] + v), key, conv) == if name == key then conv(v) else None
  {
    hide DropLeft, DropRight, Span, Match, Word;
    NameStays(name);
    SeparatorAt(name, sep, v);
    ValueStays(v);
    MatchParts(name + ([sep] + v), |name|, name, v, key, conv);
  }

  lemma ValueStays(v: string)
    requires v == "" || v[0] !in VALUE_LEFT
    ensures DropLeft(v, VALUE_LEFT) == v
  {
    SpanUnique(v, VALUE_LEFT, true, 0);
    assert v[0..] == v;
  }

  lemma NameStays(name: string)
    requires Word(name)
    ensures DropRight(DropLeft(name, KEY_LEFT), KEY_RIGHT) == name && name != "" && name[0] != '#'
    ensures forall k :: 0 <= k < |name| ==> name[k] !in {'=', ':'}
  {
    SpanUnique(name, KEY_LEFT, true, 0);
    assert name[0..] == name;
    DropRightUnique(name, KEY_RIGHT, |name|);
    assert name[..|name|] == name;
  }

  lemma SeparatorAt(part: string, sep: char, rest: string)
    requires sep in {'=', ':'} && forall k :: 0 <= k < |part| ==> part[k] !in {'=', ':'}
    ensures var line := part + ([sep] + rest);
            && Span(line, {'=', ':'}, false) == |part| < |line|
            && line[..|part|] == part && line[|part| + 1..] == rest
  {
    var line := part + ([sep] + rest);
    assert line[|part|] == sep;
    SpanUnique(line, {'=', ':'}, false, |part|);
  }

  lemma GapDrops(gap: string, v: string)
    requires (forall k :: 0 <= k < |gap| ==> gap[k] in VALUE_LEFT) && (v == "" || v[0] !in VALUE_LEFT)
    ensures DropLeft(gap + v, VALUE_LEFT) == v
  {
    hide SpanFrom;
    SpanUnique(gap + v, VALUE_LEFT, true, |gap|);
    assert (gap + v)[|gap|..] == v;
  }

  /** A line with neither separator says nothing. */
  lemma NoSeparatorSaysNothing(line: string, key: string, conv: Conv)
    requires '=' !in line && ':' !in line
    ensures Match(line, key, conv) == None
  {
  }
}
