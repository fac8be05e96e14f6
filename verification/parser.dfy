/** The parser as it runs: over one fixed buffer, cutting it into lines in place. */
module ValuesParser {
  import opened Bits
  import opened ValuesFile

  /** The first `c` at or after `from`, or the NUL that ends the string if that comes first. */
  method StrChr(buf: array<char>, from: nat, c: char, ghost last: nat) returns (i: nat)
    requires from <= last < buf.Length && buf[last] == NUL
    ensures from <= i <= last
    ensures buf[i] == c || buf[i] == NUL
    ensures forall k :: from <= k < i ==> buf[k] != c && buf[k] != NUL
  {
    i := from;
    while buf[i] != c && buf[i] != NUL
      invariant from <= i <= last
      invariant forall k :: from <= k < i ==> buf[k] != c && buf[k] != NUL
      decreases last - i
    {
      i := i + 1;
    }
  }

  /** `s` is what the buffer holds from `from` on, and a NUL follows it. */
  ghost predicate Holds(buf: array<char>, from: nat, s: string)
    reads buf
  {
    && from + |s| < buf.Length
    && buf[from + |s|] == NUL
    && forall k :: from <= k < from + |s| ==> buf[k] == s[k - from] && buf[k] != NUL
  }

  /** The first `=` or `:` of a line, or the NUL that ends it. */
  method FindSeparator(buf: array<char>, line: nat, ghost s: string) returns (sep: nat)
    requires Holds(buf, line, s)
    ensures sep == line + Span(s, {'=', ':'}, false)
  {
    sep := line;
    while buf[sep] != NUL && buf[sep] != '=' && buf[sep] != ':'
      invariant line <= sep <= line + |s|
      invariant forall k :: 0 <= k < sep - line ==> s[k] !in {'=', ':'}
      decreases line + |s| - sep
    {
      sep := sep + 1;
    }
    SpanUnique(s, {'=', ':'}, false, sep - line);
  }

  /** The key, held before `sep`, without the blanks and punctuation around it. */
  method TrimKey(buf: array<char>, line: nat, sep: nat, ghost s: string) returns (ks: nat, ke: nat)
    requires sep == line + |s| < buf.Length
    requires forall k :: line <= k < sep ==> buf[k] == s[k - line]
    ensures line <= ks <= ke <= sep
    ensures s[ks - line..ke - line] == DropRight(DropLeft(s, KEY_LEFT), KEY_RIGHT)
    ensures forall k :: 0 <= k < ks - line ==> s[k] in {' ', '\t', '{', '"', '\''}
    ensures ks < sep ==> s[ks - line] !in {' ', '\t', '{', '"', '\''}
    ensures forall k :: ke - line <= k < |s| ==> s[k] in {' ', '\t', '"', '\''}
    ensures ks < ke ==> s[ke - 1 - line] !in {' ', '\t', '"', '\''}
    ensures ks < sep ==> ks < ke
  {
    hide SpanFrom, DropRight;
    ks, ke := line, sep;
    while ks < ke && buf[ks] in KEY_LEFT
      invariant line <= ks <= sep
      invariant forall k :: 0 <= k < ks - line ==> s[k] in KEY_LEFT
    {
      ks := ks + 1;
    }
    SpanUnique(s, KEY_LEFT, true, ks - line);
    ghost var right := s[ks - line..];
    while ke > ks && buf[ke - 1] in KEY_RIGHT
      invariant ks <= ke <= sep
      invariant forall k :: ke - ks <= k < |right| ==> right[k] in KEY_RIGHT
    {
      ke := ke - 1;
    }
    DropRightUnique(right, KEY_RIGHT, ke - ks);
    assert right[..ke - ks] == s[ks - line..ke - line];
  }

  /** `strncmp` against a key of the same length. */
  method SameKey(buf: array<char>, ks: nat, key: string) returns (same: bool)
    requires ks + |key| <= buf.Length
    ensures same <==> forall k :: 0 <= k < |key| ==> buf[ks + k] == key[k]
  {
    for i := 0 to |key|
      invariant forall k :: 0 <= k < i ==> buf[ks + k] == key[k]
    {
      if buf[ks + i] != key[i] {
        return false;
      }
    }
    same := true;
  }

  /** Past the blanks and quotes, what is left of the buffer's string is the value. */
  method TakeValue(buf: array<char>, from: nat, ghost s: string) returns (value: string)
    requires Holds(buf, from, s)
    ensures value == DropLeft(s, VALUE_LEFT)
  {
    var vs := from;
    while buf[vs] in VALUE_LEFT
      invariant from <= vs <= from + |s|
      invariant forall k :: 0 <= k < vs - from ==> s[k] in VALUE_LEFT
      decreases from + |s| - vs
    {
      vs := vs + 1;
    }
    SpanUnique(s, VALUE_LEFT, true, vs - from);
    var e := StrChr(buf, vs, NUL, from + |s|);
    value := buf[vs..e];
  }

  /** One line, NUL-terminated: split, trim the key, compare, convert the value. */
  method MatchLine(buf: array<char>, line: nat, ghost s: string, key: string, conv: Conv) returns (r: Option<real>)
    requires Holds(buf, line, s)
    ensures r == Match(s, key, conv)
  {
    hide Span;
    var sep := FindSeparator(buf, line, s);
    if buf[sep] == NUL {
      return None;
    }
    ghost var at := sep - line;
    ghost var name, rest := s[..at], s[at + 1..];
    var ks, ke := TrimKey(buf, line, sep, name);
    ghost var k := name[ks - line..ke - line];
    MatchParts(s, at, k, DropLeft(rest, VALUE_LEFT), key, conv);
    if buf[ks] == '#' || ke - ks != |key| {
      return None;
    }
    var same := SameKey(buf, ks, key);
    if !same {
      return None;
    }
    assert k == key;
    var value := TakeValue(buf, sep + 1, rest);
    r := conv(value);
  }

  lemma NothingLeft(text: string, key: string, conv: Conv)
    requires text == "" || text[0] == NUL
    ensures Parse(text, key, conv) == None
  {
    SpanUnique(text, {NUL}, false, 0);
    assert CString(text) == "";
    assert Lines("") == [];
  }

  /** One turn of the loop: the text from `line` on is the line up to `eol` and then the rest. */
  lemma OneLine(text: string, line: nat, eol: nat, key: string, conv: Conv)
    requires line <= eol <= |text| && line < |text| && text[line] != NUL
    requires forall k :: line <= k < eol ==> text[k] != '\n' && text[k] != NUL
    requires eol < |text| ==> text[eol] == '\n' || text[eol] == NUL
    ensures Parse(text[line..], key, conv) ==
            if eol < |text| && text[eol] == '\n'
              then Later(Parse(text[eol + 1..], key, conv), Match(text[line..eol], key, conv))
            else Match(text[line..eol], key, conv)
  {
    var current, rest := text[line..eol], text[eol..];
    assert text[line..] == current + rest;
    if eol < |text| && text[eol] == '\n' {
      assert text[line..] == (current + "\n") + text[eol + 1..];
      ParseConcat(current + "\n", text[eol + 1..], key, conv);
      ParseLine(current, key, conv);
    } else {
      SpanUnique(current + rest, {NUL}, false, |current|);
      assert CString(current + rest) == current;
      SpanUnique(current, {'\n'}, false, |current|);
      assert LastMatch([current][1..], key, conv).None?;
    }
  }

  /** Looks `key` up in a file, reading one buffer of it and writing a NUL over each newline it passes. */
  method ValueLookup(file: string, key: string, conv: Conv) returns (r: Option<real>)
    ensures r == Parse(Visible(file), key, conv)
  {
    hide Parse, Match;
    var buf := new char[BUFFER_SIZE];
    var n := if |file| < BUFFER_SIZE then |file| else BUFFER_SIZE - 1;
    forall k | 0 <= k < n {
      buf[k] := file[k];
    }
    buf[n] := NUL;
    ghost var text := Visible(file);
    assert text[0..] == text;
    r := None;
    var line: int := 0;
    while line >= 0 && buf[line] != NUL
      invariant -1 <= line <= n
      invariant buf[n] == NUL
      invariant line >= 0 ==> forall k :: line <= k < n ==> buf[k] == text[k]
      invariant Parse(text, key, conv) == if line < 0 then r else Later(Parse(text[line..], key, conv), r)
      decreases if line < 0 then 0 else n - line + 1
    {
      var eol := StrChr(buf, line, '\n', n);
      var next := if buf[eol] == '\n' then eol + 1 else -1;
      OneLine(text, line, eol, key, conv);
      if buf[eol] == '\n' {
        buf[eol] := NUL;
      }
      var m := MatchLine(buf, line, text[line..eol], key, conv);
      if m.Some? {
        r := m;
      }
      line := next;
    }
    if line >= 0 {
      NothingLeft(text[line..], key, conv);
    }
  }
}
