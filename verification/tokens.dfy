/** The comma-separated lists of the environment: the pieces of a list, and the scanner that yields them. */
module Tokens {
  import opened Bits
  import opened ValuesFile

  const BLANKS: set<char> := {' ', '\t'}
  const SEPARATORS: set<char> := {',', ' ', '\t'}
  const MAX_PATHS: nat := 8
  const PATH_SIZE: nat := 256

  function Trim(s: string): string {
    DropRight(DropLeft(s, BLANKS), BLANKS)
  }

  function Piece(part: string): seq<string> {
    if Trim(part) == "" then [] else [Trim(part)]
  }

  /** The list split at its commas, each part trimmed, empty parts left out. */
  function Pieces(s: string): seq<string>
    decreases |s|
  {
    var e := Span(s, {','}, false);
    Piece(s[..e]) + if e == |s| then [] else Pieces(s[e + 1..])
  }

  /** The first `n` pieces short enough for a path buffer. */
  function ShortPrefix(pieces: seq<string>, n: nat): seq<string>
    decreases |pieces|
  {
    if pieces == [] || n == 0 then []
    else if |pieces[0]| < PATH_SIZE then [pieces[0]] + ShortPrefix(pieces[1..], n - 1)
    else ShortPrefix(pieces[1..], n)
  }

  lemma ShortPrefixStep(piece: string, rest: seq<string>, n: nat)
    requires n > 0
    ensures ShortPrefix([piece] + rest, n)
         == if |piece| < PATH_SIZE then [piece] + ShortPrefix(rest, n - 1) else ShortPrefix(rest, n)
  {
    assert ([piece] + rest)[1..] == rest;
  }

  lemma ShortPrefixEnd(pieces: seq<string>, n: nat)
    requires pieces == [] || n == 0
    ensures ShortPrefix(pieces, n) == []
  {
  }

  /** Of pieces that all fit, the first `n`; and a piece that does not fit may stand anywhere. */
  lemma {:induction false} ShortPrefixMeans(a: seq<string>, long: string, b: seq<string>, n: nat)
    requires forall p :: p in a ==> |p| < 256
    ensures ShortPrefix(a, n) == a[..if n < |a| then n else |a|]
    ensures |long| >= 256 ==> ShortPrefix(a + [long] + b, n) == ShortPrefix(a + b, n)
  {
    if a == [] {
      assert [] + [long] + b == [long] + b && [] + b == b;
      if n > 0 {
        ShortPrefixStep(long, b, n);
      }
    } else {
      var p, rest := a[0], a[1..];
      assert p in a && a == [p] + rest;
      if n > 0 {
        ShortPrefixMeans(rest, long, b, n - 1);
        assert a + [long] + b == [p] + (rest + [long] + b) && a + b == [p] + (rest + b);
        ShortPrefixStep(p, rest + [long] + b, n);
        ShortPrefixStep(p, rest + b, n);
        ShortPrefixStep(p, rest, n);
      }
    }
  }

  // ---- what the pieces are -------------------------------------------------

  predicate Blank(s: string) {
    forall k :: 0 <= k < |s| ==> s[k] == ' ' || s[k] == '\t'
  }

  /** A token: not empty, no comma in it, no blank at either end. */
  predicate Clean(p: string) {
    p != "" && ',' !in p && p[0] !in {' ', '\t'} && p[|p| - 1] !in {' ', '\t'}
  }

  lemma TrimPadded(a: string, p: string, b: string)
    requires Blank(a) && Blank(b) && Clean(p)
    ensures Trim(a + (p + b)) == p
  {
    hide SpanFrom, DropRight;
    var s := a + (p + b);
    assert s[|a|] == p[0];
    SpanUnique(s, BLANKS, true, |a|);
    assert s[|a|..] == p + b;
    DropRightUnique(p + b, BLANKS, |p|);
    assert (p + b)[..|p|] == p;
  }

  lemma TrimBlank(a: string)
    requires Blank(a)
    ensures Trim(a) == ""
  {
    hide SpanFrom;
    SpanUnique(a, BLANKS, true, |a|);
  }

  /** Blanks are no piece, last in the list or before a comma. */
  lemma BlankPiece(a: string, rest: string)
    requires Blank(a)
    ensures Pieces(a) == [] && Pieces(a + ("," + rest)) == Pieces(rest)
  {
    hide Pieces, Trim;
    TrimBlank(a);
    var s := a + ("," + rest);
    PiecesUpTo(a, |a|);
    assert a[..|a|] == a;
    assert s[..|a|] == a && s[|a| + 1..] == rest && s[|a|] == ',';
    PiecesUpTo(s, |a|);
  }

  /** A token with blanks around it is a piece, last in the list or before a comma. */
  lemma PaddedPiece(a: string, p: string, b: string, rest: string)
    requires Blank(a) && Blank(b) && Clean(p)
    ensures Pieces(a + (p + b)) == [p] && Pieces(a + (p + b) + ("," + rest)) == [p] + Pieces(rest)
  {
    hide Pieces, Trim;
    TrimPadded(a, p, b);
    var part := a + (p + b);
    var s := part + ("," + rest);
    PiecesUpTo(part, |part|);
    assert part[..|part|] == part;
    assert s[..|part|] == part && s[|part| + 1..] == rest && s[|part|] == ',';
    PiecesUpTo(s, |part|);
  }

  lemma TrimLeadingBlank(u: string)
    requires u != "" && u[0] in BLANKS
    ensures Trim(u) == Trim(u[1..])
  {
    var v := u[1..];
    var i := Span(v, BLANKS, true);
    assert forall k :: 1 <= k < 1 + i ==> u[k] == v[k - 1];
    SpanUnique(u, BLANKS, true, 1 + i);
    assert u[1 + i..] == v[i..];
  }

  /** `Pieces`, for a caller that knows where the first comma is. */
  lemma PiecesUpTo(s: string, e: nat)
    requires e <= |s| && forall k :: 0 <= k < e ==> s[k] != ','
    requires e < |s| ==> s[e] == ','
    ensures Pieces(s) == Piece(s[..e]) + if e == |s| then [] else Pieces(s[e + 1..])
  {
    hide Piece, SpanFrom;
    SpanUnique(s, {','}, false, e);
  }

  lemma TrimNothing()
    ensures Trim("") == ""
  {
  }

  lemma PiecesOfNothing()
    ensures Pieces("") == []
  {
    hide Pieces, Trim, SpanFrom;
    TrimNothing();
    assert ""[..0] == "";
    PiecesUpTo("", 0);
  }

  /** A separator in front of a list makes no piece. */
  lemma SkipSeparator(s: string)
    requires s != "" && s[0] in SEPARATORS
    ensures Pieces(s) == Pieces(s[1..])
  {
    hide Pieces, Trim, SpanFrom, Span, DropRight;
    if s[0] == ',' {
      PiecesUpTo(s, 0);
      TrimNothing();
      assert s[..0] == "";
    } else {
      var t := s[1..];
      var e := Span(t, {','}, false);
      assert forall k :: 1 <= k < 1 + e ==> s[k] == t[k - 1];
      PiecesUpTo(s, 1 + e);
      PiecesUpTo(t, e);
      assert s[..1 + e][1..] == t[..e];
      TrimLeadingBlank(s[..1 + e]);
      assert e < |t| ==> s[1 + e + 1..] == t[e + 1..];
    }
  }

  /** A list that starts with neither separator nor end starts with a piece: up to the comma, trimmed on the right. */
  lemma FirstPiece(s: string, e: nat, te: nat)
    requires e <= |s| && forall k :: 0 <= k < e ==> s[k] != ','
    requires e < |s| ==> s[e] == ','
    requires 0 < te <= e && s[0] !in BLANKS
    requires s[te - 1] !in BLANKS && forall k :: te <= k < e ==> s[k] in BLANKS
    ensures Pieces(s) == [s[..te]] + if e == |s| then [] else Pieces(s[e + 1..])
  {
    hide Pieces;
    var u := s[..e];
    PiecesUpTo(s, e);
    assert Trim(u) == s[..te] by {
      SpanUnique(u, BLANKS, true, 0);
      assert DropLeft(u, BLANKS) == u;
      DropRightUnique(u, BLANKS, te);
      assert u[..te] == s[..te];
    }
  }

  function Join(pieces: seq<string>): string {
    if pieces == [] then "" else if |pieces| == 1 then pieces[0] else pieces[0] + "," + Join(pieces[1..])
  }

  lemma TrimClean(part: string)
    requires ',' !in part
    ensures Trim(part) != "" ==> Clean(Trim(part))
  {
    hide SpanFrom, DropRight;
    var i := Span(part, BLANKS, true);
    var p := Trim(part);
    assert forall k :: 0 <= k < |p| ==> p[k] == part[i..][k];
  }

  /** Every piece of any list is a token. */
  lemma {:induction false} PiecesAreClean(s: string)
    ensures forall p :: p in Pieces(s) ==> Clean(p)
    decreases |s|
  {
    hide Pieces, Trim, Span, Clean;
    var e := Span(s, {','}, false);
    PiecesUpTo(s, e);
    TrimClean(s[..e]);
    if e < |s| {
      PiecesAreClean(s[e + 1..]);
    }
  }

  /** Tokens joined by commas are read back exactly. */
  lemma {:induction false} JoinedPieces(pieces: seq<string>)
    requires forall p :: p in pieces ==> Clean(p)
    ensures Pieces(Join(pieces)) == pieces
  {
    hide Pieces;
    if pieces == [] {
      PiecesOfNothing();
    } else {
      var p, rest := pieces[0], pieces[1..];
      assert p in pieces;
      var s := Join(pieces);
      assert forall k :: 0 <= k < |p| ==> s[k] == p[k];
      if rest == [] {
        FirstPiece(s, |p|, |p|);
        assert s[..|p|] == p;
      } else {
        assert s[..|p|] == p && s[|p| + 1..] == Join(rest);
        FirstPiece(s, |p|, |p|);
        JoinedPieces(rest);
      }
    }
  }

  /**
   * The next token of the C string `s` from `p` on: where it starts, how long it is, and where to go on.
   * Length 0 means there is none left.
   */
  method NextToken(s: string, p: nat) returns (next: nat, tok: nat, len: nat)
    requires p <= |s|
    ensures p <= next <= |s|
    ensures len == 0 ==> Pieces(s[p..]) == []
    ensures len > 0 ==> p <= tok && tok + len <= next && p < next
    ensures len > 0 ==> Pieces(s[p..]) == [s[tok..tok + len]] + Pieces(s[next..])
  {
    hide Pieces, Trim;
    tok := p;
    while tok < |s| && s[tok] in SEPARATORS
      invariant p <= tok <= |s|
      invariant Pieces(s[p..]) == Pieces(s[tok..])
    {
      SkipSeparator(s[tok..]);
      assert s[tok..][1..] == s[tok + 1..];
      tok := tok + 1;
    }
    if tok == |s| {
      PiecesOfNothing();
      assert s[tok..] == "";
      return tok, tok, 0;
    }
    var e := tok;
    ghost var t := s[tok..];
    while e < |s| && s[e] != ','
      invariant tok <= e <= |s|
      invariant forall k :: tok <= k < e ==> s[k] != ','
    {
      e := e + 1;
    }
    var te := e;
    while te > tok && s[te - 1] in BLANKS
      invariant tok <= te <= e
      invariant forall k :: te <= k < e ==> s[k] in BLANKS
    {
      te := te - 1;
    }
    FirstPiece(t, e - tok, te - tok);
    assert t[..te - tok] == s[tok..te];
    if e == |s| {
      PiecesOfNothing();
      assert s[e..] == "";
    } else {
      SkipSeparator(s[e..]);
      assert s[e..][1..] == s[e + 1..] == t[e - tok + 1..];
    }
    next, len := e, te - tok;
  }

  /** The device paths to fake: the first eight tokens that fit a buffer, of the list or of its default. */
  method ReadPaths(dev: string) returns (paths: seq<string>)
    ensures paths == ShortPrefix(Pieces(if dev == "" then "/dev/i2c-fake" else dev), 8)
  {
    hide Pieces, ShortPrefix;
    var s := if dev == "" then "/dev/i2c-fake" else dev;
    paths := [];
    assert s[0..] == s;
    var p, tok, len := NextToken(s, 0);
    ghost var left := Pieces(s);
    while len != 0 && |paths| < MAX_PATHS
      invariant 0 <= tok && 0 <= len && 0 <= p <= |s| && |paths| <= MAX_PATHS
      invariant len == 0 ==> left == []
      invariant len > 0 ==> tok + len <= p && left == [s[tok..tok + len]] + Pieces(s[p..])
      invariant ShortPrefix(Pieces(s), MAX_PATHS) == paths + ShortPrefix(left, MAX_PATHS - |paths|)
      decreases |s| - p, len
    {
      ghost var n := MAX_PATHS - |paths|;
      ShortPrefixStep(s[tok..tok + len], Pieces(s[p..]), n);
      left := Pieces(s[p..]);
      if len < PATH_SIZE {
        Assoc(paths, [s[tok..tok + len]], ShortPrefix(left, n - 1));
        paths := paths + [s[tok..tok + len]];
      }
      p, tok, len := NextToken(s, p);
    }
    ShortPrefixEnd(left, MAX_PATHS - |paths|);
  }
}
