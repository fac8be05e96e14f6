/** Start-up: which chips the environment asks for. */
module Startup {
  import opened Chips
  import opened Tokens

  /** The chips named in the list, or in the default list when there is none; unknown names are ignored. */
  method ReadChips(chips: string) returns (on: set<Chip>)
    ensures forall c :: c in on <==> Name(c) in Pieces(if chips == "" then "pct2075" else chips)
  {
    hide Pieces, Name;
    var s := if chips == "" then "pct2075" else chips;
    on := {};
    assert s[0..] == s;
    var p, tok, len := NextToken(s, 0);
    ghost var left := Pieces(s);
    while len != 0
      invariant 0 <= tok && 0 <= len && 0 <= p <= |s|
      invariant len == 0 ==> left == []
      invariant len > 0 ==> tok + len <= p && left == [s[tok..tok + len]] + Pieces(s[p..])
      invariant forall c :: Name(c) in Pieces(s) <==> c in on || Name(c) in left
      decreases |s| - p, len
    {
      var hits := Named(s[tok..tok + len]);
      on := on + hits;
      left := Pieces(s[p..]);
      p, tok, len := NextToken(s, p);
    }
  }

  /** The chips of the table with a given name. */
  method Named(name: string) returns (hits: set<Chip>)
    ensures forall c :: c in hits <==> Name(c) == name
  {
    hide Name;
    hits := {};
    for i := 0 to |ALL_CHIPS|
      invariant forall c :: c in hits <==> c in ALL_CHIPS[..i] && Name(c) == name
    {
      if Name(ALL_CHIPS[i]) == name {
        hits := hits + {ALL_CHIPS[i]};
      }
      assert ALL_CHIPS[..i + 1] == ALL_CHIPS[..i] + [ALL_CHIPS[i]];
    }
    forall c ensures c in ALL_CHIPS[..|ALL_CHIPS|] {
      Listed(c);
    }
  }
}
