/** The host's plan: which chips it asks the shim for, given the fields a node is to publish, and what that publishes. */
module Plan {
  import opened Bits
  import opened Chips
  import opened Models
  import T = Tokens
  import Startup

  /** A chip as the host knows it: what it can carry, and what it publishes besides. */
  datatype HostChip = HostChip(name: string, addr: byte, fields: seq<string>, also: seq<string>)

  const HOST_CHIPS: seq<HostChip> := [
    HostChip("pct2075", 0x37, ["temperature"], []),
    HostChip("aht10", 0x38, ["humidity"], ["temperature"]),
    HostChip("bmp280", 0x76, ["pressure"], ["temperature"]),
    HostChip("bh1750", 0x23, ["lux"], []),
    HostChip("pmsa003i", 0x12, ["pm10", "pm25", "pm100"], []),
    HostChip("ina226", 0x40, ["voltage", "current"], []),
    HostChip("rcwl9620", 0x57, ["distance"], []),
    HostChip("dfrobot_rain", 0x1D, ["rainfall_1h", "rainfall_24h"], [])
  ]

  predicate Wanted(h: HostChip, fields: seq<string>) {
    exists f :: f in h.fields && f in fields
  }

  predicate Carried(f: string) {
    exists h :: h in HOST_CHIPS && f in h.fields
  }

  /** The wanted chips, in the table's order. */
  function Chosen(table: seq<HostChip>, fields: seq<string>): (r: seq<HostChip>)
    ensures forall h :: h in r <==> h in table && Wanted(h, fields)
  {
    if table == [] then []
    else
      var n := |table| - 1;
      Chosen(table[..n], fields) + if Wanted(table[n], fields) then [table[n]] else []
  }

  /** The table's order is kept. */
  lemma {:induction false} ChosenInOrder(table: seq<HostChip>, fields: seq<string>, i: nat, j: nat)
    requires i < j < |Chosen(table, fields)|
    ensures exists a, b :: 0 <= a < b < |table| && table[a] == Chosen(table, fields)[i]
                           && table[b] == Chosen(table, fields)[j]
  {
    hide Wanted;
    var n := |table| - 1;
    var r, p := Chosen(table, fields), Chosen(table[..n], fields);
    if j < |p| {
      ChosenInOrder(table[..n], fields, i, j);
      var a, b :| 0 <= a < b < n && table[..n][a] == p[i] && table[..n][b] == p[j];
      assert table[a] == r[i] && table[b] == r[j];
    } else {
      assert p[i] in p;
      assert p[i] in table[..n];
      var a :| 0 <= a < n && table[..n][a] == p[i];
      assert table[a] == r[i] && table[n] == r[j];
    }
  }

  /** `PlanChips`: the chips that carry some field asked for, and the fields no chip carries. */
  method PlanChips(fields: seq<string>) returns (chips: seq<HostChip>, unsupported: seq<string>)
    ensures chips == Chosen(HOST_CHIPS, fields)
    ensures forall f :: f in unsupported <==> f in fields && !Carried(f)
  {
    hide Wanted;
    chips := [];
    for i := 0 to |HOST_CHIPS|
      invariant chips == Chosen(HOST_CHIPS[..i], fields)
    {
      assert HOST_CHIPS[..i + 1][..i] == HOST_CHIPS[..i];
      var w := AnyIn(HOST_CHIPS[i], fields);
      if w {
        chips := chips + [HOST_CHIPS[i]];
      }
    }
    assert HOST_CHIPS[..|HOST_CHIPS|] == HOST_CHIPS;
    unsupported := [];
    for j := 0 to |fields|
      invariant forall f :: f in unsupported <==> f in fields[..j] && !Carried(f)
    {
      var c := IsCarried(fields[j]);
      if !c {
        unsupported := unsupported + [fields[j]];
      }
      assert fields[..j + 1] == fields[..j] + [fields[j]];
    }
    assert fields[..|fields|] == fields;
  }

  method AnyIn(h: HostChip, fields: seq<string>) returns (found: bool)
    ensures found <==> Wanted(h, fields)
  {
    for i := 0 to |h.fields|
      invariant forall k :: 0 <= k < i ==> h.fields[k] !in fields
    {
      if h.fields[i] in fields {
        return true;
      }
    }
    found := false;
  }

  method IsCarried(f: string) returns (found: bool)
    ensures found <==> Carried(f)
  {
    for i := 0 to |HOST_CHIPS|
      invariant forall k :: 0 <= k < i ==> f !in HOST_CHIPS[k].fields
    {
      if f in HOST_CHIPS[i].fields {
        return true;
      }
    }
    found := false;
  }

  /** `Invents`: each field the planned chips publish besides their own that was not asked for, named once. */
  method Invents(fields: seq<string>) returns (out: seq<string>)
    ensures forall f :: f in out <==> f !in fields && exists h :: h in Chosen(HOST_CHIPS, fields) && f in h.also
    ensures forall i, j :: 0 <= i < j < |out| ==> out[i] != out[j]
  {
    var chips, unsupported := PlanChips(fields);
    out := [];
    for i := 0 to |chips|
      invariant forall f :: f in out <==> f !in fields && exists h :: h in chips[..i] && f in h.also
      invariant forall i, j :: 0 <= i < j < |out| ==> out[i] != out[j]
    {
      out := AddNew(fields, chips[i].also, out);
      assert chips[..i + 1] == chips[..i] + [chips[i]];
    }
    assert chips[..|chips|] == chips;
  }

  method AddNew(fields: seq<string>, also: seq<string>, before: seq<string>) returns (out: seq<string>)
    requires forall i, j :: 0 <= i < j < |before| ==> before[i] != before[j]
    ensures forall f :: f in out <==> f in before || (f in also && f !in fields)
    ensures forall i, j :: 0 <= i < j < |out| ==> out[i] != out[j]
  {
    out := before;
    for k := 0 to |also|
      invariant forall f :: f in out <==> f in before || (f in also[..k] && f !in fields)
      invariant forall i, j :: 0 <= i < j < |out| ==> out[i] != out[j]
    {
      if also[k] !in fields && also[k] !in out {
        out := out + [also[k]];
      }
      assert also[..k + 1] == also[..k] + [also[k]];
    }
    assert also[..|also|] == also;
  }

  // ---- the shim's side of the plan -----------------------------------------

  /** The shim's chips, in the order of the host's table. */
  const SHIM_CHIPS: seq<Chip> := [Pct2075, Aht10, Bmp280, Bh1750, Pmsa003i, Ina226, Rcwl9620, DfrobotRain]

  /** The two tables agree: name, address, and the fields the shim's model looks up. */
  lemma TablesAgree(i: nat)
    requires i < 8
    ensures |HOST_CHIPS| == |SHIM_CHIPS| == 8
    ensures var h, c := HOST_CHIPS[i], SHIM_CHIPS[i];
            && Name(c) == h.name && Addr(c) == h.addr
            && (forall f :: f in Keys(c) <==> f in h.fields || f in h.also)
  {
    match i {
      case 0 => case 1 => case 2 => case 3 => case 4 => case 5 => case 6 => case 7 =>
    }
  }

  /** The chips the shim has and the host's table leaves out. */
  lemma ShimOnly()
    ensures Name(Mcp9808) == "mcp9808" && Keys(Mcp9808) == ["temperature"]
    ensures Name(CgRadSens) == "cgradsens" && Keys(CgRadSens) == ["radiation"]
    ensures Name(Lps22) == "lps22" && Keys(Lps22) == ["pressure", "temperature"]
  {
  }

  /** Length and first two letters tell the names apart. */
  lemma NameShape(c: Chip)
    ensures |Name(c)| >= 2
    ensures (|Name(c)|, Name(c)[0], Name(c)[1]) ==
            match c
            case Pct2075 => (7, 'p', 'c')
            case Mcp9808 => (7, 'm', 'c')
            case Ina226 => (6, 'i', 'n')
            case Aht10 => (5, 'a', 'h')
            case Pmsa003i => (8, 'p', 'm')
            case Bh1750 => (6, 'b', 'h')
            case Rcwl9620 => (8, 'r', 'c')
            case CgRadSens => (9, 'c', 'g')
            case DfrobotRain => (12, 'd', 'f')
            case Lps22 => (5, 'l', 'p')
            case Bmp280 => (6, 'b', 'm')
  {
  }

  lemma NamesDiffer(c: Chip, d: Chip)
    requires Name(c) == Name(d)
    ensures c == d
  {
    NameShape(c);
    NameShape(d);
    hide Name;
  }

  /** Length and first letter tell which chip carries a field. */
  lemma FieldShape(i: nat, f: string)
    requires i < 8 && f in HOST_CHIPS[i].fields
    ensures f != ""
    ensures match i
            case 0 => |f| == 11 && f[0] == 't'
            case 1 => |f| == 8 && f[0] == 'h'
            case 2 => |f| == 8 && f[0] == 'p'
            case 3 => |f| == 3
            case 4 => (|f| == 4 || |f| == 5) && f[0] == 'p'
            case 5 => |f| == 7
            case 6 => |f| == 8 && f[0] == 'd'
            case _ => (|f| == 11 || |f| == 12) && f[0] == 'r'
  {
    match i {
      case 0 => case 1 => case 2 => case 3 => case 4 => case 5 => case 6 => case 7 =>
    }
  }

  /** Exactly one chip carries each field. */
  lemma OneCarrier(i: nat, j: nat, f: string)
    requires i < 8 && j < 8 && f in HOST_CHIPS[i].fields && f in HOST_CHIPS[j].fields
    ensures i == j
  {
    FieldShape(i, f);
    FieldShape(j, f);
    hide *;
  }

  // ---- from the plan to the chips that answer ------------------------------

  function Names(chips: seq<HostChip>): (r: seq<string>)
    ensures |r| == |chips| && forall i :: 0 <= i < |chips| ==> r[i] == chips[i].name
  {
    seq(|chips|, i requires 0 <= i < |chips| => chips[i].name)
  }

  /** `ChipNames`: what the host puts into the shim's environment. */
  function ChipNames(chips: seq<HostChip>): string {
    T.Join(Names(chips))
  }

  /** What `Startup.ReadChips` makes of a list. */
  function Enabled(list: string): set<Chip> {
    set c: Chip | Name(c) in T.Pieces(if list == "" then "pct2075" else list)
  }

  lemma NameIsToken(c: Chip)
    ensures T.Clean(Name(c))
  {
    match c {
      case Pct2075 => case Mcp9808 => case Ina226 => case Aht10 => case Pmsa003i => case Bh1750 => case Rcwl9620 =>
      case CgRadSens => case DfrobotRain => case Lps22 => case Bmp280 =>
    }
  }

  lemma Indexed(h: HostChip)
    requires h in HOST_CHIPS
    ensures exists i :: 0 <= i < 8 && HOST_CHIPS[i] == h && Name(SHIM_CHIPS[i]) == h.name
  {
    hide Name;
    var i :| 0 <= i < |HOST_CHIPS| && HOST_CHIPS[i] == h;
    TablesAgree(i);
  }

  lemma NamesAreTokens(chips: seq<HostChip>)
    requires forall h :: h in chips ==> h in HOST_CHIPS
    ensures forall p :: p in Names(chips) ==> T.Clean(p)
  {
    hide T.Clean, Name;
    forall p | p in Names(chips) ensures T.Clean(p) {
      var k :| 0 <= k < |Names(chips)| && Names(chips)[k] == p;
      assert chips[k] in chips;
      Indexed(chips[k]);
      var i :| 0 <= i < 8 && HOST_CHIPS[i] == chips[k] && Name(SHIM_CHIPS[i]) == p;
      NameIsToken(SHIM_CHIPS[i]);
    }
  }

  lemma JoinedIsSome(pieces: seq<string>)
    requires pieces != [] && pieces[0] != ""
    ensures T.Join(pieces) != ""
  {
  }

  /** The names of some chips of the table enable exactly those chips. */
  lemma NamesEnable(chips: seq<HostChip>, c: Chip)
    requires chips != [] && forall h :: h in chips ==> h in HOST_CHIPS
    ensures c in Enabled(ChipNames(chips)) <==> exists h :: h in chips && h.name == Name(c)
  {
    hide T.Join, T.Pieces, Name;
    NamesAreTokens(chips);
    assert Names(chips)[0] in Names(chips);
    JoinedIsSome(Names(chips));
    T.JoinedPieces(Names(chips));
    if h :| h in chips && h.name == Name(c) {
      var k :| 0 <= k < |chips| && chips[k] == h;
      assert Names(chips)[k] == h.name;
    }
  }

  /**
   * From the fields a node is to publish, by way of the plan, the environment and the shim's start-up, to the chips
   * that answer: while some field asked for is carried, exactly the chips that carry one, so every such field is looked
   * up by the one chip that carries it. When none is, the empty list enables the temperature chip all the same.
   */
  lemma PlanEnables(fields: seq<string>)
    ensures var on := Enabled(ChipNames(Chosen(HOST_CHIPS, fields)));
            if exists f :: f in fields && Carried(f) then
              && (forall c :: c in on ==> c in SHIM_CHIPS)
              && (forall i :: 0 <= i < 8 ==>
                    (SHIM_CHIPS[i] in on <==> exists f :: f in HOST_CHIPS[i].fields && f in fields))
              && (forall f :: f in fields && Carried(f) ==> exists c :: c in on && f in Keys(c))
            else on == {Pct2075}
  {
    hide Name, T.Join, T.Pieces, Enabled, ChipNames;
    var chips := Chosen(HOST_CHIPS, fields);
    if f :| f in fields && Carried(f) {
      var h :| h in HOST_CHIPS && f in h.fields;
      assert Wanted(h, fields) && h in chips;
      forall c | c in Enabled(ChipNames(chips)) ensures c in SHIM_CHIPS {
        EnabledIsPlanned(chips, c);
      }
      forall i | 0 <= i < 8
        ensures SHIM_CHIPS[i] in Enabled(ChipNames(chips)) <==> Wanted(HOST_CHIPS[i], fields)
      {
        PlannedIsEnabled(chips, i);
      }
      forall f | f in fields && Carried(f) ensures exists c :: c in Enabled(ChipNames(chips)) && f in Keys(c) {
        var g :| g in HOST_CHIPS && f in g.fields;
        Indexed(g);
        var i :| 0 <= i < 8 && HOST_CHIPS[i] == g;
        TablesAgree(i);
        assert Wanted(g, fields);
      }
    } else {
      assert forall h :: h in HOST_CHIPS ==> !Wanted(h, fields);
      NoneChosen(HOST_CHIPS, fields);
      NothingPlanned();
    }
  }

  lemma {:induction false} NoneChosen(table: seq<HostChip>, fields: seq<string>)
    requires forall h :: h in table ==> !Wanted(h, fields)
    ensures Chosen(table, fields) == []
  {
    if table != [] {
      assert table[|table| - 1] in table;
      NoneChosen(table[..|table| - 1], fields);
    }
  }

  lemma NothingPlanned()
    ensures Enabled(ChipNames([])) == {Pct2075}
  {
    hide Name, T.Pieces;
    assert Name(Pct2075) == "pct2075" by {
      TablesAgree(0);
    }
    NameIsToken(Pct2075);
    T.PaddedPiece("", Name(Pct2075), "", "");
    assert "" + (Name(Pct2075) + "") == Name(Pct2075);
    forall c ensures Name(c) == Name(Pct2075) <==> c == Pct2075 {
      if Name(c) == Name(Pct2075) {
        NamesDiffer(c, Pct2075);
      }
    }
    assert Names([]) == [];
  }

  lemma EnabledIsPlanned(chips: seq<HostChip>, c: Chip)
    requires chips != [] && (forall h :: h in chips ==> h in HOST_CHIPS) && c in Enabled(ChipNames(chips))
    ensures exists i :: 0 <= i < 8 && c == SHIM_CHIPS[i] && HOST_CHIPS[i] in chips
  {
    hide Name, Enabled, ChipNames;
    NamesEnable(chips, c);
    var h :| h in chips && h.name == Name(c);
    Indexed(h);
    var i :| 0 <= i < 8 && HOST_CHIPS[i] == h && Name(SHIM_CHIPS[i]) == h.name;
    NamesDiffer(c, SHIM_CHIPS[i]);
  }

  lemma PlannedIsEnabled(chips: seq<HostChip>, i: nat)
    requires i < 8 && chips != [] && forall h :: h in chips ==> h in HOST_CHIPS
    ensures SHIM_CHIPS[i] in Enabled(ChipNames(chips)) <==> HOST_CHIPS[i] in chips
  {
    hide Name, Enabled, ChipNames;
    TablesAgree(i);
    NamesEnable(chips, SHIM_CHIPS[i]);
    if SHIM_CHIPS[i] in Enabled(ChipNames(chips)) {
      EnabledIsPlanned(chips, SHIM_CHIPS[i]);
      ShimChipsDiffer();
    }
  }

  lemma ShimChipsDiffer()
    ensures forall i, j :: 0 <= i < j < 8 ==> SHIM_CHIPS[i] != SHIM_CHIPS[j]
  {
  }

  // ---- what is published unasked -------------------------------------------

  /** A planned chip publishes a field that was neither asked for nor listed by `Invents`. */
  predicate Unlisted(fields: seq<string>, f: string) {
    && f !in fields
    && (exists h :: h in Chosen(HOST_CHIPS, fields) && (f in h.fields || f in h.also))
    && !exists h :: h in Chosen(HOST_CHIPS, fields) && f in h.also
  }

  /**
   * `Invents` is to list what a node would publish that nobody asked for. It does exactly when every planned chip is
   * asked for all the fields it carries; asked for one of several, the chip publishes the others unlisted.
   */
  lemma InventsCompleteIff(fields: seq<string>)
    ensures (forall f :: !Unlisted(fields, f))
            <==> forall h, f :: h in HOST_CHIPS && Wanted(h, fields) && f in h.fields ==> f in fields
  {
    hide Wanted;
    if h, f :| h in HOST_CHIPS && Wanted(h, fields) && f in h.fields && f !in fields {
      if g :| g in Chosen(HOST_CHIPS, fields) && f in g.also {
        AlsoIsTemperature(g, f);
        OnlyTemperature(h, fields);
      }
      assert Unlisted(fields, f);
    }
  }

  lemma AlsoIsTemperature(g: HostChip, f: string)
    requires g in HOST_CHIPS && f in g.also
    ensures f == "temperature"
  {
  }

  lemma NothingElseAlso(g: HostChip, f: string)
    requires g in HOST_CHIPS && f != "temperature"
    ensures f !in g.also
  {
  }

  /** The chip that carries the temperature carries nothing else. */
  lemma OnlyTemperature(h: HostChip, fields: seq<string>)
    requires h in HOST_CHIPS && "temperature" in h.fields && Wanted(h, fields)
    ensures "temperature" in fields
  {
    hide Name;
    Indexed(h);
    var i :| 0 <= i < 8 && HOST_CHIPS[i] == h;
    assert "temperature" in HOST_CHIPS[0].fields;
    OneCarrier(i, 0, "temperature");
  }

  /** A node asked for a voltage alone publishes a current nobody gave it, and `Invents` lists nothing. */
  lemma VoltageAlonePublishesCurrent()
    ensures Unlisted(["voltage"], "current")
  {
    var h := HOST_CHIPS[5];
    assert h in HOST_CHIPS && "voltage" in h.fields && "current" in h.fields;
    assert Wanted(h, ["voltage"]);
    assert "current" != "voltage" by {
      assert "current"[0] != "voltage"[0];
    }
    assert |"current"| != |"temperature"|;
    forall g | g in Chosen(HOST_CHIPS, ["voltage"]) ensures "current" !in g.also {
      NothingElseAlso(g, "current");
    }
  }
}
