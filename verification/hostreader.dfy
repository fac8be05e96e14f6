/** The host's own reader of a values file, meant to accept what the shim accepts. */
module HostReader {
  import opened Bits
  import opened Number
  import opened ValuesFile
  import opened Trims

  const BRACES: set<char> := {'{', '}', ','}
  const QUOTES: set<char> := {'"', '\''}

  function TrimComma(s: string): (r: string)
    ensures r <= s
  {
    if s != "" && s[|s| - 1] == ',' then s[..|s| - 1] else s
  }

  function LowerAll(s: string): (r: string)
    ensures |r| == |s| && forall k :: 0 <= k < |s| ==> r[k] == Lower(s[k])
  {
    seq(|s|, k requires 0 <= k < |s| => Lower(s[k]))
  }

  /** A line without what surrounds it. */
  function Cleaned(line: string): string {
    Trim(Trim(Trim(line, SPACES), BRACES), SPACES)
  }

  function HostName(part: string): string {
    LowerAll(Trim(Trim(part, SPACES), QUOTES))
  }

  function HostValue(rest: string): string {
    Trim(Trim(TrimComma(Trim(rest, SPACES)), SPACES), QUOTES)
  }

  /** What one line says about `key`. */
  function HostMatch(line: string, key: string, scan: Conv): Option<real> {
    var l := Cleaned(line);
    var sep := Span(l, {'=', ':'}, false);
    if l == "" || l[0] == '#' || sep == 0 || sep == |l| || HostName(l[..sep]) != key then None
    else scan(HostValue(l[sep + 1..]))
  }

  /** The pieces of a text between newlines. */
  function Split(t: string): seq<string> {
    var e := Span(t, {'\n'}, false);
    if e == |t| then [t] else [t[..e]] + Split(t[e + 1..])
  }

  function HostLast(lines: seq<string>, key: string, scan: Conv): Option<real> {
    if lines == [] then None
    else
      var m := HostMatch(lines[|lines| - 1], key, scan);
      if m.Some? then m else HostLast(lines[..|lines| - 1], key, scan)
  }

  function HostParse(text: string, key: string, scan: Conv): Option<real> {
    HostLast(Split(text), key, scan)
  }

  /** `ParseValues`: every known field some line gives a value, with the value the last such line gives. */
  method ParseValues(text: string, known: set<string>, scan: Conv) returns (out: map<string, real>)
    ensures out.Keys <= known
    ensures forall key :: key in known ==> HostParse(text, key, scan) == if key in out then Some(out[key]) else None
  {
    hide Cleaned, HostName, HostValue, Span;
    out := map[];
    var lines := Split(text);
    for i := 0 to |lines|
      invariant out.Keys <= known
      invariant forall key :: key in known ==>
                  HostLast(lines[..i], key, scan) == if key in out then Some(out[key]) else None
    {
      assert lines[..i + 1][..i] == lines[..i];
      var line := Cleaned(lines[i]);
      if line == "" || line[0] == '#' {
        continue;
      }
      var sep := Span(line, {'=', ':'}, false);
      if sep == 0 || sep == |line| {
        continue;
      }
      var f := HostName(line[..sep]);
      if f !in known {
        continue;
      }
      var v := scan(HostValue(line[sep + 1..]));
      if v.Some? {
        out := out[f := v.value];
      }
    }
    assert lines[..|lines|] == lines;
  }
}
