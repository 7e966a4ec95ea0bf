/** `c(msg, color, bold, bgcolor)` of git-ls.py: wrapping text in ANSI SGR escape sequences. */
module Ansi {
  import opened Text

  const Esc: char := '\U{001B}'
  /** `"\033[0m"`, which ends every coloured span. */
  const Reset: String := [Esc, '[', '0', 'm']

  /** The SGR parameters `c` collects: 1 for bold, then the colour, then the background; 0 means none. */
  function SgrCodes(color: nat, bold: bool, bgcolor: nat): (codes: seq<nat>)
    ensures |codes| <= 3
    ensures |codes| == (if bold then 1 else 0) + (if color != 0 then 1 else 0) + (if bgcolor != 0 then 1 else 0)
    ensures bold ==> codes[0] == 1
    ensures color != 0 ==> codes[if bold then 1 else 0] == color
    ensures bgcolor != 0 ==> codes[|codes| - 1] == bgcolor
    ensures (codes == []) <==> (!bold && color == 0 && bgcolor == 0)
  {
    (if bold then [1] else []) + (if color != 0 then [color] else []) + (if bgcolor != 0 then [bgcolor] else [])
  }

  /** A character that may appear between `ESC [` and the final `m` of an SGR sequence. */
  predicate IsParam(ch: char) {
    IsDigit(ch) || ch == ';'
  }

  predicate AllParams(s: String) {
    forall k :: 0 <= k < |s| ==> IsParam(s[k])
  }

  /** `';'.join(str(i) for i in codes)` */
  function JoinCodes(codes: seq<nat>): (r: String)
    ensures AllParams(r)
    ensures codes != [] ==> r != []
  {
    if |codes| == 0 then []
    else if |codes| == 1 then Decimal(codes[0])
    else Decimal(codes[0]) + [';'] + JoinCodes(codes[1..])
  }

  /** The decimal form of each code, in order. */
  function Decimals(codes: seq<nat>): seq<String> {
    seq(|codes|, k requires 0 <= k < |codes| => Decimal(codes[k]))
  }

  lemma {:induction false} JoinCodesIsJoin(codes: seq<nat>)
    requires codes != []
    ensures JoinCodes(codes) == Join(Decimals(codes), ';')
  {
    if |codes| > 1 {
      JoinCodesIsJoin(codes[1..]);
      assert Decimals(codes)[1..] == Decimals(codes[1..]);
    }
  }

  /** How a terminal reads the parameters of an SGR sequence: the numbers between the semicolons. */
  function ReadCodes(p: String): seq<int> {
    var parts := SplitAll(p, ';');
    seq(|parts|, k requires 0 <= k < |parts| => DecValue(parts[k]))
  }

  /** The parameter text `c` writes reads back as the codes it joined, in order. */
  lemma JoinCodesRoundTrip(codes: seq<nat>)
    requires codes != []
    ensures ReadCodes(JoinCodes(codes)) == codes
  {
    var ds := Decimals(codes);
    JoinCodesIsJoin(codes);
    forall k | 0 <= k < |ds|
      ensures ';' !in ds[k]
    {
      assert forall i :: 0 <= i < |ds[k]| ==> IsDigit(ds[k][i]);
    }
    SplitJoin(ds, ';');
    forall k | 0 <= k < |codes|
      ensures DecValue(ds[k]) == codes[k]
    {
      DecimalRoundTrip(codes[k]);
    }
  }

  /** `c(msg, color, bold, bgcolor)`: `msg` itself when no attribute is asked for,
      otherwise `msg` between an SGR sequence and the reset sequence. */
  function Colorize(msg: String, color: nat, bold: bool, bgcolor: nat): (r: String)
    ensures (r == msg) <==> (!bold && color == 0 && bgcolor == 0)
    ensures r != msg ==> StartsWith(r, [Esc, '[']) && |r| > |msg| + |Reset|
    ensures r != msg ==> r[|r| - |Reset| - |msg|..] == msg + Reset
  {
    var codes := SgrCodes(color, bold, bgcolor);
    if codes == [] then msg
    else [Esc, '['] + JoinCodes(codes) + ['m'] + msg + Reset
  }

  /** The length of the run of SGR parameter characters at the start of `s`. */
  function ParamRun(s: String): (n: nat)
    ensures n <= |s| && AllParams(s[..n])
    ensures n < |s| ==> !IsParam(s[n])
  {
    if s == [] || !IsParam(s[0]) then 0
    else
      var n := 1 + ParamRun(s[1..]);
      assert s[..n] == [s[0]] + s[1..][..n - 1];
      n
  }

  /** When an attribute is asked for, a terminal reading the output of `c` finds `ESC [`,
      parameters that decode to exactly the SGR codes for the attributes, the final `m`,
      then `msg` and the reset sequence. */
  lemma ColorizeCodes(msg: String, color: nat, bold: bool, bgcolor: nat)
    requires bold || color != 0 || bgcolor != 0
    ensures var r := Colorize(msg, color, bold, bgcolor);
            var n := ParamRun(r[2..]);
            && 2 + n < |r| && r[..2] == [Esc, '['] && r[2 + n] == 'm'
            && ReadCodes(r[2..2 + n]) == SgrCodes(color, bold, bgcolor)
            && r[3 + n..] == msg + Reset
  {
    var codes := SgrCodes(color, bold, bgcolor);
    var p := JoinCodes(codes);
    assert Colorize(msg, color, bold, bgcolor) == [Esc, '['] + p + ['m'] + (msg + Reset);
    SgrFrame(p, msg + Reset);
    JoinCodesRoundTrip(codes);
  }

  /** Where the parts of `ESC [ p m rest` lie, for parameter text `p`. */
  lemma SgrFrame(p: String, rest: String)
    requires AllParams(p)
    ensures var r := [Esc, '['] + p + ['m'] + rest;
            && ParamRun(r[2..]) == |p| && 2 + |p| < |r| && r[..2] == [Esc, '['] && r[2 + |p|] == 'm'
            && r[2..2 + |p|] == p && r[3 + |p|..] == rest
  {
    var r := [Esc, '['] + p + ['m'] + rest;
    assert r[2..] == p + ['m'] + rest;
    ParamRunStopsAt(p, rest);
    assert r[2..2 + |p|] == p;
  }

  /** What a terminal shows of `s`: `s` with every complete `ESC [ params m` sequence removed. */
  function Visible(s: String): String
    decreases |s|
  {
    if s == [] then []
    else if |s| >= 2 && s[0] == Esc && s[1] == '[' && 2 + ParamRun(s[2..]) < |s| && s[2 + ParamRun(s[2..])] == 'm'
    then Visible(s[3 + ParamRun(s[2..])..])
    else [s[0]] + Visible(s[1..])
  }

  lemma ParamRunStopsAt(p: String, rest: String)
    requires AllParams(p)
    ensures ParamRun(p + ['m'] + rest) == |p|
    decreases |p|
  {
    if p != [] {
      assert (p + ['m'] + rest)[1..] == p[1..] + ['m'] + rest;
      ParamRunStopsAt(p[1..], rest);
    }
  }

  /** A complete SGR sequence is invisible. */
  lemma VisibleSkipsSgr(p: String, rest: String)
    requires AllParams(p)
    ensures Visible([Esc, '['] + p + ['m'] + rest) == Visible(rest)
  {
    var s := [Esc, '['] + p + ['m'] + rest;
    assert s[2..] == p + ['m'] + rest;
    ParamRunStopsAt(p, rest);
    assert s[3 + |p|..] == rest;
  }

  /** A character other than ESC is shown as it is. */
  lemma VisibleKeepsPlain(ch: char, rest: String)
    requires ch != Esc
    ensures Visible([ch] + rest) == [ch] + Visible(rest)
  {
    assert ([ch] + rest)[1..] == rest;
  }

  /** Text without ESC followed by a reset shows as the text alone. */
  lemma {:induction false} VisiblePlainThenReset(msg: String, rest: String)
    requires Esc !in msg
    ensures Visible(msg + Reset + rest) == msg + Visible(rest)
  {
    if msg == [] {
      assert msg + Reset + rest == [Esc, '['] + ['0'] + ['m'] + rest;
      VisibleSkipsSgr(['0'], rest);
    } else {
      assert msg + Reset + rest == [msg[0]] + (msg[1..] + Reset + rest);
      VisibleKeepsPlain(msg[0], msg[1..] + Reset + rest);
      VisiblePlainThenReset(msg[1..], rest);
    }
  }

  lemma {:induction false} VisiblePlain(msg: String, rest: String)
    requires Esc !in msg
    ensures Visible(msg + rest) == msg + Visible(rest)
  {
    if msg == [] {
      assert msg + rest == rest;
    } else {
      assert msg + rest == [msg[0]] + (msg[1..] + rest);
      VisibleKeepsPlain(msg[0], msg[1..] + rest);
      VisiblePlain(msg[1..], rest);
    }
  }

  /** Colouring only adds escape sequences: the terminal shows exactly the uncoloured text. */
  lemma ColorizeIsInvisible(msg: String, color: nat, bold: bool, bgcolor: nat, rest: String)
    requires Esc !in msg
    ensures Visible(Colorize(msg, color, bold, bgcolor) + rest) == msg + Visible(rest)
  {
    var codes := SgrCodes(color, bold, bgcolor);
    if codes == [] {
      VisiblePlain(msg, rest);
    } else {
      var p := JoinCodes(codes);
      assert Colorize(msg, color, bold, bgcolor) + rest == [Esc, '['] + p + ['m'] + (msg + Reset + rest);
      VisibleSkipsSgr(p, msg + Reset + rest);
      VisiblePlainThenReset(msg, rest);
    }
  }
}
