/** Reports: mouse events, cursor positions and modes, from the terminal's sequence to what the program is told. */
module TermKeyReports {
  import opened Basics
  import opened TermKeyCsi
  import opened TermKeyKeys
  import opened TermKeyPeek
  import opened TermKeySent

  // ---- places ----

  /** termkey_key_get_linecol; the second and third byte of a mouse key are the low bits, the fourth the high ones. */
  function Column(at: seq<byte>): nat
    requires |at| == 3
  {
    at[0] as int + at[2] as int % 0x10 * 0x100
  }

  function Line(at: seq<byte>): nat
    requires |at| == 3
  {
    at[1] as int + at[2] as int / 0x10 % 8 * 0x100
  }

  lemma SmallInt(x: nat)
    requires x < 0x8000_0000
    ensures ToInt(x) == x
  {
  }

  lemma PlaceRead(c: nat, l: nat)
    requires c <= 0xfff && l <= 0x7ff
    ensures var at: seq<byte> := [c % 0x100, l % 0x100, (c / 0x100) % 0x10 + (l / 0x100) % 4 * 0x10];
            Column(at) == c && Line(at) == l % 0x400
  {
    TwoDigits((c / 0x100) % 0x10, (l / 0x100) % 4);
  }

  lemma TwoDigits(h: nat, k: nat)
    requires h < 0x10 && k < 4
    ensures (h + k * 0x10) % 0x10 == h && (h + k * 0x10) / 0x10 % 8 == k
  {
  }

  /** Packing keeps a column up to 0xfff and caps it there. A line is capped at 0x7ff, but its eleventh bit is masked
      out: it comes back as it was exactly up to 0x3ff. */
  lemma PlaceReadsBack(col: nat, line: nat)
    requires col < 0x8000_0000 && line < 0x8000_0000
    ensures var at := LineCol(col, line);
            && Column(at) == (if col > 0xfff then 0xfff else col)
            && Line(at) == (if line > 0x7ff then 0x7ff else line) % 0x400
            && (Column(at) == col <==> col <= 0xfff) && (Line(at) == line <==> line <= 0x3ff)
  {
    hide Column, Line, ToInt;
    SmallInt(col);
    SmallInt(line);
    PlaceRead(if col > 0xfff then 0xfff else col, if line > 0x7ff then 0x7ff else line);
  }

  // ---- the mouse ----

  datatype Event = UnknownEvent | Press | Drag | Release

  /** termkey_interpret_mouse: the event and the button; 0 is no button. */
  function Interpreted(mouse: seq<byte>): (Event, int)
    requires |mouse| == 4
  {
    var drag := mouse[0] / 0x20 % 2 == 1;
    var code := mouse[0] - mouse[0] / 4 % 0x10 * 4;
    var (event, button) :=
      if 0 <= code <= 2 then (if drag then Drag else Press, code + 1)
      else if code == 3 then (Release, 0)
      else if code == 64 || code == 65 then (if drag then Drag else Press, code + 4 - 64)
      else (UnknownEvent, 0);
    (if mouse[3] >= 0x80 then Release else event, button)
  }

  /** The buttons that a report can tell: 1 to 3, none for a release, 4 and 5 for the wheel. */
  function ButtonCode(button: nat): byte
    requires button <= 5
  {
    if button == 0 then 3 else if button <= 3 then button - 1 else button + 60
  }

  /** The first number of a report: the button, 4 for Shift, 8 for Alt, 16 for Ctrl, and 32 while dragging. */
  function ButtonByte(button: nat, mods: nat, drag: bool): byte
    requires button <= 5 && mods < 8
  {
    ButtonCode(button) + 4 * mods + (if drag then 32 else 0)
  }

  function EventOf(button: nat, drag: bool, release: bool): Event {
    if release || button == 0 then Release else if drag then Drag else Press
  }

  /** The modifiers and the button, taken apart. */
  lemma ButtonApart(button: nat, mods: nat, drag: bool)
    requires button <= 5 && mods < 8
    ensures var b, d := ButtonByte(button, mods, drag), if drag then 32 else 0;
            && b / 4 % 8 == mods && b - 4 * mods == ButtonCode(button) + d
    ensures var d := if drag then 32 else 0; var c := ButtonCode(button) + d;
            c / 0x20 % 2 == (if drag then 1 else 0) && c - c / 4 % 0x10 * 4 == ButtonCode(button)
  {
    var q, d := if button == 4 || button == 5 then 16 else 0, if drag then 8 else 0;
    var low := ButtonCode(button) - 4 * q;
    assert ButtonByte(button, mods, drag) == 4 * (q + d + mods) + low;
    assert (q + d + mods) % 8 == mods;
  }

  lemma ButtonReadsBack(button: nat, mods: nat, drag: bool, at: seq<byte>, release: bool)
    requires button <= 5 && mods < 8 && |at| == 3 && (release <==> at[2] >= 0x80)
    ensures var key := MouseKey(ButtonByte(button, mods, drag), at);
            && key.modifiers == mods && key.code.Mouse? && |key.code.bytes| == 4 && key.code.bytes[1..] == at
            && Interpreted(key.code.bytes) == (EventOf(button, drag, release), button)
  {
    hide ButtonByte;
    ButtonApart(button, mods, drag);
  }

  /** The key tells this event, button and place. */
  predicate Tells(code: Code, event: Event, button: nat, col: nat, line: nat) {
    && code.Mouse? && |code.bytes| == 4 && Interpreted(code.bytes) == (event, button)
    && Column(code.bytes[1..]) == col && Line(code.bytes[1..]) == line
  }

  /** A mouse event in the SGR encoding, or in rxvt's, which has no releases of its own: what the program is told is
      what the terminal had to tell, modifiers and all; but for columns beyond 0xfff and lines beyond 0x3ff. */
  lemma MouseReport(short: bool, sgr: bool, button: nat, mods: nat, drag: bool, col: nat, line: nat, release: bool,
                    rest: seq<byte>, force: bool, cfg: Config, id: nat)
    requires cfg.started && button <= 5 && mods < 8 && col < 0x8000_0000 && line < 0x8000_0000 && (release ==> sgr)
    ensures var s := Encode(if sgr then Some(0x3c) else None,
                            [Some(ButtonByte(button, mods, drag)), Some(col), Some(line)], None,
                            if release then 0x6d else 0x4d);
            var r := Peek(Intro(CSI, short) + (s + rest), force, cfg, id);
            && r.Got? && r.n == |Intro(CSI, short)| + |s| && r.tide == 0 && r.key.mods == Put(mods)
            && Tells(r.key.code, EventOf(button, drag, release), button, if col > 0xfff then 0xfff else col,
                     (if line > 0x7ff then 0x7ff else line) % 0x400)
  {
    hide Peek, Encode, Values, Trim, ButtonByte, Interpreted, EventOf, LineCol, Column, Line;
    var b := ButtonByte(button, mods, drag);
    ThreeArgs(b, col, line);
    PlaceReadsBack(col, line);
    HighBit(col, line);
    var at := LineCol(col, line);
    ButtonReadsBack(button, mods, drag, if release then at[2 := at[2] + 0x80] else at, release);
    MouseHandled(sgr, b, col, line, release, cfg);
    CsiAt(short, if sgr then Some(0x3c) else None, [Some(b), Some(col), Some(line)], None,
          if release then 0x6d else 0x4d, rest, force, cfg, id);
    if release { ReleasedPlace(at); }
  }

  lemma HighBit(col: nat, line: nat)
    ensures |LineCol(col, line)| == 3 && LineCol(col, line)[2] < 0x80
  {
  }

  lemma BitApart(b: nat)
    requires b < 0x80
    ensures (b + 0x80) % 0x10 == b % 0x10 && (b + 0x80) / 0x10 == b / 0x10 + 8 && (b / 0x10 + 8) % 8 == b / 0x10 % 8
  {
  }

  /** The bit of a release is not part of the place. */
  lemma ReleasedPlace(at: seq<byte>)
    requires |at| == 3 && at[2] < 0x80
    ensures var at' := at[2 := at[2] + 0x80]; Column(at') == Column(at) && Line(at') == Line(at)
  {
    BitApart(at[2]);
  }

  lemma MouseHandled(sgr: bool, b: byte, col: nat, line: nat, release: bool, cfg: Config)
    requires (release ==> sgr) && |LineCol(col, line)| == 3 && LineCol(col, line)[2] < 0x80
    ensures var cmd := Command(if release then 0x6d else 0x4d, if sgr then 0x3c else 0, 0);
            var at := LineCol(col, line);
            && !IsX10(cmd, [b, col, line])
            && Handle(cfg, cmd, [b, col, line]) ==
               Done(Whole(MouseKey(b, if release then at[2 := at[2] + 0x80] else at)))
  {
    hide LineCol;
  }

  lemma ButtonLow(button: nat, mods: nat, drag: bool)
    requires button <= 5 && mods < 8
    ensures ButtonByte(button, mods, drag) < 0x80
  {
  }

  lemma X10Peeked(p: seq<byte>, intro: nat, params: seq<Option<nat>>, b: byte, col: byte, line: byte, rest: seq<byte>,
                  force: bool, cfg: Config)
    requires b < 0xe0 && col < 0xe0 && line < 0xe0 && intro <= |p| && Fitting(params) && |Trim(params)| < 3
    requires p[intro..] == Encode(None, params, None, 0x4d) + ([b + 0x20, col + 0x20, line + 0x20] + rest)
    ensures PeekCsi(p, intro, force, cfg) ==
            Got(Whole(MouseKey(b, [col, line, 0])), intro + |Encode(None, params, None, 0x4d)| + 3, 0, None, None)
  {
    hide Parse, MouseKey, Encode, Values, Trim, Fitting;
    var s, told := Encode(None, params, None, 0x4d), [b + 0x20, col + 0x20, line + 0x20] + rest;
    RoundTrip(None, params, None, 0x4d, told);
    ValuesAt(Trim(params));
    assert p[intro + |s|..] == p[intro..][|s|..] == told;
  }

  /** A mouse event in the X10 encoding: three bytes behind the sequence, which has fewer than three parameters, each
      0x20 more than what it tells. */
  lemma X10Report(short: bool, params: seq<Option<nat>>, button: nat, mods: nat, drag: bool, col: byte, line: byte,
                  rest: seq<byte>, force: bool, cfg: Config, id: nat)
    requires cfg.started && button <= 5 && mods < 8 && col < 0xe0 && line < 0xe0
    requires Fitting(params) && |Trim(params)| < 3
    ensures var s := Encode(None, params, None, 0x4d);
            var told: seq<byte> := [ButtonByte(button, mods, drag) + 0x20, col + 0x20, line + 0x20];
            var r := Peek(Intro(CSI, short) + (s + (told + rest)), force, cfg, id);
            && r.Got? && r.n == |Intro(CSI, short)| + |s| + 3 && r.tide == 0 && r.key.mods == Put(mods)
            && Tells(r.key.code, EventOf(button, drag, false), button, col, line)
  {
    hide Peek, PeekCsi, MouseKey, ButtonByte, Interpreted, EventOf, Column, Line, Encode, Trim, Fitting;
    var b := ButtonByte(button, mods, drag);
    ButtonLow(button, mods, drag);
    var body := Encode(None, params, None, 0x4d) + ([b + 0x20, col + 0x20, line + 0x20] + rest);
    DriverAt(CSI, short, body, force, cfg, id);
    X10Peeked(Intro(CSI, short) + body, |Intro(CSI, short)|, params, b, col, line, rest, force, cfg);
    ButtonReadsBack(button, mods, drag, [col, line, 0], false);
    PlaceRead(col, line);
  }

  // ---- the cursor ----

  /** The report of the cursor's line and column; the modifiers are left alone. */
  lemma PositionReport(short: bool, line: nat, col: nat, rest: seq<byte>, force: bool, cfg: Config, id: nat)
    requires cfg.started && col < 0x8000_0000 && line < 0x8000_0000
    ensures var s := Encode(Some(0x3f), [Some(line), Some(col)], None, 0x52);
            var r := Peek(Intro(CSI, short) + (s + rest), force, cfg, id);
            && r.Got? && r.n == |Intro(CSI, short)| + |s| && r.tide == 0 && r.key.mods == Keep
            && r.key.code.Position? && |r.key.code.linecol| == 3
            && Column(r.key.code.linecol) == (if col > 0xfff then 0xfff else col)
            && Line(r.key.code.linecol) == (if line > 0x7ff then 0x7ff else line) % 0x400
  {
    hide Peek, Encode, Values, Trim, LineCol, Column, Line;
    TwoArgs(line, col);
    PlaceReadsBack(col, line);
    HighBit(col, line);
    CsiAt(short, Some(0x3f), [Some(line), Some(col)], None, 0x52, rest, force, cfg, id);
  }

  lemma TwoArgs(a: nat, b: nat)
    requires a <= MAX_LONG && b <= MAX_LONG
    ensures var params := [Some(a), Some(b)];
            Fitting(params) && Values(Trim(params)) == [a, b]
  {
    var params := [Some(a), Some(b)];
    assert Trim(params) == params;
    ValuesAt(params);
  }

  // ---- modes ----

  /** A byte of the key read as a plain char, which is signed or not. */
  function Char(b: byte, signed: bool): int {
    if signed && b >= 0x80 then b - 0x100 else b
  }

  /** termkey_interpret_modereport: the initial byte, the mode and its value. The two bytes of the mode are joined by
      |, and all the higher bits of a negative char are set. */
  function ModeTold(report: seq<byte>, signed: bool): (int, int, int)
    requires |report| == 4
  {
    var high, low := Char(report[1], signed), Char(report[2], signed);
    (Char(report[0], signed), if low < 0 then low else high * 0x100 + low, Char(report[3], signed))
  }

  /** The report of a mode, of DEC's or not: the mode comes back as it was exactly below 0x10000; but where a plain char
      is signed only below 0x8000, and only when its low byte is below 0x80. */
  lemma ModeReportTold(short: bool, dec: bool, mode: nat, value: nat, signed: bool, rest: seq<byte>, force: bool,
                       cfg: Config, id: nat)
    requires cfg.started && mode <= MAX_LONG && value <= MAX_LONG
    ensures var s := Encode(if dec then Some(0x3f) else None, [Some(mode), Some(value)], Some(0x24), 0x79);
            var r := Peek(Intro(CSI, short) + (s + rest), force, cfg, id);
            && r.Got? && r.n == |Intro(CSI, short)| + |s| && r.tide == 0 && r.key.mods == Keep
            && r.key.code.ModeReport? && |r.key.code.report| == 4
            && var (initial, mode', value') := ModeTold(r.key.code.report, signed);
               && initial == (if dec then 0x3f else 0)
               && (mode' == mode <==> if signed then mode < 0x8000 && mode % 0x100 < 0x80 else mode < 0x1_0000)
               && (value' == value <==> if signed then value < 0x80 else value < 0x100)
  {
    hide Peek, Encode, Values, Trim;
    TwoArgs(mode, value);
    CsiAt(short, if dec then Some(0x3f) else None, [Some(mode), Some(value)], Some(0x24), 0x79, rest, force, cfg, id);
  }

  /** Mode 2004, of bracketed paste, comes back as -44 where a plain char is signed. */
  lemma BracketedPaste(short: bool, rest: seq<byte>, force: bool, cfg: Config, id: nat)
    requires cfg.started
    ensures var s := Encode(Some(0x3f), [Some(2004), Some(1)], Some(0x24), 0x79);
            var r := Peek(Intro(CSI, short) + (s + rest), force, cfg, id);
            && r.Got? && r.key.code == ModeReport([0x3f, 0x07, 0xd4, 1])
            && ModeTold(r.key.code.report, true) == (0x3f, -44, 1)
            && ModeTold(r.key.code.report, false) == (0x3f, 2004, 1)
  {
    hide Peek, Encode, Values, Trim;
    TwoArgs(2004, 1);
    CsiAt(short, Some(0x3f), [Some(2004), Some(1)], Some(0x24), 0x79, rest, force, cfg, id);
  }
}
