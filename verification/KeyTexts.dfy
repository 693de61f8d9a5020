/** The texts of keys as termkey.c has them: the names of modifiers and symbols, how a text is laid out, and what the
    parser makes of texts that nothing has printed. */
module KeyTexts {
  import opened Basics
  import opened KeyNames
  import opened TermKeyKeys
  import Csi = TermKeyCsi
  import Utf8 = TermKeyUtf8

  /** The text is that of the string, letter by letter. */
  predicate Spells(t: Text, s: string) {
    |t| == |s| && forall i | 0 <= i < |s| :: t[i] == s[i] as int
  }

  // ---- modifiers ----

  /** The rows of the table `modnames`: shift, alt, control. */
  const MODNAMES: seq<(string, string, string)> :=
    [("S", "A", "C"), ("Shift", "Alt", "Ctrl"), ("S", "M", "C"), ("Shift", "Meta", "Ctrl"),
     ("s", "a", "c"), ("shift", "alt", "ctrl"), ("s", "m", "c"), ("shift", "meta", "ctrl")]

  function Row(f: Format): (string, string, string) {
    MODNAMES[(if f.longMod then 1 else 0) + (if f.altIsMeta then 2 else 0) + (if f.lowerMod then 4 else 0)]
  }

  lemma ShiftText(f: Format)
    ensures Spells(ShiftName(f), Row(f).0)
  {
  }

  lemma AltText(f: Format)
    ensures Spells(AltName(f), Row(f).1)
  {
  }

  lemma CtrlText(f: Format)
    ensures Spells(CtrlName(f), Row(f).2)
  {
  }

  lemma ModifierTexts(f: Format)
    ensures Spells(ShiftName(f), Row(f).0) && Spells(AltName(f), Row(f).1) && Spells(CtrlName(f), Row(f).2)
  {
    hide AltName, CtrlName, ShiftName, Row, Spells;
    ShiftText(f);
    AltText(f);
    CtrlText(f);
  }

  function Part(there: bool, name: string, f: Format): string {
    if there then name + (if f.spaceMod then " " else "-") else ""
  }

  lemma PartText(there: bool, t: Text, name: string, f: Format)
    requires Spells(t, name)
    ensures Spells(if there then t + [Sep(f)] else [], Part(there, name, f))
  {
  }

  lemma SpellsThree(t: Text, a: string, t': Text, a': string, t'': Text, a'': string)
    requires Spells(t, a) && Spells(t', a') && Spells(t'', a'')
    ensures Spells(t + t' + t'', a + a' + a'')
  {
  }

  /** Alt stands before control, and that before shift, each with its separator. */
  lemma PrefixText(shift: bool, alt: bool, ctrl: bool, f: Format)
    ensures var mods := (if shift then 1 else 0) + (if alt then 2 else 0) + (if ctrl then 4 else 0);
            Spells(Prefix(mods, f), Part(alt, Row(f).1, f) + Part(ctrl, Row(f).2, f) + Part(shift, Row(f).0, f))
  {
    hide AltName, CtrlName, ShiftName, Row, Spells, Part, Sep;
    ModifierTexts(f);
    PartText(alt, AltName(f), Row(f).1, f);
    PartText(ctrl, CtrlName(f), Row(f).2, f);
    PartText(shift, ShiftName(f), Row(f).0, f);
    SpellsThree(if alt then AltName(f) + [Sep(f)] else [], Part(alt, Row(f).1, f),
                if ctrl then CtrlName(f) + [Sep(f)] else [], Part(ctrl, Row(f).2, f),
                if shift then ShiftName(f) + [Sep(f)] else [], Part(shift, Row(f).0, f));
  }

  // ---- symbols ----

  /** The names that go with the symbols of termkey.h. */
  lemma NamesAre()
    ensures NameOf(SYM_BACKSPACE) == "Backspace" && NameOf(SYM_TAB) == "Tab" && NameOf(SYM_ENTER) == "Enter" &&
            NameOf(SYM_ESCAPE) == "Escape" && NameOf(SYM_SPACE) == "Space" && NameOf(SYM_DEL) == "DEL" &&
            NameOf(SYM_UP) == "Up" && NameOf(SYM_DOWN) == "Down" && NameOf(SYM_LEFT) == "Left" &&
            NameOf(SYM_RIGHT) == "Right" && NameOf(SYM_BEGIN) == "Begin" && NameOf(SYM_FIND) == "Find" &&
            NameOf(SYM_INSERT) == "Insert" && NameOf(SYM_DELETE) == "Delete" && NameOf(SYM_SELECT) == "Select" &&
            NameOf(SYM_PAGEUP) == "PageUp" && NameOf(SYM_PAGEDOWN) == "PageDown" && NameOf(SYM_HOME) == "Home" &&
            NameOf(SYM_END) == "End"
  {
  }

  lemma TerminfoNamesAre()
    ensures NameOf(SYM_CANCEL) == "Cancel" && NameOf(SYM_CLEAR) == "Clear" && NameOf(SYM_CLOSE) == "Close" &&
            NameOf(SYM_COMMAND) == "Command" && NameOf(SYM_COPY) == "Copy" && NameOf(SYM_EXIT) == "Exit" &&
            NameOf(SYM_HELP) == "Help" && NameOf(SYM_MARK) == "Mark" && NameOf(SYM_MESSAGE) == "Message" &&
            NameOf(SYM_MOVE) == "Move" && NameOf(SYM_OPEN) == "Open" && NameOf(SYM_OPTIONS) == "Options" &&
            NameOf(SYM_PRINT) == "Print" && NameOf(SYM_REDO) == "Redo" && NameOf(SYM_REFERENCE) == "Reference" &&
            NameOf(SYM_REFRESH) == "Refresh" && NameOf(SYM_REPLACE) == "Replace" &&
            NameOf(SYM_RESTART) == "Restart" && NameOf(SYM_RESUME) == "Resume" && NameOf(SYM_SAVE) == "Save" &&
            NameOf(SYM_SUSPEND) == "Suspend" && NameOf(SYM_UNDO) == "Undo"
  {
  }

  lemma KeypadDigitsAre()
    ensures NameOf(SYM_KP0) == "KP0" && NameOf(SYM_KP1) == "KP1" && NameOf(SYM_KP2) == "KP2" &&
            NameOf(SYM_KP3) == "KP3" && NameOf(SYM_KP4) == "KP4" && NameOf(SYM_KP5) == "KP5" &&
            NameOf(SYM_KP6) == "KP6" && NameOf(SYM_KP7) == "KP7" && NameOf(SYM_KP8) == "KP8" &&
            NameOf(SYM_KP9) == "KP9"
  {
  }

  lemma KeypadNamesAre()
    ensures NameOf(SYM_KPENTER) == "KPEnter" && NameOf(SYM_KPPLUS) == "KPPlus" &&
            NameOf(SYM_KPMINUS) == "KPMinus" && NameOf(SYM_KPMULT) == "KPMult" && NameOf(SYM_KPDIV) == "KPDiv" &&
            NameOf(SYM_KPCOMMA) == "KPComma" && NameOf(SYM_KPPERIOD) == "KPPeriod" &&
            NameOf(SYM_KPEQUALS) == "KPEquals"
  {
  }

  /** NONE, which is 0, asks for a number of its own and gets the next; nothing else has a name. */
  lemma NoOtherNames(sym: int)
    ensures NameOf(64) == "NONE"
    ensures sym <= SYM_NONE || (SYM_KPEQUALS < sym && sym != 64) ==> NameOf(sym) == ""
  {
  }

  // ---- numbers ----

  lemma {:induction false} NoLeadingZero(n: nat)
    ensures Csi.Digits(n)[0] == 0x30 <==> n == 0
  {
    if n >= 10 { NoLeadingZero(n / 10); }
  }

  /** A function key is F and its number in decimal, without leading zeros. */
  lemma FunctionText(n: nat, f: Format, names: Names)
    ensures Print(Key(Function(n), 0), f, names) == Some([0x46] + Csi.Digits(n))
    ensures var d := Csi.Digits(n);
            Number(d) == n && (d[0] == 0x30 <==> n == 0) && forall i | 0 <= i < |d| :: 0x30 <= d[i] <= 0x39
  {
    NumberOfDigits(n);
    NoLeadingZero(n);
    var s := [0x46] + Csi.Digits(n);
    assert Prefix(0, f) == [] && [] + s == s;
  }

  // ---- what the parser takes ----

  function Zeros(k: nat): Text {
    seq(k, _ => 0x30)
  }

  lemma {:induction false} NumberWithZeros(k: nat, d: Text)
    ensures Number(Zeros(k) + d) == Number(d)
    decreases |d| + k
  {
    var t := Zeros(k) + d;
    if |d| > 0 {
      NumberWithZeros(k, d[..|d| - 1]);
      assert t[..|t| - 1] == Zeros(k) + d[..|d| - 1];
    } else if k > 0 {
      NumberWithZeros(k - 1, d);
      assert t[..|t| - 1] == Zeros(k - 1) + d;
    }
  }

  lemma {:induction false} SpacesPass(s: Text, t: Text)
    requires forall i | 0 <= i < |s| :: s[i] == 0x20 || 0x09 <= s[i] <= 0x0d
    requires |t| > 0 ==> !(t[0] == 0x20 || 0x09 <= t[0] <= 0x0d)
    ensures Spaces(s + t) == |s|
  {
    if |s| > 0 {
      SpacesPass(s[1..], t);
      assert (s + t)[1..] == s[1..] + t;
    } else {
      assert s + t == t;
    }
  }

  lemma {:induction false} DigitsPass(d: Text, rest: Text)
    requires forall i | 0 <= i < |d| :: 0x30 <= d[i] <= 0x39
    requires |rest| > 0 ==> !(0x30 <= rest[0] <= 0x39)
    ensures DigitRun(d + rest) == |d|
  {
    if |d| > 0 {
      DigitsPass(d[1..], rest);
      assert (d + rest)[1..] == d[1..] + rest;
    } else {
      assert d + rest == rest;
    }
  }

  datatype Sign = Plus | Minus | Unsigned

  function SignText(sign: Sign): Text {
    match sign
    case Plus => [0x2b]
    case Minus => [0x2d]
    case Unsigned => []
  }

  lemma Unsign(sign: Sign, d: Text, rest: Text)
    requires |d| > 0 && 0x30 <= d[0] <= 0x39
    ensures var u := SignText(sign) + (d + rest);
            && u[|SignText(sign)|..] == d + rest && u[|SignText(sign)|..][..|d|] == d
            && (u[0] == 0x2b <==> sign.Plus?) && (u[0] == 0x2d <==> sign.Minus?)
            && !(u[0] == 0x20 || 0x09 <= u[0] <= 0x0d)
  {
  }

  /** The number of digits that begin at a place of the text. */
  lemma ScanAt(s: Text, i: nat, sign: Sign, d: Text)
    requires |s| > 0 && s[0] == 0x46 && i == 1 + Spaces(s[1..]) < |s|
    requires (s[i] == 0x2b <==> sign.Plus?) && (s[i] == 0x2d <==> sign.Minus?)
    requires var j := i + |SignText(sign)|; j <= |s| && DigitRun(s[j..]) == |d| > 0 && s[j..][..|d|] == d
    ensures ScanFunction(s) == Some((if sign.Minus? then -Number(d) else Number(d), i + |SignText(sign)| + |d|))
  {
    hide Spaces, DigitRun, Number;
    var j := i + |SignText(sign)|;
    assert s[j..j + |d|] == s[j..][..|d|];
  }

  /** sscanf takes white space in front of the number, a sign, and leading zeros, and the number ends where its digits
      do. */
  lemma FunctionNumber(blank: Text, sign: Sign, k: nat, n: nat, rest: Text)
    requires forall i | 0 <= i < |blank| :: blank[i] == 0x20 || 0x09 <= blank[i] <= 0x0d
    requires |rest| > 0 ==> !(0x30 <= rest[0] <= 0x39)
    ensures var d := Zeros(k) + Csi.Digits(n);
            ScanFunction([0x46] + (blank + (SignText(sign) + (d + rest)))) ==
            Some((if sign.Minus? then -(n as int) else n, 1 + |blank| + |SignText(sign)| + |d|))
  {
    hide Spaces, DigitRun, Number, SignText, ScanFunction;
    var d := Zeros(k) + Csi.Digits(n);
    var u := SignText(sign) + (d + rest);
    var s := [0x46] + (blank + u);
    var i := 1 + |blank|;
    NumberWithZeros(k, Csi.Digits(n));
    NumberOfDigits(n);
    Unsign(sign, d, rest);
    assert s[1..] == blank + u && s[i..] == u && s[i] == u[0];
    SpacesPass(blank, u);
    assert s[i + |SignText(sign)|..] == u[|SignText(sign)|..];
    DigitsPass(d, rest);
    ScanAt(s, i, sign, d);
  }

  /** The search gives the first symbol of the table whose name the text begins with. */
  lemma {:induction false} LookupFirst(s: Text, names: Names, sym: nat)
    requires sym <= |names|
    ensures match Lookup(s, names, sym)
            case None => forall i | sym <= i < |names| && names[i].Some? :: !(names[i].value <= s)
            case Some(k) =>
              && sym <= k < |names| && names[k].Some? && names[k].value <= s
              && forall i | sym <= i < k && names[i].Some? :: !(names[i].value <= s)
    decreases |names| - sym
  {
    if sym < |names| { LookupFirst(s, names, sym + 1); }
  }

  /** The modifiers whose names stand one after another in front of the text, and nothing behind them. */
  ghost predicate NoModBegins(s: Text, f: Format) {
    forall bit | bit == ALT || bit == CTRL || bit == SHIFT :: !(ModName(bit, f) + [Sep(f)] <= s)
  }

  /** The parser takes all the modifiers there are in front, in any order and however often each of them stands
      there, and stops at the first word that is none. */
  lemma {:induction false} ModsTaken(ms: seq<int>, rest: Text, f: Format, mods: int)
    requires AreMods(ms) && NoModBegins(rest, f) && 0 <= mods < 8
    ensures var r := ParseMods(ModText(ms, f) + rest, f, mods);
            && r.1 == rest && 0 <= r.0 < 8
            && forall bit | bit == ALT || bit == CTRL || bit == SHIFT :: Has(r.0, bit) <==> Has(mods, bit) || bit in ms
    decreases |ms|
  {
    hide ParseMods, ModOf, AltName, CtrlName, ShiftName, NoModBegins;
    if |ms| == 0 {
      assert ModText(ms, f) + rest == rest;
      NoneTaken(rest, f, mods);
    } else {
      ModNames(f);
      var w, more := ModName(ms[0], f), ModText(ms[1..], f);
      assert ModText(ms, f) + rest == w + [Sep(f)] + (more + rest);
      PassMod(w, ms[0], more + rest, f, mods);
      OneBitMore(mods, ms[0]);
      ModsTaken(ms[1..], rest, f, WithBit(mods, ms[0]));
      assert forall bit :: bit in ms <==> bit == ms[0] || bit in ms[1..];
    }
  }

  lemma OneBitMore(mods: int, bit: int)
    requires 0 <= mods < 8 && (bit == ALT || bit == CTRL || bit == SHIFT)
    ensures 0 <= WithBit(mods, bit) < 8
    ensures forall b | b == ALT || b == CTRL || b == SHIFT :: Has(WithBit(mods, bit), b) <==> Has(mods, b) || b == bit
  {
  }

  lemma NoneTaken(s: Text, f: Format, mods: int)
    requires NoModBegins(s, f)
    ensures ParseMods(s, f, mods) == (mods, s)
  {
    hide ModOf, NoModBegins;
    var i := IndexOf(s, Sep(f));
    if i < |s| && ModOf(s[..i], f).Some? { ModBegins(s, i, f); }
  }

  lemma ModBegins(s: Text, i: nat, f: Format)
    requires i < |s| && s[i] == Sep(f) && ModOf(s[..i], f).Some?
    ensures !NoModBegins(s, f)
  {
    hide ModOf, ModName;
    NamedBit(s[..i], f);
    assert s[..i] + [s[i]] == s[..i + 1];
  }

  // ---- what follows the text of a key is left ----

  /** The name of a symbol, with anything behind it. */
  lemma NameThenRest(sym: nat, rest: Text, mods: int, names: Names, cfg: Config)
    requires Usable(names) && sym < |names| && names[sym].Some?
    ensures ParseBody(names[sym].value + rest, mods, names, cfg) == Parsed(Canonical(cfg, Key(Keysym(sym), mods)), rest)
  {
    hide Lookup, Canonical, UsableName;
    var name := names[sym].value;
    var s := name + rest;
    forall i | 0 <= i < |names| && i != sym && names[i].Some? ensures !(names[i].value <= s) {
      if names[i].value <= s { BothBegin(names[i].value, name, s); }
    }
    LookupIs(s, names, 0, sym);
    assert s[|name|..] == rest;
  }

  lemma BothBegin(a: Text, b: Text, s: Text)
    requires a <= s && b <= s
    ensures a <= b || b <= a
  {
  }

  lemma NoNameBegins(s: Text, names: Names)
    requires Usable(names) && |s| > 1 && s[0] == 0x46 && 0x30 <= s[1] <= 0x39
    ensures Lookup(s, names, 0) == None
  {
    forall i | 0 <= i < |names| && names[i].Some? ensures !(names[i].value <= s) {
      assert UsableName(names[i].value);
    }
    LookupNone(s, names, 0);
  }

  lemma FunctionScans(n: nat, rest: Text)
    requires |rest| > 0 ==> !(0x30 <= rest[0] <= 0x39)
    ensures ScanFunction([0x46] + Csi.Digits(n) + rest) == Some((n as int, 1 + |Csi.Digits(n)|))
  {
    hide ScanFunction, Csi.Digits;
    var d := Csi.Digits(n);
    FunctionNumber([], Unsigned, 0, n, rest);
    assert Zeros(0) + d == d;
    assert [0x46] + d + rest == [0x46] + ([] + (SignText(Unsigned) + (d + rest)));
  }

  lemma FunctionCanonical(cfg: Config, n: int, mods: int)
    ensures Canonical(cfg, Key(Function(n), mods)) == Key(Function(n), mods)
  {
  }

  /** The number of a function key, up to the first byte that is no digit. */
  lemma FunctionThenRest(n: nat, rest: Text, mods: int, names: Names, cfg: Config)
    requires Usable(names) && (|rest| > 0 ==> !(0x30 <= rest[0] <= 0x39))
    ensures ParseBody([0x46] + Csi.Digits(n) + rest, mods, names, cfg) == Parsed(Key(Function(n), mods), rest)
  {
    hide Lookup, ScanFunction, Usable, Canonical, Csi.Digits;
    var d := Csi.Digits(n);
    var s := [0x46] + d + rest;
    FunctionCanonical(cfg, n, mods);
    FunctionScans(n, rest);
    assert s[1] == d[0];
    NoNameBegins(s, names);
    assert s[1 + |d|..] == rest;
  }

  /** A character, where no name begins with it and it is not the F of a function key. */
  lemma CharacterThenRest(cp: int, rest: Text, mods: int, names: Names, cfg: Config)
    requires Allowed(cp) && ScanFunction(Utf8.Fill(cp) + rest).None?
    requires forall i | 0 <= i < |names| && names[i].Some? :: !(names[i].value <= Utf8.Fill(cp) + rest)
    ensures ParseBody(Utf8.Fill(cp) + rest, mods, names, cfg) ==
            Parsed(Canonical(cfg, Key(UnicodeCode(cp), mods)), rest)
  {
    hide Lookup, ScanFunction, Canonical, Utf8.Parse, Utf8.Fill;
    var s := Utf8.Fill(cp) + rest;
    LookupNone(s, names, 0);
    Utf8.ParseOfFill(cp, rest);
    assert s[|Utf8.Fill(cp)|..] == rest;
  }

  // ---- control keys with a caret ----

  /** A control byte without a name is a key that prints as ^ and the character 0x40 above it. */
  lemma CaretText(b: byte, cfg: Config, f: Format, names: Names)
    requires 0 < b < 0x20 && (cfg.noInterpret || (b != 0x09 && b != 0x0d && b != 0x1b)) && f.caretCtrl
    ensures Emit(cfg, b).Some? && Print(Emit(cfg, b).value, f, names) == Some([0x5e, b + 0x40])
  {
  }

  // ---- canonical keys ----

  /** Only a space and DEL have two forms; every other key is left as it is. */
  lemma CanonicalForms(cfg: Config, key: Key)
    ensures var k := Canonical(cfg, key);
            var space := key.code == Keysym(SYM_SPACE) || (key.code.Unicode? && key.code.cp == 0x20);
            && k.modifiers == key.modifiers && Canonical(cfg, k) == k
            && (space && cfg.spaceSymbol ==> k.code == Keysym(SYM_SPACE))
            && (space && !cfg.spaceSymbol ==> k.code == if key.code.Unicode? then key.code else Unicode(0x20, [0x20]))
            && (key.code == Keysym(SYM_DEL) ==> k.code == Keysym(if cfg.delIsBackspace then SYM_BACKSPACE else SYM_DEL))
            && (!space && key.code != Keysym(SYM_DEL) ==> k == key)
  {
    hide Utf8.Fill;
    Utf8.FillIs(0x20);
  }

  // ---- what a caret takes ----

  /** A character is taken as it stands. */
  lemma CharacterAlone(cp: int, f: Format, names: Names, cfg: Config)
    requires Usable(names) && Allowed(cp) && !f.caretCtrl
    ensures Parse(Utf8.Fill(cp), f, names, cfg) == Parsed(Canonical(cfg, Key(UnicodeCode(cp), 0)), [])
  {
    hide Lookup, ScanFunction, Canonical, Utf8.Parse, Utf8.Fill, Usable;
    var c := Utf8.Fill(cp);
    assert c[|c|..] == [];
    FillStart(cp);
    StopAt(c, f, 0);
    CharParses(names, cp);
  }

  /** Behind a caret a character from @ to _ is taken, letters as small ones with Ctrl, and nothing else. */
  lemma CaretTaken(cp: int, f: Format, names: Names, cfg: Config)
    requires Usable(names) && Allowed(cp) && f.caretCtrl
    ensures Parse([0x5e] + Utf8.Fill(cp), f, names, cfg) ==
            if 0x41 <= cp <= 0x5a then Parsed(Key(Unicode(cp + 0x20, [cp + 0x20]), CTRL), [])
            else if 0x40 <= cp <= 0x5f then Parsed(Key(Unicode(cp, [cp]), CTRL), [])
            else NoKey
  {
    hide ParseMods, ParseBody, Canonical, Utf8.Fill, Usable;
    assert ([0x5e] + Utf8.Fill(cp))[1..] == Utf8.Fill(cp);
    CharacterAlone(cp, f.(caretCtrl := false), names, cfg);
    CanonicalForms(cfg, Key(UnicodeCode(cp), 0));
    if 0x41 <= cp <= 0x5a { Utf8.FillIs(cp + 0x20); }
    if 0x40 <= cp <= 0x5f { Utf8.FillIs(cp); }
  }
}
