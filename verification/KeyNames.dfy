/** Keys as text: termkey_strfkey prints a key, termkey_strpkey parses one. */
module KeyNames {
  import opened Basics
  import opened TermKeyKeys
  import Csi = TermKeyCsi
  import Utf8 = TermKeyUtf8

  /** The format flags; wrapping brackets and spaced lower-case names are not among them. */
  datatype Format = Format(longMod: bool, caretCtrl: bool, altIsMeta: bool, spaceMod: bool, lowerMod: bool)

  type Text = seq<byte>

  /** The bytes of an ASCII string. */
  function Ascii(s: string): (t: Text)
    ensures |t| == |s|
  {
    seq(|s|, i requires 0 <= i < |s| => s[i] as int % 0x100)
  }

  const DASH := 0x2d
  const BLANK := 0x20
  const CARET := 0x5e
  const UPPER_F := 0x46

  function Sep(f: Format): byte {
    if f.spaceMod then BLANK else DASH
  }

  function AltName(f: Format): Text {
    Ascii(if f.longMod then (if f.altIsMeta then (if f.lowerMod then "meta" else "Meta")
                             else if f.lowerMod then "alt" else "Alt")
          else if f.altIsMeta then (if f.lowerMod then "m" else "M")
          else if f.lowerMod then "a" else "A")
  }

  function CtrlName(f: Format): Text {
    Ascii(if f.longMod then (if f.lowerMod then "ctrl" else "Ctrl") else if f.lowerMod then "c" else "C")
  }

  function ShiftName(f: Format): Text {
    Ascii(if f.longMod then (if f.lowerMod then "shift" else "Shift") else if f.lowerMod then "s" else "S")
  }

  /** The table of key names; a symbol without a name has a hole there. */
  type Names = seq<Option<Text>>

  predicate Has(mods: int, bit: int)
    requires bit > 0
  {
    (mods / bit) % 2 == 1
  }

  // ---- printing ----

  /** The character that ^X writes for a control key, if it writes it so. */
  function CaretChar(cp: int): Option<byte> {
    if 0x61 <= cp <= 0x7a then Some(cp - 0x20)
    else if cp == 0x40 || 0x5b <= cp <= 0x5f then Some(cp)
    else None
  }

  function Body(key: Key, names: Names): Option<Text> {
    match key.code
    case Unicode(_, utf8) => Some(utf8)
    case Keysym(sym) => if 0 <= sym < |names| then names[sym] else None
    case Function(number) => if number >= 0 then Some([UPPER_F] + Csi.Digits(number)) else None
    case _ => None
  }

  function Prefix(mods: int, f: Format): Text {
    (if Has(mods, ALT) then AltName(f) + [Sep(f)] else []) +
    (if Has(mods, CTRL) then CtrlName(f) + [Sep(f)] else []) +
    (if Has(mods, SHIFT) then ShiftName(f) + [Sep(f)] else [])
  }

  /** termkey_strfkey into a buffer with room, for Unicode, symbol and function keys. */
  function Print(key: Key, f: Format, names: Names): Option<Text> {
    if f.caretCtrl && key.code.Unicode? && key.modifiers == CTRL && CaretChar(key.code.cp).Some? then
      Some([CARET, CaretChar(key.code.cp).value])
    else match Body(key, names)
      case None => None
      case Some(body) => Some(Prefix(key.modifiers, f) + body)
  }

  // ---- parsing ----

  /** PastEnd: the code steps over the zero at the end of the string. */
  datatype Result = NoKey | PastEnd | Parsed(key: Key, rest: Text)

  function IndexOf(s: Text, b: byte): (i: nat)
    ensures i <= |s|
    ensures i < |s| ==> s[i] == b
  {
    if |s| == 0 || s[0] == b then 0 else 1 + IndexOf(s[1..], b)
  }

  /** The modifier that a word names, if any. */
  function ModOf(word: Text, f: Format): (r: Option<int>)
    ensures r.Some? ==> r.value > 0
  {
    if word == AltName(f) then Some(ALT)
    else if word == CtrlName(f) then Some(CTRL)
    else if word == ShiftName(f) then Some(SHIFT)
    else None
  }

  /** The modifiers in front of a key, and what follows them. */
  function ParseMods(s: Text, f: Format, mods: int): (int, Text)
    decreases |s|
  {
    var i := IndexOf(s, Sep(f));
    if i == |s| then (mods, s)
    else match ModOf(s[..i], f)
      case None => (mods, s)
      case Some(bit) => ParseMods(s[i + 1..], f, WithBit(mods, bit))
  }

  /** termkey_lookup_keyname: the first symbol whose name the text begins with. */
  function Lookup(s: Text, names: Names, sym: nat): (r: Option<nat>)
    requires sym <= |names|
    ensures r.Some? ==> sym <= r.value < |names| && names[r.value].Some? && names[r.value].value <= s
    decreases |names| - sym
  {
    if sym == |names| then None
    else if names[sym].Some? && names[sym].value <= s then Some(sym)
    else Lookup(s, names, sym + 1)
  }

  predicate IsSpace(b: byte) {
    b == 0x20 || 0x09 <= b <= 0x0d
  }

  predicate IsDigit(b: byte) {
    0x30 <= b <= 0x39
  }

  function Spaces(s: Text): (n: nat)
    ensures n <= |s|
  {
    if |s| == 0 || !IsSpace(s[0]) then 0 else 1 + Spaces(s[1..])
  }

  function DigitRun(s: Text): (n: nat)
    ensures n <= |s|
  {
    if |s| == 0 || !IsDigit(s[0]) then 0 else 1 + DigitRun(s[1..])
  }

  function Number(s: Text): int {
    if |s| == 0 then 0 else Number(s[..|s| - 1]) * 10 + s[|s| - 1] - 0x30
  }

  /** sscanf with F%d: the number and how many bytes it took. */
  function ScanFunction(s: Text): (r: Option<(int, nat)>)
    ensures r.Some? ==> r.value.1 <= |s|
  {
    if |s| == 0 || s[0] != UPPER_F then None
    else
      var i := 1 + Spaces(s[1..]);
      var signed := i < |s| && (s[i] == 0x2b || s[i] == 0x2d);
      var j := if signed then i + 1 else i;
      var n := DigitRun(s[j..]);
      if n == 0 then None
      else
        var v := Number(s[j..j + n]);
        Some((if signed && s[i] == 0x2d then -v else v, j + n))
  }

  /** What follows the modifiers: a name, a function key, or a character. */
  function ParseBody(s: Text, mods: int, names: Names, cfg: Config): Result {
    match Lookup(s, names, 0)
    case Some(sym) => Parsed(Canonical(cfg, Key(Keysym(sym), mods)), s[|names[sym].value|..])
    case None =>
      match ScanFunction(s)
      case Some((number, n)) => Parsed(Canonical(cfg, Key(Function(number), mods)), s[n..])
      case None =>
        if |s| == 0 then PastEnd
        else match Utf8.Parse(s)
          case More => NoKey
          case Point(cp, n) =>
            if n > |s| then NoKey else Parsed(Canonical(cfg, Key(UnicodeCode(cp), mods)), s[n..])
  }

  /** termkey_strpkey */
  function Parse(s: Text, f: Format, names: Names, cfg: Config): Result
    decreases f.caretCtrl
  {
    if f.caretCtrl && |s| > 1 && s[0] == CARET then
      match Parse(s[1..], f.(caretCtrl := false), names, cfg)
      case NoKey => NoKey
      case PastEnd => NoKey
      case Parsed(key, rest) =>
        if !key.code.Unicode? || !(0x40 <= key.code.cp <= 0x5f) || key.modifiers != 0 then NoKey
        else
          var cp := if 0x41 <= key.code.cp <= 0x5a then key.code.cp + 0x20 else key.code.cp;
          Parsed(Key(UnicodeCode(cp), CTRL), rest)
    else
      var (mods, body) := ParseMods(s, f, 0);
      ParseBody(body, mods, names, cfg)
  }

  // ---- the two are inverse ----

  predicate UsableName(name: Text) {
    && |name| >= 2 && name[0] < 0x80 && name[0] != CARET
    && DASH !in name && BLANK !in name
    && !(name[0] == UPPER_F && IsDigit(name[1]))
  }

  /** No name begins another, is a single character, looks like a function key, or holds a separator. */
  ghost predicate Usable(names: Names) {
    && (forall i | 0 <= i < |names| && names[i].Some? :: UsableName(names[i].value))
    && (forall i, j | 0 <= i < |names| && 0 <= j < |names| && i != j && names[i].Some? && names[j].Some? ::
          !(names[i].value <= names[j].value))
  }

  predicate Allowed(cp: int) {
    0 < cp < 0x8000_0000 && !(0xD800 <= cp <= 0xDFFF || cp == 0xFFFE || cp == 0xFFFF)
  }

  /** The keys that have a text of their own: canonical Unicode, named symbols and function keys, with any
      of the three modifiers. */
  predicate Printable(key: Key, names: Names, cfg: Config) {
    && Canonical(cfg, key) == key && 0 <= key.modifiers < 8
    && match key.code
       case Unicode(cp, utf8) => Allowed(cp) && utf8 == Utf8.Fill(cp)
       case Keysym(sym) => 0 <= sym < |names| && names[sym].Some?
       case Function(number) => number >= 0
       case _ => false
  }

  lemma {:induction false} LookupNone(s: Text, names: Names, sym: nat)
    requires sym <= |names|
    requires forall i | sym <= i < |names| && names[i].Some? :: !(names[i].value <= s)
    ensures Lookup(s, names, sym) == None
    decreases |names| - sym
  {
    if sym < |names| { LookupNone(s, names, sym + 1); }
  }

  lemma {:induction false} LookupIs(s: Text, names: Names, sym: nat, k: nat)
    requires sym <= k < |names| && names[k].Some? && names[k].value <= s
    requires forall i | sym <= i < k && names[i].Some? :: !(names[i].value <= s)
    ensures Lookup(s, names, sym) == Some(k)
    decreases k - sym
  {
    if sym < k { LookupIs(s, names, sym + 1, k); }
  }

  lemma {:induction false} AllDigits(s: Text)
    requires forall i | 0 <= i < |s| :: IsDigit(s[i])
    ensures DigitRun(s) == |s| && Spaces(s) == 0
  {
    if |s| > 0 { AllDigits(s[1..]); }
  }

  lemma {:induction false} NumberOfDigits(n: nat)
    ensures Number(Csi.Digits(n)) == n
  {
    var s := Csi.Digits(n);
    if n >= 10 {
      NumberOfDigits(n / 10);
      assert s[..|s| - 1] == Csi.Digits(n / 10);
    } else {
      assert s[..|s| - 1] == [];
    }
  }

  lemma ScansDigits(d: Text)
    requires |d| > 0 && forall i | 0 <= i < |d| :: IsDigit(d[i])
    ensures ScanFunction([UPPER_F] + d) == Some((Number(d), 1 + |d|))
  {
    hide DigitRun, Number, Spaces, IsDigit;
    var s := [UPPER_F] + d;
    AllDigits(d);
    assert s[1..] == d && s[1..1 + |d|] == d;
    assert s[1] == d[0] && d[0] != 0x2b && d[0] != 0x2d by { NoSign(d[0]); }
  }

  lemma NoSign(b: byte)
    requires IsDigit(b)
    ensures b != 0x2b && b != 0x2d
  {
  }

  lemma FunctionParses(n: nat)
    ensures var s := [UPPER_F] + Csi.Digits(n);
            ScanFunction(s) == Some((n, |s|))
  {
    var d := Csi.Digits(n);
    NumberOfDigits(n);
    ScansDigits(d);
  }

  lemma NameParses(names: Names, sym: nat)
    requires Usable(names) && sym < |names| && names[sym].Some?
    ensures Lookup(names[sym].value, names, 0) == Some(sym)
  {
    LookupIs(names[sym].value, names, 0, sym);
  }

  lemma NoFunctionName(names: Names, n: nat)
    requires Usable(names)
    ensures Lookup([UPPER_F] + Csi.Digits(n), names, 0) == None
  {
    var s := [UPPER_F] + Csi.Digits(n);
    forall i | 0 <= i < |names| && names[i].Some? ensures !(names[i].value <= s) {
      assert UsableName(names[i].value);
      assert IsDigit(s[1]);
    }
    LookupNone(s, names, 0);
  }

  lemma FillStart(cp: nat)
    requires cp < 0x8000_0000
    ensures if cp < 0x80 then Utf8.Fill(cp) == [cp] else Utf8.Fill(cp)[0] >= 0xc0
    ensures forall i | 0 <= i < |Utf8.Fill(cp)| :: cp >= 0x80 ==> Utf8.Fill(cp)[i] >= 0x80
  {
    if cp >= 0x80 {
      TailHigh(cp, Utf8.SeqLen(cp) - 1);
    }
  }

  lemma {:induction false} TailHigh(cp: int, k: nat)
    ensures forall i | 0 <= i < k :: Utf8.Tail(cp, k)[i] >= 0x80
    decreases k
  {
    if k > 0 { TailHigh(cp / 64, k - 1); }
  }

  lemma CharParses(names: Names, cp: int)
    requires Usable(names) && Allowed(cp)
    ensures var s := Utf8.Fill(cp);
            && Lookup(s, names, 0) == None && ScanFunction(s) == None
            && Utf8.Parse(s) == Utf8.Point(cp, |s|)
  {
    var s := Utf8.Fill(cp);
    FillStart(cp);
    Utf8.ParseOfFill(cp, []);
    assert s + [] == s;
    forall i | 0 <= i < |names| && names[i].Some? ensures !(names[i].value <= s) {
      assert UsableName(names[i].value);
    }
    LookupNone(s, names, 0);
    if s[0] == UPPER_F {
      assert s == [UPPER_F] && s[1..] == [];
    }
  }

  /** What is printed behind the modifiers parses back. */
  lemma BodyParses(key: Key, names: Names, cfg: Config)
    requires Usable(names) && Printable(key, names, cfg)
    ensures Body(key, names).Some?
    ensures ParseBody(Body(key, names).value, key.modifiers, names, cfg) == Parsed(key, [])
  {
    hide Canonical, Lookup, ScanFunction, Usable, Utf8.Parse, Utf8.Fill;
    var s := Body(key, names).value;
    assert s[|s|..] == [];
    match key.code
    case Unicode(cp, _) => CharParses(names, cp);
    case Keysym(sym) => NameParses(names, sym);
    case Function(n) =>
      NoFunctionName(names, n);
      FunctionParses(n);
  }

  lemma {:induction false} IndexAfter(w: Text, b: byte, rest: Text)
    requires b !in w
    ensures IndexOf(w + [b] + rest, b) == |w|
  {
    if |w| > 0 {
      IndexAfter(w[1..], b, rest);
      assert (w + [b] + rest)[1..] == w[1..] + [b] + rest;
    }
  }

  lemma {:induction false} IndexNone(s: Text, b: byte)
    requires b !in s
    ensures IndexOf(s, b) == |s|
  {
    if |s| > 0 { IndexNone(s[1..], b); }
  }

  /** The names of the modifiers are told apart, and hold no separator. */
  lemma ModNames(f: Format)
    ensures ModOf(AltName(f), f) == Some(ALT) && ModOf(CtrlName(f), f) == Some(CTRL)
    ensures ModOf(ShiftName(f), f) == Some(SHIFT)
    ensures Sep(f) !in AltName(f) && Sep(f) !in CtrlName(f) && Sep(f) !in ShiftName(f)
    ensures ModOf([], f) == None
    ensures AltName(f)[0] != CARET && CtrlName(f)[0] != CARET && ShiftName(f)[0] != CARET
  {
    assert AltName(f)[0] != CtrlName(f)[0] && CtrlName(f)[0] != ShiftName(f)[0] && ShiftName(f)[0] != AltName(f)[0];
  }

  lemma PassMod(w: Text, bit: int, rest: Text, f: Format, mods: int)
    requires Sep(f) !in w && ModOf(w, f) == Some(bit)
    ensures ParseMods(w + [Sep(f)] + rest, f, mods) == ParseMods(rest, f, WithBit(mods, bit))
  {
    var s := w + [Sep(f)] + rest;
    IndexAfter(w, Sep(f), rest);
    assert s[..|w|] == w && s[|w| + 1..] == rest;
  }

  /** The text of a key, behind its modifiers, is not taken for one more of them. */
  predicate Solid(body: Text, f: Format) {
    |body| > 0 && (Sep(f) !in body || body == [Sep(f)])
  }

  lemma StopAt(body: Text, f: Format, mods: int)
    requires Solid(body, f)
    ensures ParseMods(body, f, mods) == (mods, body)
  {
    ModNames(f);
    if Sep(f) !in body {
      IndexNone(body, Sep(f));
    } else {
      assert body[..0] == [];
    }
  }

  lemma BodySolid(key: Key, names: Names, cfg: Config, f: Format)
    requires Usable(names) && Printable(key, names, cfg)
    ensures Body(key, names).Some? && Solid(Body(key, names).value, f)
  {
    hide Canonical;
    match key.code
    case Unicode(cp, utf8) => FillStart(cp);
    case Keysym(sym) => assert UsableName(names[sym].value);
    case Function(n) =>
      var d := Csi.Digits(n);
      assert forall i | 0 <= i < |d| :: IsDigit(d[i]);
      assert forall b | b in [UPPER_F] + d :: b == UPPER_F || b in d;
  }

  lemma PassPrefix(mods: int, body: Text, f: Format)
    requires 0 <= mods < 8 && Solid(body, f)
    ensures ParseMods(Prefix(mods, f) + body, f, 0) == (mods, body)
  {
    hide ParseMods, ModOf, AltName, CtrlName, ShiftName, Solid;
    ModNames(f);
    var a := if Has(mods, ALT) then AltName(f) + [Sep(f)] else [];
    var c := if Has(mods, CTRL) then CtrlName(f) + [Sep(f)] else [];
    var s := if Has(mods, SHIFT) then ShiftName(f) + [Sep(f)] else [];
    var m1 := if Has(mods, ALT) then WithBit(0, ALT) else 0;
    var m2 := if Has(mods, CTRL) then WithBit(m1, CTRL) else m1;
    var m3 := if Has(mods, SHIFT) then WithBit(m2, SHIFT) else m2;
    assert Prefix(mods, f) + body == a + (c + (s + body));
    PassIf(Has(mods, ALT), AltName(f), ALT, c + (s + body), f, 0);
    PassIf(Has(mods, CTRL), CtrlName(f), CTRL, s + body, f, m1);
    PassIf(Has(mods, SHIFT), ShiftName(f), SHIFT, body, f, m2);
    StopAt(body, f, m3);
    assert m3 == mods;
  }

  lemma PassIf(there: bool, w: Text, bit: int, rest: Text, f: Format, mods: int)
    requires Sep(f) !in w && ModOf(w, f) == Some(bit)
    ensures ParseMods((if there then w + [Sep(f)] else []) + rest, f, mods) ==
            ParseMods(rest, f, if there then WithBit(mods, bit) else mods)
  {
    if there { PassMod(w, bit, rest, f, mods); } else { assert [] + rest == rest; }
  }

  /** A text that does not begin with a caret, or is nothing but one, is parsed as it stands. */
  lemma NotCaret(key: Key, names: Names, cfg: Config, f: Format)
    requires Usable(names) && Printable(key, names, cfg)
    requires f.caretCtrl ==> !(key.code.Unicode? && key.modifiers == CTRL && CaretChar(key.code.cp).Some?)
    ensures var s := Prefix(key.modifiers, f) + Body(key, names).value;
            !(f.caretCtrl && |s| > 1 && s[0] == CARET)
  {
    hide Canonical, AltName, CtrlName, ShiftName;
    ModNames(f);
    var body := Body(key, names).value;
    var s := Prefix(key.modifiers, f) + body;
    if key.modifiers == 0 {
      assert s == body;
      match key.code
      case Unicode(cp, utf8) => FillStart(cp);
      case Keysym(sym) => assert UsableName(names[sym].value);
      case Function(n) =>
    } else {
      assert |Prefix(key.modifiers, f)| > 0 && Prefix(key.modifiers, f)[0] != CARET;
    }
  }

  /** A control key written ^X parses back. */
  lemma CaretParses(key: Key, names: Names, cfg: Config, f: Format)
    requires Usable(names) && Printable(key, names, cfg) && f.caretCtrl
    requires key.code.Unicode? && key.modifiers == CTRL && CaretChar(key.code.cp).Some?
    ensures Parse(Print(key, f, names).value, f, names, cfg) == Parsed(key, [])
  {
    var c := CaretChar(key.code.cp).value;
    var s: Text := [CARET, c];
    var g := f.(caretCtrl := false);
    assert s[1..] == [c];
    FillStart(c);
    StopAt([c], g, 0);
    CharParses(names, c);
    assert [c][1..] == [];
  }

  /** A printed key parses back, and nothing is left of its text: for every canonical key with a text of its
      own, any modifiers and any of these formats. */
  lemma PrintParses(key: Key, names: Names, cfg: Config, f: Format)
    requires Usable(names) && Printable(key, names, cfg)
    ensures Print(key, f, names).Some?
    ensures Parse(Print(key, f, names).value, f, names, cfg) == Parsed(key, [])
  {
    hide Canonical, ParseBody, Usable, Prefix, Body, Utf8.Fill;
    BodyParses(key, names, cfg);
    if f.caretCtrl && key.code.Unicode? && key.modifiers == CTRL && CaretChar(key.code.cp).Some? {
      CaretParses(key, names, cfg, f);
    } else {
      BodySolid(key, names, cfg, f);
      PassPrefix(key.modifiers, Body(key, names).value, f);
      NotCaret(key, names, cfg, f);
    }
  }

  // ---- when the parser steps over the end ----

  function ModName(bit: int, f: Format): Text {
    if bit == ALT then AltName(f) else if bit == CTRL then CtrlName(f) else ShiftName(f)
  }

  /** Modifiers and nothing behind them. */
  function ModText(mods: seq<int>, f: Format): Text {
    if |mods| == 0 then [] else ModName(mods[0], f) + [Sep(f)] + ModText(mods[1..], f)
  }

  predicate AreMods(mods: seq<int>) {
    forall i | 0 <= i < |mods| :: mods[i] == ALT || mods[i] == CTRL || mods[i] == SHIFT
  }

  lemma {:induction false} ModTextPasses(ms: seq<int>, f: Format, mods: int)
    requires AreMods(ms)
    ensures ParseMods(ModText(ms, f), f, mods).1 == []
    decreases |ms|
  {
    hide ParseMods, ModOf, AltName, CtrlName, ShiftName;
    if |ms| == 0 {
      NoMods(f, mods);
    } else {
      ModNames(f);
      PassMod(ModName(ms[0], f), ms[0], ModText(ms[1..], f), f, mods);
      ModTextPasses(ms[1..], f, WithBit(mods, ms[0]));
    }
  }

  lemma NoMods(f: Format, mods: int)
    ensures ParseMods([], f, mods) == (mods, [])
  {
  }

  lemma {:induction false} PassedText(s: Text, f: Format, mods: int) returns (ms: seq<int>)
    requires ParseMods(s, f, mods).1 == []
    ensures AreMods(ms) && s == ModText(ms, f)
    decreases |s|
  {
    hide ModOf, ModName, ModText, Sep, IndexOf;
    var i := IndexOf(s, Sep(f));
    if i == |s| {
      ms := [];
      NoModText(f);
    } else {
      var bit := ModOf(s[..i], f).value;
      NamedBit(s[..i], f);
      var rest := PassedText(s[i + 1..], f, WithBit(mods, bit));
      ms := [bit] + rest;
      OneModMore(bit, rest, f);
      assert s == s[..i] + [s[i]] + s[i + 1..];
    }
  }

  lemma NoModText(f: Format)
    ensures ModText([], f) == []
  {
  }

  lemma OneModMore(bit: int, rest: seq<int>, f: Format)
    ensures ModText([bit] + rest, f) == ModName(bit, f) + [Sep(f)] + ModText(rest, f)
  {
    assert ([bit] + rest)[1..] == rest;
  }

  lemma NamedBit(word: Text, f: Format)
    requires ModOf(word, f).Some?
    ensures var bit := ModOf(word, f).value; (bit == ALT || bit == CTRL || bit == SHIFT) && word == ModName(bit, f)
  {
    hide AltName, CtrlName, ShiftName;
  }

  lemma BodyPastEnd(s: Text, mods: int, names: Names, cfg: Config)
    requires Usable(names)
    ensures ParseBody(s, mods, names, cfg) == PastEnd <==> |s| == 0
  {
    hide Canonical, Utf8.Parse, Utf8.Fill;
  }

  /** The parser steps over the zero at the end of its string if and only if the string is modifiers and nothing
      else, or empty; written with a caret it is refused. */
  lemma StepsOverEnd(s: Text, f: Format, names: Names, cfg: Config)
    requires Usable(names)
    ensures Parse(s, f, names, cfg) == PastEnd <==>
            !(f.caretCtrl && |s| > 1 && s[0] == CARET) && exists ms :: AreMods(ms) && s == ModText(ms, f)
  {
    hide ParseMods, ParseBody, ModText, Usable;
    var (mods, body) := ParseMods(s, f, 0);
    BodyPastEnd(body, mods, names, cfg);
    if body == [] { var ms := PassedText(s, f, 0); }
    if ms :| AreMods(ms) && s == ModText(ms, f) { ModTextPasses(ms, f, 0); }
  }

  // ---- the table of termkey.c ----

  /** The names for single characters. Symbol 0 asks for a number of its own, so NONE is 64. */
  function CharacterName(sym: int): string {
    match sym
    case 1 => "Backspace" case 2 => "Tab" case 3 => "Enter" case 4 => "Escape" case 5 => "Space" case 6 => "DEL"
    case 64 => "NONE" case _ => ""
  }

  function SpecialName(sym: int): string {
    match sym
    case 7 => "Up" case 8 => "Down" case 9 => "Left" case 10 => "Right" case 11 => "Begin" case 12 => "Find"
    case 13 => "Insert" case 14 => "Delete" case 15 => "Select" case 16 => "PageUp" case 17 => "PageDown"
    case 18 => "Home" case 19 => "End" case _ => ""
  }

  /** The names from terminfo, in two halves. */
  function EarlyTerminfoName(sym: int): string {
    match sym
    case 20 => "Cancel" case 21 => "Clear" case 22 => "Close" case 23 => "Command" case 24 => "Copy"
    case 25 => "Exit" case 26 => "Help" case 27 => "Mark" case 28 => "Message" case 29 => "Move" case 30 => "Open"
    case 31 => "Options" case _ => ""
  }

  function LateTerminfoName(sym: int): string {
    match sym
    case 32 => "Print" case 33 => "Redo" case 34 => "Reference" case 35 => "Refresh" case 36 => "Replace"
    case 37 => "Restart" case 38 => "Resume" case 39 => "Save" case 40 => "Suspend" case 41 => "Undo" case _ => ""
  }

  function KeypadName(sym: int): string {
    match sym
    case 42 => "KP0" case 43 => "KP1" case 44 => "KP2" case 45 => "KP3" case 46 => "KP4" case 47 => "KP5"
    case 48 => "KP6" case 49 => "KP7" case 50 => "KP8" case 51 => "KP9" case 52 => "KPEnter" case 53 => "KPPlus"
    case 54 => "KPMinus" case 55 => "KPMult" case 56 => "KPDiv" case 57 => "KPComma" case 58 => "KPPeriod"
    case 59 => "KPEquals" case _ => ""
  }

  /** The names that termkey_init registers. */
  function NameOf(sym: int): string {
    if 7 <= sym < 20 then SpecialName(sym)
    else if 20 <= sym < 32 then EarlyTerminfoName(sym)
    else if 32 <= sym < 42 then LateTerminfoName(sym)
    else if 42 <= sym < 60 then KeypadName(sym)
    else CharacterName(sym)
  }

  function CharAt(t: Text, k: nat): char {
    if k < |t| then t[k] as char else '\0'
  }

  /** The only symbol whose name the text can begin with, by its first letters. */
  function Only(t: Text): int {
    match CharAt(t, 0)
    case 'B' => (match CharAt(t, 1) case 'a' => 1 case 'e' => 11 case _ => 0)
    case 'C' => (match CharAt(t, 1)
       case 'a' => 20 case 'l' => (match CharAt(t, 2) case 'e' => 21 case 'o' => 22 case _ => 0)
       case 'o' => (match CharAt(t, 2) case 'm' => 23 case 'p' => 24 case _ => 0) case _ => 0)
    case 'D' => (match CharAt(t, 1) case 'E' => 6 case 'e' => 14 case 'o' => 8 case _ => 0)
    case 'E' => (match CharAt(t, 1)
       case 'n' => (match CharAt(t, 2) case 'd' => 19 case 't' => 3 case _ => 0) case 's' => 4
       case 'x' => 25 case _ => 0)
    case 'F' => 12
    case 'H' => (match CharAt(t, 1) case 'e' => 26 case 'o' => 18 case _ => 0)
    case 'I' => 13
    case 'K' => (match CharAt(t, 1)
       case 'P' => (match CharAt(t, 2)
        case '0' => 42 case '1' => 43 case '2' => 44 case '3' => 45 case '4' => 46 case '5' => 47
        case '6' => 48 case '7' => 49 case '8' => 50 case '9' => 51 case 'C' => 57 case 'D' => 56
        case 'E' => (match CharAt(t, 3) case 'n' => 52 case 'q' => 59 case _ => 0)
        case 'M' => (match CharAt(t, 3) case 'i' => 54 case 'u' => 55 case _ => 0)
        case 'P' => (match CharAt(t, 3) case 'e' => 58 case 'l' => 53 case _ => 0) case _ => 0) case _ => 0)
    case 'L' => 9
    case 'M' => (match CharAt(t, 1) case 'a' => 27 case 'e' => 28 case 'o' => 29 case _ => 0)
    case 'N' => 64
    case 'O' => (match CharAt(t, 1)
       case 'p' => (match CharAt(t, 2) case 'e' => 30 case 't' => 31 case _ => 0) case _ => 0)
    case 'P' => (match CharAt(t, 1)
       case 'a' => (match CharAt(t, 2)
        case 'g' => (match CharAt(t, 3)
         case 'e' => (match CharAt(t, 4) case 'D' => 17 case 'U' => 16 case _ => 0) case _ => 0) case _ => 0)
       case 'r' => 32 case _ => 0)
    case 'R' => (match CharAt(t, 1)
       case 'e' => (match CharAt(t, 2)
        case 'd' => 33 case 'f' => (match CharAt(t, 3) case 'e' => 34 case 'r' => 35 case _ => 0)
        case 'p' => 36 case 's' => (match CharAt(t, 3) case 't' => 37 case 'u' => 38 case _ => 0) case _ => 0)
       case 'i' => 10 case _ => 0)
    case 'S' => (match CharAt(t, 1) case 'a' => 39 case 'e' => 15 case 'p' => 5 case 'u' => 40 case _ => 0)
    case 'T' => 2
    case 'U' => (match CharAt(t, 1) case 'n' => 41 case 'p' => 7 case _ => 0)
    case _ => 0
  }

  lemma LettersOf(name: string, t: Text)
    requires Ascii(name) <= t
    ensures forall k | 0 <= k < |name| && name[k] as int < 0x100 :: CharAt(t, k) == name[k]
  {
    forall k | 0 <= k < |name| && name[k] as int < 0x100 ensures CharAt(t, k) == name[k] {
      assert t[k] == Ascii(name)[k];
    }
  }

  /** By its first letters a text that begins with this name can begin with no other. */
  predicate Single(sym: int, name: string, t: Text) {
    Ascii(name) <= t ==> Only(t) == sym
  }

  lemma CharacterNames(sym: int)
    requires CharacterName(sym) != ""
    ensures UsableName(Ascii(CharacterName(sym)))
  {
  }

  lemma SingleCharacterName(sym: int, t: Text)
    requires CharacterName(sym) != ""
    ensures Single(sym, CharacterName(sym), t)
  {
    hide Ascii, CharAt;
    if Ascii(CharacterName(sym)) <= t { LettersOf(CharacterName(sym), t); }
  }

  lemma SpecialNames(sym: int)
    requires SpecialName(sym) != ""
    ensures UsableName(Ascii(SpecialName(sym)))
  {
  }

  lemma SingleSpecialName(sym: int, t: Text)
    requires SpecialName(sym) != ""
    ensures Single(sym, SpecialName(sym), t)
  {
    hide Ascii, CharAt;
    if Ascii(SpecialName(sym)) <= t { LettersOf(SpecialName(sym), t); }
  }

  lemma EarlyTerminfoNames(sym: int)
    requires EarlyTerminfoName(sym) != ""
    ensures UsableName(Ascii(EarlyTerminfoName(sym)))
  {
  }

  lemma SingleEarlyTerminfoName(sym: int, t: Text)
    requires EarlyTerminfoName(sym) != ""
    ensures Single(sym, EarlyTerminfoName(sym), t)
  {
    hide Ascii, CharAt;
    if Ascii(EarlyTerminfoName(sym)) <= t { LettersOf(EarlyTerminfoName(sym), t); }
  }

  lemma LateTerminfoNames(sym: int)
    requires LateTerminfoName(sym) != ""
    ensures UsableName(Ascii(LateTerminfoName(sym)))
  {
  }

  lemma SingleLateTerminfoName(sym: int, t: Text)
    requires LateTerminfoName(sym) != ""
    ensures Single(sym, LateTerminfoName(sym), t)
  {
    hide Ascii, CharAt;
    if Ascii(LateTerminfoName(sym)) <= t { LettersOf(LateTerminfoName(sym), t); }
  }

  lemma KeypadNames(sym: int)
    requires KeypadName(sym) != ""
    ensures UsableName(Ascii(KeypadName(sym)))
  {
  }

  lemma SingleKeypadName(sym: int, t: Text)
    requires KeypadName(sym) != ""
    ensures Single(sym, KeypadName(sym), t)
  {
    hide Ascii, CharAt;
    if Ascii(KeypadName(sym)) <= t { LettersOf(KeypadName(sym), t); }
  }

  lemma NameUsable(sym: int)
    requires NameOf(sym) != ""
    ensures UsableName(Ascii(NameOf(sym)))
  {
    hide UsableName, Ascii, CharacterName, SpecialName, EarlyTerminfoName, LateTerminfoName, KeypadName;
    if 7 <= sym < 20 { SpecialNames(sym); }
    else if 20 <= sym < 32 { EarlyTerminfoNames(sym); }
    else if 32 <= sym < 42 { LateTerminfoNames(sym); }
    else if 42 <= sym < 60 { KeypadNames(sym); }
    else { CharacterNames(sym); }
  }

  lemma SingleName(sym: int, t: Text)
    requires NameOf(sym) != ""
    ensures Single(sym, NameOf(sym), t)
  {
    hide Single, CharacterName, SpecialName, EarlyTerminfoName, LateTerminfoName, KeypadName;
    if 7 <= sym < 20 { SingleSpecialName(sym, t); }
    else if 20 <= sym < 32 { SingleEarlyTerminfoName(sym, t); }
    else if 32 <= sym < 42 { SingleLateTerminfoName(sym, t); }
    else if 42 <= sym < 60 { SingleKeypadName(sym, t); }
    else { SingleCharacterName(sym, t); }
  }

  function TableNames(): (names: Names)
    ensures |names| == 65
  {
    seq(65, i requires 0 <= i < 65 => if NameOf(i) == "" then None else Some(Ascii(NameOf(i))))
  }

  /** The names of termkey.c begin none another, so the round trip holds with them. */
  lemma TableUsable()
    ensures Usable(TableNames())
  {
    hide NameOf, Only, Ascii, UsableName;
    var names := TableNames();
    forall i | 0 <= i < |names| && names[i].Some? ensures UsableName(names[i].value) {
      NameUsable(i);
    }
    forall i, j | 0 <= i < |names| && 0 <= j < |names| && i != j && names[i].Some? && names[j].Some?
      ensures !(names[i].value <= names[j].value)
    {
      if names[i].value <= names[j].value {
        SingleName(i, names[j].value);
        SingleName(j, names[j].value);
      }
    }
  }

  // ---- the two as they work ----

  /** snprintf of a string at a position of a buffer with room for it. */
  method PutText(buffer: array<byte>, pos: nat, t: Text) returns (pos': nat)
    requires pos + |t| < buffer.Length
    modifies buffer
    ensures pos' == pos + |t| && buffer[..pos'] == old(buffer[..pos]) + t && buffer[pos'] == 0
  {
    forall i | 0 <= i < |t| { buffer[pos + i] := t[i]; }
    pos' := pos + |t|;
    buffer[pos'] := 0;
  }

  /** termkey_strfkey */
  method PrintKey(buffer: array<byte>, key: Key, f: Format, names: Names) returns (pos: nat)
    requires Print(key, f, names).Some? && |Print(key, f, names).value| < buffer.Length
    requires Body(key, names).Some?
    modifies buffer
    ensures pos < buffer.Length && buffer[..pos] == Print(key, f, names).value && buffer[pos] == 0
  {
    hide Body, AltName, CtrlName, ShiftName, Has, CaretChar;
    pos := 0;
    if f.caretCtrl && key.code.Unicode? && key.modifiers == CTRL && CaretChar(key.code.cp).Some? {
      pos := PutText(buffer, 0, [CARET, CaretChar(key.code.cp).value]);
      return;
    }
    ghost var body := Body(key, names).value;
    if Has(key.modifiers, ALT) { pos := PutText(buffer, pos, AltName(f) + [Sep(f)]); }
    if Has(key.modifiers, CTRL) { pos := PutText(buffer, pos, CtrlName(f) + [Sep(f)]); }
    if Has(key.modifiers, SHIFT) { pos := PutText(buffer, pos, ShiftName(f) + [Sep(f)]); }
    assert buffer[..pos] == Prefix(key.modifiers, f);
    pos := PutText(buffer, pos, Body(key, names).value);
  }

  /** termkey_lookup_keyname's search */
  method LookupName(s: Text, names: Names) returns (r: Option<nat>)
    ensures r == Lookup(s, names, 0)
  {
    var sym := 0;
    while sym < |names|
      invariant sym <= |names| && Lookup(s, names, 0) == Lookup(s, names, sym)
    {
      if names[sym].Some? && names[sym].value <= s { return Some(sym); }
      sym := sym + 1;
    }
    r := None;
  }

  /** The loop of termkey_strpkey over the modifiers. */
  method SkipMods(s: Text, f: Format) returns (mods: int, rest: Text)
    ensures (mods, rest) == ParseMods(s, f, 0)
  {
    hide ModOf;
    mods, rest := 0, s;
    var sepAt := IndexOf(rest, Sep(f));
    while sepAt < |rest|
      invariant sepAt == IndexOf(rest, Sep(f)) && ParseMods(s, f, 0) == ParseMods(rest, f, mods)
      decreases |rest|
    {
      var named := ModOf(rest[..sepAt], f);
      if named.None? { break; }
      mods := WithBit(mods, named.value);
      rest := rest[sepAt + 1..];
      sepAt := IndexOf(rest, Sep(f));
    }
  }

  /** termkey_strpkey */
  method ParseKey(s: Text, f: Format, names: Names, cfg: Config) returns (r: Result)
    ensures r == Parse(s, f, names, cfg)
    decreases f.caretCtrl
  {
    hide ParseMods, Lookup, ScanFunction, Canonical, Utf8.Parse, Utf8.Fill;
    if f.caretCtrl && |s| > 1 && s[0] == CARET {
      r := ParseKey(s[1..], f.(caretCtrl := false), names, cfg);
      if r.Parsed? {
        var key := r.key;
        if !key.code.Unicode? || key.code.cp < 0x40 || key.code.cp > 0x5f || key.modifiers != 0 { return NoKey; }
        var cp := key.code.cp;
        if 0x41 <= cp <= 0x5a { cp := cp + 0x20; }
        r := Parsed(Key(UnicodeCode(cp), CTRL), r.rest);
      } else {
        r := NoKey;
      }
      return;
    }
    var mods, body := SkipMods(s, f);
    var sym := LookupName(body, names);
    if sym.Some? {
      return Parsed(Canonical(cfg, Key(Keysym(sym.value), mods)), body[|names[sym.value].value|..]);
    }
    var number := ScanFunction(body);
    if number.Some? {
      return Parsed(Canonical(cfg, Key(Function(number.value.0), mods)), body[number.value.1..]);
    }
    if |body| == 0 { return PastEnd; }
    var parsed := Utf8.Parse(body);
    match parsed
    case More => r := NoKey;
    case Point(cp, n) =>
      r := if n > |body| then NoKey else Parsed(Canonical(cfg, Key(UnicodeCode(cp), mods)), body[n..]);
  }

  /** A key printed into a buffer and parsed from it again. */
  method PrintAndParse(buffer: array<byte>, key: Key, f: Format, cfg: Config) returns (r: Result)
    requires Printable(key, TableNames(), cfg)
    requires Print(key, f, TableNames()).Some? ==> |Print(key, f, TableNames()).value| < buffer.Length
    modifies buffer
    ensures r == Parsed(key, [])
  {
    hide Printable, Print, Body, Parse, TableNames, Usable;
    var names := TableNames();
    TableUsable();
    PrintParses(key, names, cfg, f);
    BodyParses(key, names, cfg);
    var pos := PrintKey(buffer, key, f, names);
    r := ParseKey(buffer[..pos], f, names, cfg);
  }
}
