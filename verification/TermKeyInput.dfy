/** What a terminal sends, and the keys that come of it: characters as they are typed, control bytes, the control
    sequences of keys, strings and reports. */
module TermKeyInput {
  import opened Basics
  import opened TermKeyCsi
  import opened TermKeyKeys
  import opened TermKeyPeek
  import Utf8 = TermKeyUtf8

  /** The peek finds a key of these bytes, with these modifiers. */
  function Finds(code: Code, modifiers: int, n: nat): Peeked {
    Got(Found(code, Put(modifiers)), n, 0, None, None)
  }

  // ---- characters and control bytes ----

  predicate Surrogate(cp: int) {
    0xD800 <= cp <= 0xDFFF || cp == 0xFFFE || cp == 0xFFFF
  }

  /** A character that is typed is found as itself, with its own bytes and no modifiers; but for a space that is to
      be a symbol. */
  lemma Typed(cp: nat, rest: seq<byte>, force: bool, cfg: Config, id: nat)
    requires cfg.started && 0x20 <= cp < 0x8000_0000 && !(0x7f <= cp <= 0x9f) && !Surrogate(cp)
    requires cp >= 0x80 ==> cfg.utf8
    ensures Peek(Utf8.Fill(cp) + rest, force, cfg, id) ==
            Finds(if cfg.spaceSymbol && cp == 0x20 then Keysym(SYM_SPACE) else Unicode(cp, Utf8.Fill(cp)), 0,
                  |Utf8.Fill(cp)|)
  {
    hide Utf8.Parse, Peek, Driver, Utf8.Fill;
    var p := Utf8.Fill(cp) + rest;
    PeekCases(p, force, cfg, id);
    FirstByte(cp);
    NotDriven(p, force, cfg, id);
    Utf8.ParseOfFill(cp, rest);
  }

  lemma FirstByte(cp: nat)
    requires cp < 0x8000_0000
    ensures if cp < 0x80 then Utf8.Fill(cp) == [cp] else 0xc0 <= Utf8.Fill(cp)[0] < 0xfe
  {
    Utf8.FillIs(cp);
  }

  /** Of single bytes only the introducers are the driver's. */
  lemma NotDriven(p: seq<byte>, force: bool, cfg: Config, id: nat)
    requires |p| > 0 && p[0] != 0x1b && p[0] != 0x8f && p[0] != 0x90 && p[0] != 0x9b && p[0] != 0x9d
    ensures Driver(p, force, cfg, id).NoKey?
  {
  }

  /** As long as some of its bytes are still to come the reader waits; forced, it takes what there is for U+FFFD. */
  lemma HalfTyped(cp: nat, k: nat, cfg: Config, id: nat)
    requires cfg.started && cfg.utf8 && 0x80 <= cp < 0x8000_0000 && 0 < k < |Utf8.Fill(cp)|
    ensures Peek(Utf8.Fill(cp)[..k], false, cfg, id) == Again
    ensures Peek(Utf8.Fill(cp)[..k], true, cfg, id) == Finds(Unicode(0xFFFD, [0xef, 0xbf, 0xbd]), 0, k)
  {
    hide Utf8.Parse, Peek, Driver, Utf8.Fill;
    var p := Utf8.Fill(cp)[..k];
    FirstByte(cp);
    forall force: bool ensures Driver(p, force, cfg, id).NoKey? { NotDriven(p, force, cfg, id); }
    PeekCases(p, false, cfg, id);
    PeekCases(p, true, cfg, id);
    if Utf8.Parse(p).Point? {
      Utf8.ParseMore(p, Utf8.Fill(cp)[k..]);
      assert p + Utf8.Fill(cp)[k..] == Utf8.Fill(cp) + [];
      Utf8.ParseOfFill(cp, []);
      assert false;
    }
    Utf8.FillIs(0xFFFD);
  }

  /** A raw byte, where the input is not UTF-8. */
  lemma RawByte(b: byte, rest: seq<byte>, force: bool, cfg: Config, id: nat)
    requires cfg.started && !cfg.utf8 && b >= 0xa0
    ensures Peek([b] + rest, force, cfg, id) == Finds(Unicode(b, [b]), 0, 1)
  {
    PeekCases([b] + rest, force, cfg, id);
  }

  /** The control bytes: Tab, Enter and DEL have symbols, unless nothing is to be interpreted; zero is Ctrl-Space; the
      first 26 are Ctrl and a small letter, the others Ctrl and the character 0x40 above them; and those from
      0x80 on, unless they introduce something, are Ctrl-Alt and the character 0x40 below. */
  lemma ControlByte(b: byte, rest: seq<byte>, force: bool, cfg: Config, id: nat)
    requires cfg.started && (b < 0x20 || 0x7f <= b <= 0x9f)
    requires b != 0x1b && b != 0x8f && b != 0x90 && b != 0x9b && b != 0x9d
    ensures var r := Peek([b] + rest, force, cfg, id);
            if b == 0 then r == Finds(if cfg.spaceSymbol then Keysym(SYM_SPACE) else Unicode(0x20, [0x20]), 4, 1)
            else if b == 0x09 && !cfg.noInterpret then r == Finds(Keysym(SYM_TAB), 0, 1)
            else if b == 0x0d && !cfg.noInterpret then r == Finds(Keysym(SYM_ENTER), 0, 1)
            else if b <= 0x1a then r == Finds(Unicode(b + 0x60, [b + 0x60]), 4, 1)
            else if b <= 0x1f then r == Finds(Unicode(b + 0x40, [b + 0x40]), 4, 1)
            else if b == 0x7f && cfg.noInterpret then r == Finds(Unicode(0x7f, [0x7f]), 0, 1)
            else if b == 0x7f then
              r == Finds(Keysym(if cfg.delIsBackspace then SYM_BACKSPACE else SYM_DEL), 0, 1)
            else r == Finds(Unicode(b - 0x40, [b - 0x40]), 6, 1)
  {
    hide Utf8.Fill, Peek, Driver;
    var p := [b] + rest;
    PeekCases(p, force, cfg, id);
    NotDriven(p, force, cfg, id);
    if b == 0 { Utf8.FillIs(0x20); }
    else if b <= 0x1a { Utf8.FillIs(b + 0x60); }
    else if b < 0x20 { Utf8.FillIs(b + 0x40); }
    else if b == 0x7f { Utf8.FillIs(0x7f); }
    else { Utf8.FillIs(b - 0x40); }
  }

  /** ESC by itself waits for more; forced it is Escape, or Ctrl-[ where nothing is to be interpreted. */
  lemma LoneEsc(cfg: Config, id: nat)
    requires cfg.started
    ensures Peek([0x1b], false, cfg, id) == Again
    ensures Peek([0x1b], true, cfg, id) ==
            if cfg.noInterpret then Finds(Unicode(0x5b, [0x5b]), 4, 1) else Finds(Keysym(SYM_ESCAPE), 0, 1)
  {
    PeekCases([0x1b], false, cfg, id);
    PeekCases([0x1b], true, cfg, id);
    Utf8.FillIs(0x5b);
  }

  /** A character typed behind an ESC comes with Alt, unless the two introduce something. */
  lemma AltTyped(cp: nat, rest: seq<byte>, force: bool, cfg: Config, id: nat)
    requires cfg.started && 0x20 < cp < 0x8000_0000 && !(0x7f <= cp <= 0x9f) && !Surrogate(cp)
    requires cp >= 0x80 ==> cfg.utf8
    requires cp != 0x4f && cp != 0x50 && cp != 0x5b && cp != 0x5d
    ensures Peek([0x1b] + (Utf8.Fill(cp) + rest), force, cfg, id) ==
            Finds(Unicode(cp, Utf8.Fill(cp)), 2, |Utf8.Fill(cp)| + 1)
  {
    hide Utf8.Parse, Peek, Utf8.Fill;
    var q := Utf8.Fill(cp) + rest;
    var p := [0x1b] + q;
    PeekCases(p, force, cfg, id);
    FirstByte(cp);
    Typed(cp, rest, force, cfg, id);
    assert p[1..] == q;
  }
}
