/** Keys, and what the terminal reader makes of single code points and of complete sequences. */
module TermKeyKeys {
  import opened Basics
  import opened TermKeyCsi
  import Utf8 = TermKeyUtf8

  // ---- key symbols, numbered as in termkey.h ----

  const SYM_NONE := 0
  const SYM_BACKSPACE := 1
  const SYM_TAB := 2
  const SYM_ENTER := 3
  const SYM_ESCAPE := 4
  const SYM_SPACE := 5
  const SYM_DEL := 6
  const SYM_UP := 7
  const SYM_DOWN := 8
  const SYM_LEFT := 9
  const SYM_RIGHT := 10
  const SYM_BEGIN := 11
  const SYM_FIND := 12
  const SYM_INSERT := 13
  const SYM_DELETE := 14
  const SYM_SELECT := 15
  const SYM_PAGEUP := 16
  const SYM_PAGEDOWN := 17
  const SYM_HOME := 18
  const SYM_END := 19
  const SYM_CANCEL := 20
  const SYM_CLEAR := 21
  const SYM_CLOSE := 22
  const SYM_COMMAND := 23
  const SYM_COPY := 24
  const SYM_EXIT := 25
  const SYM_HELP := 26
  const SYM_MARK := 27
  const SYM_MESSAGE := 28
  const SYM_MOVE := 29
  const SYM_OPEN := 30
  const SYM_OPTIONS := 31
  const SYM_PRINT := 32
  const SYM_REDO := 33
  const SYM_REFERENCE := 34
  const SYM_REFRESH := 35
  const SYM_REPLACE := 36
  const SYM_RESTART := 37
  const SYM_RESUME := 38
  const SYM_SAVE := 39
  const SYM_SUSPEND := 40
  const SYM_UNDO := 41
  const SYM_KP0 := 42
  const SYM_KP1 := 43
  const SYM_KP2 := 44
  const SYM_KP3 := 45
  const SYM_KP4 := 46
  const SYM_KP5 := 47
  const SYM_KP6 := 48
  const SYM_KP7 := 49
  const SYM_KP8 := 50
  const SYM_KP9 := 51
  const SYM_KPENTER := 52
  const SYM_KPPLUS := 53
  const SYM_KPMINUS := 54
  const SYM_KPMULT := 55
  const SYM_KPDIV := 56
  const SYM_KPCOMMA := 57
  const SYM_KPPERIOD := 58
  const SYM_KPEQUALS := 59

  const SHIFT := 1
  const ALT := 2
  const CTRL := 4

  datatype Code =
    | Unicode(cp: int, utf8: seq<byte>)
    | Function(number: int)
    | Keysym(sym: int)
    | Mouse(bytes: seq<byte>)
    | Position(linecol: seq<byte>)
    | ModeReport(report: seq<byte>)
    | Dcs(id: nat)
    | Osc(id: nat)
    | UnknownCsi(cmd: Command)

  datatype Key = Key(code: Code, modifiers: int)

  /** Flags and canonicalisation flags, and whether the instance is started and its input at an end. */
  datatype Config = Config(started: bool, closed: bool, utf8: bool, noInterpret: bool, convertKp: bool,
                           spaceSymbol: bool, delIsBackspace: bool)

  // ---- the caller's key structure ----

  /** What is written into the modifiers of the caller's key structure: a value, nothing at all, or one
      more bit beside those it holds. */
  datatype Mods = Put(modifiers: int) | Keep | AddAlt

  /** What a peek writes into the caller's key structure. */
  datatype Found = Found(code: Code, mods: Mods)

  function Whole(key: Key): Found {
    Found(key.code, Put(key.modifiers))
  }

  /** The key read from a structure whose modifiers were `held` before. */
  function Given(found: Found, held: int): Key {
    Key(found.code, match found.mods
                    case Put(m) => m
                    case Keep => held
                    case AddAlt => WithBit(held, ALT))
  }

  // ---- C integers ----

  /** A long stored into an int. */
  function ToInt(x: int): int {
    (x + 0x8000_0000) % 0x1_0000_0000 - 0x8000_0000
  }

  /** m | bit, for a single bit. */
  function WithBit(m: int, bit: int): int
    requires bit > 0
  {
    if (m / bit) % 2 == 1 then m else m + bit
  }

  /** m | e, for modifiers e. */
  function WithMods(m: int, e: int): int {
    var m1 := if (e / SHIFT) % 2 == 1 then WithBit(m, SHIFT) else m;
    var m2 := if (e / ALT) % 2 == 1 then WithBit(m1, ALT) else m1;
    if (e / CTRL) % 2 == 1 then WithBit(m2, CTRL) else m2
  }

  // ---- single code points ----

  /** The C0 table as termkey_init fills it. */
  function C0(b: int): int {
    if b == 0x09 then SYM_TAB else if b == 0x0d then SYM_ENTER else if b == 0x1b then SYM_ESCAPE else SYM_NONE
  }

  function UnicodeCode(cp: int): Code {
    Unicode(cp, Utf8.Fill(cp))
  }

  /** termkey_canonicalise */
  function Canonical(cfg: Config, key: Key): Key {
    var k :=
      if cfg.spaceSymbol && key.code.Unicode? && key.code.cp == 0x20 then key.(code := Keysym(SYM_SPACE))
      else if !cfg.spaceSymbol && key.code == Keysym(SYM_SPACE) then key.(code := UnicodeCode(0x20))
      else key;
    if cfg.delIsBackspace && k.code == Keysym(SYM_DEL) then k.(code := Keysym(SYM_BACKSPACE)) else k
  }

  /** emit_codepoint; None when it would read in front of its C0 table. */
  function Emit(cfg: Config, cp: int): Option<Key> {
    if cp < 0 && !cfg.noInterpret then None
    else
      var key :=
        if cp == 0 then Key(Keysym(SYM_SPACE), CTRL)
        else if cp < 0x20 then
          var sym := if cfg.noInterpret then SYM_NONE else C0(cp);
          if sym != SYM_NONE then Key(Keysym(sym), 0)
          else Key(UnicodeCode(if 0x41 <= cp + 0x40 <= 0x5a then cp + 0x60 else cp + 0x40), CTRL)
        else if cp == 0x7f && !cfg.noInterpret then Key(Keysym(SYM_DEL), 0)
        else if cp < 0x80 then Key(UnicodeCode(cp), 0)
        else if cp < 0xa0 then Key(UnicodeCode(cp - 0x40), CTRL + ALT)
        else Key(UnicodeCode(cp), 0);
      Some(Canonical(cfg, key))
  }

  // ---- the handlers of complete control sequences ----

  /** The keys that end a CSI or an SS3 alike. */
  function SharedFinal(final: byte): Option<Code> {
    if final == 0x41 then Some(Keysym(SYM_UP))
    else if final == 0x42 then Some(Keysym(SYM_DOWN))
    else if final == 0x43 then Some(Keysym(SYM_RIGHT))
    else if final == 0x44 then Some(Keysym(SYM_LEFT))
    else if final == 0x45 then Some(Keysym(SYM_BEGIN))
    else if final == 0x46 then Some(Keysym(SYM_END))
    else if final == 0x48 then Some(Keysym(SYM_HOME))
    else if 0x50 <= final <= 0x53 then Some(Function(final - 0x50 + 1))
    else if final == 0x5a then Some(Keysym(SYM_TAB))
    else None
  }

  /** The modifiers that come with a key shared by CSI and SS3: a back tab is a shifted tab. */
  function SharedMods(final: byte): int {
    if final == 0x5a then SHIFT else 0
  }

  /** The keypad keys of SS3, each with the character it stands for, if any. */
  function Keypad(final: byte): Option<(int, int)> {
    if final == 0x4d then Some((SYM_KPENTER, 0))
    else if final == 0x58 then Some((SYM_KPEQUALS, 0x3d))
    else if final == 0x6a then Some((SYM_KPMULT, 0x2a))
    else if final == 0x6b then Some((SYM_KPPLUS, 0x2b))
    else if final == 0x6c then Some((SYM_KPCOMMA, 0x2c))
    else if final == 0x6d then Some((SYM_KPMINUS, 0x2d))
    else if final == 0x6e then Some((SYM_KPPERIOD, 0x2e))
    else if final == 0x6f then Some((SYM_KPDIV, 0x2f))
    else if 0x70 <= final <= 0x79 then Some((SYM_KP0 + final - 0x70, final - 0x40))
    else None
  }

  /** The keys of CSI number ~. */
  function FunctionKey(number: int): Option<Code> {
    if 1 <= number <= 6 then Some(Keysym(SYM_FIND + number - 1))
    else if number == 7 then Some(Keysym(SYM_HOME))
    else if number == 8 then Some(Keysym(SYM_END))
    else if 11 <= number <= 15 then Some(Function(number - 10))
    else if 17 <= number <= 21 then Some(Function(number - 11))
    else if 23 <= number <= 26 then Some(Function(number - 12))
    else if 28 <= number <= 29 then Some(Function(number - 13))
    else if 31 <= number <= 34 then Some(Function(number - 14))
    else None
  }

  /** Stray: the handler would use a parameter that is not there, or read outside a table.
      NotMine: no key, but the modifiers have been written. */
  datatype Handled = Stray | NotMine(mods: Mods) | Done(key: Found)

  function ModifierArg(args: seq<int>): int {
    if |args| > 1 && args[1] != -1 then ToInt(args[1] - 1) else 0
  }

  /** handle_csi_ss3_full; its table has no place for a command with more than a final byte. */
  function HandleShared(cmd: Command, args: seq<int>): Handled {
    if cmd.initial != 0 || cmd.intermediate != 0 then Stray
    else match SharedFinal(cmd.final)
      case None => NotMine(Put(ModifierArg(args)))
      case Some(code) => Done(Found(code, Put(WithMods(ModifierArg(args), SharedMods(cmd.final)))))
  }

  /** handle_csifunc */
  function HandleFunction(cfg: Config, args: seq<int>): Handled {
    var mods := ModifierArg(args);
    if |args| == 0 then Stray
    else if args[0] == 27 then
      if |args| < 3 then Stray
      else match Emit(cfg, args[2])
        case None => Stray
        case Some(key) =>
          var m := WithMods(mods, key.modifiers);
          // the code point and the symbol share their storage, and -1 is no symbol
          if key.code.Unicode? && key.code.cp % 0x1_0000_0000 == 0xFFFF_FFFF then NotMine(Put(m))
          else Done(Found(key.code, Put(m)))
    else match FunctionKey(args[0])
      case None => NotMine(Put(mods))
      case Some(code) => Done(Found(code, Put(mods)))
  }

  /** handle_csi_u */
  function HandleUnicode(cfg: Config, args: seq<int>): Handled {
    if |args| == 0 then Stray
    else match Emit(cfg, args[0])
      case None => Stray
      case Some(key) => Done(Found(key.code, Put(WithMods(ModifierArg(args), key.modifiers))))
  }

  /** termkey_key_set_linecol */
  function LineCol(line: int, col: int): seq<byte> {
    var l := if ToInt(line) > 0xfff then 0xfff else ToInt(line);
    var c := if ToInt(col) > 0x7ff then 0x7ff else ToInt(col);
    [l % 0x100, c % 0x100, (l / 0x100) % 0x10 + (c / 0x100) % 4 * 0x10]
  }

  /** A mouse button byte carries the modifiers in three of its bits. */
  function MouseKey(button: byte, linecol: seq<byte>): Key {
    var mods := (button / 4) % 8;
    Key(Mouse([button - 4 * mods] + linecol), mods)
  }

  /** handle_csi_m */
  function HandleMouse(cmd: Command, args: seq<int>): Handled {
    if |args| < 3 || cmd.intermediate != 0 || !(cmd.initial == 0 || cmd.initial == 0x3c) then NotMine(Keep)
    else
      var at := LineCol(args[1], args[2]);
      var release := cmd.initial == 0x3c && cmd.final == 0x6d;
      Done(Whole(MouseKey(args[0] % 0x100, if release then at[2 := at[2] + 0x80] else at)))
  }

  /** handle_csi_R */
  function HandlePosition(cmd: Command, args: seq<int>): Handled {
    if cmd.initial != 0x3f || cmd.intermediate != 0 then HandleShared(cmd, args)
    else if |args| == 0 then Done(Found(Function(3), Keep))
    else if |args| == 2 then Done(Found(Position(LineCol(args[1], args[0])), Keep))
    else NotMine(Keep)
  }

  /** handle_csi_y */
  function HandleMode(cmd: Command, args: seq<int>): Handled {
    if cmd.intermediate != 0x24 || !(cmd.initial == 0 || cmd.initial == 0x3f) || |args| < 2 then NotMine(Keep)
    else
      Done(Found(ModeReport([cmd.initial, (args[0] / 0x100) % 0x100, args[0] % 0x100, args[1] % 0x100]), Keep))
  }

  /** The handler table of the CSI driver. */
  function Handle(cfg: Config, cmd: Command, args: seq<int>): Handled {
    if cmd.final == 0x52 then HandlePosition(cmd, args)
    else if SharedFinal(cmd.final).Some? then HandleShared(cmd, args)
    else if cmd.final == 0x7e then HandleFunction(cfg, args)
    else if cmd.final == 0x75 then HandleUnicode(cfg, args)
    else if cmd.final == 0x4d || cmd.final == 0x6d then HandleMouse(cmd, args)
    else if cmd.final == 0x79 then HandleMode(cmd, args)
    else NotMine(Keep)
  }

  /** peekkey_ss3 on the byte after the introducer. */
  function Ss3Key(cfg: Config, final: byte): Option<Key> {
    if SharedFinal(final).Some? then Some(Key(SharedFinal(final).value, SharedMods(final)))
    else match Keypad(final)
      case None => None
      case Some((sym, alt)) =>
        if cfg.convertKp && alt != 0 then Some(Key(Unicode(alt, [alt % 0x100]), 0)) else Some(Key(Keysym(sym), 0))
  }
}
