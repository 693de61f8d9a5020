/** The control sequences that terminals send, and the keys that come of them: those of the tables in driver-csi.c,
    with their modifiers, and control strings. */
module TermKeySent {
  import opened Basics
  import opened TermKeyCsi
  import opened TermKeyInput
  import opened TermKeyKeys
  import opened TermKeyPeek
  import Utf8 = TermKeyUtf8

  const SS3 := 0x8f
  const DCS := 0x90
  const CSI := 0x9b
  const OSC := 0x9d

  predicate IsIntroducer(c1: byte) {
    c1 == SS3 || c1 == DCS || c1 == CSI || c1 == OSC
  }

  /** An introducer, as a byte of its own or as ESC and the byte 0x40 below it. */
  function Intro(c1: byte, short: bool): seq<byte>
    requires IsIntroducer(c1)
  {
    if short then [0x1b, c1 - 0x40] else [c1]
  }

  /** Behind its introducer the driver answers. */
  lemma DriverAt(c1: byte, short: bool, body: seq<byte>, force: bool, cfg: Config, id: nat)
    requires IsIntroducer(c1) && cfg.started
    ensures var p := Intro(c1, short) + body; var n := |Intro(c1, short)|;
            var d := if c1 == CSI then PeekCsi(p, n, force, cfg) else if c1 == SS3 then PeekSs3(p, n, force, cfg)
                     else PeekString(p, n, id);
            && p[n..] == body
            && (d.Got? ==> Peek(p, force, cfg, id) == d.(driver := Some(0)))
            && (d.Again? && !force ==> Peek(p, force, cfg, id) == Again)
  {
    hide PeekCsi, PeekSs3, PeekString, Peek;
    PeekCases(Intro(c1, short) + body, force, cfg, id);
  }

  /** The driver finds a key of these bytes, with these modifiers. */
  function ByDriver(code: Code, modifiers: int, n: nat): Peeked {
    Got(Found(code, Put(modifiers)), n, 0, Some(0), None)
  }

  // ---- control sequences ----

  function CommandOf(initial: Option<byte>, intermediate: Option<byte>, final: byte): Command {
    Command(final, TermKeyCsi.Code(initial), TermKeyCsi.Code(intermediate))
  }

  /** What a complete control sequence comes to. */
  lemma CsiAt(short: bool, initial: Option<byte>, params: seq<Option<nat>>, intermediate: Option<byte>, final: byte,
              rest: seq<byte>, force: bool, cfg: Config, id: nat)
    requires initial.Some? ==> IsInitial(initial.value)
    requires intermediate.Some? ==> 0x20 <= intermediate.value <= 0x2f
    requires 0x40 <= final < 0x80 && Fitting(params) && cfg.started
    requires var cmd, args := CommandOf(initial, intermediate, final), Values(Trim(params));
             !IsX10(cmd, args) && !Handle(cfg, cmd, args).Stray?
    ensures var intro, s := Intro(CSI, short), Encode(initial, params, intermediate, final);
            var cmd, args := CommandOf(initial, intermediate, final), Values(Trim(params));
            Peek(intro + (s + rest), force, cfg, id) ==
            match Handle(cfg, cmd, args)
            case Done(key) => Got(key, |intro| + |s|, 0, Some(0), None)
            case NotMine(mods) => Got(Found(UnknownCsi(cmd), mods), |intro|, |s|, Some(0), None)
            case Stray => NoKey
  {
    hide Parse, Handle, Encode, Peek, Values, Trim, Fitting;
    var s := Encode(initial, params, intermediate, final);
    RoundTrip(initial, params, intermediate, final, rest);
    DriverAt(CSI, short, s + rest, force, cfg, id);
  }

  /** A key's number, or nothing; and the modifiers, counted from 1, or nothing. */
  function KeyParams(number: nat, mods: Option<nat>): seq<Option<nat>> {
    match mods
    case None => [Some(number)]
    case Some(m) => [Some(number), Some(m + 1)]
  }

  function ModsOf(mods: Option<nat>): int {
    match mods
    case None => 0
    case Some(m) => m
  }

  lemma {:induction false} ValuesAt(params: seq<Option<nat>>)
    ensures |Values(params)| == |params|
    ensures forall i | 0 <= i < |params| :: Values(params)[i] == Value(params[i])
  {
    if |params| > 0 { ValuesAt(params[1..]); }
  }

  lemma KeyArgs(number: nat, mods: Option<nat>)
    requires number < 0x8000_0000 && (mods.Some? ==> mods.value < 0x7FFF_FFFF)
    ensures var params := KeyParams(number, mods);
            && Fitting(params) && |Values(Trim(params))| == |params|
            && Values(Trim(params))[0] == number && ModifierArg(Values(Trim(params))) == ModsOf(mods)
  {
    var params := KeyParams(number, mods);
    assert Trim(params) == params;
    ValuesAt(params);
  }

  lemma NoArgs()
    ensures Fitting([]) && Values(Trim([])) == []
  {
  }

  /** The letters that end a CSI or an SS3, and their keys, as register_keys has them. */
  const LETTERS: seq<(char, Code)> :=
    [('A', Keysym(SYM_UP)), ('B', Keysym(SYM_DOWN)), ('C', Keysym(SYM_RIGHT)), ('D', Keysym(SYM_LEFT)),
     ('E', Keysym(SYM_BEGIN)), ('F', Keysym(SYM_END)), ('H', Keysym(SYM_HOME)),
     ('P', Function(1)), ('Q', Function(2)), ('R', Function(3)), ('S', Function(4))]

  lemma Letters(k: nat)
    requires k < |LETTERS|
    ensures var c := LETTERS[k].0 as int;
            0x41 <= c <= 0x53 && SharedFinal(c) == Some(LETTERS[k].1) && SharedMods(c) == 0
  {
  }

  /** A letter by itself, or behind 1 and the modifiers: its key, with these modifiers. */
  lemma LetterKey(k: nat, short: bool, mods: Option<nat>, rest: seq<byte>, force: bool, cfg: Config, id: nat)
    requires k < |LETTERS| && cfg.started && (mods.Some? ==> mods.value < 0x7FFF_FFFF)
    ensures var s := Encode(None, KeyParams(1, mods), None, LETTERS[k].0 as int);
            Peek(Intro(CSI, short) + (s + rest), force, cfg, id) ==
            ByDriver(LETTERS[k].1, ModsOf(mods), |Intro(CSI, short)| + |s|)
    ensures var s := Encode(None, [], None, LETTERS[k].0 as int);
            Peek(Intro(CSI, short) + (s + rest), force, cfg, id) ==
            ByDriver(LETTERS[k].1, 0, |Intro(CSI, short)| + |s|)
  {
    hide Peek, Encode, Values, Trim, SharedFinal, SharedMods;
    Letters(k);
    KeyArgs(1, mods);
    var final: byte := LETTERS[k].0 as int;
    SharedAt(final, LETTERS[k].1, Values(Trim(KeyParams(1, mods))), cfg);
    CsiAt(short, None, KeyParams(1, mods), None, final, rest, force, cfg, id);
    NoArgs();
    SharedAt(final, LETTERS[k].1, [], cfg);
    CsiAt(short, None, [], None, final, rest, force, cfg, id);
  }

  lemma SharedAt(final: byte, code: Code, args: seq<int>, cfg: Config)
    requires 0x41 <= final <= 0x53 && SharedFinal(final) == Some(code) && SharedMods(final) == 0
    ensures Handle(cfg, Command(final, 0, 0), args) == Done(Found(code, Put(ModifierArg(args))))
    ensures !IsX10(Command(final, 0, 0), args)
  {
  }

  /** CSI Z is a shifted Tab, with Shift in addition to any modifiers it comes with. */
  lemma BackTab(short: bool, mods: Option<nat>, rest: seq<byte>, force: bool, cfg: Config, id: nat)
    requires cfg.started && (mods.Some? ==> mods.value < 8)
    ensures var s, m := Encode(None, KeyParams(1, mods), None, 0x5a), ModsOf(mods);
            Peek(Intro(CSI, short) + (s + rest), force, cfg, id) ==
            ByDriver(Keysym(SYM_TAB), if m % 2 == 0 then m + 1 else m, |Intro(CSI, short)| + |s|)
    ensures var s := Encode(None, [], None, 0x5a);
            Peek(Intro(CSI, short) + (s + rest), force, cfg, id) ==
            ByDriver(Keysym(SYM_TAB), 1, |Intro(CSI, short)| + |s|)
  {
    hide Peek, Encode, Values, Trim;
    KeyArgs(1, mods);
    CsiAt(short, None, KeyParams(1, mods), None, 0x5a, rest, force, cfg, id);
    NoArgs();
    CsiAt(short, None, [], None, 0x5a, rest, force, cfg, id);
  }

  /** The numbers of function keys, as register_keys has them. */
  const NUMBERS: seq<(nat, Code)> :=
    [(1, Keysym(SYM_FIND)), (2, Keysym(SYM_INSERT)), (3, Keysym(SYM_DELETE)), (4, Keysym(SYM_SELECT)),
     (5, Keysym(SYM_PAGEUP)), (6, Keysym(SYM_PAGEDOWN)), (7, Keysym(SYM_HOME)), (8, Keysym(SYM_END)),
     (11, Function(1)), (12, Function(2)), (13, Function(3)), (14, Function(4)), (15, Function(5)),
     (17, Function(6)), (18, Function(7)), (19, Function(8)), (20, Function(9)), (21, Function(10)),
     (23, Function(11)), (24, Function(12)), (25, Function(13)), (26, Function(14)),
     (28, Function(15)), (29, Function(16)), (31, Function(17)), (32, Function(18)), (33, Function(19)),
     (34, Function(20))]

  lemma Numbers(k: nat)
    requires k < |NUMBERS|
    ensures NUMBERS[k].0 <= 34 && NUMBERS[k].0 != 27 && FunctionKey(NUMBERS[k].0) == Some(NUMBERS[k].1)
  {
  }

  /** CSI number ~, with modifiers or without. */
  lemma NumberKey(k: nat, short: bool, mods: Option<nat>, rest: seq<byte>, force: bool, cfg: Config, id: nat)
    requires k < |NUMBERS| && cfg.started && (mods.Some? ==> mods.value < 0x7FFF_FFFF)
    ensures var s := Encode(None, KeyParams(NUMBERS[k].0, mods), None, 0x7e);
            Peek(Intro(CSI, short) + (s + rest), force, cfg, id) ==
            ByDriver(NUMBERS[k].1, ModsOf(mods), |Intro(CSI, short)| + |s|)
  {
    hide Peek, Encode, Values, Trim, FunctionKey;
    Numbers(k);
    KeyArgs(NUMBERS[k].0, mods);
    CsiAt(short, None, KeyParams(NUMBERS[k].0, mods), None, 0x7e, rest, force, cfg, id);
  }

  /** CSI number ~ is an unknown sequence for any other number, but for 27. */
  lemma OtherNumber(n: nat, short: bool, mods: Option<nat>, rest: seq<byte>, force: bool, cfg: Config, id: nat)
    requires n < 0x8000_0000 && n != 27 && (forall k | 0 <= k < |NUMBERS| :: NUMBERS[k].0 != n)
    requires cfg.started && (mods.Some? ==> mods.value < 0x7FFF_FFFF)
    ensures var s := Encode(None, KeyParams(n, mods), None, 0x7e);
            Peek(Intro(CSI, short) + (s + rest), force, cfg, id) ==
            Got(Found(UnknownCsi(Command(0x7e, 0, 0)), Put(ModsOf(mods))), |Intro(CSI, short)|, |s|, Some(0), None)
  {
    hide Peek, Encode, Values, Trim, FunctionKey;
    NoOther(n);
    KeyArgs(n, mods);
    CsiAt(short, None, KeyParams(n, mods), None, 0x7e, rest, force, cfg, id);
  }

  lemma NoOther(n: nat)
    ensures FunctionKey(n).Some? ==> exists k | 0 <= k < |NUMBERS| :: NUMBERS[k].0 == n
  {
    if FunctionKey(n).Some? {
      var k := if n <= 8 then n - 1 else if n <= 15 then n - 3 else if n <= 21 then n - 4 else if n <= 26 then n - 5
               else if n <= 29 then n - 6 else n - 7;
      assert NUMBERS[k].0 == n;
    }
  }

  /** CSI character u: the character, with these modifiers. */
  lemma CharacterKey(cp: nat, short: bool, mods: Option<nat>, rest: seq<byte>, force: bool, cfg: Config, id: nat)
    requires 0x20 < cp < 0x8000_0000 && !(0x7f <= cp <= 0x9f)
    requires cfg.started && (mods.Some? ==> mods.value < 0x7FFF_FFFF)
    ensures var s := Encode(None, KeyParams(cp, mods), None, 0x75);
            Peek(Intro(CSI, short) + (s + rest), force, cfg, id) ==
            ByDriver(Unicode(cp, Utf8.Fill(cp)), ModsOf(mods), |Intro(CSI, short)| + |s|)
  {
    hide Peek, Encode, Values, Trim, Utf8.Fill;
    KeyArgs(cp, mods);
    CsiAt(short, None, KeyParams(cp, mods), None, 0x75, rest, force, cfg, id);
  }

  lemma ThreeArgs(a: nat, b: nat, c: nat)
    requires a <= MAX_LONG && b <= MAX_LONG && c <= MAX_LONG
    ensures var params := [Some(a), Some(b), Some(c)];
            Fitting(params) && Values(Trim(params)) == [a, b, c]
  {
    var params := [Some(a), Some(b), Some(c)];
    assert Trim(params) == params;
    ValuesAt(params);
  }

  /** The same sent as CSI 27 ; modifiers ; character ~. */
  lemma ModifiedCharacter(cp: nat, short: bool, m: nat, rest: seq<byte>, force: bool, cfg: Config, id: nat)
    requires 0x20 < cp < 0x8000_0000 && !(0x7f <= cp <= 0x9f) && cfg.started && m < 0x7FFF_FFFF
    ensures var s := Encode(None, [Some(27), Some(m + 1), Some(cp)], None, 0x7e);
            Peek(Intro(CSI, short) + (s + rest), force, cfg, id) ==
            ByDriver(Unicode(cp, Utf8.Fill(cp)), m, |Intro(CSI, short)| + |s|)
  {
    hide Peek, Encode, Values, Trim, Utf8.Fill;
    ThreeArgs(27, m + 1, cp);
    CsiAt(short, None, [Some(27), Some(m + 1), Some(cp)], None, 0x7e, rest, force, cfg, id);
  }

  /** Ctrl and a letter, sent as the number of its control byte: Ctrl in addition to any modifiers it comes with. */
  lemma ControlKey(b: byte, short: bool, mods: Option<nat>, rest: seq<byte>, force: bool, cfg: Config, id: nat)
    requires 0 < b <= 0x1a && b != 0x09 && b != 0x0d && cfg.started && (mods.Some? ==> mods.value < 8)
    ensures var s, m := Encode(None, KeyParams(b, mods), None, 0x75), ModsOf(mods);
            Peek(Intro(CSI, short) + (s + rest), force, cfg, id) ==
            ByDriver(Unicode(b + 0x60, [b + 0x60]), if m / 4 % 2 == 0 then m + 4 else m, |Intro(CSI, short)| + |s|)
  {
    hide Peek, Encode, Values, Trim, Utf8.Fill;
    KeyArgs(b, mods);
    Utf8.FillIs(b + 0x60);
    CsiAt(short, None, KeyParams(b, mods), None, 0x75, rest, force, cfg, id);
  }

  /** The final bytes with a handler: A to F, H, M, P to S, Z, m, u, y and ~. */
  predicate HasHandler(final: byte) {
    || 0x41 <= final <= 0x46 || final == 0x48 || final == 0x4d || 0x50 <= final <= 0x53 || final == 0x5a
    || final == 0x6d || final == 0x75 || final == 0x79 || final == 0x7e
  }

  /** A sequence with no handler is unknown; its parameters are left to be asked for, and the modifiers alone. */
  lemma UnknownSequence(short: bool, initial: Option<byte>, params: seq<Option<nat>>, intermediate: Option<byte>,
                        final: byte, rest: seq<byte>, force: bool, cfg: Config, id: nat)
    requires initial.Some? ==> IsInitial(initial.value)
    requires intermediate.Some? ==> 0x20 <= intermediate.value <= 0x2f
    requires 0x40 <= final < 0x80 && !HasHandler(final) && Fitting(params) && cfg.started
    ensures var intro, s := Intro(CSI, short), Encode(initial, params, intermediate, final);
            var cmd := CommandOf(initial, intermediate, final);
            Peek(intro + (s + rest), force, cfg, id) == Got(Found(UnknownCsi(cmd), Keep), |intro|, |s|, Some(0), None)
  {
    hide Peek, Encode, Values, Trim, Fitting;
    CsiAt(short, initial, params, intermediate, final, rest, force, cfg, id);
  }

  /** CSI ? R without parameters is F3, with the modifiers left alone; with one parameter, or more than two, it is
      unknown. */
  lemma BareReport(short: bool, params: seq<Option<nat>>, rest: seq<byte>, force: bool, cfg: Config, id: nat)
    requires Fitting(params) && |Trim(params)| != 2 && cfg.started
    ensures var s := Encode(Some(0x3f), params, None, 0x52); var intro := Intro(CSI, short);
            Peek(intro + (s + rest), force, cfg, id) ==
            if |Trim(params)| == 0 then Got(Found(Function(3), Keep), |intro| + |s|, 0, Some(0), None)
            else Got(Found(UnknownCsi(Command(0x52, 0x3f, 0)), Keep), |intro|, |s|, Some(0), None)
  {
    hide Peek, Encode, Values, Trim, Fitting;
    ValuesAt(Trim(params));
    CsiAt(short, Some(0x3f), params, None, 0x52, rest, force, cfg, id);
  }

  // ---- Alt ----

  function WithTwo(m: int): int {
    if m / 2 % 2 == 0 then m + 2 else m
  }

  /** A key of the driver's with one more ESC in front comes with Alt. */
  lemma AltSent(p: seq<byte>, force: bool, cfg: Config, id: nat)
    requires cfg.started && |p| > 0 && (p[0] == 0x1b || IsIntroducer(p[0]))
    requires Peek(p, force, cfg, id).Got? && Peek(p, force, cfg, id).driver.Some?
    ensures var r, a := Peek(p, force, cfg, id), Peek([0x1b] + p, force, cfg, id);
            && a.Got? && a.n == r.n + 1 && a.tide == r.tide && a.saved == r.saved
            && a.driver == Some(r.driver.value + 1) && a.key.code == r.key.code
            && forall held :: Given(a.key, held).modifiers == WithTwo(Given(r.key, held).modifiers)
  {
    hide Peek, Driver;
    var q := [0x1b] + p;
    assert q[1..] == p;
    PeekCases(q, force, cfg, id);
    assert Driver(q, force, cfg, id).NoKey? by { NotIntroduced(q, force, cfg, id); }
  }

  lemma NotIntroduced(q: seq<byte>, force: bool, cfg: Config, id: nat)
    requires |q| > 1 && q[0] == 0x1b && (q[1] == 0x1b || IsIntroducer(q[1]))
    ensures Driver(q, force, cfg, id).NoKey?
  {
  }

  // ---- SS3 ----

  /** What a byte behind SS3 comes to. */
  lemma Ss3At(short: bool, final: byte, rest: seq<byte>, force: bool, cfg: Config, id: nat)
    requires 0x40 <= final < 0x80 && Ss3Key(cfg, final).Some? && cfg.started
    ensures var key := Ss3Key(cfg, final).value;
            Peek(Intro(SS3, short) + ([final] + rest), force, cfg, id) ==
            ByDriver(key.code, key.modifiers, |Intro(SS3, short)| + 1)
  {
    hide Peek, Ss3Key;
    DriverAt(SS3, short, [final] + rest, force, cfg, id);
    assert (Intro(SS3, short) + ([final] + rest))[|Intro(SS3, short)|] == final;
  }

  lemma LetterSs3(k: nat, short: bool, rest: seq<byte>, force: bool, cfg: Config, id: nat)
    requires k < |LETTERS| && cfg.started
    ensures Peek(Intro(SS3, short) + ([LETTERS[k].0 as int] + rest), force, cfg, id) ==
            ByDriver(LETTERS[k].1, 0, |Intro(SS3, short)| + 1)
  {
    hide Peek, SharedFinal, SharedMods;
    Letters(k);
    Ss3At(short, LETTERS[k].0 as int, rest, force, cfg, id);
  }

  // ---- sequences that stop short ----

  /** No terminator of either form stands in the text. */
  predicate Unterminated(text: seq<byte>) {
    forall i | 0 <= i < |text| :: text[i] != 0x9c && !(text[i] == 0x1b && i + 1 < |text| && text[i + 1] == 0x5c)
  }

  lemma {:induction false} NoneFinal(body: seq<byte>)
    requires NoFinal(body)
    ensures FinalAt(body) == |body|
  {
    if |body| > 0 { NoneFinal(body[1..]); }
  }

  /** As long as no final byte has come the reader waits; forced, it takes the introducer for Alt-[ and leaves what
      follows. */
  lemma HalfCsi(short: bool, body: seq<byte>, cfg: Config, id: nat)
    requires NoFinal(body) && cfg.started
    ensures Peek(Intro(CSI, short) + body, false, cfg, id) == Again
    ensures Peek(Intro(CSI, short) + body, true, cfg, id) ==
            ByDriver(Unicode(0x5b, [0x5b]), 2, |Intro(CSI, short)|)
  {
    hide Peek, FinalAt, Utf8.Fill, NoFinal;
    NoneFinal(body);
    DriverAt(CSI, short, body, false, cfg, id);
    DriverAt(CSI, short, body, true, cfg, id);
    Utf8.FillIs(0x5b);
  }

  /** SS3 by itself is waited with; forced, it is Alt-O. */
  lemma HalfSs3(short: bool, cfg: Config, id: nat)
    requires cfg.started
    ensures Peek(Intro(SS3, short), false, cfg, id) == Again
    ensures Peek(Intro(SS3, short), true, cfg, id) == ByDriver(Unicode(0x4f, [0x4f]), 2, |Intro(SS3, short)|)
  {
    hide Peek, Utf8.Fill;
    assert Intro(SS3, short) + [] == Intro(SS3, short);
    DriverAt(SS3, short, [], false, cfg, id);
    DriverAt(SS3, short, [], true, cfg, id);
    Utf8.FillIs(0x4f);
  }

  /** So is a string without its end; forced, its introducer is Alt-P or Alt-], or the control byte that it is. */
  lemma HalfString(c1: byte, short: bool, text: seq<byte>, cfg: Config, id: nat)
    requires (c1 == DCS || c1 == OSC) && cfg.started
    requires Unterminated(text)
    ensures Peek(Intro(c1, short) + text, false, cfg, id) == Again
    ensures Peek(Intro(c1, short) + text, true, cfg, id) ==
            Finds(Unicode(c1 - 0x40, [c1 - 0x40]), if short then 2 else 6, |Intro(c1, short)|)
  {
    hide Peek, TerminatorAt, Utf8.Fill;
    NoTerminator(text);
    DriverAt(c1, short, text, false, cfg, id);
    var p := Intro(c1, short) + text;
    PeekCases(p, true, cfg, id);
    Utf8.FillIs(c1 - 0x40);
    if short {
      PeekCases(p[1..], true, cfg, id);
      NotDriven(p[1..], true, cfg, id);
    }
  }

  lemma {:induction false} NoTerminator(text: seq<byte>)
    requires Unterminated(text)
    ensures TerminatorAt(text) == |text|
  {
    if |text| > 0 { NoTerminator(text[1..]); }
  }

  /** Any other byte behind SS3 is no key of the driver's: ESC O is Alt-O then, and the introducer by itself the control
      byte that it is. */
  lemma UnknownSs3(final: byte, rest: seq<byte>, force: bool, cfg: Config, id: nat)
    requires cfg.started && (0x40 <= final < 0x80 ==> Ss3Key(cfg, final).None?)
    ensures Peek([0x1b, 0x4f] + ([final] + rest), force, cfg, id) == Finds(Unicode(0x4f, [0x4f]), 2, 2)
    ensures Peek([SS3] + ([final] + rest), force, cfg, id) == Finds(Unicode(0x4f, [0x4f]), 6, 1)
  {
    hide Utf8.Fill, Ss3Key;
    var p, q := [0x1b, 0x4f] + ([final] + rest), [SS3] + ([final] + rest);
    PeekCases(p, force, cfg, id);
    PeekCases(q, force, cfg, id);
    PeekCases(p[1..], force, cfg, id);
    assert p[2] == final && q[1] == final && p[1] == 0x4f;
    Utf8.FillIs(0x4f);
  }

  /** The keys of the keypad, with the characters on them, as register_keys has them; Enter has none. */
  const KEYPAD: seq<(char, int, char)> :=
    [('M', SYM_KPENTER, '\0'), ('X', SYM_KPEQUALS, '='), ('j', SYM_KPMULT, '*'), ('k', SYM_KPPLUS, '+'),
     ('l', SYM_KPCOMMA, ','), ('m', SYM_KPMINUS, '-'), ('n', SYM_KPPERIOD, '.'), ('o', SYM_KPDIV, '/'),
     ('p', SYM_KP0, '0'), ('q', SYM_KP1, '1'), ('r', SYM_KP2, '2'), ('s', SYM_KP3, '3'), ('t', SYM_KP4, '4'),
     ('u', SYM_KP5, '5'), ('v', SYM_KP6, '6'), ('w', SYM_KP7, '7'), ('x', SYM_KP8, '8'), ('y', SYM_KP9, '9')]

  /** A key of the keypad is its symbol; or, where those are converted, the character on it. */
  lemma KeypadKey(k: nat, short: bool, rest: seq<byte>, force: bool, cfg: Config, id: nat)
    requires k < |KEYPAD| && cfg.started
    ensures var (final, sym, on) := KEYPAD[k];
            Peek(Intro(SS3, short) + ([final as int] + rest), force, cfg, id) ==
            ByDriver(if cfg.convertKp && on != '\0' then Unicode(on as int, [on as int]) else Keysym(sym), 0,
                   |Intro(SS3, short)| + 1)
  {
    hide Peek;
    KeypadIs(k, cfg);
    Ss3At(short, KEYPAD[k].0 as int, rest, force, cfg, id);
  }

  lemma KeypadIs(k: nat, cfg: Config)
    requires k < |KEYPAD|
    ensures var (final, sym, on) := KEYPAD[k];
            && 0x40 <= final as int < 0x80 && on as int < 0x80
            && Ss3Key(cfg, final as int) ==
               Some(Key(if cfg.convertKp && on != '\0' then Unicode(on as int, [on as int]) else Keysym(sym), 0))
  {
  }

  // ---- control strings ----

  lemma {:induction false} TerminatorBehind(text: seq<byte>, end: seq<byte>, rest: seq<byte>)
    requires end == [0x9c] || end == [0x1b, 0x5c]
    requires Unterminated(text)
    ensures TerminatorAt(text + (end + rest)) == |text|
  {
    var s := text + (end + rest);
    if |text| > 0 {
      TerminatorBehind(text[1..], end, rest);
      assert s[1..] == text[1..] + (end + rest);
      assert |text| == 1 ==> s[1] == end[0];
    }
  }

  lemma {:induction false} CopiedIs(text: seq<byte>)
    ensures Copied(text) == CString(text + [0])
  {
    if |text| == 0 || text[0] == 0 {
    } else {
      CopiedIs(text[1..]);
      assert (text + [0])[1..] == text[1..] + [0];
      assert 0 in text <==> 0 in text[1..];
    }
  }

  lemma StringAt(p: seq<byte>, intro: nat, text: seq<byte>, end: seq<byte>, rest: seq<byte>, id: nat)
    requires 0 < intro <= |p| && p[intro..] == text + (end + rest) && (end == [0x9c] || end == [0x1b, 0x5c])
    requires TerminatorAt(text + (end + rest)) == |text|
    ensures PeekString(p, intro, id) ==
            Got(Found(if p[intro - 1] % 0x20 == 0x10 then Dcs(id + 1) else Osc(id + 1), Put(0)),
                intro + |text| + |end|, 0, None, Some(CString(text + [0])))
  {
    hide TerminatorAt, CString;
    var s := p[intro..];
    CopiedIs(text);
    assert s[..|text|] == text && s[|text|] == end[0];
  }

  /** A control string runs up to the first terminator of either form. It is kept up to its first zero, under the next
      number, and is a DCS or an OSC by its introducer. */
  lemma ControlString(c1: byte, short: bool, text: seq<byte>, end: seq<byte>, rest: seq<byte>, force: bool, cfg: Config,
                      id: nat)
    requires (c1 == DCS || c1 == OSC) && (end == [0x9c] || end == [0x1b, 0x5c]) && cfg.started
    requires Unterminated(text)
    ensures Peek(Intro(c1, short) + (text + (end + rest)), force, cfg, id) ==
            Got(Found(if c1 == DCS then Dcs(id + 1) else Osc(id + 1), Put(0)),
                |Intro(c1, short)| + |text| + |end|, 0, Some(0), Some(CString(text + [0])))
  {
    hide Peek, PeekString;
    DriverAt(c1, short, text + (end + rest), force, cfg, id);
    TerminatorBehind(text, end, rest);
    StringAt(Intro(c1, short) + (text + (end + rest)), |Intro(c1, short)|, text, end, rest, id);
  }
}
