/** What can be told from the bytes before they are peeked at: where the driver will answer, what force
    will leave in the modifiers, and which keys leave the modifiers alone. */
module TermKeyBytes {
  import opened Basics
  import opened TermKeyCsi
  import opened TermKeyKeys
  import opened TermKeyPeek
  import Utf8 = TermKeyUtf8

  const ESC := 0x1b
  const SS3 := 0x8f
  const DCS := 0x90
  const CSI := 0x9b
  const OSC := 0x9d

  predicate IsIntroducer(b: int) {
    b == SS3 || b == DCS || b == CSI || b == OSC
  }

  /** The seven-bit form of an introducer follows an ESC. */
  predicate IsShort(b: int) {
    IsIntroducer(b + 0x40)
  }

  /** The number of ESC bytes in front. */
  function Lead(p: seq<byte>): (k: nat)
    ensures k <= |p| && (k < |p| ==> p[k] != ESC) && forall i | 0 <= i < k :: p[i] == ESC
  {
    if |p| > 0 && p[0] == ESC then 1 + Lead(p[1..]) else 0
  }

  /** The C1 control behind them, in its eight-bit form or, with the last ESC, in its seven-bit form. */
  function Introducer(p: seq<byte>): int {
    var k := Lead(p);
    if k == |p| then 0
    else if IsIntroducer(p[k]) then p[k]
    else if k > 0 && IsShort(p[k]) then 0x40 + p[k] as int
    else 0
  }

  function Body(p: seq<byte>): seq<byte>
    requires Introducer(p) != 0
  {
    p[Lead(p) + 1..]
  }

  /** The ESC bytes in front of the whole introducer: each of them makes an Alt. */
  function Alts(p: seq<byte>): nat
    requires Introducer(p) != 0
  {
    if p[Lead(p)] == Introducer(p) then Lead(p) else Lead(p) - 1
  }

  /** The driver has an answer of its own to what follows the introducer, if only under force. */
  predicate Answered(intro: int, body: seq<byte>, cfg: Config) {
    if intro == CSI then
      match Parse(body)
      case Csi(args, cmd, len) => IsX10(cmd, args) ==> len + 3 <= |body|
      case _ => true
    else if intro == SS3 then
      |body| == 0 || (0x40 <= body[0] < 0x80 && Ss3Key(cfg, body[0]).Some?)
    else TerminatorAt(body) < |body|
  }

  /** How many bytes of ESC the driver passes before it answers. */
  function Depth(p: seq<byte>, cfg: Config): Option<nat> {
    if Introducer(p) != 0 && Answered(Introducer(p), Body(p), cfg) then Some(Alts(p)) else None
  }

  /** A sequence of the driver's that stops short, but that it answers under force. */
  predicate Unfinished(p: seq<byte>) {
    if Introducer(p) == CSI then Parse(Body(p)).More? else Introducer(p) == SS3 && |Body(p)| == 0
  }

  /** A control sequence on which the code leaves its tables. */
  predicate Strays(p: seq<byte>, cfg: Config) {
    Introducer(p) == CSI &&
    match Parse(Body(p))
    case More => false
    case Overrun => true
    case Csi(args, cmd, _) => !IsX10(cmd, args) && Handle(cfg, cmd, args).Stray?
  }

  /** What force leaves in the modifiers where the bytes could still become another key. */
  function ForcedMods(p: seq<byte>, cfg: Config): int {
    var k, intro := Lead(p), Introducer(p);
    if k == |p| then
      var escape := if cfg.noInterpret then CTRL else 0;
      if k > 1 then WithBit(escape, ALT) else escape
    else if intro == 0 then if k > 0 then ALT else 0
    else if p[k] == intro && Depth(p, cfg).None? then CTRL + ALT
    else ALT
  }

  /** The control sequences whose handlers never write the modifiers: cursor position and mode reports,
      mouse reports of no known kind, and sequences without a handler. */
  predicate SilentCsi(cmd: Command, args: seq<int>) {
    if cmd.final == 0x52 then cmd.initial == 0x3f && cmd.intermediate == 0
    else if cmd.final == 0x4d || cmd.final == 0x6d then
      !IsX10(cmd, args) &&
      (|args| < 3 || cmd.intermediate != 0 || !(cmd.initial == 0 || cmd.initial == 0x3c))
    else SharedFinal(cmd.final).None? && cmd.final != 0x7e && cmd.final != 0x75
  }

  /** The bytes are those of such a sequence. */
  predicate Silent(p: seq<byte>) {
    && Introducer(p) == CSI
    && Parse(Body(p)).Csi?
    && SilentCsi(Parse(Body(p)).cmd, Parse(Body(p)).args)
  }

  // ---- one ESC more ----

  /** An ESC that is not part of an introducer. */
  predicate AltPrefix(p: seq<byte>) {
    |p| > 1 && p[0] == ESC && !IsShort(p[1])
  }

  lemma BehindAlt(p: seq<byte>, force: bool, cfg: Config, id: nat)
    requires AltPrefix(p) && cfg.started
    ensures Peek(p, force, cfg, id) == Inner(Peek(p[1..], force, cfg, id))
    ensures Lead(p) == Lead(p[1..]) + 1 && Introducer(p) == Introducer(p[1..])
    ensures Introducer(p) != 0 ==> Body(p) == Body(p[1..]) && Alts(p) == Alts(p[1..]) + 1
    ensures Depth(p, cfg) == (match Depth(p[1..], cfg) case None => None case Some(d) => Some(d + 1))
    ensures Silent(p) == Silent(p[1..])
    ensures Unfinished(p) == Unfinished(p[1..]) && Strays(p, cfg) == Strays(p[1..], cfg)
  {
    hide Parse, SilentCsi, Answered, Handle, IsX10;
    PeekCases(p, force, cfg, id);
    var q := p[1..];
    assert p[Lead(p)..] == q[Lead(q)..];
    if Introducer(p) != 0 { assert p[Lead(p) + 1..] == q[Lead(q) + 1..]; }
  }

  /** Where there is no such ESC, the introducer, if any, stands at the very start. */
  lemma Upfront(p: seq<byte>)
    requires |p| > 0 && !AltPrefix(p)
    ensures Lead(p) <= 1
    ensures if p[0] == ESC then |p| > 1 ==> Introducer(p) == p[1] as int + 0x40 && Body(p) == p[2..] && Alts(p) == 0
            else Introducer(p) == (if IsIntroducer(p[0]) then p[0] else 0) &&
                 (Introducer(p) != 0 ==> Body(p) == p[1..] && Alts(p) == 0)
  {
  }

  /** The driver goes by the introducer. */
  lemma DriverOfIntroducer(p: seq<byte>, force: bool, cfg: Config, id: nat)
    requires |p| > 0 && !AltPrefix(p) && Introducer(p) != 0
    ensures var intro := if p[0] == ESC then 2 else 1;
            && intro <= |p| && Body(p) == p[intro..]
            && Driver(p, force, cfg, id) == (if Introducer(p) == CSI then PeekCsi(p, intro, force, cfg)
                                             else if Introducer(p) == SS3 then PeekSs3(p, intro, force, cfg)
                                             else PeekString(p, intro, id))
  {
    hide PeekCsi, PeekSs3, PeekString;
    Upfront(p);
  }

  // ---- where the driver answers ----

  lemma {:induction false} DriverDepth(p: seq<byte>, force: bool, cfg: Config, id: nat)
    ensures var r := Peek(p, force, cfg, id); r.Got? ==> r.driver == Depth(p, cfg)
    decreases |p|
  {
    hide Depth, Peek;
    PeekCases(p, force, cfg, id);
    if cfg.started && |p| > 0 {
      if AltPrefix(p) {
        BehindAlt(p, force, cfg, id);
        DriverDepth(p[1..], force, cfg, id);
      } else {
        UpfrontDepth(p, force, cfg, id);
      }
    }
  }

  lemma UpfrontDepth(p: seq<byte>, force: bool, cfg: Config, id: nat)
    requires |p| > 0 && !AltPrefix(p) && cfg.started
    ensures var r := Peek(p, force, cfg, id); r.Got? ==> r.driver == Depth(p, cfg)
  {
    hide Parse, Handle, Emit, Ss3Key, MouseKey, TerminatorAt, Utf8.Parse;
    Upfront(p);
    PeekCases(p, force, cfg, id);
    if p[0] == ESC {
      if |p| > 1 { PlainBehind(p, force, cfg, id); }
    } else {
      assert !IsIntroducer(p[0]) ==> Driver(p, force, cfg, id).NoKey?;
    }
  }

  /** The second byte of a seven-bit introducer is a plain key by itself. */
  lemma PlainBehind(p: seq<byte>, force: bool, cfg: Config, id: nat)
    requires |p| > 1 && p[0] == ESC && IsShort(p[1]) && cfg.started
    ensures Peek(p[1..], force, cfg, id) == Got(Whole(Emit(cfg, p[1]).value), 1, 0, None, None)
    ensures Emit(cfg, p[1]).Some? && Emit(cfg, p[1]).value.modifiers == 0
  {
  }

  // ---- when the driver calls for more, and when the code leaves its tables ----

  lemma {:induction false} AgainUnfinished(p: seq<byte>, cfg: Config, id: nat)
    requires cfg.started
    ensures Peek(p, false, cfg, id).Again? && Depth(p, cfg).Some? <==> Unfinished(p)
    decreases |p|
  {
    hide Depth, Peek, Unfinished, Strays, Silent;
    PeekCases(p, false, cfg, id);
    if |p| == 0 {
      NothingUnfinished(p, cfg);
    } else if AltPrefix(p) {
      BehindAlt(p, false, cfg, id);
      AgainUnfinished(p[1..], cfg, id);
    } else {
      UpfrontUnfinished(p, cfg, id);
    }
  }

  lemma NothingUnfinished(p: seq<byte>, cfg: Config)
    requires |p| == 0
    ensures !Unfinished(p) && !Strays(p, cfg)
  {
  }

  lemma UpfrontUnfinished(p: seq<byte>, cfg: Config, id: nat)
    requires |p| > 0 && !AltPrefix(p) && cfg.started
    ensures Peek(p, false, cfg, id).Again? && Depth(p, cfg).Some? <==> Unfinished(p)
  {
    hide Parse, Handle, Emit, Ss3Key, MouseKey, TerminatorAt, Utf8.Parse, Driver, Peek, PeekSimple;
    Upfront(p);
    if Introducer(p) != 0 {
      DriverOfIntroducer(p, false, cfg, id);
      PeekOfDriver(p, false, cfg, id);
    }
  }

  /** Behind an introducer the driver has the word: where it finds nothing there is a plain key. */
  lemma PeekOfDriver(p: seq<byte>, force: bool, cfg: Config, id: nat)
    requires |p| > 0 && !AltPrefix(p) && Introducer(p) != 0 && cfg.started
    ensures var d, r := Driver(p, force, cfg, id), Peek(p, force, cfg, id);
            if d.Got? then r == d.(driver := Some(0))
            else if d.Undefined? || (d.Again? && !force) then r == d
            else r.Got?
  {
    hide Driver, Peek, Utf8.Parse;
    Upfront(p);
    PeekCases(p, force, cfg, id);
    if p[0] == ESC { PlainBehind(p, force, cfg, id); } else { EmitNatural(cfg, p[0]); }
  }

  lemma {:induction false} UndefinedStrays(p: seq<byte>, force: bool, cfg: Config, id: nat)
    requires cfg.started
    ensures Peek(p, force, cfg, id).Undefined? <==> Strays(p, cfg)
    decreases |p|
  {
    hide Peek, Unfinished, Strays, Silent, Depth;
    PeekCases(p, force, cfg, id);
    if |p| == 0 {
      NothingUnfinished(p, cfg);
    } else if AltPrefix(p) {
      BehindAlt(p, force, cfg, id);
      UndefinedStrays(p[1..], force, cfg, id);
    } else {
      UpfrontStrays(p, force, cfg, id);
    }
  }

  lemma UpfrontStrays(p: seq<byte>, force: bool, cfg: Config, id: nat)
    requires |p| > 0 && !AltPrefix(p) && cfg.started
    ensures Peek(p, force, cfg, id).Undefined? <==> Strays(p, cfg)
  {
    hide Parse, Handle, Ss3Key, MouseKey, TerminatorAt, Driver, Peek;
    Upfront(p);
    EmitNatural(cfg, 0x5b);
    EmitNatural(cfg, 0x4f);
    if Introducer(p) != 0 {
      hide Emit, PeekSimple;
      DriverOfIntroducer(p, force, cfg, id);
      PeekOfDriver(p, force, cfg, id);
    } else {
      NoIntroducer(p, force, cfg, id);
    }
  }

  lemma NoIntroducer(p: seq<byte>, force: bool, cfg: Config, id: nat)
    requires |p| > 0 && !AltPrefix(p) && Introducer(p) == 0 && cfg.started
    ensures !Peek(p, force, cfg, id).Undefined?
  {
    hide Emit, Utf8.Parse, Parse, TerminatorAt;
    Upfront(p);
    EmitNatural(cfg, p[0]);
    EmitNatural(cfg, Utf8.UTF8_INVALID);
    if Utf8.Parse(p).Point? { PointNatural(p); EmitNatural(cfg, Utf8.Parse(p).cp); }
  }

  // ---- what force answers ----

  /** More input could change this answer; the one that force gives instead, by the bytes alone: it sets the
      modifiers, leaves nothing to be skipped and saves no string. */
  predicate IsForced(f: Peeked, p: seq<byte>, cfg: Config) {
    f.Got? && f.tide == 0 && f.saved.None? && f.key.mods == Put(ForcedMods(p, cfg))
  }

  /** Whenever the reader asks for more input, force makes a key of what there is, whose modifiers are set,
      whatever the structure held. */
  lemma {:induction false} ForcedAfterAgain(p: seq<byte>, cfg: Config, id: nat)
    requires Peek(p, false, cfg, id).Again?
    ensures IsForced(Peek(p, true, cfg, id), p, cfg)
    decreases |p|
  {
    hide Peek, IsForced, ForcedMods;
    PeekCases(p, false, cfg, id);
    if AltPrefix(p) {
      BehindAlt(p, false, cfg, id);
      BehindAlt(p, true, cfg, id);
      ForcedAfterAgain(p[1..], cfg, id);
      ForcedBehindAlt(p, Peek(p[1..], true, cfg, id), cfg);
    } else {
      UpfrontForced(p, cfg, id);
    }
  }

  lemma ForcedBehindAlt(p: seq<byte>, f: Peeked, cfg: Config)
    requires AltPrefix(p) && IsForced(f, p[1..], cfg)
    ensures IsForced(Inner(f), p, cfg)
  {
  }

  lemma UpfrontForced(p: seq<byte>, cfg: Config, id: nat)
    requires |p| > 0 && !AltPrefix(p) && Peek(p, false, cfg, id).Again?
    ensures IsForced(Peek(p, true, cfg, id), p, cfg)
  {
    hide Peek, Driver, Utf8.Parse, Answered;
    Upfront(p);
    if Introducer(p) == 0 {
      ForcedSingle(p, cfg, id);
    } else {
      PeekCases(p, false, cfg, id);
      PeekCases(p, true, cfg, id);
      if p[0] == ESC {
        PlainBehind(p, false, cfg, id);
        PlainBehind(p, true, cfg, id);
      }
      DriverForced(p, cfg, id);
    }
  }

  /** ... of a lone ESC, or a character that is not complete. */
  lemma ForcedSingle(p: seq<byte>, cfg: Config, id: nat)
    requires |p| > 0 && !AltPrefix(p) && Introducer(p) == 0 && Peek(p, false, cfg, id).Again?
    ensures IsForced(Peek(p, true, cfg, id), p, cfg)
  {
    hide PeekCsi, PeekSs3, PeekString, Utf8.Parse, Body, Depth;
    Upfront(p);
  }

  lemma CsiForced(p: seq<byte>, intro: nat, cfg: Config)
    requires intro <= |p| && PeekCsi(p, intro, false, cfg).Again?
    ensures var f := PeekCsi(p, intro, true, cfg);
            if Answered(CSI, p[intro..], cfg) then f.Got? && f.tide == 0 && f.saved.None? && f.key.mods == Put(ALT)
            else f.Again?
  {
    hide Parse, Handle, MouseKey;
  }

  lemma Ss3Forced(p: seq<byte>, intro: nat, cfg: Config)
    requires intro <= |p| && PeekSs3(p, intro, false, cfg).Again?
    ensures var f := PeekSs3(p, intro, true, cfg);
            Answered(SS3, p[intro..], cfg) && f.Got? && f.tide == 0 && f.saved.None? && f.key.mods == Put(ALT)
  {
  }

  /** ... of the driver itself, where it has one. */
  lemma DriverForced(p: seq<byte>, cfg: Config, id: nat)
    requires |p| > 0 && !AltPrefix(p) && Introducer(p) != 0 && Driver(p, false, cfg, id).Again?
    ensures var f := Driver(p, true, cfg, id);
            if Answered(Introducer(p), Body(p), cfg)
            then f.Got? && f.tide == 0 && f.saved.None? && f.key.mods == Put(ALT)
            else f.Again?
  {
    Upfront(p);
    DriverOfIntroducer(p, false, cfg, id);
    DriverOfIntroducer(p, true, cfg, id);
    var intro := if p[0] == ESC then 2 else 1;
    hide Driver, PeekCsi, PeekSs3, Introducer, Body;
    if Introducer(p) == CSI { CsiForced(p, intro, cfg); } else if Introducer(p) == SS3 { Ss3Forced(p, intro, cfg); }
  }

  // ---- which keys leave the modifiers alone ----

  /** What the key r found in p does to the modifiers. */
  predicate ModsFit(r: Peeked, p: seq<byte>) {
    r.Got? ==> if Silent(p) then r.key.mods == (if Alts(p) > 0 then AddAlt else Keep) else r.key.mods.Put?
  }

  lemma SilentHandlers(cfg: Config, cmd: Command, args: seq<int>)
    requires !IsX10(cmd, args)
    ensures match Handle(cfg, cmd, args)
            case Stray => true
            case NotMine(mods) => if SilentCsi(cmd, args) then mods == Keep else mods.Put?
            case Done(key) => if SilentCsi(cmd, args) then key.mods == Keep else key.mods.Put?
  {
    hide Emit, LineCol, WithMods, MouseKey;
  }

  lemma {:induction false} SilentKeys(p: seq<byte>, force: bool, cfg: Config, id: nat)
    ensures ModsFit(Peek(p, force, cfg, id), p)
    decreases |p|
  {
    hide Peek, Silent;
    PeekCases(p, force, cfg, id);
    if cfg.started && |p| > 0 {
      if AltPrefix(p) {
        BehindAlt(p, force, cfg, id);
        SilentKeys(p[1..], force, cfg, id);
      } else {
        UpfrontSilent(p, force, cfg, id);
      }
    }
  }

  lemma UpfrontSilent(p: seq<byte>, force: bool, cfg: Config, id: nat)
    requires |p| > 0 && !AltPrefix(p) && cfg.started
    ensures ModsFit(Peek(p, force, cfg, id), p)
  {
    hide Parse, Handle, Emit, Ss3Key, MouseKey, TerminatorAt, Utf8.Parse;
    Upfront(p);
    PeekCases(p, force, cfg, id);
    if Introducer(p) == CSI && Parse(Body(p)).Csi? && !IsX10(Parse(Body(p)).cmd, Parse(Body(p)).args) {
      SilentHandlers(cfg, Parse(Body(p)).cmd, Parse(Body(p)).args);
    }
    if p[0] == ESC && |p| > 1 { PlainBehind(p, force, cfg, id); }
  }
}
