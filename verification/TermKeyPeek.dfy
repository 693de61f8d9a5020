/** Peeking: what the terminal reader makes of the bytes it holds, with the CSI driver alone. */
module TermKeyPeek {
  import opened Basics
  import opened TermKeyCsi
  import opened TermKeyKeys
  import Utf8 = TermKeyUtf8

  /** Got: a key, as it is written for the caller, that uses n bytes, with `tide` more bytes to be skipped
      before the next key (they stay for termkey_interpret_csi), found by the driver that many ESC bytes
      in, or not by the driver. Undefined: the code leaves its tables on the way. */
  datatype Peeked =
    | Undefined
    | NoKey
    | Eof
    | Again
    | Error
    | Got(key: Found, n: nat, tide: nat, driver: Option<nat>, saved: Option<seq<byte>>)

  function Plain(key: Option<Key>, n: nat): Peeked {
    match key
    case None => Undefined
    case Some(k) => Got(Whole(k), n, 0, None, None)
  }

  function WithAlt(key: Found): Found {
    key.(mods := if key.mods.Put? then Put(WithBit(key.mods.modifiers, ALT)) else AddAlt)
  }

  function PlainAlt(key: Option<Key>, n: nat): Peeked {
    match key
    case None => Undefined
    case Some(k) => Got(WithAlt(Whole(k)), n, 0, None, None)
  }

  /** A byte of an X10 report, less the offset that makes it printable. */
  function MouseByte(b: int): byte {
    (b - 0x20) % 0x100
  }

  /** peekkey_mouse: three bytes of X10 mouse report. */
  function PeekMouse(p: seq<byte>): Peeked {
    if |p| < 3 then Again
    else
      var m := MouseByte(p[0]);
      Got(Whole(MouseKey(m, [MouseByte(p[1]), MouseByte(p[2]), 0])), 3, 0, None, None)
  }

  predicate IsX10(cmd: Command, args: seq<int>) {
    cmd == Command(0x4d, 0, 0) && |args| < 3
  }

  /** peekkey_csi */
  function PeekCsi(p: seq<byte>, intro: nat, force: bool, cfg: Config): Peeked
    requires intro <= |p|
  {
    match Parse(p[intro..])
    case Overrun => Undefined
    case More => if force then PlainAlt(Emit(cfg, 0x5b), intro) else Again
    case Csi(args, cmd, len) =>
      if IsX10(cmd, args) then
        if intro + len > |p| then Again
        else
          var m := PeekMouse(p[intro + len..]);
          if m.Got? then m.(n := m.n + intro + len) else m
      else match Handle(cfg, cmd, args)
        case Stray => Undefined
        case NotMine(mods) => Got(Found(UnknownCsi(cmd), mods), intro, len, None, None)
        case Done(key) => Got(key, intro + len, 0, None, None)
  }

  /** peekkey_ss3 */
  function PeekSs3(p: seq<byte>, intro: nat, force: bool, cfg: Config): Peeked
    requires intro <= |p|
  {
    if |p| < intro + 1 then if force then PlainAlt(Emit(cfg, 0x4f), |p|) else Again
    else if !(0x40 <= p[intro] < 0x80) then NoKey
    else match Ss3Key(cfg, p[intro])
      case None => NoKey
      case Some(key) => Got(Whole(key), intro + 1, 0, None, None)
  }

  /** The first string terminator, ST or ESC \, or the length when there is none. */
  function TerminatorAt(s: seq<byte>): (k: nat)
    ensures k <= |s|
  {
    if |s| == 0 || s[0] == 0x9c || (s[0] == 0x1b && |s| > 1 && s[1] == 0x5c) then 0 else 1 + TerminatorAt(s[1..])
  }

  /** strncpy into a string of its own: it ends at a zero byte. */
  function Copied(s: seq<byte>): seq<byte> {
    if 0 in s then CString(s) else s
  }

  /** peekkey_ctrlstring; `id` is the number of the last control string. */
  function PeekString(p: seq<byte>, intro: nat, id: nat): Peeked
    requires 0 < intro <= |p|
  {
    var s := p[intro..];
    var k := TerminatorAt(s);
    if k == |s| then Again
    else Got(Found(if p[intro - 1] % 0x20 == 0x10 then Dcs(id + 1) else Osc(id + 1), Put(0)),
             intro + k + (if s[k] == 0x1b then 2 else 1), 0, None, Some(Copied(s[..k])))
  }

  /** peekkey of the CSI driver */
  function Driver(p: seq<byte>, force: bool, cfg: Config, id: nat): Peeked
    requires |p| > 0
  {
    if p[0] == 0x1b then
      if |p| < 2 then NoKey
      else if p[1] == 0x4f then PeekSs3(p, 2, force, cfg)
      else if p[1] == 0x50 || p[1] == 0x5d then PeekString(p, 2, id)
      else if p[1] == 0x5b then PeekCsi(p, 2, force, cfg)
      else NoKey
    else if p[0] == 0x8f then PeekSs3(p, 1, force, cfg)
    else if p[0] == 0x90 || p[0] == 0x9d then PeekString(p, 1, id)
    else if p[0] == 0x9b then PeekCsi(p, 1, force, cfg)
    else NoKey
  }

  /** peekkey: first the driver, then the plain rules. */
  function Peek(p: seq<byte>, force: bool, cfg: Config, id: nat): Peeked
    decreases |p|, 1
  {
    if !cfg.started then Error
    else if |p| == 0 then if cfg.closed then Eof else NoKey
    else
      var r := Driver(p, force, cfg, id);
      if r.Got? then r.(driver := Some(0))
      else if r.Undefined? || (r.Again? && !force) then r
      else PeekSimple(p, force, cfg, id)
  }

  /** peekkey_simple: an ESC makes an Alt of the key behind it; anything else is a byte or UTF-8. */
  function PeekSimple(p: seq<byte>, force: bool, cfg: Config, id: nat): Peeked
    requires |p| > 0
    decreases |p|, 0
  {
    if p[0] == 0x1b then
      if |p| == 1 then if force then Plain(Emit(cfg, 0x1b), 1) else Again
      else Inner(Peek(p[1..], force, cfg, id))
    else if p[0] < 0xa0 then Plain(Emit(cfg, p[0]), 1)
    else if cfg.utf8 then
      match Utf8.Parse(p)
      case More => if force then Plain(Emit(cfg, Utf8.UTF8_INVALID), |p|) else Again
      case Point(cp, n) => Plain(Emit(cfg, cp), n)
    else Got(Found(Unicode(p[0], [p[0]]), Put(0)), 1, 0, None, None)
  }

  /** The key behind an ESC, seen from the ESC. */
  function Inner(r: Peeked): Peeked {
    match r
    case Got(key, n, tide, driver, saved) =>
      Got(WithAlt(key), n + 1, tide, if driver.Some? then Some(driver.value + 1) else None, saved)
    case _ => r
  }

  /** One peek, case by case. */
  lemma PeekCases(p: seq<byte>, force: bool, cfg: Config, id: nat)
    ensures var r := Peek(p, force, cfg, id);
            if !cfg.started then r == Error
            else if |p| == 0 then r == if cfg.closed then Eof else NoKey
            else
              var d := Driver(p, force, cfg, id);
              if d.Got? then r == d.(driver := Some(0))
              else if d.Undefined? || (d.Again? && !force) then r == d
              else r == PeekSimple(p, force, cfg, id)
  {
  }

  // ---- bounds and progress ----

  /** A result uses at least one byte and no more, with what it leaves to be skipped, than there are. */
  predicate Bounded(r: Peeked, size: nat) {
    r.Got? ==> 1 <= r.n && r.n + r.tide <= size
  }

  lemma {:induction false} TerminatorIs(s: seq<byte>)
    ensures var k := TerminatorAt(s);
            k < |s| ==> s[k] == 0x9c || (s[k] == 0x1b && k + 1 < |s| && s[k + 1] == 0x5c)
  {
    if |s| > 0 && !(s[0] == 0x9c || (s[0] == 0x1b && |s| > 1 && s[1] == 0x5c)) { TerminatorIs(s[1..]); }
  }

  lemma CsiBounded(p: seq<byte>, intro: nat, force: bool, cfg: Config)
    requires 0 < intro <= |p|
    ensures Bounded(PeekCsi(p, intro, force, cfg), |p|)
    ensures var r := PeekCsi(p, intro, force, cfg); !r.Error? && !r.Eof?
  {
    hide Parse, Handle, Emit;
    if !Parse(p[intro..]).More? { ParseMore(p[intro..], []); }
  }

  lemma DriverBounded(p: seq<byte>, force: bool, cfg: Config, id: nat)
    requires |p| > 0
    ensures Bounded(Driver(p, force, cfg, id), |p|)
    ensures var r := Driver(p, force, cfg, id); !r.Error? && !r.Eof?
  {
    hide PeekCsi, Ss3Key, Emit;
    var intro := if p[0] == 0x1b then 2 else 1;
    if |p| >= intro {
      CsiBounded(p, intro, force, cfg);
      TerminatorIs(p[intro..]);
    }
  }

  lemma EmitNatural(cfg: Config, cp: nat)
    ensures Emit(cfg, cp).Some?
  {
  }

  /** Forced to answer, the reader makes a key of any pending bytes, and uses at least one of them. */
  lemma {:induction false} ForcedProgress(p: seq<byte>, cfg: Config, id: nat)
    requires cfg.started && |p| > 0
    ensures var r := Peek(p, true, cfg, id); (r.Got? || r.Undefined?) && Bounded(r, |p|)
    decreases |p|
  {
    hide Driver, Emit;
    DriverBounded(p, true, cfg, id);
    if p[0] == 0x1b && |p| > 1 {
      ForcedProgress(p[1..], cfg, id);
    } else if cfg.utf8 {
      if Utf8.Parse(p).Point? { Utf8.ParseMore(p, []); PointNatural(p); EmitNatural(cfg, Utf8.Parse(p).cp); }
      EmitNatural(cfg, Utf8.UTF8_INVALID);
    }
    EmitNatural(cfg, p[0]);
  }

  /** With bytes pending there is always a key, or a call for more. */
  lemma {:induction false} SomethingPeeked(p: seq<byte>, force: bool, cfg: Config, id: nat)
    requires cfg.started && |p| > 0
    ensures var r := Peek(p, force, cfg, id); r.Got? || r.Again? || r.Undefined?
    decreases |p|
  {
    hide Driver, Emit, Utf8.Parse;
    DriverBounded(p, force, cfg, id);
    if p[0] == 0x1b && |p| > 1 { SomethingPeeked(p[1..], force, cfg, id); }
  }

  lemma PointNatural(p: seq<byte>)
    requires |p| > 0 && Utf8.Parse(p).Point?
    ensures Utf8.Parse(p).cp >= 0
  {
    if Utf8.Parse(p).cp != Utf8.UTF8_INVALID { Utf8.FillOfParse(p); }
  }

  lemma {:induction false} PeekBounded(p: seq<byte>, force: bool, cfg: Config, id: nat)
    ensures Bounded(Peek(p, force, cfg, id), |p|)
    decreases |p|
  {
    hide Driver, Emit;
    if |p| > 0 {
      DriverBounded(p, force, cfg, id);
      if p[0] == 0x1b && |p| > 1 { PeekBounded(p[1..], force, cfg, id); }
      if Utf8.Parse(p).Point? { Utf8.ParseMore(p, []); }
    }
  }

  /** A key found by the driver behind d bytes of ESC uses more than those. */
  lemma {:induction false} BehindEscapes(p: seq<byte>, force: bool, cfg: Config, id: nat)
    ensures var r := Peek(p, force, cfg, id);
            r.Got? && r.driver.Some? ==>
              r.driver.value < r.n && r.driver.value < |p| && forall i | 0 <= i < r.driver.value :: p[i] == 0x1b
    decreases |p|
  {
    hide Driver, Emit, Utf8.Parse;
    PeekCases(p, force, cfg, id);
    PeekBounded(p, force, cfg, id);
    if |p| > 1 && p[0] == 0x1b { BehindEscapes(p[1..], force, cfg, id); }
  }

  // ---- more input ----

  lemma {:induction false} TerminatorMore(s: seq<byte>, t: seq<byte>)
    requires TerminatorAt(s) < |s|
    ensures TerminatorAt(s + t) == TerminatorAt(s)
  {
    if !(s[0] == 0x9c || (s[0] == 0x1b && |s| > 1 && s[1] == 0x5c)) {
      TerminatorMore(s[1..], t);
      assert (s + t)[1..] == s[1..] + t;
    }
  }

  lemma CsiMore(p: seq<byte>, q: seq<byte>, intro: nat, cfg: Config)
    requires intro <= |p| && !PeekCsi(p, intro, false, cfg).Again?
    ensures PeekCsi(p + q, intro, false, cfg) == PeekCsi(p, intro, false, cfg)
  {
    hide Parse, Handle, Emit;
    assert (p + q)[intro..] == p[intro..] + q;
    ParseMore(p[intro..], q);
    if Parse(p[intro..]).Csi? {
      var at := intro + Parse(p[intro..]).len;
      assert (p + q)[at..] == p[at..] + q;
    }
  }

  lemma StringMore(p: seq<byte>, q: seq<byte>, intro: nat, id: nat)
    requires 0 < intro <= |p| && !PeekString(p, intro, id).Again?
    ensures PeekString(p + q, intro, id) == PeekString(p, intro, id)
  {
    var s := p[intro..];
    assert (p + q)[intro..] == s + q;
    TerminatorMore(s, q);
    assert (s + q)[..TerminatorAt(s)] == s[..TerminatorAt(s)];
  }

  /** The first byte or two decide what the driver looks for. */
  predicate Decided(p: seq<byte>) {
    |p| > 1 || (|p| == 1 && p[0] != 0x1b)
  }

  lemma DriverMore(p: seq<byte>, q: seq<byte>, cfg: Config, id: nat)
    requires Decided(p) && !Driver(p, false, cfg, id).Again?
    ensures Driver(p + q, false, cfg, id) == Driver(p, false, cfg, id)
  {
    hide PeekCsi, PeekString, Ss3Key, Emit;
    var intro := if p[0] == 0x1b then 2 else 1;
    assert (p + q)[0] == p[0] && (|p| > 1 ==> (p + q)[1] == p[1]);
    if !PeekCsi(p, intro, false, cfg).Again? { CsiMore(p, q, intro, cfg); }
    if !PeekString(p, intro, id).Again? { StringMore(p, q, intro, id); }
  }

  /** More input never changes a key once it is given: not the key, nor the bytes it uses, nor those
      to be skipped after it. */
  lemma {:induction false} PeekMore(p: seq<byte>, q: seq<byte>, cfg: Config, id: nat)
    requires var r := Peek(p, false, cfg, id); r.Got? || r.Undefined?
    ensures Peek(p + q, false, cfg, id) == Peek(p, false, cfg, id)
    decreases |p|
  {
    hide Driver, Emit;
    if p[0] == 0x1b && |p| == 1 { LoneEscape(p, cfg, id); }
    DriverMore(p, q, cfg, id);
    assert (p + q)[0] == p[0];
    if p[0] == 0x1b && !Driver(p, false, cfg, id).Got? && !Driver(p, false, cfg, id).Undefined? {
      assert (p + q)[1..] == p[1..] + q;
      PeekMore(p[1..], q, cfg, id);
    } else if Utf8.Parse(p).Point? {
      Utf8.ParseMore(p, q);
    }
  }

  lemma LoneEscape(p: seq<byte>, cfg: Config, id: nat)
    requires |p| == 1 && p[0] == 0x1b
    ensures Driver(p, false, cfg, id).NoKey?
  {
  }
}
