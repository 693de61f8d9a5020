/** The terminal reader itself: a buffer with a start, a count and a high tide, peeked at and eaten
    from in place. */
module TermKeys {
  import opened Basics
  import opened TermKeyCsi
  import opened TermKeyKeys
  import B = TermKeyBytes
  import M = TermKeyMemory
  import P = TermKeyPeek
  import S = TermKeyStream
  import Sent = TermKeySent
  import Utf8 = TermKeyUtf8

  datatype Res = NONE | KEY | EOF | AGAIN | ERROR

  function Answer(r: P.Peeked): Res {
    match r
    case Got(_, _, _, _, _) => KEY
    case Again => AGAIN
    case Eof => EOF
    case Error => ERROR
    case _ => NONE
  }

  /** The return value and the out-parameters say what the peek found. */
  predicate Reports(r: P.Peeked, res: Res, key: Found, n: nat) {
    res == Answer(r) && (r.Got? ==> key == r.key && n == r.n)
  }

  /** What a getkey makes of the caller's key structure, that held `was`: after AGAIN it is the key that force
      would give. */
  predicate Writes(res: Res, r: P.Peeked, f: P.Peeked, was: Key, key: Key) {
    match res
    case KEY => r.Got? && key == Given(r.key, was.modifiers)
    case AGAIN => f.Got? && key == Given(f.key, was.modifiers)
    case _ => key == was
  }

  /** What an out-parameter for a key holds before anything is found. */
  const NOTHING := Found(Keysym(SYM_NONE), Keep)

  function NewString(r: P.Peeked, saved: seq<byte>): seq<byte> {
    if r.Got? && r.saved.Some? then r.saved.value else saved
  }

  /** A control string that ends, read off the buffer. */
  lemma StringWithin(buf: seq<byte>, start: nat, count: nat, intro: nat, end: nat, id: nat)
    requires start + count <= |buf| && 0 < intro <= end < count
    requires end == intro + P.TerminatorAt(buf[start..start + count][intro..])
    ensures P.PeekString(buf[start..start + count], intro, id)
         == P.Got(Found(if buf[start + intro - 1] % 0x20 == 0x10 then Dcs(id + 1) else Osc(id + 1), Put(0)),
                  end + (if buf[start + end] == 0x1b then 2 else 1), 0, None,
                  Some(P.Copied(buf[start + intro..start + end])))
  {
    hide P.TerminatorAt, P.Copied;
    var p := buf[start..start + count];
    Slice(buf, start, start + count, intro, end);
    assert p[intro..][..end - intro] == p[intro..end];
  }

  lemma NoEnd(p: seq<byte>, intro: nat, id: nat)
    requires 0 < intro <= |p| && intro + P.TerminatorAt(p[intro..]) >= |p|
    ensures P.PeekString(p, intro, id) == P.Again
  {
  }

  lemma Defined(p: seq<byte>, force: bool, cfg: Config, id: nat)
    requires cfg.started ==> !B.Strays(p, cfg)
    ensures !P.Peek(p, force, cfg, id).Undefined?
  {
    hide P.Peek, B.Strays;
    if cfg.started { B.UndefinedStrays(p, force, cfg, id); } else { P.PeekCases(p, force, cfg, id); }
  }

  /** The key behind an ESC, seen from the ESC. */
  lemma SeenFromEscape(r: P.Peeked, saved: seq<byte>)
    ensures var i := P.Inner(r);
            && i.Got? == r.Got? && i.Undefined? == r.Undefined? && Answer(i) == Answer(r)
            && NewString(i, saved) == NewString(r, saved)
            && (r.Got? ==> i.key == P.WithAlt(r.key) && i.n == r.n + 1)
  {
    hide P.WithAlt;
  }

  lemma NothingHere(p: seq<byte>, force: bool, cfg: Config, id: nat)
    ensures var r := P.Peek(p, force, cfg, id);
            && (!cfg.started ==> r == P.Error)
            && (cfg.started && |p| == 0 ==> r == if cfg.closed then P.Eof else P.NoKey)
  {
    hide P.Peek;
    P.PeekCases(p, force, cfg, id);
  }

  lemma NoString(r: P.Peeked, saved: seq<byte>)
    ensures !r.Got? ==> NewString(r, saved) == saved
  {
  }

  class TermKey {
    const buffer: array<byte>
    var buffstart: int      // unsigned in the code: a negative value here is one that has wrapped around
    var buffcount: nat
    var hightide: nat
    var cfg: Config
    var savedId: nat
    var saved: seq<byte>

    constructor (size: nat, cfg: Config)
      ensures Valid() && fresh(buffer) && buffer.Length == size && View() == S.State([], 0, 0) && this.cfg == cfg
    {
      buffer := new byte[size];
      buffstart, buffcount, hightide, savedId, saved := 0, 0, 0, 0, [];
      this.cfg := cfg;
    }

    predicate InBounds()
      reads this
    {
      0 <= buffstart && buffstart + buffcount <= buffer.Length
    }

    predicate Valid()
      reads this
    {
      InBounds() && hightide <= buffcount
    }

    function Pending(): seq<byte>
      requires InBounds()
      reads this, buffer
    {
      buffer[buffstart..buffstart + buffcount]
    }

    function Memory(): M.Memory
      reads this, buffer
    {
      M.Memory(buffer[..], buffstart, buffcount, hightide, savedId)
    }

    function View(): (st: S.State)
      requires Valid()
      reads this, buffer
      ensures st == S.State(Pending(), hightide, savedId) && st.Valid()
    {
      assert buffer[..][buffstart..buffstart + buffcount] == Pending();
      Memory().State()
    }

    /** eat_bytes */
    method EatBytes(count: nat)
      modifies `buffstart, `buffcount
      ensures Memory() == M.Eaten(old(Memory()), count)
      ensures buffcount == (if count < old(buffcount) then old(buffcount) - count else 0)
      ensures buffstart == if count < old(buffcount) then old(buffstart) + count else 0
    {
      if count >= buffcount {
        buffstart, buffcount := 0, 0;
        return;
      }
      buffstart := buffstart + count;
      buffcount := buffcount - count;
    }

    /** peekkey_mouse */
    method PeekMouse() returns (res: Res, key: Found, n: nat)
      requires InBounds()
      ensures var r := P.PeekMouse(Pending()); Reports(r, res, key, n) && M.Tide(r) == 0 && (r.Got? ==> r.saved.None?)
    {
      hide MouseKey;
      key, n := NOTHING, 0;
      if buffcount < 3 { return AGAIN, key, n; }
      var linecol: seq<byte> := [P.MouseByte(buffer[buffstart + 1]), P.MouseByte(buffer[buffstart + 2]), 0];
      key := Whole(MouseKey(P.MouseByte(buffer[buffstart]), linecol));
      n := 3;
      res := KEY;
    }

    /** A mouse report in the X10 encoding goes on for three bytes behind the sequence. */
    method PeekX10(csiLen: nat) returns (res: Res, key: Found, n: nat)
      requires InBounds() && csiLen <= buffcount
      modifies `buffstart, `buffcount
      ensures buffstart == old(buffstart) && buffcount == old(buffcount)
      ensures var m := P.PeekMouse(Pending()[csiLen..]);
              Reports(if m.Got? then m.(n := m.n + csiLen) else m, res, key, n)
              && M.Tide(m) == 0 && (m.Got? ==> m.saved.None?)
    {
      hide P.PeekMouse;
      ghost var p := Pending();
      buffstart := buffstart + csiLen;
      buffcount := buffcount - csiLen;
      assert Pending() == p[csiLen..];
      res, key, n := PeekMouse();
      buffstart := buffstart - csiLen;
      buffcount := buffcount + csiLen;
      if res == KEY { n := n + csiLen; }
    }

    /** peekkey_csi */
    method PeekCsi(introlen: nat, force: bool) returns (res: Res, key: Found, n: nat)
      requires InBounds() && hightide == 0 && introlen <= buffcount
      requires !P.PeekCsi(Pending(), introlen, force, cfg).Undefined?
      modifies `buffstart, `buffcount, `hightide
      ensures buffstart == old(buffstart) && buffcount == old(buffcount)
      ensures var r := P.PeekCsi(Pending(), introlen, force, cfg);
              Reports(r, res, key, n) && hightide == M.Tide(r) && (r.Got? ==> r.saved.None?)
    {
      hide Parse, Emit, Handle, P.PeekMouse;
      key, n := NOTHING, 0;
      ghost var p := Pending();
      assert buffer[buffstart + introlen..buffstart + buffcount] == p[introlen..];
      var args := new int[MAX_ARGS];
      var complete, csiLen, nargs, cmd := ParseCsi(buffer, buffstart, buffcount, introlen, args);
      if !complete {
        if !force { return AGAIN, key, n; }
        return KEY, P.WithAlt(Whole(Emit(cfg, 0x5b).value)), introlen;
      }
      if P.IsX10(cmd, args[..nargs]) {
        res, key, n := PeekX10(csiLen);
        return;
      }
      var handled := Handle(cfg, cmd, args[..nargs]);
      if handled.NotMine? {
        hightide := csiLen - introlen;
        return KEY, Found(UnknownCsi(cmd), handled.mods), introlen;
      }
      return KEY, handled.key, csiLen;
    }

    /** peekkey_ss3 */
    method PeekSs3(introlen: nat, force: bool) returns (res: Res, key: Found, n: nat)
      requires InBounds() && introlen <= buffcount
      requires !P.PeekSs3(Pending(), introlen, force, cfg).Undefined?
      ensures var r := P.PeekSs3(Pending(), introlen, force, cfg);
              Reports(r, res, key, n) && M.Tide(r) == 0 && (r.Got? ==> r.saved.None?)
    {
      hide Emit, Ss3Key;
      key, n := NOTHING, 0;
      if buffcount < introlen + 1 {
        if !force { return AGAIN, key, n; }
        return KEY, P.WithAlt(Whole(Emit(cfg, 0x4f).value)), buffcount;
      }
      var cmd := buffer[buffstart + introlen];
      if cmd < 0x40 || cmd >= 0x80 { return NONE, key, n; }
      var found := Ss3Key(cfg, cmd);
      if found.None? { return NONE, key, n; }
      return KEY, Whole(found.value), introlen + 1;
    }

    /** The search of peekkey_ctrlstring for the end of the string. */
    method FindTerminator(introlen: nat) returns (strEnd: nat)
      requires InBounds() && introlen <= buffcount
      ensures strEnd == introlen + P.TerminatorAt(Pending()[introlen..])
    {
      ghost var s := Pending()[introlen..];
      strEnd := introlen;
      while strEnd < buffcount
        invariant introlen <= strEnd <= buffcount
        invariant P.TerminatorAt(s) == strEnd - introlen + P.TerminatorAt(s[strEnd - introlen..])
      {
        ghost var rest := s[strEnd - introlen..];
        assert buffer[buffstart + strEnd] == rest[0];
        assert strEnd + 1 < buffcount ==> buffer[buffstart + strEnd + 1] == rest[1];
        if buffer[buffstart + strEnd] == 0x9c { break; }
        if buffer[buffstart + strEnd] == 0x1b && strEnd + 1 < buffcount && buffer[buffstart + strEnd + 1] == 0x5c {
          break;
        }
        assert rest[1..] == s[strEnd + 1 - introlen..];
        strEnd := strEnd + 1;
      }
    }

    /** peekkey_ctrlstring */
    method PeekString(introlen: nat) returns (res: Res, key: Found, n: nat)
      requires InBounds() && 0 < introlen <= buffcount
      modifies `savedId, `saved
      ensures var r := P.PeekString(Pending(), introlen, old(savedId));
              && Reports(r, res, key, n) && M.Tide(r) == 0
              && savedId == M.NewId(r, old(savedId)) && saved == NewString(r, old(saved))
    {
      hide P.TerminatorAt, P.Copied, P.PeekString;
      key, n := NOTHING, 0;
      ghost var p := Pending();
      var strEnd := FindTerminator(introlen);
      assert buffer[..][buffstart..buffstart + buffcount] == p;
      if strEnd >= buffcount {
        NoEnd(p, introlen, savedId);
        return AGAIN, key, n;
      }
      StringWithin(buffer[..], buffstart, buffcount, introlen, strEnd, savedId);
      n := strEnd + 1;
      if buffer[buffstart + strEnd] == 0x1b { n := n + 1; }
      var text := buffer[buffstart + introlen..buffstart + strEnd];
      assert text == buffer[..][buffstart + introlen..buffstart + strEnd];
      savedId := savedId + 1;
      saved := P.Copied(text);
      assert Pending() == p;
      key := Found(if buffer[buffstart + introlen - 1] % 0x20 == 0x10 then Dcs(savedId) else Osc(savedId), Put(0));
      res := KEY;
    }

    /** peekkey of the CSI driver */
    method Drive(force: bool) returns (res: Res, key: Found, n: nat)
      requires InBounds() && hightide == 0 && buffcount > 0
      requires !P.Driver(Pending(), force, cfg, savedId).Undefined?
      modifies `buffstart, `buffcount, `hightide, `savedId, `saved
      ensures buffstart == old(buffstart) && buffcount == old(buffcount)
      ensures var r := P.Driver(Pending(), force, cfg, old(savedId));
              && Reports(r, res, key, n) && hightide == M.Tide(r)
              && savedId == M.NewId(r, old(savedId)) && saved == NewString(r, old(saved))
    {
      hide P.PeekCsi, P.PeekSs3, P.PeekString;
      key, n := NOTHING, 0;
      var b0 := buffer[buffstart];
      if b0 == 0x1b {
        if buffcount < 2 { return NONE, key, n; }
        var b1 := buffer[buffstart + 1];
        if b1 == 0x4f {
          res, key, n := PeekSs3(2, force);
        } else if b1 == 0x50 || b1 == 0x5d {
          res, key, n := PeekString(2);
        } else if b1 == 0x5b {
          res, key, n := PeekCsi(2, force);
        } else {
          res := NONE;
        }
      } else if b0 == 0x8f {
        res, key, n := PeekSs3(1, force);
      } else if b0 == 0x90 || b0 == 0x9d {
        res, key, n := PeekString(1);
      } else if b0 == 0x9b {
        res, key, n := PeekCsi(1, force);
      } else {
        res := NONE;
      }
    }

    /** A peek that finds r, from the memory m and the saved string str, has left its trace and nothing else. */
    ghost predicate Leaves(m: M.Memory, str: seq<byte>, r: P.Peeked)
      requires m.tide <= m.count
      reads this, buffer
    {
      Memory() == M.Trace(m, r) && saved == NewString(r, str)
    }

    /** The data slide down, to stop them running away. */
    method Slide()
      requires InBounds()
      modifies `buffstart, buffer
      ensures var half := buffer.Length / 2;
              if old(buffstart) > half
              then buffstart == old(buffstart) - half && buffer[..] == M.Slid(old(buffer[..]))
              else buffstart == old(buffstart) && buffer[..] == old(buffer[..])
    {
      var halfsize := buffer.Length / 2;
      if buffstart > halfsize {
        ghost var was := buffer[..];
        forall i | 0 <= i < halfsize { buffer[i] := buffer[halfsize + i]; }
        assert buffer[..] == was[halfsize..halfsize + halfsize] + was[halfsize..];
        buffstart := buffstart - halfsize;
      }
    }

    /** The bytes up to the high tide are given up. */
    method SkipTide()
      requires Valid()
      modifies `buffstart, `buffcount, `hightide
      ensures InBounds() && hightide == 0 && Pending() == old(View().Skipped())
      ensures buffcount == old(buffcount - hightide)
      ensures var m := old(Memory());
              Memory() == m.(start := m.start + m.tide, count := m.count - m.tide, tide := 0)
    {
      if hightide > 0 {
        buffstart := buffstart + hightide;
        buffcount := buffcount - hightide;
        hightide := 0;
      }
    }

    /** peekkey, with the CSI driver for the only driver; p are the bytes to be peeked at. */
    method PeekKey(force: bool, ghost p: seq<byte>) returns (res: Res, key: Found, n: nat)
      requires Valid() && p == View().Skipped() && !P.Peek(p, force, cfg, savedId).Undefined?
      modifies this, buffer
      ensures cfg == old(cfg) && Reports(P.Peek(p, force, cfg, old(savedId)), res, key, n)
      ensures !cfg.started ==> unchanged(this) && unchanged(buffer)
      ensures cfg.started ==> Leaves(old(Memory()), old(saved), P.Peek(p, force, cfg, old(savedId)))
      decreases buffcount - hightide, 2
    {
      hide P.Peek, M.Trace, NewString, M.Tide, M.NewId;
      ghost var r := P.Peek(p, force, cfg, savedId);
      NothingHere(p, force, cfg, savedId);
      if !cfg.started { return ERROR, NOTHING, 0; }
      M.TraceSkips(Memory(), r);
      SkipTide();
      if buffcount == 0 {
        NoString(r, saved);
        return if cfg.closed then EOF else NONE, NOTHING, 0;
      }
      assert Pending() == p;
      res, key, n := PeekHere(force, p);
    }

    /** ... where there are bytes to peek at: first the driver, then the plain rules. */
    method PeekHere(force: bool, ghost p: seq<byte>) returns (res: Res, key: Found, n: nat)
      requires InBounds() && hightide == 0 && buffcount > 0 && cfg.started
      requires p == Pending() && !P.Peek(p, force, cfg, savedId).Undefined?
      modifies this, buffer
      ensures cfg == old(cfg) && Reports(P.Peek(p, force, cfg, old(savedId)), res, key, n)
      ensures Leaves(old(Memory()), old(saved), P.Peek(p, force, cfg, old(savedId)))
      decreases buffcount, 1
    {
      hide P.Driver, P.PeekSimple, P.Peek, M.Slid;
      P.PeekCases(p, force, cfg, savedId);
      P.DriverBounded(p, force, cfg, savedId);
      res, key, n := Drive(force);
      if res == KEY {
        Slide();
      } else if res != AGAIN || force {
        res, key, n := PeekSimple(force);
      }
    }

    method StepIn()
      requires InBounds() && hightide == 0 && buffcount > 0
      modifies `buffstart, `buffcount
      ensures Valid() && View().Skipped() == old(Pending())[1..] && buffcount == old(buffcount) - 1
      ensures Memory() == old(Memory()).(start := old(buffstart) + 1, count := old(buffcount) - 1)
    {
      buffstart := buffstart + 1;
      buffcount := buffcount - 1;
      assert View().Skipped() == Pending();
    }

    /** The key behind an ESC: another peek one byte further on. */
    method PeekAlt(force: bool, ghost p: seq<byte>) returns (res: Res, key: Found, n: nat)
      requires InBounds() && hightide == 0 && buffcount > 1 && cfg.started
      requires p == Pending() && !P.Peek(p[1..], force, cfg, savedId).Undefined?
      modifies this, buffer
      ensures cfg == old(cfg)
      ensures var r := P.Inner(P.Peek(p[1..], force, cfg, old(savedId)));
              && Reports(r, res, key, n)
              && Leaves(old(Memory()), old(saved), r)
      decreases buffcount - 1, 3
    {
      hide P.Driver, P.Peek, Emit, M.Trace, P.WithAlt, P.Inner, NewString;
      ghost var r := P.Peek(p[1..], force, cfg, savedId);
      M.TraceBehind(Memory(), r);
      SeenFromEscape(r, saved);
      StepIn();
      res, key, n := PeekKey(force, p[1..]);
      buffstart := buffstart - 1;
      buffcount := buffcount + 1;
      if res == KEY {
        key := P.WithAlt(key);
        n := n + 1;
      }
    }

    /** peekkey_simple */
    method PeekSimple(force: bool) returns (res: Res, key: Found, n: nat)
      requires InBounds() && hightide == 0 && buffcount > 0 && cfg.started
      requires !P.PeekSimple(Pending(), force, cfg, savedId).Undefined?
      modifies this, buffer
      ensures cfg == old(cfg) && Reports(old(P.PeekSimple(Pending(), force, cfg, savedId)), res, key, n)
      ensures Leaves(old(Memory()), old(saved), old(P.PeekSimple(Pending(), force, cfg, savedId)))
      decreases buffcount, 0
    {
      hide P.Driver, P.Peek, Emit, M.Slid, Utf8.Parse, P.WithAlt;
      ghost var p := Pending();
      key, n := NOTHING, 0;
      var b0 := buffer[buffstart];
      if b0 == 0x1b {
        if buffcount == 1 {
          if !force { return AGAIN, key, n; }
          return KEY, Whole(Emit(cfg, b0).value), 1;
        }
        res, key, n := PeekAlt(force, p);
      } else if b0 < 0xa0 {
        return KEY, Whole(Emit(cfg, b0).value), 1;
      } else if cfg.utf8 {
        var parsed := Utf8.ParseUtf8(buffer, buffstart, buffcount);
        match parsed
        case Point(cp, nbytes) => return KEY, Whole(Emit(cfg, cp).value), nbytes;
        case More =>
          if !force { return AGAIN, key, n; }
          return KEY, Whole(Emit(cfg, Utf8.UTF8_INVALID).value), buffcount;
      } else {
        return KEY, Found(Unicode(b0, [b0]), Put(0)), 1;
      }
    }

    /** The second peek of a getkey, by force, when the first one has called for more. */
    method PeekAgain(ghost m: M.Memory) returns (found: Found)
      requires m.Valid() && cfg.started && S.Look(m.State(), false, cfg).Again?
      requires Memory() == M.Trace(m, S.Look(m.State(), false, cfg))
      modifies this, buffer
      ensures cfg == old(cfg) && saved == old(saved)
      ensures var f := S.Look(m.State(), true, cfg);
              f.Got? && found == f.key && Memory() == M.Trace(m, f)
    {
      hide P.Peek, M.Trace;
      ghost var st := m.State();
      B.ForcedAfterAgain(st.Skipped(), cfg, st.id);
      M.TraceAgain(m, S.Look(st, false, cfg), S.Look(st, true, cfg));
      var res, n;
      res, found, n := PeekKey(true, st.Skipped());
    }

    /** termkey_getkey into a key structure that holds `was`. The bytes of a key are eaten; after AGAIN the
        structure holds the key that force would give, and nothing is eaten yet. What is pending afterwards is
        what the stream of keys asks for, but in two cases: the forced peek after AGAIN can slide the data from
        under a start that is not in the upper half itself, which then wraps around below the buffer; and with
        an odd buffer size the slide can lose the last byte. */
    method GetKey(was: Key) returns (res: Res, key: Key)
      requires Valid() && (cfg.started ==> !B.Strays(View().Skipped(), cfg))
      modifies this, buffer
      ensures cfg == old(cfg) && res == Answer(old(S.Look(View(), false, cfg)))
      ensures !cfg.started ==> res == ERROR && unchanged(this) && unchanged(buffer)
      ensures cfg.started && old(buffcount == hightide) ==> res == if cfg.closed then EOF else NONE
      ensures cfg.started ==> Memory() == M.Fetched(old(Memory()), false, cfg)
      ensures cfg.started ==> saved == NewString(old(S.Look(View(), false, cfg)), old(saved))
      ensures Writes(res, old(S.Look(View(), false, cfg)), old(S.Look(View(), true, cfg)), was, key)
      ensures cfg.started ==> Fits(old(Memory()), false)
    {
      hide P.Peek, M.Trace, M.Eaten, Fits, B.Strays;
      ghost var m, st, str := Memory(), View(), saved;
      ghost var p := st.Skipped();
      Defined(p, false, cfg, savedId);
      NothingHere(p, false, cfg, savedId);
      var found, n;
      res, found, n := PeekKey(false, p);
      P.PeekCases(p, false, cfg, st.id);
      if !cfg.started { return res, was; }
      if res == KEY {
        EatBytes(n);
        key := Given(found, was.modifiers);
      } else if res == AGAIN {
        found := PeekAgain(m);
        key := Given(found, was.modifiers);
      } else {
        M.NothingPeeked(p, false, cfg, st.id);
        key := was;
      }
      FitsWhenFetched(m, false);
    }

    /** termkey_getkey_force */
    method GetKeyForce(was: Key) returns (res: Res, key: Key)
      requires Valid() && (cfg.started ==> !B.Strays(View().Skipped(), cfg))
      modifies this, buffer
      ensures cfg == old(cfg) && res == Answer(old(S.Look(View(), true, cfg)))
      ensures !cfg.started ==> res == ERROR && unchanged(this) && unchanged(buffer)
      ensures cfg.started ==> Memory() == M.Fetched(old(Memory()), true, cfg)
      ensures cfg.started ==> saved == NewString(old(S.Look(View(), true, cfg)), old(saved))
      ensures Writes(res, old(S.Look(View(), true, cfg)), old(S.Look(View(), true, cfg)), was, key)
      ensures cfg.started ==> Fits(old(Memory()), true)
      ensures cfg.started && old(buffcount > hightide) ==> res == KEY && buffcount < old(buffcount - hightide)
    {
      hide P.Peek, M.Trace, M.Eaten, Fits, B.Strays;
      ghost var m, st := Memory(), View();
      ghost var p := st.Skipped();
      Defined(p, true, cfg, savedId);
      var found, n;
      res, found, n := PeekKey(true, p);
      P.PeekCases(p, true, cfg, st.id);
      if !cfg.started { return res, was; }
      if |p| > 0 {
        P.ForcedProgress(p, cfg, st.id);
        M.Shrinks(m, S.Look(st, true, cfg), n);
      }
      if res == KEY {
        EatBytes(n);
        key := Given(found, was.modifiers);
      } else {
        M.NothingPeeked(p, true, cfg, st.id);
        key := was;
      }
      FitsWhenFetched(m, true);
    }

    lemma FitsWhenFetched(m: M.Memory, force: bool)
      requires m.Valid() && cfg.started && !B.Strays(m.State().Skipped(), cfg)
      requires Memory() == M.Fetched(m, force, cfg)
      ensures Fits(m, force)
    {
      hide S.Look, S.After, M.Fetched, M.Wraps, M.Loses, B.Strays;
      M.FetchedState(m, force, cfg);
    }

    /** What a getkey on the memory m has left, seen from the stream of keys. */
    ghost predicate Fits(m: M.Memory, force: bool)
      requires m.Valid()
      reads this, buffer
    {
      && (Valid() <==> !M.Wraps(m, force))
      && (Valid() ==> (View() == S.After(m.State(), S.Look(m.State(), force, cfg)) <==> !M.Loses(m, force, cfg)))
    }

    /** The pending bytes move to the start of the buffer. */
    method Compact()
      requires Valid()
      modifies `buffstart, buffer
      ensures Valid() && buffstart == 0
      ensures buffer[..] == old(buffer[buffstart..buffstart + buffcount]) + old(buffer[buffcount..])
    {
      if buffstart > 0 {
        forall i | 0 <= i < buffcount { buffer[i] := buffer[buffstart + i]; }
        buffstart := 0;
      }
    }

    /** memcpy behind the pending bytes. */
    method Append(bytes: seq<byte>)
      requires Valid() && buffstart == 0 && buffcount + |bytes| <= buffer.Length
      modifies `buffcount, buffer
      ensures buffcount == old(buffcount) + |bytes|
      ensures var was := old(buffer[..]); buffer[..] == was[..old(buffcount)] + bytes + was[old(buffcount)..][|bytes|..]
    {
      forall i | 0 <= i < |bytes| { buffer[buffcount + i] := bytes[i]; }
      buffcount := buffcount + |bytes|;
    }

    /** The bytes that there is room for go in behind those pending. */
    method Take(bytes: seq<byte>) returns (n: int)
      requires Valid()
      modifies `buffstart, `buffcount, buffer
      ensures Memory() == M.Pushed(old(Memory()), bytes)
      ensures n == if old(buffcount) == buffer.Length then -1 else M.Room(buffer.Length, old(buffcount), bytes)
    {
      ghost var m := Memory();
      hide M.Pushed;
      Compact();
      M.PushedIs(m, bytes, buffer[..]);
      if buffcount >= buffer.Length { return -1; }
      var len := |bytes|;
      if len > buffer.Length - buffcount { len := buffer.Length - buffcount; }
      assert len == M.Room(buffer.Length, buffcount, bytes);
      hide M.Room;
      Append(bytes[..len]);
      n := len;
    }

    /** termkey_push_bytes: the first bytes go in behind those pending, all of them or as many as fill the buffer; -1
        when it was full. */
    method PushBytes(bytes: seq<byte>) returns (n: int)
      requires Valid()
      modifies `buffstart, `buffcount, buffer
      ensures Memory() == M.Pushed(old(Memory()), bytes)
      ensures n == if old(buffcount) == buffer.Length then -1 else M.Room(buffer.Length, old(buffcount), bytes)
      ensures Valid() && View() == old(View()).Push(bytes[..M.Room(buffer.Length, old(buffcount), bytes)])
      ensures var k := buffcount - old(buffcount);
              && 0 <= k && M.FillsUp(bytes, k, buffcount, buffer.Length)
              && buffstart == 0 && Pending() == old(Pending()) + bytes[..k]
              && n == if old(buffcount) == buffer.Length then -1 else k
    {
      hide M.Pushed, M.Room, M.FillsUp;
      M.PushedState(Memory(), bytes);
      n := Take(bytes);
    }

    /** termkey_interpret_csi: the parameters and the command of the sequence left to be skipped. */
    method InterpretCsi(key: Key, args: array<int>) returns (res: Res, nargs: nat, cmd: Command)
      requires Valid() && args.Length == MAX_ARGS
      requires hightide > 0 && key.code.UnknownCsi? ==> !Parse(Pending()).Overrun?
      modifies args
      ensures hightide == 0 || !key.code.UnknownCsi? ==> res == NONE
      ensures hightide > 0 && key.code.UnknownCsi? ==>
                if Parse(Pending()).Csi?
                then res == KEY && nargs <= MAX_ARGS &&
                     Parse(Pending()) == Csi(args[..nargs], cmd, Parse(Pending()).len)
                else res == AGAIN
    {
      nargs, cmd := 0, Command(0, 0, 0);
      if hightide == 0 || !key.code.UnknownCsi? { return NONE, nargs, cmd; }
      assert buffer[buffstart + 0..buffstart + buffcount] == Pending();
      var complete, len;
      complete, len, nargs, cmd := ParseCsi(buffer, buffstart, buffcount, 0, args);
      res := if complete then KEY else AGAIN;
    }

    /** termkey_interpret_string: only the last control string can still be had. */
    method InterpretString(key: Key) returns (res: Res, str: seq<byte>)
      ensures res == if key.code == Dcs(savedId) || key.code == Osc(savedId) then KEY else NONE
      ensures res == KEY ==> str == saved
    {
      str := [];
      match key.code {
        case Dcs(id) => res := if id == savedId then KEY else NONE;
        case Osc(id) => res := if id == savedId then KEY else NONE;
        case _ => res := NONE;
      }
      if res == KEY { str := saved; }
    }

    /** A control string that is pending is read, and its text can be had, up to its first zero. */
    method ReadString(force: bool, was: Key, c1: byte, short: bool, ghost text: seq<byte>, ghost end: seq<byte>,
                      ghost rest: seq<byte>)
      returns (key: Key, res: Res, str: seq<byte>)
      requires Valid() && cfg.started && (c1 == Sent.DCS || c1 == Sent.OSC) && (end == [0x9c] || end == [0x1b, 0x5c])
      requires View().Skipped() == Sent.Intro(c1, short) + (text + (end + rest))
      requires Sent.Unterminated(text)
      modifies this, buffer
      ensures key == Key(if c1 == Sent.DCS then Dcs(old(savedId) + 1) else Osc(old(savedId) + 1), 0)
      ensures res == KEY && str == CString(text + [0])
    {
      hide P.Peek, M.Fetched, Fits, B.Strays, CString;
      ghost var p := View().Skipped();
      Sent.ControlString(c1, short, text, end, rest, force, cfg, savedId);
      if B.Strays(p, cfg) { B.UndefinedStrays(p, force, cfg, savedId); }
      S.LookIs(View(), force, cfg);
      M.FetchedId(Memory(), force, cfg);
      var got;
      if force { got, key := GetKeyForce(was); } else { got, key := GetKey(was); }
      res, str := InterpretString(key);
    }

    /** One getkey of a run. */
    method Next(force: bool, was: Key) returns (res: Res, key: Key)
      requires Valid() && cfg.started && M.Clear(Memory(), force, cfg)
      modifies this, buffer
      ensures Valid() && cfg == old(cfg) && Memory() == M.Fetched(old(Memory()), force, cfg)
      ensures View() == old(S.After(View(), S.Look(View(), force, cfg)))
      ensures var r := old(S.Look(View(), force, cfg));
              (res == KEY <==> r.Got?) && (r.Got? ==> key == Given(r.key, was.modifiers))
      ensures key.modifiers == old(S.HeldAfter(View(), force, was.modifiers, cfg))
    {
      hide P.Peek, S.Look, S.After, M.Fetched, M.Wraps, M.Loses, M.Clear, B.Strays;
      M.ClearMeans(Memory(), force, cfg);
      if force { res, key := GetKeyForce(was); } else { res, key := GetKey(was); }
    }

    /** ... whose key, if there is one, is put on a list. */
    method NextListed(force: bool, was: Key, keys: seq<Key>) returns (key: Key, keys': seq<Key>)
      requires Valid() && cfg.started && M.Clear(Memory(), force, cfg)
      modifies this, buffer
      ensures Valid() && cfg == old(cfg) && Memory() == M.Fetched(old(Memory()), force, cfg)
      ensures var st := old(View()); var r := S.Look(st, force, cfg);
              && View() == S.After(st, r) && key.modifiers == S.HeldAfter(st, force, was.modifiers, cfg)
              && keys' == keys + (if r.Got? then [Given(r.key, was.modifiers)] else [])
    {
      hide S.Look, S.After, S.HeldAfter, M.Clear, M.Fetched;
      var res;
      res, key := Next(force, was);
      keys' := keys + if res == KEY then [key] else [];
    }

    /** One push of a run, with a count of the bytes accepted. */
    method PushCounted(bytes: seq<byte>, accepted: nat) returns (accepted': nat)
      requires Valid()
      modifies `buffstart, `buffcount, buffer
      ensures Memory() == M.Pushed(old(Memory()), bytes)
      ensures var n := M.Room(buffer.Length, old(buffcount), bytes);
              Valid() && View() == old(View()).Push(bytes[..n]) && accepted' == accepted + n
    {
      hide M.Pushed;
      var n := PushBytes(bytes);
      accepted' := if n > 0 then accepted + n else accepted;
    }

    /** After the key for an unknown sequence, whatever is pushed, its parameters and command can be had; and the
        next getkey answers to the bytes behind its final byte. */
    method ReadUnknown(force: bool, was: Key, bytes: seq<byte>, args: array<int>, ghost st: S.State, ghost r: P.Peeked,
                       ghost behind: seq<byte>)
      returns (key: Key, nargs: nat, cmd: Command, next: Res, nextKey: Key)
      requires Valid() && cfg.started && M.Clear(Memory(), force, cfg) && args.Length == MAX_ARGS
      requires st == View() && r == S.Look(st, force, cfg) && r.Got? && r.key.code.UnknownCsi?
      requires var st' := S.After(st, r);
               behind == st'.Skipped() + bytes[..M.Room(buffer.Length, |st'.pending|, bytes)] && !B.Strays(behind, cfg)
      modifies this, buffer, args
      ensures key == Given(r.key, was.modifiers) && cmd == r.key.code.cmd && nargs <= MAX_ARGS
      ensures r.n <= |st.Skipped()| && Parse(st.Skipped()[r.n..]) == Csi(args[..nargs], cmd, r.tide)
      ensures next == Answer(P.Peek(behind, false, cfg, S.After(st, r).id))
    {
      hide P.Peek, M.Fetched, M.Clear, B.Strays, Parse, M.Room, S.Look, S.After, Fits;
      ghost var st1 := S.After(st, r);
      ghost var q := bytes[..M.Room(buffer.Length, |st1.pending|, bytes)];
      S.Handshake(st, force, q, cfg);
      S.BehindUnknown(st, r);
      key := NextThenPush(force, was, bytes, st, r);
      var told;
      told, nargs, cmd := InterpretCsi(key, args);
      S.LookIs(View(), false, cfg);
      next, nextKey := GetKey(key);
    }

    method NextThenPush(force: bool, was: Key, bytes: seq<byte>, ghost st: S.State, ghost r: P.Peeked)
      returns (key: Key)
      requires Valid() && cfg.started && M.Clear(Memory(), force, cfg)
      requires st == View() && r == S.Look(st, force, cfg) && r.Got?
      modifies this, buffer
      ensures Valid() && cfg == old(cfg) && key == Given(r.key, was.modifiers)
      ensures var st' := S.After(st, r); View() == st'.Push(bytes[..M.Room(buffer.Length, |st'.pending|, bytes)])
    {
      hide P.Peek, M.Fetched, M.Clear, M.Pushed, M.Room, M.FillsUp, S.Look, S.After;
      var res;
      res, key := Next(force, was);
      assert buffcount == |View().pending|;
      var n := PushBytes(bytes);
    }

    /** One step of a run; `ops` is what is still to come of it. */
    method StepOn(op: S.Op, was: Key, keys: seq<Key>, accepted: nat, ghost st: S.State, ghost done: seq<S.Op>,
                  ghost held: int, ghost ops: seq<S.Op>)
      returns (key: Key, keys': seq<Key>, accepted': nat)
      requires Valid() && cfg.started && |ops| > 0 && op == ops[0] && M.Sound(Memory(), ops, cfg) && st.Valid()
      requires M.OnTheWay(st, done, held, M.Progress(View(), ops, was.modifiers, keys, accepted), buffer.Length, cfg)
      modifies this, buffer
      ensures Valid() && cfg == old(cfg) && M.Sound(Memory(), ops[1..], cfg)
      ensures M.OnTheWay(st, done, held, M.Progress(View(), ops[1..], key.modifiers, keys', accepted'), buffer.Length,
                         cfg)
    {
      hide S.Look, S.After, S.HeldAfter, M.Clear, M.Fetched, M.Pushed, M.Room, M.OnTheWay, M.Sound;
      ghost var now := M.Progress(View(), ops, was.modifiers, keys, accepted);
      M.SoundFirst(Memory(), ops, cfg);
      key, keys', accepted' := was, keys, accepted;
      if op.Push? {
        M.OnByPush(st, done, held, now, buffer.Length, cfg);
        accepted' := PushCounted(op.bytes, accepted);
      } else {
        M.OnByGetKey(st, done, held, now, buffer.Length, cfg);
        key, keys' := NextListed(op.force, was, keys);
      }
    }

    /** A run of pushes and getkeys on the buffer, all the keys going into one structure, gives the keys, and
        leaves the state, that the same run on an endless stream of bytes would, but for the bytes there is no
        room for. No byte that was accepted gets lost; and when no answer is forced, the keys are the first of
        those in all these bytes together if and only if the run is steady. */
    method Run(ops: seq<S.Op>, was: Key) returns (keys: seq<Key>, key: Key, accepted: nat)
      requires Valid() && cfg.started && M.Sound(Memory(), ops, cfg)
      modifies this, buffer
      ensures Valid() && cfg == old(cfg)
      ensures var st := old(View()); var done := M.Accepted(st, ops, buffer.Length, cfg);
              && M.AsFits(st, ops, done, buffer.Length, cfg)
              && keys == S.RunKeys(st, done, was.modifiers, cfg) && View() == S.RunRest(st, done, cfg)
              && accepted == |S.Pushed(done)|
              && S.RunUsed(st, done, cfg) + View().pending == st.pending + S.Pushed(done)
              && (S.Patient(ops) ==>
                    (keys <= S.KeysOf(S.Drain(st.Push(S.Pushed(done)), cfg), was.modifiers) <==>
                     S.Steady(st, done, was.modifiers, None, cfg)))
    {
      hide S.Drain, S.Look, S.After, S.RunKeys, S.RunRest, S.RunUsed, S.Pushed, S.Steady, S.HeldAfter;
      hide M.Accepted, M.Clear, M.Fetched, M.Pushed, M.Room, M.OnTheWay, M.Sound, M.AsFits, S.Patient;
      ghost var st, size := View(), buffer.Length;
      ghost var done := M.Accepted(st, ops, size, cfg);
      keys, key, accepted := [], was, 0;
      var k := 0;
      assert ops[0..] == ops;
      M.SetOut(st, ops, was.modifiers, size, cfg);
      while k < |ops|
        invariant 0 <= k <= |ops| && Valid() && cfg == old(cfg) && M.Sound(Memory(), ops[k..], cfg)
        invariant M.OnTheWay(st, done, was.modifiers,
                             M.Progress(View(), ops[k..], key.modifiers, keys, accepted), size, cfg)
      {
        assert ops[k..][1..] == ops[k + 1..];
        key, keys, accepted := StepOn(ops[k], key, keys, accepted, st, done, was.modifiers, ops[k..]);
        k := k + 1;
      }
      M.Arrived(st, done, was.modifiers, M.Progress(View(), ops[k..], key.modifiers, keys, accepted), size, cfg);
      M.RunIs(st, ops, was.modifiers, size, cfg);
    }
  }

  // ---- the two ways to lose input ----

  /** Three letters, three times ESC, and a CSI that is not complete. */
  const THREE_ESCAPES: seq<byte> := [0x61, 0x62, 0x63, 0x1b, 0x1b, 0x1b, 0x5b, 0x31]

  /** Four letters, Up in its eight-bit form, and another letter. */
  const UP_LAST: seq<byte> := [0x61, 0x62, 0x63, 0x64, 0x8f, 0x41, 0x7a]

  /** A letter is a key by itself, however the instance is set up. */
  lemma LetterPeeked(p: seq<byte>, force: bool, cfg: Config, id: nat)
    requires cfg.started && |p| > 0 && 0x61 <= p[0] <= 0x7a
    ensures P.Peek(p, force, cfg, id) == P.Got(Found(UnicodeCode(p[0]), Put(0)), 1, 0, None, None)
    ensures !B.Strays(p, cfg)
  {
  }

  /** A new reader with the whole of its buffer filled. */
  method Filled(input: seq<byte>, cfg: Config) returns (tk: TermKey)
    requires |input| > 0
    ensures fresh(tk) && fresh(tk.buffer) && tk.cfg == cfg && tk.Memory() == M.Memory(input, 0, |input|, 0, 0)
  {
    tk := new TermKey(|input|, cfg);
    var n := tk.PushBytes(input);
  }

  /** The letters at the start of a buffer are read one by one. */
  method ReadLetters(tk: TermKey, k: nat)
    requires tk.Valid() && tk.cfg.started && tk.buffstart == 0 && tk.hightide == 0 && k < tk.buffcount
    requires forall i | 0 <= i < k :: 0x61 <= tk.buffer[i] <= 0x7a
    modifies tk, tk.buffer
    ensures tk.Valid() && tk.cfg == old(tk.cfg)
    ensures var m := old(tk.Memory()); tk.Memory() == m.(start := k, count := m.count - k)
  {
    hide P.Peek, S.After, M.Slid, B.Strays;
    ghost var m := tk.Memory();
    var i := 0;
    while i < k
      invariant 0 <= i <= k && tk.Valid() && tk.cfg == old(tk.cfg)
      invariant tk.Memory() == m.(start := i, count := m.count - i)
    {
      assert tk.View().Skipped()[0] == m.buf[i];
      LetterPeeked(tk.View().Skipped(), false, tk.cfg, tk.savedId);
      var res, key := tk.GetKey(Key(Keysym(SYM_NONE), 0));
      i := i + 1;
    }
  }

  /** Three bytes of ESC and an incomplete CSI, behind three bytes already eaten: the place of the driver's
      answer is in the upper half of eight bytes, and the start is not. */
  lemma StartWraps(m: M.Memory, cfg: Config)
    requires cfg.started && m.Valid() && m.buf == THREE_ESCAPES && m.start == 3 && m.count == 5 && m.tide == 0
    ensures S.Look(m.State(), false, cfg).Again? && M.Wraps(m, false)
    ensures !M.Fetched(m, false, cfg).Valid() && !B.Strays(m.State().Skipped(), cfg)
  {
    hide P.Peek, M.Fetched, S.After, B.Strays, B.Unfinished;
    var p: seq<byte> := [0x1b, 0x1b, 0x1b, 0x5b, 0x31];
    assert m.Skipped() == p;
    M.SkippedIs(m);
    EscapesUnfinished(cfg);
    B.AgainUnfinished(p, cfg, m.id);
    M.FetchedState(m, false, cfg);
  }

  lemma EscapesUnfinished(cfg: Config)
    ensures var p := [0x1b, 0x1b, 0x1b, 0x5b, 0x31];
            B.Unfinished(p) && B.Alts(p) == 2 && !B.Strays(p, cfg)
  {
    var p: seq<byte> := [0x1b, 0x1b, 0x1b, 0x5b, 0x31];
    assert p[1..] == [0x1b, 0x1b, 0x5b, 0x31] && p[1..][1..] == [0x1b, 0x5b, 0x31];
    assert [0x1b, 0x5b, 0x31][1..] == [0x5b, 0x31];
    assert B.Lead([0x5b, 0x31]) == 0 && B.Lead([0x1b, 0x5b, 0x31]) == 1 && B.Lead(p[1..]) == 2 && B.Lead(p) == 3;
    assert p[4..] == [0x31];
    assert Parse([0x31]).More?;
  }

  /** A reader of eight bytes gets there: three letters are read, and the next getkey calls for more input and
      leaves a start below the buffer. */
  method WrapStart(cfg: Config) returns (tk: TermKey)
    requires cfg.started
    ensures fresh(tk) && fresh(tk.buffer) && !tk.Valid()
  {
    hide S.Look, M.Fetched, B.Strays;
    tk := Filled(THREE_ESCAPES, cfg);
    ReadLetters(tk, 3);
    StartWraps(tk.Memory(), cfg);
    var res, key := tk.GetKey(Key(Keysym(SYM_NONE), 0));
  }

  /** Up makes the data slide, and the letter behind it is the last of an odd number of bytes. */
  lemma UpLoses(m: M.Memory, cfg: Config)
    requires cfg.started && m.Valid() && m.buf == UP_LAST && m.start == 4 && m.count == 3 && m.tide == 0
    ensures S.Look(m.State(), false, cfg) == P.Got(Found(Keysym(SYM_UP), Put(0)), 2, 0, Some(0), None)
    ensures M.Fetched(m, false, cfg) == M.Memory([0x64, 0x8f, 0x41, 0x64, 0x8f, 0x41, 0x7a], 3, 1, 0, m.id)
    ensures !B.Strays(m.State().Skipped(), cfg)
  {
    var p: seq<byte> := [0x8f, 0x41, 0x7a];
    assert m.State().Skipped() == p;
    assert M.Slid(UP_LAST) == [0x64, 0x8f, 0x41, 0x64, 0x8f, 0x41, 0x7a];
    P.PeekCases(p, false, cfg, m.id);
    assert P.Driver(p, false, cfg, m.id) == P.Got(Found(Keysym(SYM_UP), Put(0)), 2, 0, None, None);
  }

  /** With a buffer of seven bytes a byte is lost: the letter behind Up is z, and what is left pending is d. */
  method LoseLast(cfg: Config) returns (tk: TermKey)
    requires cfg.started
    ensures fresh(tk) && fresh(tk.buffer) && tk.Valid() && tk.Pending() == [0x64]
  {
    hide S.Look, M.Fetched, B.Strays;
    tk := Filled(UP_LAST, cfg);
    ReadLetters(tk, 4);
    UpLoses(tk.Memory(), cfg);
    var res, key := tk.GetKey(Key(Keysym(SYM_NONE), 0));
    assert tk.Pending() == tk.Memory().buf[3..4];
  }
}
