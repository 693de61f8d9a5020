/** Streams of keys: what a terminal reader gives for its whole input, however the input arrives. */
module TermKeyStream {
  import opened Basics
  import opened TermKeyCsi
  import opened TermKeyKeys
  import opened TermKeyPeek
  import B = TermKeyBytes
  import Utf8 = TermKeyUtf8

  /** The bytes held, how many of them the next peek skips, and the number of the last control string. */
  datatype State = State(pending: seq<byte>, tide: nat, id: nat) {
    predicate Valid() {
      tide <= |pending|
    }

    function Skipped(): seq<byte>
      requires Valid()
    {
      pending[tide..]
    }

    function Push(q: seq<byte>): State {
      this.(pending := pending + q)
    }
  }

  function Look(st: State, force: bool, cfg: Config): (r: Peeked)
    requires st.Valid()
    ensures Bounded(r, |st.Skipped()|)
  {
    PeekBounded(st.Skipped(), force, cfg, st.id);
    Peek(st.Skipped(), force, cfg, st.id)
  }

  /** What is left once the answer r has been taken. */
  function After(st: State, r: Peeked): (st': State)
    requires st.Valid() && Bounded(r, |st.Skipped()|)
    ensures st'.Valid() && |st'.pending| <= |st.pending|
  {
    if r.Got? then State(st.Skipped()[r.n..], r.tide, if r.saved.Some? then st.id + 1 else st.id)
    else State(st.Skipped(), 0, st.id)
  }

  /** The bytes that an answer uses up, those skipped before it included. */
  function Used(st: State, r: Peeked): seq<byte>
    requires st.Valid() && Bounded(r, |st.Skipped()|)
  {
    st.pending[..st.tide] + if r.Got? then st.Skipped()[..r.n] else []
  }

  /** No byte is lost and none made up: what is used up and what is left make what there was. */
  lemma Conserved(st: State, r: Peeked)
    requires st.Valid() && Bounded(r, |st.Skipped()|)
    ensures Used(st, r) + After(st, r).pending == st.pending
  {
  }

  /** All the keys there are for certain, without forcing an answer. */
  function Drain(st: State, cfg: Config): (keys: seq<Found>)
    requires st.Valid()
    decreases |st.pending|
  {
    var r := Look(st, false, cfg);
    if r.Got? then [r.key] + Drain(After(st, r), cfg) else []
  }

  /** ... and what is left then. */
  function Rest(st: State, cfg: Config): (st': State)
    requires st.Valid()
    ensures st'.Valid()
    decreases |st.pending|
  {
    var r := Look(st, false, cfg);
    if r.Got? then Rest(After(st, r), cfg) else After(st, r)
  }

  // ---- how the input is split does not matter ----

  /** Bytes are pushed; or a key is asked for, with or without force. */
  datatype Op = Push(bytes: seq<byte>) | GetKey(force: bool)

  function Pushed(ops: seq<Op>): seq<byte> {
    if |ops| == 0 then [] else (if ops[0].Push? then ops[0].bytes else []) + Pushed(ops[1..])
  }

  /** No answer is forced. */
  predicate Patient(ops: seq<Op>) {
    forall i | 0 <= i < |ops| :: ops[i] != GetKey(true)
  }

  /** What is found during a run of pushes and attempts to get a key, in whatever order. */
  function Run(st: State, ops: seq<Op>, cfg: Config): seq<Found>
    requires st.Valid()
    decreases |ops|
  {
    if |ops| == 0 then []
    else match ops[0]
      case Push(q) => Run(st.Push(q), ops[1..], cfg)
      case GetKey(force) =>
        var r := Look(st, force, cfg);
        (if r.Got? then [r.key] else []) + Run(After(st, r), ops[1..], cfg)
  }

  function RunRest(st: State, ops: seq<Op>, cfg: Config): (st': State)
    requires st.Valid()
    ensures st'.Valid()
    decreases |ops|
  {
    if |ops| == 0 then st
    else match ops[0]
      case Push(q) => RunRest(st.Push(q), ops[1..], cfg)
      case GetKey(force) => RunRest(After(st, Look(st, force, cfg)), ops[1..], cfg)
  }

  /** A key already there for certain is there just the same with more input behind it. */
  lemma LookMore(st: State, q: seq<byte>, cfg: Config)
    requires st.Valid() && Look(st, false, cfg).Got?
    ensures Look(st.Push(q), false, cfg) == Look(st, false, cfg)
    ensures After(st.Push(q), Look(st, false, cfg)) == After(st, Look(st, false, cfg)).Push(q)
  {
    hide Peek;
    var r := Look(st, false, cfg);
    assert st.Push(q).Skipped() == st.Skipped() + q;
    PeekMore(st.Skipped(), q, cfg, st.id);
    assert (st.Skipped() + q)[r.n..] == st.Skipped()[r.n..] + q;
  }

  /** Where there is no key yet, only the bytes to be skipped are gone. */
  lemma LookNothing(st: State, q: seq<byte>, cfg: Config)
    requires st.Valid() && !Look(st, false, cfg).Got?
    ensures var st' := After(st, Look(st, false, cfg));
            Drain(st'.Push(q), cfg) == Drain(st.Push(q), cfg) && Rest(st'.Push(q), cfg) == Rest(st.Push(q), cfg)
  {
    hide Peek;
    var st' := After(st, Look(st, false, cfg));
    assert st'.Push(q).Skipped() == st.Push(q).Skipped();
    assert Look(st'.Push(q), false, cfg) == Look(st.Push(q), false, cfg);
  }

  lemma DrainMore(st: State, q: seq<byte>, cfg: Config)
    requires st.Valid() && Look(st, false, cfg).Got?
    ensures var r := Look(st, false, cfg);
            && Drain(st.Push(q), cfg) == [r.key] + Drain(After(st, r).Push(q), cfg)
            && Rest(st.Push(q), cfg) == Rest(After(st, r).Push(q), cfg)
  {
    hide Look;
    LookMore(st, q, cfg);
  }

  /** Chunk independence: in any run of pushes and getkeys, what is found, followed by what can still be
      had, is what is found in the whole input in one piece; and so is what remains. */
  lemma {:induction false} RunIsDrain(st: State, ops: seq<Op>, cfg: Config)
    requires st.Valid() && Patient(ops)
    ensures Run(st, ops, cfg) + Drain(RunRest(st, ops, cfg), cfg) == Drain(st.Push(Pushed(ops)), cfg)
    ensures Rest(RunRest(st, ops, cfg), cfg) == Rest(st.Push(Pushed(ops)), cfg)
    decreases |ops|
  {
    hide Look, Drain, Rest, After;
    if |ops| == 0 {
      assert st.Push([]) == st;
      assert [] + Drain(st, cfg) == Drain(st, cfg);
    } else {
      var all := Pushed(ops[1..]);
      match ops[0]
      case Push(q) =>
        RunIsDrain(st.Push(q), ops[1..], cfg);
        assert st.Push(q).Push(all) == st.Push(q + all);
      case GetKey(_) =>
        var r := Look(st, false, cfg);
        var st' := After(st, r);
        RunIsDrain(st', ops[1..], cfg);
        assert [] + all == all && [] + Run(st', ops[1..], cfg) == Run(st', ops[1..], cfg);
        if r.Got? {
          DrainMore(st, all, cfg);
          Associates([r.key], Run(st', ops[1..], cfg), Drain(RunRest(st', ops[1..], cfg), cfg));
        } else {
          LookNothing(st, all, cfg);
        }
    }
  }

  /** The bytes used up during a run. */
  function RunUsed(st: State, ops: seq<Op>, cfg: Config): seq<byte>
    requires st.Valid()
    decreases |ops|
  {
    if |ops| == 0 then []
    else match ops[0]
      case Push(q) => RunUsed(st.Push(q), ops[1..], cfg)
      case GetKey(force) =>
        var r := Look(st, force, cfg);
        Used(st, r) + RunUsed(After(st, r), ops[1..], cfg)
  }

  /** Bytes are conserved over any run, forced answers and all: those used up, then those still pending, are
      those there were at the start and those pushed, in order. */
  lemma {:induction false} RunConserved(st: State, ops: seq<Op>, cfg: Config)
    requires st.Valid()
    ensures RunUsed(st, ops, cfg) + RunRest(st, ops, cfg).pending == st.pending + Pushed(ops)
    decreases |ops|
  {
    hide Look, After, Used;
    if |ops| > 0 {
      match ops[0]
      case Push(q) =>
        RunConserved(st.Push(q), ops[1..], cfg);
        Associates(st.pending, q, Pushed(ops[1..]));
      case GetKey(force) =>
        var r := Look(st, force, cfg);
        var st' := After(st, r);
        RunConserved(st', ops[1..], cfg);
        Conserved(st, r);
        Associates(Used(st, r), RunUsed(st', ops[1..], cfg), RunRest(st', ops[1..], cfg).pending);
        Associates(Used(st, r), st'.pending, Pushed(ops[1..]));
        assert [] + Pushed(ops[1..]) == Pushed(ops[1..]);
    }
  }

  // ---- one key structure for all the keys ----

  /** The keys read from one structure into which these are written one after another. */
  function KeysOf(found: seq<Found>, held: int): (keys: seq<Key>)
    ensures |keys| == |found|
  {
    if |found| == 0 then []
    else
      var key := Given(found[0], held);
      [key] + KeysOf(found[1..], key.modifiers)
  }

  /** The modifiers in the structure after a getkey: where more input could change the answer, those of the
      key that force would give. */
  function HeldAfter(st: State, force: bool, held: int, cfg: Config): int
    requires st.Valid()
  {
    var r, f := Look(st, force, cfg), Look(st, true, cfg);
    if r.Got? then Given(r.key, held).modifiers
    else if r.Again? && f.Got? then Given(f.key, held).modifiers
    else held
  }

  /** The keys that a caller reads during a run who uses one structure, holding these modifiers, throughout. */
  function RunKeys(st: State, ops: seq<Op>, held: int, cfg: Config): seq<Key>
    requires st.Valid()
    decreases |ops|
  {
    if |ops| == 0 then []
    else match ops[0]
      case Push(q) => RunKeys(st.Push(q), ops[1..], held, cfg)
      case GetKey(force) =>
        var r := Look(st, force, cfg);
        (if r.Got? then [Given(r.key, held)] else []) +
        RunKeys(After(st, r), ops[1..], HeldAfter(st, force, held, cfg), cfg)
  }

  /** To the key in p it makes no difference which of the two the structure holds. */
  predicate Alike(p: seq<byte>, held: int, forced: int) {
    B.Silent(p) ==> held == forced || (B.Alts(p) > 0 && WithBit(held, ALT) == WithBit(forced, ALT))
  }

  /** Wherever a key comes after an answer that more input could change, and its sequence leaves the modifiers
      alone, those left by force are the ones the structure held before; but for Alt, where Alt is set in any
      case. `forced` is what force has left there since the last key. */
  predicate Steady(st: State, ops: seq<Op>, held: int, forced: Option<int>, cfg: Config)
    requires st.Valid()
    decreases |ops|
  {
    |ops| > 0 ==>
      match ops[0]
      case Push(q) => Steady(st.Push(q), ops[1..], held, forced, cfg)
      case GetKey(force) =>
        var r, p := Look(st, force, cfg), st.Skipped();
        if r.Got? then
          && (forced.Some? ==> Alike(p, held, forced.value))
          && Steady(After(st, r), ops[1..], Given(r.key, held).modifiers, None, cfg)
        else
          Steady(After(st, r), ops[1..], held, if r.Again? then Some(B.ForcedMods(p, cfg)) else forced, cfg)
  }

  /** One getkey, with `held` what the structure held after the last key and `forced` what force has left. */
  lemma HeldOne(st: State, force: bool, held: int, forced: Option<int>, cfg: Config)
    requires st.Valid()
    ensures var r := Look(st, force, cfg); var now := if forced.Some? then forced.value else held;
            && (r.Got? ==> (Given(r.key, now) == Given(r.key, held) <==>
                            (forced.Some? ==> Alike(st.Skipped(), held, forced.value))))
            && (r.Got? ==> HeldAfter(st, force, now, cfg) == Given(r.key, now).modifiers)
            && (!r.Got? ==> HeldAfter(st, force, now, cfg) ==
                            if r.Again? then B.ForcedMods(st.Skipped(), cfg) else now)
  {
    hide Peek, B.Silent, B.ForcedMods;
    var p := st.Skipped();
    B.SilentKeys(p, force, cfg, st.id);
    if Look(st, force, cfg).Again? {
      if force {
        if |p| > 0 && cfg.started { ForcedProgress(p, cfg, st.id); } else { PeekCases(p, true, cfg, st.id); }
      } else {
        B.ForcedAfterAgain(p, cfg, st.id);
      }
    }
  }

  /** With one structure for all the keys, a run gives the very keys that are found, with nothing from the
      forced answers in between, exactly if it is steady. */
  lemma {:induction false} SteadyKeys(st: State, ops: seq<Op>, held: int, forced: Option<int>, cfg: Config)
    requires st.Valid()
    ensures var now := if forced.Some? then forced.value else held;
            RunKeys(st, ops, now, cfg) == KeysOf(Run(st, ops, cfg), held) <==> Steady(st, ops, held, forced, cfg)
    decreases |ops|
  {
    hide Look, After, HeldAfter, Alike, Given, B.ForcedMods;
    var now := if forced.Some? then forced.value else held;
    if |ops| > 0 {
      match ops[0]
      case Push(q) => SteadyKeys(st.Push(q), ops[1..], held, forced, cfg);
      case GetKey(force) =>
        var r := Look(st, force, cfg);
        var st' := After(st, r);
        HeldOne(st, force, held, forced, cfg);
        var found := Run(st', ops[1..], cfg);
        if r.Got? {
          SteadyKeys(st', ops[1..], Given(r.key, held).modifiers, None, cfg);
          KeysFirst(r.key, found, held);
          SameParts(Given(r.key, now), RunKeys(st', ops[1..], HeldAfter(st, force, now, cfg), cfg),
                    Given(r.key, held), KeysOf(found, Given(r.key, held).modifiers));
        } else {
          SteadyKeys(st', ops[1..], held, if r.Again? then Some(B.ForcedMods(st.Skipped(), cfg)) else forced, cfg);
          assert [] + found == found;
          assert [] + RunKeys(st', ops[1..], HeldAfter(st, force, now, cfg), cfg) ==
                 RunKeys(st', ops[1..], HeldAfter(st, force, now, cfg), cfg);
        }
    }
  }

  lemma SameParts(a: Key, s: seq<Key>, b: Key, t: seq<Key>)
    ensures [a] + s == [b] + t <==> a == b && s == t
  {
    if [a] + s == [b] + t { assert s == ([a] + s)[1..] == ([b] + t)[1..] == t && ([a] + s)[0] == ([b] + t)[0]; }
  }

  lemma KeysFirst(first: Found, found: seq<Found>, held: int)
    ensures KeysOf([first] + found, held) == [Given(first, held)] + KeysOf(found, Given(first, held).modifiers)
  {
    assert ([first] + found)[1..] == found;
  }

  lemma {:induction false} KeysPrefix(a: seq<Found>, b: seq<Found>, held: int)
    ensures KeysOf(a, held) <= KeysOf(a + b, held)
  {
    if |a| > 0 {
      assert (a + b)[1..] == a[1..] + b;
      KeysPrefix(a[1..], b, Given(a[0], held).modifiers);
    }
  }

  /** So it matters to the caller how the input is split exactly if the run is not steady: the keys read are
      the first of those in the whole input just when it is. */
  lemma ChunksMatter(st: State, ops: seq<Op>, held: int, cfg: Config)
    requires st.Valid() && Patient(ops)
    ensures RunKeys(st, ops, held, cfg) <= KeysOf(Drain(st.Push(Pushed(ops)), cfg), held) <==>
            Steady(st, ops, held, None, cfg)
    ensures |RunKeys(st, ops, held, cfg)| == |Run(st, ops, cfg)|
  {
    hide Drain, RunKeys, Run, KeysOf, Steady;
    RunIsDrain(st, ops, cfg);
    var found := Run(st, ops, cfg);
    KeysPrefix(found, Drain(RunRest(st, ops, cfg), cfg), held);
    SteadyKeys(st, ops, held, None, cfg);
    AsMany(st, ops, held, cfg);
  }

  lemma {:induction false} AsMany(st: State, ops: seq<Op>, held: int, cfg: Config)
    requires st.Valid()
    ensures |RunKeys(st, ops, held, cfg)| == |Run(st, ops, cfg)|
    decreases |ops|
  {
    hide Look, After, HeldAfter;
    if |ops| > 0 {
      match ops[0]
      case Push(q) => AsMany(st.Push(q), ops[1..], held, cfg);
      case GetKey(force) =>
        AsMany(After(st, Look(st, force, cfg)), ops[1..], HeldAfter(st, force, held, cfg), cfg);
    }
  }

  /** What follows the introducer of the report that the cursor is in line 1, column 2. */
  const REPORT: seq<byte> := [0x3f, 0x31, 0x3b, 0x32, 0x52]

  const ESC_CSI: seq<byte> := [0x1b, 0x5b]

  lemma ReportParses()
    ensures Parse(REPORT) == Csi([1, 2], Command(0x52, 0x3f, 0), 5)
  {
    hide Parse;
    var params := [Some(1), Some(2)];
    RoundTrip(Some(0x3f), params, None, 0x52, []);
    assert Digits(1) == [0x31] && Digits(2) == [0x32];
    assert params[1..] == [Some(2)];
    assert Join(params) == [0x31] + [0x3b] + Join(params[1..]);
    assert Encode(Some(0x3f), params, None, 0x52) + [] == REPORT;
    assert Values(params[1..]) == [2];
  }

  lemma ReportHandled(cfg: Config)
    ensures Handle(cfg, Command(0x52, 0x3f, 0), [1, 2]) == Done(Found(Position(LineCol(2, 1)), Keep))
  {
    hide LineCol;
  }

  lemma NothingParses()
    ensures Parse([]).More?
  {
  }

  lemma ReportPeeks(cfg: Config, id: nat)
    requires cfg.started
    ensures Peek(ESC_CSI + REPORT, false, cfg, id) ==
            Got(Found(Position(LineCol(2, 1)), Keep), 7, 0, Some(0), None)
    ensures Peek(ESC_CSI, false, cfg, id).Again?
    ensures Peek(ESC_CSI, true, cfg, id).Got? && Peek(ESC_CSI, true, cfg, id).key.mods == Put(ALT)
  {
    hide Parse, LineCol, PeekSimple, Handle;
    ReportParses();
    assert (ESC_CSI + REPORT)[2..] == REPORT;
    assert Handle(cfg, Command(0x52, 0x3f, 0), [1, 2]) == Done(Found(Position(LineCol(2, 1)), Keep)) by {
      ReportHandled(cfg);
    }
    assert ESC_CSI[2..] == [] && Parse([]).More? by { NothingParses(); }
    PeekCases(ESC_CSI, false, cfg, id);
    B.ForcedAfterAgain(ESC_CSI, cfg, id);
    assert B.Lead(ESC_CSI[1..]) == 0 && B.Lead(ESC_CSI) == 1 && B.Introducer(ESC_CSI) == B.CSI;
  }

  /** A run that is not steady: a cursor report read whole keeps the modifiers 0; split behind its
      introducer, with a getkey in between, it comes with Alt. */
  lemma ReportWithAlt(cfg: Config, id: nat)
    requires cfg.started
    ensures var st := State([], 0, id); var report := Position(LineCol(2, 1));
            && RunKeys(st, [Push(ESC_CSI + REPORT), GetKey(false)], 0, cfg) == [Key(report, 0)]
            && RunKeys(st, [Push(ESC_CSI), GetKey(false), Push(REPORT), GetKey(false)], 0, cfg) == [Key(report, ALT)]
  {
    hide Peek, LineCol;
    var st, begun, whole := State([], 0, id), State(ESC_CSI, 0, id), State(ESC_CSI + REPORT, 0, id);
    var get, last := [GetKey(false)], [Push(REPORT), GetKey(false)];
    ReportPeeks(cfg, id);
    assert begun.Skipped() == ESC_CSI && whole.Skipped() == ESC_CSI + REPORT;
    assert st.Push(ESC_CSI + REPORT) == whole == begun.Push(REPORT) && st.Push(ESC_CSI) == begun;
    assert After(begun, Look(begun, false, cfg)) == begun && HeldAfter(begun, false, 0, cfg) == ALT;
    OneKey(whole, 0, cfg);
    OneKey(whole, ALT, cfg);
    assert [Push(ESC_CSI + REPORT), GetKey(false)][1..] == get == last[1..];
    assert [Push(ESC_CSI), GetKey(false), Push(REPORT), GetKey(false)][1..] == get + last;
    assert (get + last)[1..] == last;
    assert RunKeys(begun, get + last, 0, cfg) == [] + RunKeys(begun, last, ALT, cfg);
  }

  lemma OneKey(st: State, held: int, cfg: Config)
    requires st.Valid() && Look(st, false, cfg).Got?
    ensures RunKeys(st, [GetKey(false)], held, cfg) == [Given(Look(st, false, cfg).key, held)]
  {
    var r := Look(st, false, cfg);
    assert RunKeys(After(st, r), [], HeldAfter(st, false, held, cfg), cfg) == [];
    assert [GetKey(false)][1..] == [];
  }

  // ---- draining by force ----

  /** The bytes used up by one forced answer after another. */
  function Pieces(st: State, cfg: Config): seq<seq<byte>>
    requires st.Valid()
    decreases |st.pending|
  {
    var r := Look(st, true, cfg);
    if r.Got? then [Used(st, r)] + Pieces(After(st, r), cfg) else []
  }

  function Joined(pieces: seq<seq<byte>>): seq<byte> {
    if |pieces| == 0 then [] else pieces[0] + Joined(pieces[1..])
  }

  /** No forced answer on the way leaves the code's tables. */
  predicate Drainable(st: State, cfg: Config)
    requires st.Valid()
    decreases |st.pending|
  {
    var r := Look(st, true, cfg);
    !B.Strays(st.Skipped(), cfg) && (r.Got? ==> Drainable(After(st, r), cfg))
  }

  /** What the last forced answer leaves. */
  function Flushed(st: State, cfg: Config): (st': State)
    requires st.Valid()
    ensures st'.Valid()
    decreases |st.pending|
  {
    var r := Look(st, true, cfg);
    if r.Got? then Flushed(After(st, r), cfg) else st
  }

  /** Forced answers use up the whole input, each at least one byte: all that can remain are bytes
      that the next peek skips. */
  lemma {:induction false} ForcedDrains(st: State, cfg: Config)
    requires st.Valid() && cfg.started && Drainable(st, cfg)
    ensures Joined(Pieces(st, cfg)) + Flushed(st, cfg).pending == st.pending
    ensures |Flushed(st, cfg).pending| == Flushed(st, cfg).tide
    ensures |Pieces(st, cfg)| <= |st.pending|
    decreases |st.pending|
  {
    hide Peek, B.Strays;
    var r := Look(st, true, cfg);
    B.UndefinedStrays(st.Skipped(), true, cfg, st.id);
    if |st.Skipped()| > 0 { ForcedProgress(st.Skipped(), cfg, st.id); } else { NothingPending(st, cfg); }
    if r.Got? {
      ForcedDrains(After(st, r), cfg);
      Conserved(st, r);
      Associates(Used(st, r), Joined(Pieces(After(st, r), cfg)), Flushed(After(st, r), cfg).pending);
    }
  }

  lemma NothingPending(st: State, cfg: Config)
    requires st.Valid() && |st.Skipped()| == 0
    ensures !Look(st, true, cfg).Got?
  {
  }

  // ---- an unknown control sequence, and its parameters ----

  /** No key but one for an unknown sequence is called unknown. */
  lemma EmitKnown(cfg: Config, cp: int)
    ensures Emit(cfg, cp).Some? ==> !Emit(cfg, cp).value.code.UnknownCsi?
  {
  }

  lemma HandleKnown(cfg: Config, cmd: Command, args: seq<int>)
    ensures Handle(cfg, cmd, args).Done? ==> !Handle(cfg, cmd, args).key.code.UnknownCsi?
  {
    hide Emit, LineCol, WithMods;
    if |args| > 0 { EmitKnown(cfg, args[0]); }
    if |args| > 2 { EmitKnown(cfg, args[2]); }
  }

  /** An unknown sequence leaves its parameters and final byte to be skipped, and nothing else does. */
  predicate Leaves(r: Peeked, p: seq<byte>) {
    r.Got? ==>
      if r.key.code.UnknownCsi? then
        && r.n <= |p| && Parse(p[r.n..]).Csi?
        && Parse(p[r.n..]).cmd == r.key.code.cmd && Parse(p[r.n..]).len == r.tide
      else r.tide == 0
  }

  lemma CsiLeaves(p: seq<byte>, intro: nat, force: bool, cfg: Config)
    requires intro <= |p|
    ensures Leaves(PeekCsi(p, intro, force, cfg), p)
  {
    hide Parse, Handle, Emit;
    EmitKnown(cfg, 0x5b);
    match Parse(p[intro..])
    case Csi(args, cmd, len) => HandleKnown(cfg, cmd, args);
    case _ =>
  }

  lemma DriverLeaves(p: seq<byte>, force: bool, cfg: Config, id: nat)
    requires |p| > 0
    ensures Leaves(Driver(p, force, cfg, id), p)
  {
    hide PeekCsi, Parse, Emit, TerminatorAt;
    EmitKnown(cfg, 0x4f);
    if |p| > 1 { CsiLeaves(p, 2, force, cfg); }
    CsiLeaves(p, 1, force, cfg);
  }

  lemma {:induction false} PeekLeaves(p: seq<byte>, force: bool, cfg: Config, id: nat)
    ensures Leaves(Peek(p, force, cfg, id), p)
    decreases |p|
  {
    hide Driver, Parse, Emit;
    if |p| > 0 {
      DriverLeaves(p, force, cfg, id);
      EmitKnown(cfg, p[0]);
      EmitKnown(cfg, Utf8.UTF8_INVALID);
      if Utf8.Parse(p).Point? { EmitKnown(cfg, Utf8.Parse(p).cp); }
      if p[0] == 0x1b && |p| > 1 {
        PeekLeaves(p[1..], force, cfg, id);
        var r := Peek(p[1..], force, cfg, id);
        assert r.Got? && r.n <= |p[1..]| ==> p[1..][r.n..] == p[r.n + 1..];
      }
    }
  }

  /** The handshake: after a key for an unknown sequence, parsing what is left, whatever has been
      pushed behind it, gives the command of the key and the parameters as they were first parsed;
      and the next peek goes on behind the final byte. */
  lemma Handshake(st: State, force: bool, q: seq<byte>, cfg: Config)
    requires st.Valid() && Look(st, force, cfg).Got? && Look(st, force, cfg).key.code.UnknownCsi?
    ensures var r := Look(st, force, cfg); var st' := After(st, r);
            && Parse(st'.pending).Csi? && Parse(st'.pending).cmd == r.key.code.cmd
            && Parse(st'.Push(q).pending) == Parse(st'.pending)
            && st'.tide == Parse(st'.pending).len > 0
            && st'.Push(q).Skipped() == st'.Skipped() + q
  {
    hide Peek, Parse;
    var st' := After(st, Look(st, force, cfg));
    PeekLeaves(st.Skipped(), force, cfg, st.id);
    ParseMore(st'.pending, q);
  }

  lemma BehindUnknown(st: State, r: Peeked)
    requires st.Valid() && Bounded(r, |st.Skipped()|) && r.Got?
    ensures After(st, r).pending == st.Skipped()[r.n..]
    ensures After(st, r).Skipped() == st.Skipped()[r.n + r.tide..]
  {
  }

  lemma LookIs(st: State, force: bool, cfg: Config)
    requires st.Valid()
    ensures Look(st, force, cfg) == Peek(st.Skipped(), force, cfg, st.id)
  {
  }
}
