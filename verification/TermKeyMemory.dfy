/** The memory of the terminal reader, as values: a buffer, the place of the pending bytes in it, and what
    pushes and getkeys make of them. */
module TermKeyMemory {
  import opened Basics
  import opened TermKeyCsi
  import opened TermKeyKeys
  import B = TermKeyBytes
  import P = TermKeyPeek
  import S = TermKeyStream

  /** `start` is unsigned in the code: a negative value here is one that has wrapped around. */
  datatype Memory = Memory(buf: seq<byte>, start: int, count: nat, tide: nat, id: nat) {
    predicate Valid() {
      0 <= start && start + count <= |buf| && tide <= count
    }

    function State(): (st: S.State)
      requires Valid()
      ensures st.Valid()
    {
      S.State(buf[start..start + count], tide, id)
    }

    function Skipped(): seq<byte>
      requires Valid()
    {
      buf[start + tide..start + count]
    }
  }

  lemma SkippedIs(m: Memory)
    requires m.Valid()
    ensures m.State().Skipped() == m.Skipped()
  {
  }

  // ---- peeking ----

  /** The data slid down by half the buffer. */
  function Slid(buf: seq<byte>): (r: seq<byte>)
    ensures |r| == |buf|
  {
    var half := |buf| / 2;
    buf[half..half + half] + buf[half..]
  }

  /** An answer of the driver's, that many ESC bytes behind the start, makes the data slide when the place
      is in the upper half. */
  predicate Slides(depth: Option<nat>, start: int, size: nat) {
    depth.Some? && start + depth.value > size / 2
  }

  function DriverOf(r: P.Peeked): Option<nat> {
    if r.Got? then r.driver else None
  }

  function Tide(r: P.Peeked): nat {
    if r.Got? then r.tide else 0
  }

  function NewId(r: P.Peeked, id: nat): nat {
    if r.Got? && r.saved.Some? then id + 1 else id
  }

  /** What a peek that finds r leaves. */
  function Trace(m: Memory, r: P.Peeked): (m': Memory)
    requires m.tide <= m.count
    ensures |m'.buf| == |m.buf|
  {
    var start, count, id := m.start + m.tide, m.count - m.tide, NewId(r, m.id);
    if Slides(DriverOf(r), start, |m.buf|) then Memory(Slid(m.buf), start - |m.buf| / 2, count, Tide(r), id)
    else Memory(m.buf, start, count, Tide(r), id)
  }

  function Eaten(m: Memory, n: nat): Memory {
    if n >= m.count then m.(start := 0, count := 0) else m.(start := m.start + n, count := m.count - n)
  }

  /** What a getkey leaves, with or without force: the bytes of a key are eaten; where more input could change
      the answer there has been a second peek, by force. */
  function Fetched(m: Memory, force: bool, cfg: Config): (m': Memory)
    requires m.Valid()
    ensures |m'.buf| == |m.buf|
  {
    var r := S.Look(m.State(), force, cfg);
    if r.Error? then m
    else if r.Got? then Eaten(Trace(m, r), r.n)
    else if r.Again? then Trace(m, S.Look(m.State(), true, cfg))
    else Trace(m, r)
  }

  lemma FetchedId(m: Memory, force: bool, cfg: Config)
    requires m.Valid() && S.Look(m.State(), force, cfg).Got?
    ensures Fetched(m, force, cfg).id == NewId(S.Look(m.State(), force, cfg), m.id)
  {
    hide S.Look, Slid, Slides;
  }

  // ---- when that is what the stream of keys asks for ----

  predicate SlidesFor(m: Memory, cfg: Config)
    requires m.Valid()
  {
    Slides(B.Depth(m.Skipped(), cfg), m.start + m.tide, |m.buf|)
  }

  /** The start wraps around: a sequence stops short and nothing is eaten, and the data slide because the place
      of its introducer is in the upper half, though the start is not. */
  predicate Wraps(m: Memory, force: bool)
    requires m.Valid()
  {
    var start, p := m.start + m.tide, m.Skipped();
    !force && B.Unfinished(p) && start < |m.buf| / 2 < start + B.Alts(p)
  }

  /** With an odd size the slide leaves the last byte of the buffer behind: it is lost when it is one of
      those still pending, unless the byte in the middle happens to be the same. */
  predicate LeftBehind(buf: seq<byte>, start: int, count: nat, n: nat) {
    && |buf| % 2 == 1 && start + count == |buf| && n < count
    && buf[|buf| / 2] != buf[|buf| - 1]
  }

  predicate Loses(m: Memory, force: bool, cfg: Config)
    requires m.Valid()
  {
    var r := S.Look(m.State(), force, cfg);
    SlidesFor(m, cfg) && LeftBehind(m.buf, m.start + m.tide, m.count - m.tide, if r.Got? then r.n else 0)
  }

  lemma OneLonger(s: seq<byte>, a: nat, b: nat)
    requires a <= b < |s|
    ensures s[a..b + 1] == s[a..b] + [s[b]]
  {
  }

  lemma OneMore(s: seq<byte>, a: byte, b: byte)
    ensures s + [a] == s + [b] <==> a == b
  {
    if s + [a] == s + [b] { assert (s + [a])[|s|] == (s + [b])[|s|]; }
  }

  /** The bytes of the upper half keep their order when they slide. */
  lemma SlidUpTo(buf: seq<byte>, slid: seq<byte>, half: nat, from: nat, to: nat)
    requires half + half <= |buf| == |slid| && slid == buf[half..half + half] + buf[half..]
    requires half <= from <= to <= half + half
    ensures slid[from - half..to - half] == buf[from..to]
  {
    forall i | 0 <= i < to - from ensures slid[from - half..to - half][i] == buf[from..to][i] {
      assert slid[from - half + i] == buf[half..half + half][from - half + i] == buf[from + i];
    }
  }

  /** ... and one beyond them stays where it was. */
  lemma SlidingKeeps(buf: seq<byte>, slid: seq<byte>, half: nat, start: nat, count: nat, n: nat)
    requires half + half <= |buf| <= half + half + 1 && |slid| == |buf|
    requires slid == buf[half..half + half] + buf[half..]
    requires start + count <= |buf| && n <= count && start + n >= half
    ensures var s := start + n - half;
            slid[s..s + count - n] == buf[start + n..start + count] <==>
            !(start + count == |buf| == half + half + 1 && n < count && buf[half] != buf[half + half])
  {
    var from, to := start + n, start + count;
    if to == half + half + 1 && n < count {
      SlidUpTo(buf, slid, half, from, half + half);
      OneLonger(slid, from - half, half);
      OneLonger(buf, from, half + half);
      assert slid[half] == buf[half];
      OneMore(buf[from..half + half], buf[half], buf[half + half]);
    } else if n < count {
      SlidUpTo(buf, slid, half, from, to);
    } else {
      assert slid[from - half..from - half] == [] == buf[from..from];
    }
  }

  /** What is pending in the buffer at that place, after the data have slid, or not, and n bytes are eaten. */
  function Behind(buf: seq<byte>, slides: bool, start: nat, count: nat, n: nat): seq<byte>
    requires start + count <= |buf| && n <= count && (slides ==> start + n >= |buf| / 2)
  {
    if slides then Slid(buf)[start + n - |buf| / 2..start + count - |buf| / 2] else buf[start + n..start + count]
  }

  lemma BehindIs(buf: seq<byte>, slides: bool, start: nat, count: nat, n: nat)
    requires start + count <= |buf| && n <= count && (slides ==> start + n >= |buf| / 2)
    ensures Behind(buf, slides, start, count, n) == buf[start + n..start + count] <==>
            !(slides && LeftBehind(buf, start, count, n))
  {
    hide Slid, LeftBehind;
    var half := |buf| / 2;
    LeftBehindIs(buf, start, count, n, half);
    if slides {
      SlidHalves(buf, half);
      SlidingKeeps(buf, Slid(buf), half, start, count, n);
    }
  }

  lemma LeftBehindIs(buf: seq<byte>, start: int, count: nat, n: nat, half: nat)
    requires half == |buf| / 2
    ensures half + half <= |buf| <= half + half + 1
    ensures LeftBehind(buf, start, count, n) <==>
            start + count == |buf| == half + half + 1 && n < count && buf[half] != buf[half + half]
  {
  }

  lemma SlidHalves(buf: seq<byte>, half: nat)
    requires half == |buf| / 2
    ensures half + half <= |buf| && Slid(buf) == buf[half..half + half] + buf[half..]
  {
  }

  lemma SkippedFrom(m: Memory, n: nat)
    requires m.Valid() && n <= m.count - m.tide
    ensures m.Skipped()[n..] == m.buf[m.start + m.tide + n..m.start + m.count]
  {
  }

  lemma LeftBehindNothing(buf: seq<byte>, start: int, count: nat)
    ensures !LeftBehind(buf, start, count, count)
  {
  }

  /** n bytes eaten after a peek. */
  lemma EatenState(m: Memory, r: P.Peeked, n: nat)
    requires m.Valid() && n + Tide(r) <= m.count - m.tide
    requires Slides(DriverOf(r), m.start + m.tide, |m.buf|) ==> m.start + m.tide + n >= |m.buf| / 2
    ensures var m', start, count := Eaten(Trace(m, r), n), m.start + m.tide, m.count - m.tide;
            && m'.Valid()
            && (m'.State() == S.State(m.Skipped()[n..], Tide(r), NewId(r, m.id)) <==>
                !(Slides(DriverOf(r), start, |m.buf|) && LeftBehind(m.buf, start, count, n)))
  {
    hide Slid, Slides, LeftBehind, DriverOf, Tide, NewId, Behind, Trace, Eaten;
    var start, count, slides := m.start + m.tide, m.count - m.tide, Slides(DriverOf(r), m.start + m.tide, |m.buf|);
    SkippedFrom(m, n);
    EatenIs(m, r, n, slides);
    if n == count { LeftBehindNothing(m.buf, start, count); } else { BehindIs(m.buf, slides, start, count, n); }
  }

  lemma EatenIs(m: Memory, r: P.Peeked, n: nat, slides: bool)
    requires m.Valid() && n + Tide(r) <= m.count - m.tide && slides == Slides(DriverOf(r), m.start + m.tide, |m.buf|)
    requires slides ==> m.start + m.tide + n >= |m.buf| / 2
    ensures var m' := Eaten(Trace(m, r), n);
            && m'.Valid() && m'.tide == Tide(r) && m'.id == NewId(r, m.id)
            && m'.buf[m'.start..m'.start + m'.count] ==
               if n == m.count - m.tide then [] else Behind(m.buf, slides, m.start + m.tide, m.count - m.tide, n)
  {
    hide Slid, Slides, DriverOf, Tide, NewId;
  }

  /** A peek after which nothing is eaten. */
  lemma UneatenState(m: Memory, r: P.Peeked)
    requires m.Valid() && Tide(r) == 0 && NewId(r, m.id) == m.id
    ensures var m', start, count := Trace(m, r), m.start + m.tide, m.count - m.tide;
            var slides := Slides(DriverOf(r), start, |m.buf|);
            && (m'.Valid() <==> !(slides && start < |m.buf| / 2))
            && (m'.Valid() ==> (m'.State() == S.State(m.Skipped(), 0, m.id) <==>
                                !(slides && LeftBehind(m.buf, start, count, 0))))
  {
    hide Slid, Slides, LeftBehind, DriverOf, Tide, NewId, Behind, Trace;
    var start, count, slides := m.start + m.tide, m.count - m.tide, Slides(DriverOf(r), m.start + m.tide, |m.buf|);
    UneatenIs(m, r, slides);
    if !(slides && start < |m.buf| / 2) { BehindIs(m.buf, slides, start, count, 0); }
  }

  lemma UneatenIs(m: Memory, r: P.Peeked, slides: bool)
    requires m.Valid() && Tide(r) == 0 && slides == Slides(DriverOf(r), m.start + m.tide, |m.buf|)
    ensures var m' := Trace(m, r);
            && m'.tide == 0 && m'.id == NewId(r, m.id)
            && (m'.Valid() <==> !(slides && m.start + m.tide < |m.buf| / 2))
            && (m'.Valid() ==> m'.buf[m'.start..m'.start + m'.count] ==
                               Behind(m.buf, slides, m.start + m.tide, m.count - m.tide, 0))
  {
    hide Slid, Slides, DriverOf, Tide, NewId;
  }

  /** A getkey leaves a start inside the buffer if and only if it does not wrap; and then what is pending is
      what the stream of keys asks for if and only if no byte is left behind. */
  lemma FetchedState(m: Memory, force: bool, cfg: Config)
    requires m.Valid() && cfg.started && !B.Strays(m.State().Skipped(), cfg)
    ensures var m', r := Fetched(m, force, cfg), S.Look(m.State(), force, cfg);
            && (m'.Valid() <==> !Wraps(m, force))
            && (m'.Valid() ==> (m'.State() == S.After(m.State(), r) <==> !Loses(m, force, cfg)))
  {
    hide P.Peek, B.Depth, Slides, LeftBehind, Trace, Eaten, Wraps, B.Strays;
    var r, f, p := S.Look(m.State(), force, cfg), S.Look(m.State(), true, cfg), m.Skipped();
    SkippedIs(m);
    B.UndefinedStrays(p, force, cfg, m.id);
    WrapsWhen(m, force, cfg);
    if r.Got? {
      FoundBehind(p, r, force, cfg, m.id, m.start + m.tide, |m.buf|);
      EatenState(m, r, r.n);
    } else if r.Again? {
      AgainWithoutForce(p, force, cfg, m.id);
      B.ForcedAfterAgain(p, cfg, m.id);
      B.DriverDepth(p, true, cfg, m.id);
      UneatenState(m, f);
    } else {
      NothingPeeked(p, force, cfg, m.id);
      NotSliding(m.start + m.tide, |m.buf|);
      UneatenState(m, r);
    }
  }

  /** That is when the driver calls for more and force makes it answer in the upper half. */
  lemma WrapsWhen(m: Memory, force: bool, cfg: Config)
    requires m.Valid() && cfg.started
    ensures Wraps(m, force) <==>
            S.Look(m.State(), force, cfg).Again? && SlidesFor(m, cfg) && m.start + m.tide < |m.buf| / 2
  {
    hide P.Peek, B.Unfinished, B.Answered, B.Introducer, B.Alts;
    var p := m.Skipped();
    SkippedIs(m);
    B.AgainUnfinished(p, cfg, m.id);
    UnfinishedPlace(p, cfg);
    if S.Look(m.State(), force, cfg).Again? { AgainWithoutForce(p, force, cfg, m.id); }
  }

  lemma UnfinishedPlace(p: seq<byte>, cfg: Config)
    ensures B.Unfinished(p) ==> B.Introducer(p) != 0 && B.Depth(p, cfg) == Some(B.Alts(p))
  {
    hide Parse;
  }

  lemma NotSliding(start: int, size: nat)
    ensures !Slides(None, start, size)
  {
  }

  /** A key that makes the data slide ends in the upper half. */
  lemma FoundBehind(p: seq<byte>, r: P.Peeked, force: bool, cfg: Config, id: nat, start: nat, size: nat)
    requires r == P.Peek(p, force, cfg, id) && r.Got?
    ensures r.driver == B.Depth(p, cfg)
    ensures Slides(r.driver, start, size) ==> start + r.n >= size / 2
  {
    hide P.Peek, B.Depth;
    B.DriverDepth(p, force, cfg, id);
    P.BehindEscapes(p, force, cfg, id);
  }

  lemma AgainWithoutForce(p: seq<byte>, force: bool, cfg: Config, id: nat)
    requires P.Peek(p, force, cfg, id).Again?
    ensures !force
  {
    hide P.Peek;
    P.PeekCases(p, force, cfg, id);
    if force && cfg.started && |p| > 0 { P.ForcedProgress(p, cfg, id); }
  }

  lemma NothingPeeked(p: seq<byte>, force: bool, cfg: Config, id: nat)
    requires cfg.started
    ensures var r := P.Peek(p, force, cfg, id); !r.Error? && (r.NoKey? || r.Eof? ==> B.Depth(p, cfg).None?)
  {
    hide P.Peek;
    if |p| > 0 { P.SomethingPeeked(p, force, cfg, id); } else { P.PeekCases(p, force, cfg, id); }
  }

  /** A peek one byte further on, seen from here. */
  lemma TraceBehind(m: Memory, r: P.Peeked)
    requires m.tide < m.count
    ensures var m' := Trace(m.(start := m.start + 1, count := m.count - 1), r);
            Trace(m, P.Inner(r)) == m'.(start := m'.start - 1, count := m'.count + 1)
  {
    hide Slid;
  }

  /** It does not matter to a peek whether the bytes up to the high tide have been given up before. */
  lemma TraceSkips(m: Memory, r: P.Peeked)
    requires m.tide <= m.count
    ensures var m' := m.(start := m.start + m.tide, count := m.count - m.tide, tide := 0);
            Trace(m', r) == Trace(m, r) && (!r.Got? ==> Trace(m, r) == m')
  {
    hide Slid;
  }

  lemma Shrinks(m: Memory, r: P.Peeked, n: nat)
    requires m.tide < m.count && n > 0
    ensures Eaten(Trace(m, r), n).count < m.count - m.tide
  {
    hide Slid, Slides;
  }

  /** A peek that finds nothing leaves the memory ready for another. */
  lemma TraceAgain(m: Memory, r: P.Peeked, f: P.Peeked)
    requires m.Valid() && !r.Got?
    ensures var m1 := Trace(m, r);
            && m1.Valid() && m1.State() == S.State(m.State().Skipped(), 0, m.id)
            && m1.State().Skipped() == m.State().Skipped() && Trace(m1, f) == Trace(m, f)
  {
    hide Slid;
    SkippedIs(m);
  }

  // ---- pushing ----

  /** The first n bytes went in: all of them, or the buffer is full. */
  predicate FillsUp(bytes: seq<byte>, n: nat, count: nat, size: nat) {
    n <= |bytes| && count <= size && (n == |bytes| || count == size)
  }

  /** How many of these bytes there is room for. */
  function Room(size: nat, count: nat, bytes: seq<byte>): (n: nat)
    requires count <= size
    ensures n <= |bytes|
  {
    if |bytes| > size - count then size - count else |bytes|
  }

  /** The pending bytes move to the front, and as many more as there is room for go in behind them. */
  function Pushed(m: Memory, bytes: seq<byte>): (m': Memory)
    requires m.Valid()
    ensures |m'.buf| == |m.buf|
  {
    var n := Room(|m.buf|, m.count, bytes);
    m.(buf := m.buf[m.start..m.start + m.count] + bytes[..n] + m.buf[m.count + n..], start := 0,
       count := m.count + n)
  }

  lemma PushedState(m: Memory, bytes: seq<byte>)
    requires m.Valid()
    ensures var n := Room(|m.buf|, m.count, bytes); var m' := Pushed(m, bytes);
            && m'.Valid() && m'.State() == m.State().Push(bytes[..n])
            && m'.start == 0 && m'.count == m.count + n && FillsUp(bytes, n, m'.count, |m.buf|)
  {
  }

  /** ... in two steps. */
  lemma PushedIs(m: Memory, bytes: seq<byte>, packed: seq<byte>)
    requires m.Valid() && packed == m.buf[m.start..m.start + m.count] + m.buf[m.count..]
    ensures var n := Room(|m.buf|, m.count, bytes);
            && Pushed(m, bytes) == m.(buf := packed[..m.count] + bytes[..n] + packed[m.count..][n..], start := 0,
                                      count := m.count + n)
            && (m.count == |m.buf| ==> n == 0 && Pushed(m, bytes).buf == packed)
  {
    var n := Room(|m.buf|, m.count, bytes);
    assert packed[..m.count] == m.buf[m.start..m.start + m.count] && packed[m.count..] == m.buf[m.count..];
    assert m.buf[m.count..][n..] == m.buf[m.count + n..];
  }

  // ---- runs ----

  /** The run as far as its bytes are accepted by a buffer of that size. */
  function Accepted(st: S.State, ops: seq<S.Op>, size: nat, cfg: Config): (r: seq<S.Op>)
    requires st.Valid() && |st.pending| <= size
    ensures |r| == |ops|
    decreases |ops|
  {
    if |ops| == 0 then []
    else match ops[0]
      case Push(q) =>
        var q' := q[..Room(size, |st.pending|, q)];
        [S.Push(q')] + Accepted(st.Push(q'), ops[1..], size, cfg)
      case GetKey(force) => [ops[0]] + Accepted(S.After(st, S.Look(st, force, cfg)), ops[1..], size, cfg)
  }

  /** A run is done as these operations when every push is cut to its first bytes, and short only where the buffer
      of that size is full behind it. */
  predicate AsFits(st: S.State, ops: seq<S.Op>, done: seq<S.Op>, size: nat, cfg: Config)
    requires st.Valid()
    decreases |ops|
  {
    && |done| == |ops|
    && (|ops| > 0 ==>
          match ops[0]
          case GetKey(force) =>
            done[0] == ops[0] && AsFits(S.After(st, S.Look(st, force, cfg)), ops[1..], done[1..], size, cfg)
          case Push(q) =>
            && done[0].Push? && done[0].bytes <= q
            && FillsUp(q, |done[0].bytes|, |st.Push(done[0].bytes).pending|, size)
            && AsFits(st.Push(done[0].bytes), ops[1..], done[1..], size, cfg))
  }

  lemma {:induction false} AcceptedFits(st: S.State, ops: seq<S.Op>, size: nat, cfg: Config)
    requires st.Valid() && |st.pending| <= size
    ensures AsFits(st, ops, Accepted(st, ops, size, cfg), size, cfg)
    decreases |ops|
  {
    hide S.Look, S.After;
    if |ops| > 0 {
      var done := Accepted(st, ops, size, cfg);
      match ops[0]
      case Push(q) =>
        var q' := q[..Room(size, |st.pending|, q)];
        AcceptedFits(st.Push(q'), ops[1..], size, cfg);
        assert done[1..] == Accepted(st.Push(q'), ops[1..], size, cfg);
      case GetKey(force) =>
        var st' := S.After(st, S.Look(st, force, cfg));
        AcceptedFits(st', ops[1..], size, cfg);
        assert done[1..] == Accepted(st', ops[1..], size, cfg);
    }
  }

  /** How far a run has come: what it gives from the start is what has been given, and what is still to come
      from here. */
  datatype Progress = Progress(st: S.State, ops: seq<S.Op>, held: int, keys: seq<Key>, accepted: nat)

  predicate OnTheWay(st: S.State, done: seq<S.Op>, held: int, now: Progress, size: nat, cfg: Config)
    requires st.Valid() && now.st.Valid() && |now.st.pending| <= size
  {
    var rest := Accepted(now.st, now.ops, size, cfg);
    && S.RunKeys(st, done, held, cfg) == now.keys + S.RunKeys(now.st, rest, now.held, cfg)
    && S.RunRest(st, done, cfg) == S.RunRest(now.st, rest, cfg)
    && |S.Pushed(done)| == now.accepted + |S.Pushed(rest)|
  }

  lemma SetOut(st: S.State, ops: seq<S.Op>, held: int, size: nat, cfg: Config)
    requires st.Valid() && |st.pending| <= size
    ensures OnTheWay(st, Accepted(st, ops, size, cfg), held, Progress(st, ops, held, [], 0), size, cfg)
  {
    hide S.RunKeys, S.RunRest, S.Pushed, Accepted;
    var keys := S.RunKeys(st, Accepted(st, ops, size, cfg), held, cfg);
    assert [] + keys == keys;
  }

  lemma Arrived(st: S.State, done: seq<S.Op>, held: int, now: Progress, size: nat, cfg: Config)
    requires st.Valid() && now.st.Valid() && |now.st.pending| <= size
    requires OnTheWay(st, done, held, now, size, cfg) && |now.ops| == 0
    ensures S.RunKeys(st, done, held, cfg) == now.keys && S.RunRest(st, done, cfg) == now.st
    ensures |S.Pushed(done)| == now.accepted
  {
  }

  lemma OnByPush(st: S.State, done: seq<S.Op>, held: int, now: Progress, size: nat, cfg: Config)
    requires st.Valid() && now.st.Valid() && |now.st.pending| <= size
    requires OnTheWay(st, done, held, now, size, cfg) && |now.ops| > 0 && now.ops[0].Push?
    ensures var n := Room(size, |now.st.pending|, now.ops[0].bytes);
            OnTheWay(st, done, held, now.(st := now.st.Push(now.ops[0].bytes[..n]), ops := now.ops[1..],
                                          accepted := now.accepted + n), size, cfg)
  {
    hide S.RunKeys, S.RunRest, S.Pushed, Accepted;
    AcceptedPush(now.st, now.ops, size, now.held, cfg);
  }

  lemma OnByGetKey(st: S.State, done: seq<S.Op>, held: int, now: Progress, size: nat, cfg: Config)
    requires st.Valid() && now.st.Valid() && |now.st.pending| <= size
    requires OnTheWay(st, done, held, now, size, cfg) && |now.ops| > 0 && now.ops[0].GetKey?
    ensures var r := S.Look(now.st, now.ops[0].force, cfg);
            OnTheWay(st, done, held, now.(st := S.After(now.st, r), ops := now.ops[1..],
                                          held := S.HeldAfter(now.st, now.ops[0].force, now.held, cfg),
                                          keys := now.keys + (if r.Got? then [Given(r.key, now.held)] else [])),
                     size, cfg)
  {
    hide S.RunKeys, S.RunRest, S.Pushed, S.Look, S.After, S.HeldAfter, Accepted;
    AcceptedGetKey(now.st, now.ops, size, now.held, cfg);
  }

  /** A run that begins with a push, and the rest of it. */
  lemma AcceptedPush(st: S.State, ops: seq<S.Op>, size: nat, held: int, cfg: Config)
    requires st.Valid() && |st.pending| <= size && |ops| > 0 && ops[0].Push?
    ensures var done := Accepted(st, ops, size, cfg);
            var q := ops[0].bytes[..Room(size, |st.pending|, ops[0].bytes)];
            var rest := Accepted(st.Push(q), ops[1..], size, cfg);
            && S.RunKeys(st, done, held, cfg) == S.RunKeys(st.Push(q), rest, held, cfg)
            && S.RunRest(st, done, cfg) == S.RunRest(st.Push(q), rest, cfg)
            && |S.Pushed(done)| == |q| + |S.Pushed(rest)|
  {
    var q := ops[0].bytes[..Room(size, |st.pending|, ops[0].bytes)];
    assert Accepted(st, ops, size, cfg)[1..] == Accepted(st.Push(q), ops[1..], size, cfg);
  }

  /** A run that begins with a getkey, and the rest of it. */
  lemma AcceptedGetKey(st: S.State, ops: seq<S.Op>, size: nat, held: int, cfg: Config)
    requires st.Valid() && |st.pending| <= size && |ops| > 0 && ops[0].GetKey?
    ensures var done, r := Accepted(st, ops, size, cfg), S.Look(st, ops[0].force, cfg);
            var rest := Accepted(S.After(st, r), ops[1..], size, cfg);
            && S.RunKeys(st, done, held, cfg) ==
               (if r.Got? then [Given(r.key, held)] else []) +
               S.RunKeys(S.After(st, r), rest, S.HeldAfter(st, ops[0].force, held, cfg), cfg)
            && S.RunRest(st, done, cfg) == S.RunRest(S.After(st, r), rest, cfg)
            && |S.Pushed(done)| == |S.Pushed(rest)|
  {
    hide S.Look, S.After, S.HeldAfter;
    var st' := S.After(st, S.Look(st, ops[0].force, cfg));
    assert Accepted(st, ops, size, cfg)[1..] == Accepted(st', ops[1..], size, cfg);
  }

  lemma {:induction false} AcceptedPatient(st: S.State, ops: seq<S.Op>, size: nat, cfg: Config)
    requires st.Valid() && |st.pending| <= size && S.Patient(ops)
    ensures S.Patient(Accepted(st, ops, size, cfg))
    decreases |ops|
  {
    hide S.Look, S.After;
    if |ops| > 0 {
      match ops[0]
      case Push(q) => AcceptedPatient(st.Push(q[..Room(size, |st.pending|, q)]), ops[1..], size, cfg);
      case GetKey(force) => AcceptedPatient(S.After(st, S.Look(st, force, cfg)), ops[1..], size, cfg);
    }
  }

  /** What is known of a run as far as its bytes are accepted. */
  lemma RunIs(st: S.State, ops: seq<S.Op>, held: int, size: nat, cfg: Config)
    requires st.Valid() && |st.pending| <= size
    ensures var done := Accepted(st, ops, size, cfg);
            && AsFits(st, ops, done, size, cfg)
            && S.RunUsed(st, done, cfg) + S.RunRest(st, done, cfg).pending == st.pending + S.Pushed(done)
            && (S.Patient(ops) ==>
                  (S.RunKeys(st, done, held, cfg) <= S.KeysOf(S.Drain(st.Push(S.Pushed(done)), cfg), held) <==>
                   S.Steady(st, done, held, None, cfg)))
  {
    hide S.Drain, S.RunKeys, S.RunRest, S.RunUsed, S.Pushed, S.Steady, S.KeysOf, AsFits, Accepted;
    var done := Accepted(st, ops, size, cfg);
    AcceptedFits(st, ops, size, cfg);
    S.RunConserved(st, done, cfg);
    if S.Patient(ops) {
      AcceptedPatient(st, ops, size, cfg);
      S.ChunksMatter(st, done, held, cfg);
    }
  }

  /** The step of a run is clear of the code's limits: the tables are not left, the start does not wrap around,
      and no byte is left behind. */
  predicate Clear(m: Memory, force: bool, cfg: Config)
    requires m.Valid() && cfg.started
  {
    !B.Strays(m.State().Skipped(), cfg) && !Wraps(m, force) && !Loses(m, force, cfg)
  }

  lemma ClearMeans(m: Memory, force: bool, cfg: Config)
    requires m.Valid() && cfg.started && Clear(m, force, cfg)
    ensures !B.Strays(m.State().Skipped(), cfg) && !Wraps(m, force) && !Loses(m, force, cfg)
  {
    hide Wraps, Loses, B.Strays;
  }

  function Step(m: Memory, op: S.Op, cfg: Config): (m': Memory)
    requires m.Valid() && cfg.started && (op.GetKey? ==> Clear(m, op.force, cfg))
    ensures m'.Valid()
  {
    if op.Push? then
      PushedState(m, op.bytes);
      Pushed(m, op.bytes)
    else
      FetchedState(m, op.force, cfg);
      Fetched(m, op.force, cfg)
  }

  /** All the steps of the run are. */
  predicate Sound(m: Memory, ops: seq<S.Op>, cfg: Config)
    requires m.Valid() && cfg.started
    decreases |ops|
  {
    |ops| > 0 ==>
      (ops[0].GetKey? ==> Clear(m, ops[0].force, cfg)) && Sound(Step(m, ops[0], cfg), ops[1..], cfg)
  }

  lemma SoundFirst(m: Memory, ops: seq<S.Op>, cfg: Config)
    requires m.Valid() && cfg.started && |ops| > 0 && Sound(m, ops, cfg)
    ensures ops[0].GetKey? ==> Clear(m, ops[0].force, cfg) && Fetched(m, ops[0].force, cfg).Valid() &&
                               Sound(Fetched(m, ops[0].force, cfg), ops[1..], cfg)
    ensures ops[0].Push? ==> Pushed(m, ops[0].bytes).Valid() && Sound(Pushed(m, ops[0].bytes), ops[1..], cfg)
  {
    hide Clear, Fetched, Pushed;
  }
}
