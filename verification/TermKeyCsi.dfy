/** Control sequences: the framing and the parameters of a CSI (section 5.4 of ECMA-48), as the
    terminal reader parses them. */
module TermKeyCsi {
  import opened Basics

  const MAX_LONG := 0x7FFF_FFFF_FFFF_FFFF

  /** Room for the parameters of one sequence. */
  const MAX_ARGS := 16

  /** More: no final byte yet. Overrun: the parser would write past its parameter array, or a
      parameter would overflow a long. */
  datatype CsiParse = More | Overrun | Csi(args: seq<int>, cmd: Command, len: nat)

  /** The command number of the code, byte by byte: final | initial << 8 | intermediate << 16. */
  datatype Command = Command(final: byte, initial: byte, intermediate: byte) {
    function Number(): nat {
      final + initial * 0x100 + intermediate * 0x1_0000
    }
  }

  datatype Scanned = TooMany | Scanned(args: seq<int>, intermediate: byte)

  /** The index of the first final byte, or the length when there is none. */
  function FinalAt(s: seq<byte>): (e: nat)
    ensures e <= |s|
    ensures e < |s| ==> 0x40 <= s[e] < 0x80
  {
    if |s| == 0 || 0x40 <= s[0] < 0x80 then 0 else 1 + FinalAt(s[1..])
  }

  function Finished(args: seq<int>, cur: Option<nat>): seq<int> {
    match cur
    case None => args
    case Some(v) => args + [v]
  }

  datatype Step = Fail | Stop(args: seq<int>, intermediate: byte) | Go(args: seq<int>, cur: Option<nat>)

  /** One byte of the parameters: `cur` is the number being read, -1 stands for a parameter left out. */
  function OneByte(c: byte, args: seq<int>, cur: Option<nat>): Step {
    if 0x30 <= c <= 0x39 then
      var v := (match cur case None => 0 case Some(u) => u * 10) + c - 0x30;
      if |args| >= MAX_ARGS || v > MAX_LONG then Fail else Go(args, Some(v))
    else if c == 0x3b then
      if |args| >= MAX_ARGS && cur.None? then Fail
      else Go(if cur.None? then args + [-1] else Finished(args, cur), None)
    else if 0x20 <= c <= 0x2f then Stop(Finished(args, cur), c)
    else Go(args, cur)
  }

  /** The parameters in what is left of the sequence before its final byte. */
  function Scan(s: seq<byte>, args: seq<int>, cur: Option<nat>): Scanned {
    if |s| == 0 then Scanned(Finished(args, cur), 0)
    else match OneByte(s[0], args, cur)
      case Fail => TooMany
      case Stop(args', b) => Scanned(args', b)
      case Go(args', cur') => Scan(s[1..], args', cur')
  }

  predicate IsInitial(b: byte) {
    0x3c <= b <= 0x3f
  }

  /** A whole sequence, with its final byte the last. */
  function Complete(s: seq<byte>): CsiParse
    requires |s| > 0
  {
    var initial := if |s| > 1 && IsInitial(s[0]) then s[0] else 0;
    match Scan(s[if initial > 0 then 1 else 0..|s| - 1], [], None)
    case TooMany => Overrun
    case Scanned(args, intermediate) =>
      Csi(args, Command(s[|s| - 1], initial, intermediate), |s|)
  }

  /** What follows the introducer, up to and with the final byte. */
  function Parse(s: seq<byte>): CsiParse {
    if FinalAt(s) == |s| then More else Complete(s[..FinalAt(s) + 1])
  }

  /** The first loop of parse_csi. */
  method FindFinal(buffer: array<byte>, from: nat, end: nat) returns (at: nat)
    requires from <= end <= buffer.Length
    ensures at == from + FinalAt(buffer[from..end])
  {
    ghost var s := buffer[from..end];
    at := from;
    while at < end
      invariant from <= at <= end
      invariant FinalAt(s) == at - from + FinalAt(s[at - from..])
    {
      assert buffer[at] == s[at - from];
      if 0x40 <= buffer[at] < 0x80 { break; }
      assert s[at - from..][1..] == s[at + 1 - from..];
      at := at + 1;
    }
  }

  /** The scan from index k on. */
  lemma ScanFrom(s: seq<byte>, k: nat, args: seq<int>, cur: Option<nat>)
    requires k < |s|
    ensures Scan(s[k..], args, cur) ==
            match OneByte(s[k], args, cur)
            case Fail => TooMany
            case Stop(args', b) => Scanned(args', b)
            case Go(args', cur') => Scan(s[k + 1..], args', cur')
  {
    assert s[k..][1..] == s[k + 1..];
  }

  /** The number being read, if one is. */
  function Cur(args: seq<int>, argi: nat, present: bool): Option<nat> {
    if present && argi < |args| && args[argi] >= 0 then Some(args[argi]) else None
  }

  /** One turn of the second loop of parse_csi, on one byte. */
  method TakeByte(c: byte, args: array<int>, argi: nat, present: bool)
    returns (argi': nat, present': bool)
    requires args.Length == MAX_ARGS && argi <= MAX_ARGS && (present ==> argi < MAX_ARGS && args[argi] >= 0)
    requires !OneByte(c, args[..argi], Cur(args[..], argi, present)).Fail?
    modifies args
    ensures argi' <= MAX_ARGS && (present' ==> argi' < MAX_ARGS && args[argi'] >= 0)
    ensures 0x20 <= c <= 0x2f ==> args[..] == old(args[..]) && argi' == argi && present' == present
    ensures OneByte(c, old(args[..argi]), Cur(old(args[..]), argi, present)) ==
            if 0x20 <= c <= 0x2f then Stop(Finished(args[..argi], Cur(args[..], argi, present)), c)
            else Go(args[..argi'], Cur(args[..], argi', present'))
  {
    argi', present' := argi, present;
    if 0x30 <= c <= 0x39 {
      if !present {
        args[argi] := c - 0x30;
        present' := true;
      } else {
        args[argi] := args[argi] * 10 + c - 0x30;
      }
    } else if c == 0x3b {
      if !present { args[argi] := -1; }
      present' := false;
      argi' := argi + 1;
      assert args[..argi'] == args[..argi] + [args[argi]];
    }
  }

  /** The second loop of parse_csi. */
  method ScanArgs(buffer: array<byte>, from: nat, end: nat, args: array<int>) returns (argi: nat, intermediate: byte)
    requires from <= end <= buffer.Length && args.Length == MAX_ARGS
    requires !Scan(buffer[from..end], [], None).TooMany?
    modifies args
    ensures argi <= MAX_ARGS && Scan(buffer[from..end], [], None) == Scanned(args[..argi], intermediate)
  {
    hide OneByte, Scan;
    ghost var s := buffer[from..end];
    var p, present := from, false;
    argi, intermediate := 0, 0;
    assert s[0..] == s;
    while p < end && intermediate == 0
      invariant from <= p <= end && argi <= MAX_ARGS
      invariant present ==> argi < MAX_ARGS && args[argi] >= 0
      invariant intermediate == 0 ==>
                  Scan(s, [], None) == Scan(s[p - from..], args[..argi], Cur(args[..], argi, present))
      invariant intermediate != 0 ==>
                  Scan(s, [], None) == Scanned(Finished(args[..argi], Cur(args[..], argi, present)), intermediate)
      decreases end - p, intermediate == 0
    {
      var c := buffer[p];
      ScanFrom(s, p - from, args[..argi], Cur(args[..], argi, present));
      argi, present := TakeByte(c, args, argi, present);
      if 0x20 <= c <= 0x2f { intermediate := c; }
      p := p + 1;
    }
    if intermediate == 0 { ScanNothing(s[p - from..], args[..argi], Cur(args[..], argi, present)); }
    if present {
      assert args[..argi + 1] == args[..argi] + [args[argi]];
      argi := argi + 1;
    }
  }

  lemma ScanNothing(s: seq<byte>, args: seq<int>, cur: Option<nat>)
    requires |s| == 0
    ensures Scan(s, args, cur) == Scanned(Finished(args, cur), 0)
  {
  }

  lemma Slice<T>(s: seq<T>, a: nat, b: nat, i: nat, j: nat)
    requires a <= b <= |s| && i <= j <= b - a
    ensures s[a..b][i..j] == s[a + i..a + j]
  {
    forall k | 0 <= k < j - i ensures s[a..b][i..j][k] == s[a + i..a + j][k] {
      assert s[a..b][i + k] == s[a + i + k];
    }
  }

  lemma Front<T>(s: seq<T>, k: nat, e: nat)
    requires k <= e < |s|
    ensures s[..e + 1][k..e] == s[k..e]
  {
  }

  /** parse_csi: the sequence in the buffer behind an introducer of the given length. */
  method ParseCsi(buffer: array<byte>, start: nat, count: nat, introlen: nat, args: array<int>)
    returns (complete: bool, csiLen: nat, nargs: nat, command: Command)
    requires introlen <= count && start + count <= buffer.Length && args.Length == MAX_ARGS
    requires !Parse(buffer[start + introlen..start + count]).Overrun?
    modifies args
    ensures var r := Parse(buffer[start + introlen..start + count]);
            && complete == r.Csi? && nargs <= MAX_ARGS
            && (complete ==> introlen < csiLen <= count && r == Csi(args[..nargs], command, csiLen - introlen))
  {
    hide Scan, FinalAt;
    ghost var s := buffer[start + introlen..start + count];
    var csiEnd := FindFinal(buffer, start + introlen, start + count);
    ghost var e := FinalAt(s);
    if csiEnd >= start + count { return false, 0, 0, Command(0, 0, 0); }
    var p := start + introlen;
    assert buffer[p] == s[0] && buffer[csiEnd] == s[e];
    var initial: byte := 0;
    if IsInitial(buffer[p]) {
      initial := buffer[p];
      p := p + 1;
    }
    ghost var k := p - (start + introlen);
    Front(s, k, e);
    Slice(buffer[..], start + introlen, start + count, k, e);
    assert buffer[..][start + introlen..start + count] == s && buffer[..][p..csiEnd] == buffer[p..csiEnd];
    var intermediate: byte;
    nargs, intermediate := ScanArgs(buffer, p, csiEnd, args);
    command := Command(buffer[csiEnd], initial, intermediate);
    csiLen := csiEnd - start + 1;
    complete := true;
  }

  // ---- round trip ----

  function Digits(n: nat): (s: seq<byte>)
    ensures |s| > 0 && forall i | 0 <= i < |s| :: 0x30 <= s[i] <= 0x39
  {
    if n < 10 then [0x30 + n] else Digits(n / 10) + [0x30 + n % 10]
  }

  /** A parameter, or nothing for one left out. */
  function Item(param: Option<nat>): seq<byte> {
    match param
    case None => []
    case Some(n) => Digits(n)
  }

  function Join(params: seq<Option<nat>>): seq<byte> {
    if |params| == 0 then []
    else if |params| == 1 then Item(params[0])
    else Item(params[0]) + [0x3b] + Join(params[1..])
  }

  function Value(param: Option<nat>): int {
    match param
    case None => -1
    case Some(n) => n
  }

  function Values(params: seq<Option<nat>>): seq<int> {
    if |params| == 0 then [] else [Value(params[0])] + Values(params[1..])
  }

  /** A parameter left out at the very end leaves no trace. */
  function Trim(params: seq<Option<nat>>): seq<Option<nat>> {
    if |params| > 0 && params[|params| - 1].None? then params[..|params| - 1] else params
  }

  lemma {:induction false} ScanDigits(n: nat, rest: seq<byte>, args: seq<int>)
    requires n <= MAX_LONG && |args| < MAX_ARGS
    ensures Scan(Digits(n) + rest, args, None) == Scan(rest, args, Some(n))
  {
    var s := Digits(n) + rest;
    if n < 10 {
      assert s[1..] == rest;
    } else {
      var last: seq<byte> := [0x30 + n % 10];
      ScanDigits(n / 10, last + rest, args);
      assert s == Digits(n / 10) + (last + rest);
      assert (last + rest)[1..] == rest;
    }
  }

  lemma ScanItem(param: Option<nat>, rest: seq<byte>, args: seq<int>)
    requires |args| < MAX_ARGS && (param.Some? ==> param.value <= MAX_LONG)
    ensures Scan(Item(param) + rest, args, None) == Scan(rest, args, param)
  {
    if param.Some? { ScanDigits(param.value, rest, args); } else { assert Item(param) + rest == rest; }
  }

  lemma ScanSeparator(rest: seq<byte>, args: seq<int>, param: Option<nat>)
    requires |args| < MAX_ARGS
    ensures Scan([0x3b] + rest, args, param) == Scan(rest, args + [Value(param)], None)
  {
    assert ([0x3b] + rest)[1..] == rest;
  }

  lemma JoinParts(params: seq<Option<nat>>, rest: seq<byte>)
    requires |params| > 1
    ensures Join(params) + rest == Item(params[0]) + ([0x3b] + (Join(params[1..]) + rest))
  {
  }

  /** Where the scan stands once it has read the parameters. */
  lemma {:induction false} ScanJoin(params: seq<Option<nat>>, rest: seq<byte>, args: seq<int>)
    requires |params| > 0 && |args| + |Trim(params)| <= MAX_ARGS
    requires forall p | p in params && p.Some? :: p.value <= MAX_LONG
    ensures var k := |params| - 1;
            Scan(Join(params) + rest, args, None) == Scan(rest, args + Values(params[..k]), params[k])
    decreases |params|
  {
    hide Scan, Item, Value, Join, Trim, Values;
    var k := |params| - 1;
    if k == 0 {
      JoinOne(params, rest, args);
    } else {
      var rest1 := Join(params[1..]) + rest;
      var args1 := args + [Value(params[0])];
      JoinParts(params, rest);
      TrimRest(params);
      ScanItem(params[0], [0x3b] + rest1, args);
      ScanSeparator(rest1, args, params[0]);
      ScanJoin(params[1..], rest, args1);
      ValuesFirst(params, args);
    }
  }

  lemma JoinOne(params: seq<Option<nat>>, rest: seq<byte>, args: seq<int>)
    requires |params| == 1 && |args| + |Trim(params)| <= MAX_ARGS && (params[0].Some? ==> params[0].value <= MAX_LONG)
    ensures Scan(Join(params) + rest, args, None) == Scan(rest, args + Values(params[..0]), params[0])
  {
    hide Scan;
    assert args + Values(params[..0]) == args;
    if params[0].Some? { ScanItem(params[0], rest, args); } else { NoItem(rest); }
  }

  lemma TrimRest(params: seq<Option<nat>>)
    requires |params| > 1
    ensures |Trim(params)| == |Trim(params[1..])| + 1
  {
  }

  lemma ValuesFirst(params: seq<Option<nat>>, args: seq<int>)
    requires |params| > 1
    ensures var k := |params| - 1;
            args + [Value(params[0])] + Values(params[1..][..k - 1]) == args + Values(params[..k])
  {
    assert params[..|params| - 1][1..] == params[1..][..|params| - 2];
  }

  lemma NoItem(rest: seq<byte>)
    ensures Item(None) + rest == rest
  {
  }

  function Single(b: Option<byte>): seq<byte> {
    match b
    case None => []
    case Some(c) => [c]
  }

  /** A control sequence as section 5.4 of ECMA-48 lays it out, behind its introducer. */
  function Encode(initial: Option<byte>, params: seq<Option<nat>>, intermediate: Option<byte>, final: byte): seq<byte> {
    Single(initial) + Join(params) + Single(intermediate) + [final]
  }

  function Code(b: Option<byte>): byte {
    match b
    case None => 0
    case Some(c) => c
  }

  predicate NoFinal(s: seq<byte>) {
    forall i | 0 <= i < |s| :: !(0x40 <= s[i] < 0x80)
  }

  lemma {:induction false} FinalAfter(s: seq<byte>, t: seq<byte>)
    requires NoFinal(s) && |t| > 0 && 0x40 <= t[0] < 0x80
    ensures FinalAt(s + t) == |s|
  {
    if |s| > 0 {
      FinalAfter(s[1..], t);
      assert (s + t)[1..] == s[1..] + t;
    }
  }

  lemma {:induction false} JoinBytes(params: seq<Option<nat>>)
    ensures forall i | 0 <= i < |Join(params)| :: 0x30 <= Join(params)[i] <= 0x3b
  {
    if |params| > 1 { JoinBytes(params[1..]); }
  }

  /** The end of the parameters, with an intermediate byte or without. */
  lemma ScanEnd(params: seq<Option<nat>>, intermediate: Option<byte>)
    requires Fitting(params)
    requires intermediate.Some? ==> 0x20 <= intermediate.value <= 0x2f
    ensures Scan(Join(params) + Single(intermediate), [], None) == Scanned(Values(Trim(params)), Code(intermediate))
  {
    if |params| > 0 {
      hide Join, Values, Trim;
      ScanJoin(params, Single(intermediate), []);
      ValuesEnd(params);
      assert [] + Values(params[..|params| - 1]) == Values(params[..|params| - 1]);
    } else {
      assert Join(params) + Single(intermediate) == Single(intermediate);
    }
  }

  lemma {:induction false} ValuesEnd(params: seq<Option<nat>>)
    requires |params| > 0
    ensures var k := |params| - 1;
            Finished(Values(params[..k]), params[k]) == Values(Trim(params))
  {
    if params[|params| - 1].Some? { ValuesLast(params); }
  }

  lemma {:induction false} ValuesLast(params: seq<Option<nat>>)
    requires |params| > 0
    ensures var k := |params| - 1;
            Values(params) == Values(params[..k]) + [Value(params[k])]
  {
    if |params| > 1 {
      ValuesLast(params[1..]);
      assert params[1..][..|params| - 2] == params[..|params| - 1][1..];
    }
  }

  predicate Fitting(params: seq<Option<nat>>) {
    |Trim(params)| <= MAX_ARGS && forall p | p in params && p.Some? :: p.value <= MAX_LONG
  }

  /** The bytes between the introducer and the final byte hold no final byte. */
  lemma EncodedBody(initial: Option<byte>, params: seq<Option<nat>>, intermediate: Option<byte>)
    requires initial.Some? ==> IsInitial(initial.value)
    requires intermediate.Some? ==> 0x20 <= intermediate.value <= 0x2f
    ensures var args := Join(params) + Single(intermediate);
            NoFinal(Single(initial) + args) && (|args| > 0 ==> !IsInitial(args[0]))
  {
    hide Join;
    JoinBytes(params);
    var args := Join(params) + Single(intermediate);
    assert |args| > 0 ==> args[0] == if |Join(params)| > 0 then Join(params)[0] else intermediate.value;
  }

  /** The parser takes an encoded sequence up to its final byte. */
  lemma EncodedWhole(initial: Option<byte>, params: seq<Option<nat>>, intermediate: Option<byte>, final: byte,
                     rest: seq<byte>)
    requires initial.Some? ==> IsInitial(initial.value)
    requires intermediate.Some? ==> 0x20 <= intermediate.value <= 0x2f
    requires 0x40 <= final < 0x80
    ensures Parse(Encode(initial, params, intermediate, final) + rest) ==
            Complete(Encode(initial, params, intermediate, final))
  {
    hide Join, FinalAt, NoFinal, Complete;
    var args := Join(params) + Single(intermediate);
    var s := Encode(initial, params, intermediate, final);
    EncodedBody(initial, params, intermediate);
    var end: seq<byte> := [final] + rest;
    assert s + rest == (Single(initial) + args) + end;
    FinalAfter(Single(initial) + args, end);
    assert (s + rest)[..|s|] == s;
  }

  /** The parameters of an encoded sequence stand between its initial byte, if any, and its final byte. */
  lemma EncodedParts(initial: Option<byte>, params: seq<Option<nat>>, intermediate: Option<byte>, final: byte)
    requires initial.Some? ==> IsInitial(initial.value)
    requires intermediate.Some? ==> 0x20 <= intermediate.value <= 0x2f
    ensures var s, args := Encode(initial, params, intermediate, final), Join(params) + Single(intermediate);
            && (|s| > 1 && IsInitial(s[0]) <==> initial.Some?)
            && s[if initial.Some? then 1 else 0..|s| - 1] == args
            && (initial.Some? ==> s[0] == initial.value) && s[|s| - 1] == final
  {
    hide Join, NoFinal;
    var args := Join(params) + Single(intermediate);
    var s := Encode(initial, params, intermediate, final);
    EncodedBody(initial, params, intermediate);
    if initial.Some? {
      assert s == [initial.value] + args + [final];
    } else {
      assert s == args + [final];
      assert |args| > 0 ==> s[0] == args[0];
    }
  }

  /** Parsing an encoded sequence gives back its parameters, its bytes and its length, whatever
      follows. Only a parameter left out at the very end is not told from none at all. */
  lemma RoundTrip(initial: Option<byte>, params: seq<Option<nat>>, intermediate: Option<byte>, final: byte,
                  rest: seq<byte>)
    requires initial.Some? ==> IsInitial(initial.value)
    requires intermediate.Some? ==> 0x20 <= intermediate.value <= 0x2f
    requires 0x40 <= final < 0x80 && Fitting(params)
    ensures var s := Encode(initial, params, intermediate, final);
            Parse(s + rest) ==
            Csi(Values(Trim(params)), Command(final, Code(initial), Code(intermediate)), |s|)
  {
    hide Scan, Join, Values, Trim, FinalAt, NoFinal, Complete;
    EncodedWhole(initial, params, intermediate, final, rest);
    EncodedComplete(initial, params, intermediate, final);
  }

  lemma EncodedComplete(initial: Option<byte>, params: seq<Option<nat>>, intermediate: Option<byte>, final: byte)
    requires initial.Some? ==> IsInitial(initial.value)
    requires intermediate.Some? ==> 0x20 <= intermediate.value <= 0x2f
    requires 0x40 <= final < 0x80 && Fitting(params)
    ensures var s := Encode(initial, params, intermediate, final);
            Complete(s) == Csi(Values(Trim(params)), Command(final, Code(initial), Code(intermediate)), |s|)
  {
    hide Scan, Join, Values, Trim, Encode;
    EncodedParts(initial, params, intermediate, final);
    ScanEnd(params, intermediate);
  }

  // ---- what does not fit, and what does not matter ----

  /** A number that does not fit a long, or that there is no place for. */
  lemma {:induction false} ScanTooBig(n: nat, rest: seq<byte>, args: seq<int>)
    requires n > MAX_LONG || |args| >= MAX_ARGS
    ensures Scan(Digits(n) + rest, args, None) == TooMany
    decreases n
  {
    var s := Digits(n) + rest;
    if n >= 10 {
      var last: seq<byte> := [0x30 + n % 10];
      assert s == Digits(n / 10) + (last + rest);
      if n / 10 > MAX_LONG || |args| >= MAX_ARGS {
        ScanTooBig(n / 10, last + rest, args);
      } else {
        ScanDigits(n / 10, last + rest, args);
      }
    }
  }

  predicate TooBig(params: seq<Option<nat>>) {
    exists p :: p in params && p.Some? && p.value > MAX_LONG
  }

  lemma {:induction false} ScanOverrun(params: seq<Option<nat>>, rest: seq<byte>, args: seq<int>)
    requires |args| <= MAX_ARGS && (|args| + |Trim(params)| > MAX_ARGS || TooBig(params))
    ensures Scan(Join(params) + rest, args, None) == TooMany
    decreases |params|
  {
    hide Scan, Item, Join, Value;
    assert |params| > 0;
    var first := params[0];
    var full := |args| == MAX_ARGS;
    if first.Some? && (full || first.value > MAX_LONG) {
      var behind := if |params| == 1 then rest else [0x3b] + (Join(params[1..]) + rest);
      FirstNumber(params, rest, behind);
      ScanTooBig(first.value, behind, args);
    } else {
      RestTooBig(params);
      var rest1 := Join(params[1..]) + rest;
      JoinParts(params, rest);
      if full {
        NoPlace(rest1, args);
        NoItem([0x3b] + rest1);
      } else {
        ScanItem(first, [0x3b] + rest1, args);
        ScanSeparator(rest1, args, first);
        TrimRest(params);
        ScanOverrun(params[1..], rest, args + [Value(first)]);
      }
    }
  }

  lemma FirstNumber(params: seq<Option<nat>>, rest: seq<byte>, behind: seq<byte>)
    requires |params| > 0 && params[0].Some?
    requires behind == if |params| == 1 then rest else [0x3b] + (Join(params[1..]) + rest)
    ensures Join(params) + rest == Digits(params[0].value) + behind
  {
    if |params| > 1 { JoinParts(params, rest); }
  }

  lemma RestTooBig(params: seq<Option<nat>>)
    requires |params| > 0 && !(params[0].Some? && params[0].value > MAX_LONG)
    ensures TooBig(params) <==> TooBig(params[1..])
    ensures TooBig(params) ==> |params| > 1
    ensures params[0].None? && |params| == 1 ==> |Trim(params)| == 0
  {
    if TooBig(params) {
      var p :| p in params && p.Some? && p.value > MAX_LONG;
      assert p in params[1..];
    }
  }

  lemma NoPlace(rest: seq<byte>, args: seq<int>)
    requires |args| == MAX_ARGS
    ensures Scan([0x3b] + rest, args, None) == TooMany
  {
  }

  /** The parser runs over its parameters exactly when there are more than 16, or one that does not fit a long. */
  lemma OverrunExact(initial: Option<byte>, params: seq<Option<nat>>, intermediate: Option<byte>, final: byte,
                     rest: seq<byte>)
    requires initial.Some? ==> IsInitial(initial.value)
    requires intermediate.Some? ==> 0x20 <= intermediate.value <= 0x2f
    requires 0x40 <= final < 0x80
    ensures Parse(Encode(initial, params, intermediate, final) + rest).Overrun? <==>
            |Trim(params)| > 16 || exists p :: p in params && p.Some? && p.value > 0x7FFF_FFFF_FFFF_FFFF
  {
    hide Scan, Join, Values, Trim, FinalAt, NoFinal, Complete;
    if Fitting(params) {
      RoundTrip(initial, params, intermediate, final, rest);
    } else {
      EncodedWhole(initial, params, intermediate, final, rest);
      EncodedOverrun(initial, params, intermediate, final);
    }
  }

  lemma EncodedOverrun(initial: Option<byte>, params: seq<Option<nat>>, intermediate: Option<byte>, final: byte)
    requires initial.Some? ==> IsInitial(initial.value)
    requires intermediate.Some? ==> 0x20 <= intermediate.value <= 0x2f
    requires 0x40 <= final < 0x80 && !Fitting(params)
    ensures Complete(Encode(initial, params, intermediate, final)).Overrun?
  {
    hide Scan, Join, Trim, NoFinal;
    var args := Join(params) + Single(intermediate);
    EncodedParts(initial, params, intermediate, final);
    if |Trim(params)| <= MAX_ARGS { assert TooBig(params); }
    ScanOverrun(params, Single(intermediate), []);
  }

  /** A byte that is no digit, separator or intermediate byte is passed over, wherever among the parameters it
      stands. */
  lemma {:induction false} OthersIgnored(s: seq<byte>, c: byte, t: seq<byte>, args: seq<int>, cur: Option<nat>)
    requires !(0x30 <= c <= 0x39) && c != 0x3b && !(0x20 <= c <= 0x2f)
    ensures Scan(s + ([c] + t), args, cur) == Scan(s + t, args, cur)
    decreases |s|
  {
    if |s| == 0 {
      assert s + ([c] + t) == [c] + t && s + t == t && ([c] + t)[1..] == t;
    } else {
      assert (s + ([c] + t))[1..] == s[1..] + ([c] + t) && (s + t)[1..] == s[1..] + t;
      match OneByte(s[0], args, cur)
      case Go(args', cur') => OthersIgnored(s[1..], c, t, args', cur');
      case _ =>
    }
  }

  /** Nothing that follows an intermediate byte matters. */
  lemma {:induction false} NothingBehind(s: seq<byte>, c: byte, t: seq<byte>, args: seq<int>, cur: Option<nat>)
    requires 0x20 <= c <= 0x2f
    ensures Scan(s + ([c] + t), args, cur) == Scan(s + [c], args, cur)
    decreases |s|
  {
    if |s| == 0 {
      assert s + ([c] + t) == [c] + t && s + [c] == [c];
    } else {
      assert (s + ([c] + t))[1..] == s[1..] + ([c] + t) && (s + [c])[1..] == s[1..] + [c];
      match OneByte(s[0], args, cur)
      case Go(args', cur') => NothingBehind(s[1..], c, t, args', cur');
      case _ =>
    }
  }

  // ---- more input ----

  lemma {:induction false} FinalMore(s: seq<byte>, t: seq<byte>)
    requires FinalAt(s) < |s|
    ensures FinalAt(s + t) == FinalAt(s)
  {
    if !(0x40 <= s[0] < 0x80) {
      FinalMore(s[1..], t);
      assert (s + t)[1..] == s[1..] + t;
    }
  }

  /** More input never changes a sequence that is already complete. */
  lemma ParseMore(s: seq<byte>, t: seq<byte>)
    requires !Parse(s).More?
    ensures Parse(s + t) == Parse(s)
    ensures Parse(s).Csi? ==> 1 <= Parse(s).len <= |s| && 0x40 <= Parse(s).cmd.final < 0x80
  {
    hide Scan, FinalAt;
    FinalMore(s, t);
    assert (s + t)[..FinalAt(s) + 1] == s[..FinalAt(s) + 1];
  }
}
