/** The terminal reader's own UTF-8: printing a code point into a key and parsing one from the input
    (section 2 of RFC 2279, sequences of up to six bytes). */
module TermKeyUtf8 {
  import opened Basics

  const UTF8_INVALID := 0xFFFD

  /** utf8_seqlen; the argument is a C long and may be negative. */
  function SeqLen(cp: int): (n: nat)
    ensures 1 <= n <= 6
  {
    if cp < 0x80 then 1
    else if cp < 0x800 then 2
    else if cp < 0x1_0000 then 3
    else if cp < 0x20_0000 then 4
    else if cp < 0x400_0000 then 5
    else 6
  }

  /** cp >> 6k */
  function Shift(cp: int, k: nat): (r: int)
    ensures cp >= 0 ==> r >= 0
    decreases k
  {
    if k == 0 then cp else Shift(cp / 64, k - 1)
  }

  /** The k continuation bytes that end the sequence of cp. */
  function Tail(cp: int, k: nat): (s: seq<byte>)
    ensures |s| == k
    decreases k
  {
    if k == 0 then [] else Tail(cp / 64, k - 1) + [0x80 + cp % 64]
  }

  /** The lead byte of an n-byte sequence, over the bits that are left. */
  function Lead(bits: int, n: nat): byte
    requires 1 <= n <= 6
  {
    match n
    case 1 => bits % 0x80
    case 2 => 0xc0 + bits % 0x20
    case 3 => 0xe0 + bits % 0x10
    case 4 => 0xf0 + bits % 0x08
    case 5 => 0xf8 + bits % 0x04
    case _ => 0xfc + bits % 0x02
  }

  function Fill(cp: int): (s: seq<byte>)
    ensures |s| == SeqLen(cp)
  {
    var n := SeqLen(cp);
    [Lead(Shift(cp, n - 1), n)] + Tail(cp, n - 1)
  }

  lemma {:induction false} ShiftOnce(cp: int, k: nat)
    ensures Shift(cp, k + 1) == Shift(cp, k) / 64
    decreases k
  {
    if k > 0 { ShiftOnce(cp / 64, k - 1); }
  }

  lemma {:induction false} TailStep(cp: int, k: nat)
    ensures Tail(cp, k + 1) == [0x80 + Shift(cp, k) % 64] + Tail(cp, k)
    decreases k
  {
    if k > 0 {
      TailStep(cp / 64, k - 1);
    }
  }

  lemma FromTheEnd(cp: int)
    ensures Shift(cp, 0) == cp && Tail(cp, 0) == []
  {
  }

  /** fill_utf8: the bytes and the zero after them, written from the last to the first. */
  method FillUtf8(codepoint: int, utf8: array<byte>)
    requires utf8.Length == 7
    modifies utf8
    ensures var n := SeqLen(codepoint); utf8[..n] == Fill(codepoint) && utf8[n] == 0
    ensures utf8[SeqLen(codepoint) + 1..] == old(utf8[SeqLen(codepoint) + 1..])
  {
    hide Lead, SeqLen, Shift, Tail;
    var nbytes := SeqLen(codepoint);
    utf8[nbytes] := 0;
    var cp := codepoint;
    var b := nbytes;
    FromTheEnd(codepoint);
    while b > 1
      invariant 1 <= b <= nbytes && cp == Shift(codepoint, nbytes - b)
      invariant utf8[b..nbytes] == Tail(codepoint, nbytes - b)
      invariant utf8[nbytes] == 0 && utf8[nbytes + 1..] == old(utf8[nbytes + 1..])
    {
      b := b - 1;
      TailStep(codepoint, nbytes - b - 1);
      ShiftOnce(codepoint, nbytes - b - 1);
      utf8[b] := 0x80 + cp % 64;
      cp := cp / 64;
    }
    utf8[0] := Lead(cp, nbytes);
    assert utf8[..nbytes] == [utf8[0]] + utf8[1..nbytes];
  }

  // ---- parsing ----

  datatype Parsed = More | Point(cp: int, n: nat)

  /** A code point too small for its sequence, a surrogate, U+FFFE or U+FFFF is not accepted. */
  function Checked(cp: int, n: nat): int {
    var c := if n > SeqLen(cp) then UTF8_INVALID else cp;
    if 0xD800 <= c <= 0xDFFF || c == 0xFFFE || c == 0xFFFF then UTF8_INVALID else c
  }

  function ParseTail(bytes: seq<byte>, b: nat, n: nat, cp: nat): Parsed
    requires b <= n
    decreases n - b
  {
    if b == n then Point(Checked(cp, n), n)
    else if b >= |bytes| then More
    else if bytes[b] < 0x80 || bytes[b] >= 0xc0 then Point(UTF8_INVALID, b)
    else ParseTail(bytes, b + 1, n, cp * 64 + bytes[b] % 64)
  }

  function Parse(bytes: seq<byte>): Parsed
    requires |bytes| > 0
  {
    var b0 := bytes[0];
    if b0 < 0x80 then Point(b0, 1)
    else if b0 < 0xc0 then Point(UTF8_INVALID, 1)
    else if b0 < 0xe0 then ParseTail(bytes, 1, 2, b0 % 0x20)
    else if b0 < 0xf0 then ParseTail(bytes, 1, 3, b0 % 0x10)
    else if b0 < 0xf8 then ParseTail(bytes, 1, 4, b0 % 0x08)
    else if b0 < 0xfc then ParseTail(bytes, 1, 5, b0 % 0x04)
    else if b0 < 0xfe then ParseTail(bytes, 1, 6, b0 % 0x02)
    else Point(UTF8_INVALID, 1)
  }

  /** The continuation bytes, and the checks at the end of parse_utf8. */
  method ParseRest(buffer: array<byte>, start: nat, len: nat, nbytes: nat, bits: nat) returns (r: Parsed)
    requires 0 < len && start + len <= buffer.Length && nbytes > 0
    ensures r == ParseTail(buffer[start..start + len], 1, nbytes, bits)
  {
    hide Checked;
    ghost var bytes := buffer[start..start + len];
    var cp: nat, b: nat := bits, 1;
    while b < nbytes
      invariant 1 <= b <= nbytes && ParseTail(bytes, 1, nbytes, bits) == ParseTail(bytes, b, nbytes, cp)
    {
      if b >= len { return More; }
      var cb := buffer[start + b];
      assert cb == bytes[b];
      if cb < 0x80 || cb >= 0xc0 { return Point(UTF8_INVALID, b); }
      cp := cp * 64 + cb % 64;
      b := b + 1;
    }
    r := Point(Checked(cp, nbytes), nbytes);
  }

  /** parse_utf8, over the bytes of a buffer from an index. */
  method ParseUtf8(buffer: array<byte>, start: nat, len: nat) returns (r: Parsed)
    requires 0 < len && start + len <= buffer.Length
    ensures r == Parse(buffer[start..start + len])
  {
    ghost var bytes := buffer[start..start + len];
    var b0 := buffer[start];
    assert b0 == bytes[0];
    var nbytes: nat;
    var cp: nat;
    if b0 < 0x80 { return Point(b0, 1); }
    else if b0 < 0xc0 { return Point(UTF8_INVALID, 1); }
    else if b0 < 0xe0 { nbytes, cp := 2, b0 % 0x20; }
    else if b0 < 0xf0 { nbytes, cp := 3, b0 % 0x10; }
    else if b0 < 0xf8 { nbytes, cp := 4, b0 % 0x08; }
    else if b0 < 0xfc { nbytes, cp := 5, b0 % 0x04; }
    else if b0 < 0xfe { nbytes, cp := 6, b0 % 0x02; }
    else { return Point(UTF8_INVALID, 1); }
    hide ParseTail;
    r := ParseRest(buffer, start, len, nbytes, cp);
  }

  // ---- the two are inverse ----

  /** Reading back the last k continuation bytes of cp over the bits in front of them. */
  lemma {:induction false} ParseOfTail(cp: nat, k: nat, bytes: seq<byte>, n: nat)
    requires k < n <= |bytes| && bytes[n - k..n] == Tail(cp, k)
    ensures ParseTail(bytes, n - k, n, Shift(cp, k)) == Point(Checked(cp, n), n)
    decreases k
  {
    hide Tail, Shift, Checked;
    if k == 0 {
      FromTheEnd(cp);
    } else {
      TailStep(cp, k - 1);
      ShiftOnce(cp, k - 1);
      var b := n - k;
      assert bytes[b] == bytes[b..n][0] && bytes[b + 1..n] == bytes[b..n][1..];
      ParseOfTail(cp, k - 1, bytes, n);
    }
  }

  function LeadBase(n: nat): nat {
    match n case 2 => 0xc0 case 3 => 0xe0 case 4 => 0xf0 case 5 => 0xf8 case 6 => 0xfc case _ => 0
  }

  function LeadLimit(n: nat): nat {
    match n case 2 => 0x20 case 3 => 0x10 case 4 => 0x08 case 5 => 0x04 case 6 => 0x02 case _ => 0x80
  }

  function Power(k: nat): nat {
    match k case 1 => 0x40 case 2 => 0x1000 case 3 => 0x4_0000 case 4 => 0x100_0000 case 5 => 0x4000_0000 case _ => 1
  }

  lemma ShiftIs(cp: nat, k: nat)
    requires k <= 5
    ensures Shift(cp, k) == cp / Power(k)
  {
    if k > 0 { ShiftOnce(cp, k - 1); ShiftIs(cp, k - 1); }
  }

  /** The bits left for the lead byte fit in it. */
  lemma LeadFits(cp: nat)
    requires cp < 0x8000_0000
    ensures Shift(cp, SeqLen(cp) - 1) < LeadLimit(SeqLen(cp))
  {
    ShiftIs(cp, SeqLen(cp) - 1);
  }

  lemma LeadIs(bits: nat, n: nat)
    requires 1 <= n <= 6 && bits < LeadLimit(n)
    ensures Lead(bits, n) == LeadBase(n) + bits
  {
  }

  /** A lead byte announces the length of its sequence and gives back its bits. */
  lemma ParseLead(bytes: seq<byte>, n: nat, bits: nat)
    requires 2 <= n <= 6 && bits < LeadLimit(n) && |bytes| > 0 && bytes[0] == LeadBase(n) + bits
    ensures Parse(bytes) == ParseTail(bytes, 1, n, bits)
  {
    hide ParseTail;
    var b0 := bytes[0];
    if n == 2 { assert b0 % 0x20 == bits; }
    else if n == 3 { assert b0 % 0x10 == bits; }
    else if n == 4 { assert b0 % 0x08 == bits; }
    else if n == 5 { assert b0 % 0x04 == bits; }
    else { assert b0 % 0x02 == bits; }
  }

  lemma {:induction false} TailBytes(cp: nat, k: nat)
    requires k <= 5
    ensures forall i | 0 <= i < k :: Tail(cp, k)[i] == 0x80 + cp / Power(k - 1 - i) % 0x40
  {
    if k > 0 {
      TailStep(cp, k - 1);
      ShiftIs(cp, k - 1);
      TailBytes(cp, k - 1);
    }
  }

  lemma FillParts(cp: nat)
    requires cp < 0x8000_0000
    ensures var n := SeqLen(cp);
            && Fill(cp)[0] == LeadBase(n) + cp / Power(n - 1)
            && forall i | 1 <= i < n :: Fill(cp)[i] == 0x80 + cp / Power(n - 1 - i) % 0x40
  {
    hide Lead, Tail, Shift, LeadBase, LeadLimit, Power;
    var n := SeqLen(cp);
    LeadFits(cp);
    LeadIs(Shift(cp, n - 1), n);
    ShiftIs(cp, n - 1);
    TailBytes(cp, n - 1);
    forall i | 1 <= i < n ensures Fill(cp)[i] == Tail(cp, n - 1)[i - 1] {}
  }

  /** The bytes as section 2 of RFC 2279 lays them out. */
  lemma FillIs(cp: nat)
    requires cp < 0x8000_0000
    ensures Fill(cp) ==
            if cp < 0x80 then [cp]
            else if cp < 0x800 then [0xc0 + cp / 0x40, 0x80 + cp % 0x40]
            else if cp < 0x1_0000 then [0xe0 + cp / 0x1000, 0x80 + cp / 0x40 % 0x40, 0x80 + cp % 0x40]
            else if cp < 0x20_0000 then
              [0xf0 + cp / 0x4_0000, 0x80 + cp / 0x1000 % 0x40, 0x80 + cp / 0x40 % 0x40, 0x80 + cp % 0x40]
            else if cp < 0x400_0000 then
              [0xf8 + cp / 0x100_0000, 0x80 + cp / 0x4_0000 % 0x40, 0x80 + cp / 0x1000 % 0x40,
               0x80 + cp / 0x40 % 0x40, 0x80 + cp % 0x40]
            else
              [0xfc + cp / 0x4000_0000, 0x80 + cp / 0x100_0000 % 0x40, 0x80 + cp / 0x4_0000 % 0x40,
               0x80 + cp / 0x1000 % 0x40, 0x80 + cp / 0x40 % 0x40, 0x80 + cp % 0x40]
  {
    hide Fill;
    FillParts(cp);
  }

  lemma Digit(cp: nat, b: byte)
    ensures (cp * 64 + b % 64) / 64 == cp && (cp * 64 + b % 64) % 64 == b % 64
    ensures 0x80 <= b < 0xc0 ==> 0x80 + b % 64 == b
  {
  }

  /** Every code point below 2^31 parses back to itself and its length, whatever follows: but for
      the surrogates, U+FFFE and U+FFFF, which come back as U+FFFD. */
  lemma ParseOfFill(cp: nat, rest: seq<byte>)
    requires cp < 0x8000_0000
    ensures Parse(Fill(cp) + rest) == Point(Checked(cp, SeqLen(cp)), |Fill(cp)|)
    ensures Parse(Fill(cp) + rest) == Point(cp, |Fill(cp)|) <==>
            !(0xD800 <= cp <= 0xDFFF || cp == 0xFFFE || cp == 0xFFFF)
  {
    hide ParseTail, Tail;
    var n := SeqLen(cp);
    var bytes := Fill(cp) + rest;
    LeadFits(cp);
    if n > 1 {
      assert bytes[1..n] == Tail(cp, n - 1);
      LeadIs(Shift(cp, n - 1), n);
      ParseLead(bytes, n, Shift(cp, n - 1));
      ParseOfTail(cp, n - 1, bytes, n);
    }
  }

  /** What ParseTail accepted is the tail of what it returned. */
  lemma {:induction false} TailOfParse(bytes: seq<byte>, b: nat, n: nat, cp: nat)
    requires 1 <= b <= n <= 6 && b <= |bytes|
    requires ParseTail(bytes, b, n, cp).Point? && ParseTail(bytes, b, n, cp).cp != UTF8_INVALID
    ensures var r := ParseTail(bytes, b, n, cp);
            && r.n == n <= |bytes| && r.cp >= 0 && n <= SeqLen(r.cp)
            && Shift(r.cp, n - b) == cp
            && bytes[b..n] == Tail(r.cp, n - b)
    decreases n - b
  {
    hide Shift, Tail, Checked;
    if b == n {
      CheckedIs(cp, n);
      FromTheEnd(cp);
    } else {
      var cp' := cp * 64 + bytes[b] % 64;
      var r := ParseTail(bytes, b + 1, n, cp');
      assert ParseTail(bytes, b, n, cp) == r;
      TailOfParse(bytes, b + 1, n, cp');
      Digit(cp, bytes[b]);
      ShiftOnce(r.cp, n - b - 1);
      TailStep(r.cp, n - b - 1);
      assert bytes[b..n] == [bytes[b]] + bytes[b + 1..n];
    }
  }

  lemma CheckedIs(cp: nat, n: nat)
    ensures Checked(cp, n) == cp || Checked(cp, n) == UTF8_INVALID
    ensures Checked(cp, n) != UTF8_INVALID ==> n <= SeqLen(cp)
  {
  }

  /** The other way round: what parses as anything but U+FFFD is what would be printed for it. */
  lemma FillOfParse(bytes: seq<byte>)
    requires |bytes| > 0 && Parse(bytes).Point? && Parse(bytes).cp != UTF8_INVALID
    ensures var r := Parse(bytes);
            0 <= r.cp < 0x8000_0000 && r.n <= |bytes| && bytes[..r.n] == Fill(r.cp)
  {
    hide Tail, ParseTail;
    var r := Parse(bytes);
    var b0 := bytes[0];
    if b0 >= 0x80 {
      var n := if b0 < 0xe0 then 2 else if b0 < 0xf0 then 3 else if b0 < 0xf8 then 4 else if b0 < 0xfc then 5 else 6;
      var bits := b0 - LeadBase(n);
      ParseLead(bytes, n, bits);
      TailOfParse(bytes, 1, n, bits);
      ShiftIs(r.cp, n - 1);
      LeadIs(bits, n);
      assert SeqLen(r.cp) == n;
      assert bytes[..n] == [b0] + bytes[1..n];
    }
  }

  lemma {:induction false} BrokenTail(bytes: seq<byte>, b: nat, k: nat, n: nat, cp: nat)
    requires b <= k < n && k < |bytes| && forall i | b <= i < k :: 0x80 <= bytes[i] <= 0xbf
    requires !(0x80 <= bytes[k] <= 0xbf)
    ensures ParseTail(bytes, b, n, cp) == Point(UTF8_INVALID, k)
    decreases k - b
  {
    if b < k { BrokenTail(bytes, b + 1, k, n, cp * 64 + bytes[b] % 64); }
  }

  /** A sequence that breaks off is U+FFFD up to the byte that does not belong to it. */
  lemma Broken(bytes: seq<byte>, n: nat, k: nat)
    requires 2 <= n <= 6 && 1 <= k < n && k < |bytes|
    requires LeadBase(n) <= bytes[0] < LeadBase(n) + LeadLimit(n)
    requires (forall i | 1 <= i < k :: 0x80 <= bytes[i] <= 0xbf) && !(0x80 <= bytes[k] <= 0xbf)
    ensures Parse(bytes) == Point(UTF8_INVALID, k)
  {
    hide ParseTail;
    var bits := bytes[0] - LeadBase(n);
    ParseLead(bytes, n, bits);
    BrokenTail(bytes, 1, k, n, bits);
  }

  /** ... and so is a byte by itself that cannot begin one. */
  lemma NoLead(bytes: seq<byte>)
    requires |bytes| > 0 && (0x80 <= bytes[0] <= 0xbf || bytes[0] >= 0xfe)
    ensures Parse(bytes) == Point(UTF8_INVALID, 1)
  {
  }

  lemma {:induction false} ParseTailMore(bytes: seq<byte>, more: seq<byte>, b: nat, n: nat, cp: nat)
    requires b <= n && ParseTail(bytes, b, n, cp).Point?
    ensures ParseTail(bytes + more, b, n, cp) == ParseTail(bytes, b, n, cp)
    ensures b <= ParseTail(bytes, b, n, cp).n && (b <= |bytes| ==> ParseTail(bytes, b, n, cp).n <= |bytes|)
    decreases n - b
  {
    if b < n && !(bytes[b] < 0x80 || bytes[b] >= 0xc0) {
      ParseTailMore(bytes, more, b + 1, n, cp * 64 + bytes[b] % 64);
    }
  }

  /** More input never changes what has already been parsed. */
  lemma ParseMore(bytes: seq<byte>, more: seq<byte>)
    requires |bytes| > 0 && Parse(bytes).Point?
    ensures Parse(bytes + more) == Parse(bytes)
    ensures 1 <= Parse(bytes).n <= |bytes|
  {
    hide ParseTail;
    var b0 := bytes[0];
    if 0xc0 <= b0 < 0xfe {
      var n := if b0 < 0xe0 then 2 else if b0 < 0xf0 then 3 else if b0 < 0xf8 then 4 else if b0 < 0xfc then 5 else 6;
      ParseLead(bytes, n, b0 - LeadBase(n));
      ParseLead(bytes + more, n, b0 - LeadBase(n));
      ParseTailMore(bytes, more, 1, n, b0 - LeadBase(n));
    }
  }
}
