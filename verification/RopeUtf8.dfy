/** Which byte strings the rope takes for text: those that UTF-8 prints (section 2 of RFC 2279), and what one of
    them adds to it. */
module RopeUtf8 {
  import opened Basics
  import opened RopeText
  import Ropes
  import Utf8 = TermKeyUtf8

  /** A code point that UTF-8 can print; zero ends a C string. */
  type Point = cp: nat | 0 < cp < 0x8000_0000 witness 1

  /** A lead byte of the range for that length, and continuation bytes behind it. */
  predicate Sequence(c: seq<byte>) {
    && 1 <= |c| <= 6 && c[0] != 0
    && Utf8.LeadBase(|c|) <= c[0] < Utf8.LeadBase(|c|) + Utf8.LeadLimit(|c|)
    && forall i | 1 <= i < |c| :: 0x80 <= c[i] <= 0xbf
  }

  /** The length of a code point is told by the range its lead byte is in. */
  lemma CodepointIsSequence(c: seq<byte>)
    ensures IsCodepoint(c) <==> Sequence(c)
  {
  }

  lemma {:induction false} TailContinues(cp: nat, k: nat)
    ensures forall i | 0 <= i < k :: 0x80 <= Utf8.Tail(cp, k)[i] <= 0xbf
    decreases k
  {
    if k > 0 { TailContinues(cp / 64, k - 1); }
  }

  /** What is printed for a code point is one character of the rope's. */
  lemma FillIsCodepoint(cp: Point)
    ensures IsCodepoint(Utf8.Fill(cp))
  {
    hide Utf8.Tail, Utf8.Shift, Utf8.Lead, IsCodepoint;
    var n := Utf8.SeqLen(cp);
    var bits := Utf8.Shift(cp, n - 1);
    Utf8.LeadFits(cp);
    Utf8.LeadIs(bits, n);
    if n == 1 { Utf8.FromTheEnd(cp); }
    TailContinues(cp, n - 1);
    CodepointIsSequence(Utf8.Fill(cp));
  }

  lemma FillDecodes(cp: Point)
    ensures IsCodepoint(Utf8.Fill(cp)) && Decode(Utf8.Fill(cp)) == Some([Utf8.Fill(cp)])
  {
    hide Decode, Utf8.Fill;
    FillIsCodepoint(cp);
    var c: Codepoint := Utf8.Fill(cp);
    BytesOne(c);
    DecodeOfBytes([c]);
  }

  function Printed(points: seq<Point>): seq<byte> {
    if |points| == 0 then [] else Utf8.Fill(points[0]) + Printed(points[1..])
  }

  function Text(points: seq<Point>): (text: seq<Codepoint>)
    ensures |text| == |points|
  {
    if |points| == 0 then []
    else
      FillIsCodepoint(points[0]);
      [Utf8.Fill(points[0])] + Text(points[1..])
  }

  lemma {:induction false} PrintedIsText(points: seq<Point>)
    ensures Printed(points) == Bytes(Text(points))
  {
    hide Utf8.Fill;
    if |points| > 0 {
      PrintedIsText(points[1..]);
      assert Text(points)[1..] == Text(points[1..]);
    }
  }

  lemma {:induction false} TextAt(points: seq<Point>)
    ensures forall k | 0 <= k < |points| :: Text(points)[k] == Utf8.Fill(points[k])
  {
    if |points| > 0 { TextAt(points[1..]); }
  }

  lemma PrintedDecodes(points: seq<Point>, rest: seq<byte>)
    ensures Decode(CString(Printed(points) + [0] + rest)) == Some(Text(points))
  {
    hide Decode, CString, Bytes, Printed, Text;
    PrintedIsText(points);
    ReadBack(Text(points), rest);
  }

  /** Any list of code points, printed one after another, is accepted, goes in where it should, and adds one
      character for each of them: the one that is printed for it. */
  lemma InsertsPrinted(text: seq<Codepoint>, pos: nat, points: seq<Point>, rest: seq<byte>)
    ensures Decode(CString(Printed(points) + [0] + rest)) == Some(Text(points))
    ensures Ropes.InsertText(text, pos, Printed(points) + [0] + rest) ==
            if pos < |text| then text[..pos] + Text(points) + text[pos..] else text + Text(points)
    ensures forall k | 0 <= k < |points| :: Text(points)[k] == Utf8.Fill(points[k])
  {
    hide Decode, CString, Printed, Text, CodepointSize, IsCodepoint;
    PrintedDecodes(points, rest);
    TextAt(points);
    if pos >= |text| { AtTheEnd(text, Text(points)); }
  }

  lemma AtTheEnd(text: seq<Codepoint>, more: seq<Codepoint>)
    ensures text[..|text|] + more + text[|text|..] == text + more
  {
  }

  // ---- the other way round ----

  lemma {:induction false} TailParses(c: seq<byte>, b: nat, n: nat, cp: nat)
    requires 1 <= b <= n == |c| && forall i | 1 <= i < n :: 0x80 <= c[i] <= 0xbf
    ensures Utf8.ParseTail(c, b, n, cp).Point? && Utf8.ParseTail(c, b, n, cp).n == n
    decreases n - b
  {
    if b < n { TailParses(c, b + 1, n, cp * 64 + c[b] % 64); }
  }

  /** The rope cuts text where the terminal reader does: a character of the rope's parses, with the same length,
      as the code point that is printed so; but for those that the terminal reader reads as U+FFFD. */
  lemma CutAlike(c: Codepoint, rest: seq<byte>)
    ensures var r := Utf8.Parse(c + rest);
            && r.Point? && r.n == |c|
            && (r.cp != Utf8.UTF8_INVALID ==> c == Utf8.Fill(r.cp))
  {
    hide Utf8.ParseTail, Utf8.Fill, IsCodepoint;
    CodepointIsSequence(c);
    var n := |c|;
    if n > 1 {
      var bits := c[0] - Utf8.LeadBase(n);
      Utf8.ParseLead(c, n, bits);
      TailParses(c, 1, n, bits);
    }
    Utf8.ParseMore(c, rest);
    if Utf8.Parse(c).cp != Utf8.UTF8_INVALID {
      Utf8.FillOfParse(c);
      assert c[..n] == c;
    }
  }
}
