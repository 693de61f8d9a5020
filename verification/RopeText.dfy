/** UTF-8 text as the rope sees it: a byte string cut into code points by the lead byte alone,
    with the lengths of section 2 of RFC 2279 (up to six bytes). */
module RopeText {
  import opened Basics

  /** What codepoint_size returns for a byte that cannot start a code point. */
  const SIZE_MAX: nat := 0xFFFF_FFFF_FFFF_FFFF

  function CodepointSize(b: byte): (n: nat)
    ensures n == SIZE_MAX || 1 <= n <= 6
  {
    if b == 0 then SIZE_MAX
    else if b <= 0x7f then 1
    else if b <= 0xbf then SIZE_MAX
    else if b <= 0xdf then 2
    else if b <= 0xef then 3
    else if b <= 0xf7 then 4
    else if b <= 0xfb then 5
    else if b <= 0xfd then 6
    else SIZE_MAX
  }

  /** (b & 0xc0) == 0x80 */
  predicate IsContinuation(b: byte) {
    b / 64 == 2
  }

  predicate IsCodepoint(c: seq<byte>) {
    && 1 <= |c| <= 6
    && CodepointSize(c[0]) == |c|
    && forall i | 1 <= i < |c| :: IsContinuation(c[i])
  }

  type Codepoint = c: seq<byte> | IsCodepoint(c) witness [1]

  /** The bytes of a text, in order. */
  function Bytes(text: seq<Codepoint>): seq<byte> {
    if |text| == 0 then [] else text[0] + Bytes(text[1..])
  }

  /** The code points of a byte string, or None when some byte is out of place. */
  function Decode(s: seq<byte>): Option<seq<Codepoint>> {
    if |s| == 0 then Some([])
    else
      var n := CodepointSize(s[0]);
      if n == SIZE_MAX || |s| < n || exists i | 1 <= i < n :: !IsContinuation(s[i]) then None
      else
        assert IsCodepoint(s[..n]);
        match Decode(s[n..])
        case None => None
        case Some(rest) => Some([s[..n]] + rest)
  }

  lemma {:induction false} BytesAppend(a: seq<Codepoint>, b: seq<Codepoint>)
    ensures Bytes(a + b) == Bytes(a) + Bytes(b)
  {
    if |a| == 0 {
      assert a + b == b;
    } else {
      BytesAppend(a[1..], b);
      assert (a + b)[0] == a[0] && (a + b)[1..] == a[1..] + b;
      Associates(a[0], Bytes(a[1..]), Bytes(b));
    }
  }

  /** Decoding undoes encoding: the byte string determines the code points. */
  lemma {:induction false} DecodeOfBytes(text: seq<Codepoint>)
    ensures Decode(Bytes(text)) == Some(text)
  {
    if |text| > 0 {
      var c := text[0];
      DecodeOfBytes(text[1..]);
      var s := Bytes(text);
      assert s[..|c|] == c && s[|c|..] == Bytes(text[1..]);
      assert forall i | 1 <= i < |c| :: s[i] == c[i] && IsContinuation(c[i]);
      assert [c] + text[1..] == text;
    }
  }

  /** ... and encoding undoes decoding, whenever decoding succeeds. */
  lemma {:induction false} BytesOfDecode(s: seq<byte>)
    ensures Decode(s).Some? ==> Bytes(Decode(s).value) == s
  {
    if |s| > 0 && Decode(s).Some? {
      var n := CodepointSize(s[0]);
      BytesOfDecode(s[n..]);
      assert s == s[..n] + s[n..];
    }
  }

  /** A text is never shorter in bytes than in characters. */
  lemma {:induction false} BytesAtLeastChars(text: seq<Codepoint>)
    ensures |Bytes(text)| >= |text|
    ensures |text| > 0 ==> |Bytes(text)| > 0
  {
    if |text| > 0 {
      BytesAtLeastChars(text[1..]);
    }
  }

  lemma BytesInsert(a: seq<Codepoint>, t: seq<Codepoint>, b: seq<Codepoint>)
    ensures Bytes(a + t + b) == Bytes(a) + Bytes(t) + Bytes(b)
    ensures |Bytes(a + t + b)| == |Bytes(a + b)| + |Bytes(t)|
  {
    BytesAppend(a + t, b);
    BytesAppend(a, t);
    BytesAppend(a, b);
  }

  /** A text cut at character o, in bytes. */
  lemma BytesSplit(t: seq<Codepoint>, o: nat)
    requires o <= |t|
    ensures Bytes(t) == Bytes(t[..o]) + Bytes(t[o..])
    ensures |Bytes(t[..o])| == |Bytes(t)| <==> o == |t|
  {
    BytesAppend(t[..o], t[o..]);
    assert t[..o] + t[o..] == t;
    BytesAtLeastChars(t[o..]);
  }

  /** A text with n characters cut out at character o, in bytes. */
  lemma BytesCut(t: seq<Codepoint>, o: nat, n: nat)
    requires o + n <= |t|
    ensures t[o..][..n] == t[o..o + n]
    ensures var lead, cut := |Bytes(t[..o])|, |Bytes(t[o..o + n])|;
            && lead + cut <= |Bytes(t)| && Bytes(t)[lead..] == Bytes(t[o..])
            && Bytes(t[..o] + t[o + n..]) == Bytes(t)[..lead] + Bytes(t)[lead + cut..]
  {
    BytesSplit(t, o);
    BytesSplit(t[o..], n);
    assert t[o..][..n] == t[o..o + n] && t[o..][n..] == t[o + n..];
    BytesAppend(t[..o], t[o + n..]);
  }

  lemma BytesStep(text: seq<Codepoint>, k: nat)
    requires k < |text|
    ensures Bytes(text[..k + 1]) == Bytes(text[..k]) + text[k]
    ensures Bytes(text) == Bytes(text[..k]) + text[k] + Bytes(text[k + 1..])
  {
    hide Bytes;
    BytesOneMore(text, k);
    JoinedAt(text, k + 1);
    BytesAppend(text[..k + 1], text[k + 1..]);
  }

  lemma BytesOneMore(text: seq<Codepoint>, k: nat)
    requires k < |text|
    ensures Bytes(text[..k + 1]) == Bytes(text[..k]) + text[k]
  {
    hide Bytes;
    var one: seq<Codepoint> := [text[k]];
    assert text[..k + 1] == text[..k] + one;
    BytesAppend(text[..k], one);
    BytesOne(text[k]);
  }

  lemma JoinedAt(text: seq<Codepoint>, k: nat)
    requires k <= |text|
    ensures text[..k] + text[k..] == text
  {
  }

  lemma BytesOne(c: Codepoint)
    ensures Bytes([c]) == c
  {
    assert Bytes([c]) == c + Bytes([c][1..]);
  }

  /** count_bytes_in_utf8, run on a buffer holding `text` from index `from`. */
  method CountBytes(buf: array<byte>, from: nat, numChars: nat, ghost text: seq<Codepoint>)
    returns (n: nat)
    requires from + |Bytes(text)| <= buf.Length
    requires buf[from..from + |Bytes(text)|] == Bytes(text)
    requires numChars <= |text|
    ensures n == |Bytes(text[..numChars])|
    ensures n <= |Bytes(text)|
  {
    n := 0;
    for i := 0 to numChars
      invariant n == |Bytes(text[..i])|
    {
      BytesStep(text, i);
      assert Bytes(text)[n] == text[i][0];
      assert buf[from + n] == buf[from..from + |Bytes(text)|][n];
      n := n + CodepointSize(buf[from + n]);
    }
    BytesAppend(text[..numChars], text[numChars..]);
    assert text[..numChars] + text[numChars..] == text;
  }

  lemma {:induction false} NoZeroByte(text: seq<Codepoint>)
    ensures 0 !in Bytes(text)
  {
    if |text| > 0 {
      NoZeroByte(text[1..]);
      var c := text[0];
      assert forall i | 0 <= i < |c| :: c[i] != 0;
    }
  }

  /** A text written out as a C string reads back as itself. */
  lemma ReadBack(text: seq<Codepoint>, rest: seq<byte>)
    ensures CString(Bytes(text) + [0] + rest) == Bytes(text)
    ensures Decode(CString(Bytes(text) + [0] + rest)) == Some(text)
  {
    NoZeroByte(text);
    CStringIs(Bytes(text), rest);
    DecodeOfBytes(text);
  }

  lemma BadByte(s: seq<byte>, i: nat)
    requires |s| > 0 && i < CodepointSize(s[0])
    requires if i == 0 then CodepointSize(s[0]) == SIZE_MAX else i >= |s| || !IsContinuation(s[i])
    ensures Decode(s).None?
  {
  }

  lemma GoodCodepoint(s: seq<byte>, n: nat)
    requires |s| > 0 && CodepointSize(s[0]) == n != SIZE_MAX && n <= |s|
    requires forall i | 1 <= i < n :: IsContinuation(s[i])
    ensures Decode(s).Some? <==> Decode(s[n..]).Some?
  {
  }

  /** bytelen_and_check_utf8: the length of the C string when it decodes, -1 when it does not. */
  method BytelenAndCheck(str: seq<byte>) returns (len: int)
    requires 0 in str
    ensures Decode(CString(str)).Some? ==> len == |CString(str)|
    ensures Decode(CString(str)).None? ==> len == -1
  {
    hide Decode, CString, CodepointSize, IsContinuation;
    ghost var s := CString(str);
    var p := 0;
    assert s[0..] == s;
    while str[p] != 0
      invariant 0 <= p <= |s|
      invariant Decode(s).Some? <==> Decode(s[p..]).Some?
      decreases |s| - p
    {
      ghost var start, rest := p, s[p..];
      assert forall i | p <= i < |s| :: rest[i - p] == s[i] == str[i];
      var size := CodepointSize(str[p]);
      if size == SIZE_MAX {
        BadByte(rest, 0);
        return -1;
      }
      ghost var n := size;
      p := p + 1;
      size := size - 1;
      while size > 0
        invariant start < p <= |s|
        invariant p + size == start + n
        invariant forall i | 1 <= i < p - start :: IsContinuation(rest[i])
      {
        if !IsContinuation(str[p]) {
          BadByte(rest, p - start);
          return -1;
        }
        NoEnd(str, s, p);
        p := p + 1;
        size := size - 1;
      }
      GoodCodepoint(rest, n);
      assert rest[n..] == s[p..];
    }
    NothingLeft(s, p);
    return p;
  }

  /** A continuation byte is not the end of the string. */
  lemma NoEnd(str: seq<byte>, s: seq<byte>, p: nat)
    requires s < str && str[|s|] == 0 && p <= |s| && IsContinuation(str[p])
    ensures p < |s|
  {
  }

  lemma NothingLeft(s: seq<byte>, p: nat)
    requires p == |s|
    ensures Decode(s[p..]).Some?
  {
  }

  /** strlen_utf8: the number of code points of a C string that decodes. */
  method StrlenUtf8(str: seq<byte>) returns (n: nat)
    requires 0 in str
    requires Decode(CString(str)).Some?
    ensures n == |Decode(CString(str)).value|
  {
    ghost var s := CString(str);
    ghost var text := Decode(s).value;
    BytesOfDecode(s);
    var p := 0;
    n := 0;
    while str[p] != 0
      invariant 0 <= p <= |s| && n <= |text|
      invariant p == |Bytes(text[..n])|
      invariant n == |text| ==> p == |s|
      decreases |s| - p
    {
      BytesStep(text, n);
      assert Bytes(text)[p] == text[n][0];
      p := p + CodepointSize(str[p]);
      n := n + 1;
      if n == |text| { assert text[..n] == text; }
    }
    if n < |text| {
      BytesStep(text, n);
      assert false;
    }
  }

  lemma BytesNone(text: seq<Codepoint>)
    ensures |Bytes(text[..0])| == 0
  {
  }

  lemma SizeOfFirst(c: Codepoint)
    ensures CodepointSize(c[0]) == |c| <= 6
  {
  }

  /** How many whole code points of what is left of the string fit in one node. */
  method NextChunk(str: seq<byte>, from: nat, end: nat, limit: nat, ghost rest: seq<Codepoint>)
    returns (numBytes: nat, numChars: nat)
    requires from < end <= |str| && str[from..end] == Bytes(rest)
    requires limit >= 6
    ensures 1 <= numChars <= |rest| && 1 <= numBytes <= limit && from + numBytes <= end
    ensures str[from..from + numBytes] == Bytes(rest[..numChars])
    ensures str[from + numBytes..end] == Bytes(rest[numChars..])
    ensures numChars < |rest| ==> numBytes + |rest[numChars]| > limit
  {
    hide Bytes, CodepointSize;
    numBytes, numChars := 0, 0;
    BytesNone(rest);
    while from + numBytes < end
      invariant numChars <= |rest|
      invariant numBytes == |Bytes(rest[..numChars])| <= limit
      invariant from + numBytes <= end
      invariant numChars == 0 ==> numBytes == 0
      decreases end - from - numBytes
    {
      assert numChars < |rest| by { assert rest[..|rest|] == rest; }
      BytesStep(rest, numChars);
      assert str[from..end][numBytes] == rest[numChars][0];
      var cs := CodepointSize(str[from + numBytes]);
      SizeOfFirst(rest[numChars]);
      if cs + numBytes > limit { break; }
      numBytes := numBytes + cs;
      numChars := numChars + 1;
    }
    BytesSplit(rest, numChars);
    BytesAtLeastChars(rest[..numChars]);
    assert str[from..from + numBytes] == str[from..end][..numBytes];
    assert str[from + numBytes..end] == str[from..end][numBytes..];
  }
}
