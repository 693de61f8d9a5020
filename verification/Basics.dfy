/** What several of the modules need: bytes, optional values, C strings. */
module Basics {

  type byte = b: int | 0 <= b < 0x100

  datatype Option<+T> = None | Some(value: T)

  /** The string a C pointer denotes: everything before the first zero byte. */
  function CString(buf: seq<byte>): (s: seq<byte>)
    requires 0 in buf
    ensures s < buf && 0 !in s && buf[|s|] == 0
  {
    if buf[0] == 0 then [] else [buf[0]] + CString(buf[1..])
  }

  lemma {:induction false} CStringIs(s: seq<byte>, rest: seq<byte>)
    requires 0 !in s
    ensures CString(s + [0] + rest) == s
  {
    if |s| > 0 {
      CStringIs(s[1..], rest);
      assert (s + [0] + rest)[1..] == s[1..] + [0] + rest;
    }
  }

  lemma Associates<T>(a: seq<T>, b: seq<T>, c: seq<T>)
    ensures a + (b + c) == a + b + c
  {
  }
}
