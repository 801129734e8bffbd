/** Fixed-width unsigned numbers, and their little-endian form in messages (src/endian.c). */
module Endian {
  type U8 = x: int | 0 <= x < 256
  type U16 = x: int | 0 <= x < 65536
  type U32 = x: int | 0 <= x < 0x1_0000_0000

  function Le16(v: U16): (s: seq<U8>)
    ensures |s| == 2
  {
    [v % 256, v / 256 % 256]
  }

  function Le32(v: U32): (s: seq<U8>)
    ensures |s| == 4
  {
    [v % 256, v / 256 % 256, v / 65536 % 256, v / 16777216 % 256]
  }

  function FromLe16(s: seq<U8>): U16
    requires |s| == 2
  {
    (s[1] as int) * 256 + s[0]
  }

  function FromLe32(s: seq<U8>): U32
    requires |s| == 4
  {
    (s[3] as int) * 16777216 + (s[2] as int) * 65536 + (s[1] as int) * 256 + s[0]
  }

  /** Decoding and encoding are inverse, both ways. */
  lemma RoundTrip16(v: U16, s: seq<U8>)
    ensures FromLe16(Le16(v)) == v
    ensures |s| == 2 ==> Le16(FromLe16(s)) == s
  {
  }

  lemma RoundTrip32(v: U32, s: seq<U8>)
    ensures FromLe32(Le32(v)) == v
    ensures |s| == 4 ==> Le32(FromLe32(s)) == s
  {
    if |s| == 4 {
      var w := FromLe32(s);
      var b: int, c: int, d: int := s[1], s[2], s[3];
      assert w / 256 == d * 65536 + c * 256 + b;
      assert w / 65536 == d * 256 + c;
      assert w / 16777216 == d;
    }
    assert v / 65536 == v / 256 / 256 && v / 16777216 == v / 256 / 256 / 256;
  }

  /** b is a with the bytes of s written from index `at`. */
  ghost predicate Wrote(a: seq<U8>, b: seq<U8>, at: nat, s: seq<U8>) {
    && |a| == |b| && at + |s| <= |a|
    && forall i :: 0 <= i < |b| ==> b[i] == if at <= i < at + |s| then s[i - at] else a[i]
  }

  method PutLe16(buf: array<U8>, at: nat, v: U16)
    requires at + 2 <= buf.Length
    modifies buf
    ensures Wrote(old(buf[..]), buf[..], at, Le16(v))
  {
    buf[at] := v % 256;
    buf[at + 1] := v / 256 % 256;
  }

  method PutLe32(buf: array<U8>, at: nat, v: U32)
    requires at + 4 <= buf.Length
    modifies buf
    ensures Wrote(old(buf[..]), buf[..], at, Le32(v))
  {
    buf[at] := v % 256;
    buf[at + 1] := v / 256 % 256;
    buf[at + 2] := v / 65536 % 256;
    buf[at + 3] := v / 16777216 % 256;
  }
}
