/** Go's `hash/fnv` 32-bit FNV-1 hash over the UTF-8 bytes of a string
    (`fnv.New32`, `Write([]byte(s))`, `Sum32`). */
module Fnv {
  const OffsetBasis32: bv32 := 2166136261
  const Prime32: bv32 := 16777619

  /** The UTF-8 encoding of one character (Go's `[]byte(string)`). */
  function Utf8(c: char): (r: seq<bv8>)
    ensures 1 <= |r| <= 4
    ensures (|r| == 1) <==> (c as int < 0x80)
    ensures |r| == 1 ==> r[0] as int == c as int
  {
    var n := c as int;
    if n < 0x80 then [n as bv8]
    else
      var b := n as bv32;
      if n < 0x800 then [(0xC0 | (b >> 6)) as bv8, (0x80 | (b & 0x3F)) as bv8]
      else if n < 0x10000 then
        [(0xE0 | (b >> 12)) as bv8, (0x80 | ((b >> 6) & 0x3F)) as bv8, (0x80 | (b & 0x3F)) as bv8]
      else
        [(0xF0 | (b >> 18)) as bv8, (0x80 | ((b >> 12) & 0x3F)) as bv8,
         (0x80 | ((b >> 6) & 0x3F)) as bv8, (0x80 | (b & 0x3F)) as bv8]
  }

  function Bytes(s: string): (r: seq<bv8>)
    ensures |r| >= |s|
  {
    if |s| == 0 then [] else Utf8(s[0]) + Bytes(s[1..])
  }

  /** FNV-1: multiply by the prime, then xor in the next byte. */
  function Absorb(h: bv32, bytes: seq<bv8>): bv32
    decreases |bytes|
  {
    if |bytes| == 0 then h else Absorb((h * Prime32) ^ (bytes[0] as bv32), bytes[1..])
  }

  /** The hash as Go's `Sum32` returns it, as a number below 2^32. */
  function Hash32(s: string): (r: nat)
    ensures r < 0x1_0000_0000
  {
    Absorb(OffsetBasis32, Bytes(s)) as nat
  }

  /** Writing in two pieces hashes like writing the concatenation. */
  lemma {:induction false} AbsorbAppend(h: bv32, a: seq<bv8>, b: seq<bv8>)
    ensures Absorb(h, a + b) == Absorb(Absorb(h, a), b)
    decreases |a|
  {
    if |a| > 0 {
      assert (a + b)[0] == a[0] && (a + b)[1..] == a[1..] + b;
      AbsorbAppend((h * Prime32) ^ (a[0] as bv32), a[1..], b);
    } else {
      assert a + b == b;
    }
  }

  /** The empty string hashes to the offset basis; "a" to the published FNV-1
      test value. */
  lemma KnownValues()
    ensures Hash32("") == 0x811c9dc5
    ensures Hash32("a") == 0x050c5d7e
  {
    assert Bytes("a") == [0x61];
  }
}
