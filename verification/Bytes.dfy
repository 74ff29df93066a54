/** Bytes, 32-bit integers in network order, zero padding and C strings. */
module Bytes {
  import opened Options

  type byte = b: int | 0 <= b < 0x100

  type int32 = i: int | -0x8000_0000 <= i < 0x8000_0000

  const INT32_MAX: int := 0x7fff_ffff

  /** The low `n` bytes of `u`, most significant first. */
  function BigEndian(u: nat, n: nat): (s: seq<byte>)
    ensures |s| == n
  {
    if n == 0 then [] else BigEndian(u / 0x100, n - 1) + [u % 0x100]
  }

  /** Bytes read as an unsigned number, most significant first. */
  function Unsigned(s: seq<byte>): nat {
    if s == [] then 0 else Unsigned(s[..|s| - 1]) * 0x100 + s[|s| - 1]
  }

  /** The four bytes that htonl followed by a four byte memcpy leave in memory. */
  function HostToNet(i: int32): (s: seq<byte>)
    ensures |s| == 4
  {
    BigEndian(if i < 0 then i + 0x1_0000_0000 else i, 4)
  }

  /** Four bytes in network order, read as a two's complement number. */
  function GetInt32FromNetByte(s: seq<byte>): int32
    requires |s| == 4
  {
    UnsignedOfFour(s);
    if Unsigned(s) >= 0x8000_0000 then Unsigned(s) - 0x1_0000_0000 else Unsigned(s)
  }

  lemma UnsignedOfFour(s: seq<byte>)
    requires |s| == 4
    ensures Unsigned(s) == s[0] as int * 0x100_0000 + s[1] as int * 0x1_0000 + s[2] as int * 0x100 + s[3]
  {
    assert s[..3][..2] == s[..2] && s[..2][..1] == s[..1];
    assert Unsigned(s[..1]) == Unsigned(s[..1][..0]) * 0x100 + s[0];
    assert Unsigned(s[..2]) == Unsigned(s[..1]) * 0x100 + s[1];
    assert Unsigned(s[..3]) == Unsigned(s[..2]) * 0x100 + s[2];
  }

  /** Network order: the first byte counts most, and its high bit is the sign. */
  lemma FirstByteCountsMost(s: seq<byte>)
    requires |s| == 4
    ensures GetInt32FromNetByte(s) as int
            == s[0] as int * 0x100_0000 + s[1] as int * 0x1_0000 + s[2] as int * 0x100 + s[3]
               - (if s[0] >= 0x80 then 0x1_0000_0000 else 0)
  {
    UnsignedOfFour(s);
  }

  /** `u` is below 256 to the power `n`. */
  ghost predicate FitsIn(u: nat, n: nat) { if n == 0 then u == 0 else FitsIn(u / 0x100, n - 1) }

  lemma FitsInFour(u: nat)
    requires u < 0x1_0000_0000
    ensures FitsIn(u, 4)
  {
    assert FitsIn(u / 0x100 / 0x100 / 0x100 / 0x100, 0);
    assert FitsIn(u / 0x100 / 0x100 / 0x100, 1);
    assert FitsIn(u / 0x100 / 0x100, 2);
    assert FitsIn(u / 0x100, 3);
  }

  lemma {:induction false} UnsignedOfBigEndian(u: nat, n: nat)
    requires FitsIn(u, n)
    ensures Unsigned(BigEndian(u, n)) == u
  {
    if n > 0 {
      UnsignedOfBigEndian(u / 0x100, n - 1);
      assert BigEndian(u, n)[..n - 1] == BigEndian(u / 0x100, n - 1);
    }
  }

  lemma {:induction false} BigEndianOfUnsigned(s: seq<byte>)
    ensures BigEndian(Unsigned(s), |s|) == s
  {
    if s != [] {
      var init, last := s[..|s| - 1], s[|s| - 1];
      BigEndianOfUnsigned(init);
      assert Unsigned(s) / 0x100 == Unsigned(init) && Unsigned(s) % 0x100 == last;
    }
  }

  lemma NetRoundTrip(i: int32)
    ensures GetInt32FromNetByte(HostToNet(i)) == i
  {
    var u := if i < 0 then i + 0x1_0000_0000 else i;
    FitsInFour(u);
    UnsignedOfBigEndian(u, 4);
  }

  /** Every four bytes are the encoding of the number they decode to, so the encoding is a bijection. */
  lemma NetBytesRoundTrip(s: seq<byte>)
    requires |s| == 4
    ensures HostToNet(GetInt32FromNetByte(s)) == s
  {
    UnsignedOfFour(s);
    var i: int := GetInt32FromNetByte(s);
    assert (if i < 0 then i + 0x1_0000_0000 else i) == Unsigned(s);
    BigEndianOfUnsigned(s);
  }

  function Zeros(n: nat): (s: seq<byte>)
    ensures |s| == n
    ensures forall i :: 0 <= i < n ==> s[i] == 0
  {
    seq(n, _ => 0)
  }

  /** Index of the first NUL, or the length when there is none. */
  function FirstNul(s: seq<byte>): (k: nat)
    ensures k <= |s|
    ensures forall i :: 0 <= i < k ==> s[i] != 0
    ensures k < |s| ==> s[k] == 0
  {
    if s == [] || s[0] == 0 then 0 else 1 + FirstNul(s[1..])
  }

  /** What a C string keeps is a prefix, cut at a NUL if at all. */
  lemma CStringCuts(s: seq<byte>, room: nat)
    requires |s| <= room
    ensures var r := CString(s, room);
            r.Some? ==> r.value <= s && (|r.value| < |s| ==> s[|r.value|] == 0)
  {
  }

  /** The std::string read back from a zeroed local array of `room` bytes after `s` was copied to its
      front; None when no terminator is left inside the array. */
  function CString(s: seq<byte>, room: nat): (r: Option<seq<byte>>)
    requires |s| <= room
    ensures r == Some(s) <==> |s| < room && 0 !in s
    ensures r.Some? ==> 0 !in r.value && |r.value| < room
  {
    var k := FirstNul(s);
    assert k < |s| ==> |s[..k]| < |s|;
    if k < |s| then Some(s[..k]) else if |s| < room then Some(s) else None
  }
}
