/** Fixed-width unsigned integers, little-endian byte order and the option type shared by the firmware model. */
module Words {

  const U16_RANGE := 0x1_0000
  const U32_RANGE := 0x1_0000_0000

  /** The device identifier that addresses everyone. */
  const BROADCAST_ID: u32 := 0xFFFF_FFFF

  type byte = x: int | 0 <= x < 0x100
  type u16 = x: int | 0 <= x < 0x1_0000
  type u32 = x: int | 0 <= x < 0x1_0000_0000

  datatype Option<+T> = None | Some(value: T)

  function Repeat<T>(x: T, n: nat): (s: seq<T>)
    ensures |s| == n && forall i | 0 <= i < n :: s[i] == x
  {
    if n == 0 then [] else Repeat(x, n - 1) + [x]
  }

  function PutU16(v: u16): (s: seq<byte>)
    ensures |s| == 2
  {
    [v % 0x100, v / 0x100]
  }

  function GetU16(s: seq<byte>): u16
    requires |s| == 2
  {
    s[0] + s[1] as int * 0x100
  }

  function PutU32(v: u32): (s: seq<byte>)
    ensures |s| == 4
  {
    [v % 0x100, v / 0x100 % 0x100, v / 0x1_0000 % 0x100, v / 0x100_0000]
  }

  function GetU32(s: seq<byte>): u32
    requires |s| == 4
  {
    s[0] + s[1] as int * 0x100 + s[2] as int * 0x1_0000 + s[3] as int * 0x100_0000
  }

  lemma U16RoundTrip(v: u16, s: seq<byte>)
    requires |s| == 2
    ensures GetU16(PutU16(v)) == v
    ensures PutU16(GetU16(s)) == s
  {
    var w := GetU16(s);
    assert w % 0x100 == s[0] && w / 0x100 == s[1];
  }

  lemma U32RoundTrip(v: u32, s: seq<byte>)
    requires |s| == 4
    ensures GetU32(PutU32(v)) == v
    ensures PutU32(GetU32(s)) == s
  {
    var w := GetU32(s);
    assert w / 0x100 == s[1] + s[2] as int * 0x100 + s[3] as int * 0x1_0000;
    assert w / 0x1_0000 == s[2] + s[3] as int * 0x100;
    assert w / 0x100_0000 == s[3];
    assert v / 0x1_0000 == v / 0x100 / 0x100 && v / 0x100_0000 == v / 0x1_0000 / 0x100;
  }

  /** The number that bytes denote, least significant first. */
  function Denotes(s: seq<byte>): (n: nat)
    ensures |s| == 0 ==> n == 0
    ensures |s| == 1 ==> n < 0x100
    ensures |s| == 2 ==> n < 0x1_0000
    ensures |s| == 3 ==> n < 0x100_0000
    ensures |s| == 4 ==> n < 0x1_0000_0000
  {
    if s == [] then 0 else s[0] + 0x100 * Denotes(s[1..])
  }

  /** Both word sizes are written and read least significant byte first. */
  lemma LittleEndian(v: u32, s: seq<byte>, w: u16, t: seq<byte>)
    requires |s| == 4 && |t| == 2
    ensures Denotes(PutU32(v)) == v && GetU32(s) == Denotes(s)
    ensures Denotes(PutU16(w)) == w && GetU16(t) == Denotes(t)
  {
    FourBytes(s);
    FourBytes(PutU32(v));
    TwoBytes(t);
    TwoBytes(PutU16(w));
    U32RoundTrip(v, s);
  }

  lemma TwoBytes(s: seq<byte>)
    requires |s| == 2
    ensures Denotes(s) == s[0] + s[1] as int * 0x100
  {
    assert s[1..] == [s[1]] && s[1..][1..] == [];
  }

  lemma FourBytes(s: seq<byte>)
    requires |s| == 4
    ensures Denotes(s) == s[0] + s[1] as int * 0x100 + s[2] as int * 0x1_0000 + s[3] as int * 0x100_0000
  {
    TwoBytes(s[2..]);
    assert s[1..][1..] == s[2..];
    assert Denotes(s[1..]) == s[1] + 0x100 * Denotes(s[2..]);
  }

  /** A zero-filled buffer. */
  method ZeroBuffer(n: nat) returns (a: array<byte>)
    ensures fresh(a) && a.Length == n && a[..] == Repeat(0, n)
  {
    a := new byte[n](_ => 0);
  }

  /** Store `src` at `at`, as memcpy into a buffer does. */
  method CopyInto(dst: array<byte>, at: nat, src: seq<byte>)
    requires at + |src| <= dst.Length
    modifies dst
    ensures dst[..at + |src|] == old(dst[..at]) + src
    ensures forall i | at + |src| <= i < dst.Length :: dst[i] == old(dst[i])
  {
    forall i | 0 <= i < |src| {
      dst[at + i] := src[i];
    }
  }
}
