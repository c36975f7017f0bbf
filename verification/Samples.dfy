/** One 32-bit sample in the packets of the USB device, as memcpy and the byte swaps of a little-endian
    host treat it: big-endian, in 3 or 4 bytes, and shifted on the devices of type 3. */
module Samples {
  import opened Words

  /** The bytes of a variable, lowest address first. */
  function Memory(v: int32): (m: seq<byte>)
    ensures |m| == 4
  {
    var u := U32(v);
    [u % 256, u / 0x100 % 256, u / 0x1_0000 % 256, u / 0x100_0000]
  }

  function Loaded(m: seq<byte>): int32
    requires |m| == 4
  {
    I32(FromDigits(m[0], m[1], m[2], m[3]))
  }

  /** Four digits of base 256, the lowest first. */
  function FromDigits(a: int, b: int, c: int, d: int): int {
    a + b * 0x100 + c * 0x1_0000 + d * 0x100_0000
  }

  /** htobe32 and be32toh. */
  function Swap(v: int32): int32 {
    var m := Memory(v);
    Loaded([m[3], m[2], m[1], m[0]])
  }

  /** The arithmetic shift to the right by eight bits. */
  function Shifted(v: int32): int32 {
    v / 256
  }

  predicate TrackSize(size: nat) {
    size == 3 || size == 4
  }

  /** What the engine stores for one sample of a track. */
  function Encode(type3: bool, size: nat, v: int32): (bs: seq<byte>)
    requires TrackSize(size)
    ensures |bs| == size
  {
    Memory(Swap(if type3 && size == 4 then Shifted(v) else v))[..size]
  }

  /** What the engine gets from these bytes; `stale` is what the variable held before the copy. */
  function Decode(type3: bool, bs: seq<byte>, stale: int32): int32
    requires TrackSize(|bs|)
  {
    var v := Loaded(bs + Memory(stale)[|bs|..]);
    Swap(if type3 && |bs| == 4 then Shifted(v) else v)
  }

  lemma Digits(a: byte, b: byte, c: byte, d: byte)
    ensures var n := FromDigits(a, b, c, d);
            && 0 <= n < TWO32 && n % 256 == a && n / 0x100 % 256 == b && n / 0x1_0000 % 256 == c && n / 0x100_0000 == d
            && n / 256 == FromDigits(b, c, d, 0)
  {
    var n := FromDigits(a, b, c, d);
    assert n / 0x100 == b + c * 0x100 + d * 0x1_0000;
    assert n / 0x1_0000 == c + d * 0x100;
  }

  lemma UnsignedOfSigned(n: uint32)
    ensures U32(I32(n)) == n
  {
  }

  lemma MemoryLoaded(m: seq<byte>)
    requires |m| == 4
    ensures Memory(Loaded(m)) == m
  {
    Digits(m[0], m[1], m[2], m[3]);
    var n := FromDigits(m[0], m[1], m[2], m[3]);
    UnsignedOfSigned(n);
    MemoryOf(I32(n), m[0], m[1], m[2], m[3]);
    hide Memory, FromDigits;
  }

  /** A variable is the number that its bytes spell. */
  lemma MemorySpells(v: int32)
    ensures var m := Memory(v); U32(v) == FromDigits(m[0], m[1], m[2], m[3])
  {
    Spelled(U32(v));
  }

  lemma Spelled(u: uint32)
    ensures u == FromDigits(u % 256, u / 0x100 % 256, u / 0x1_0000 % 256, u / 0x100_0000)
  {
    var x := u / 0x100;
    var y := u / 0x1_0000;
    assert y == x / 256;
    assert u / 0x100_0000 == y / 256;
    assert u == u % 256 + 256 * x;
    assert x == x % 256 + 256 * y;
    assert y == y % 256 + 256 * (y / 256);
  }

  lemma SwapReverses(v: int32)
    ensures var m := Memory(v); Memory(Swap(v)) == [m[3], m[2], m[1], m[0]]
  {
    var m := Memory(v);
    MemoryLoaded([m[3], m[2], m[1], m[0]]);
  }

  lemma ShiftedNumber(v: int32, u: int, low: byte, top: int)
    requires u == U32(v) == low + 256 * top
    ensures U32(Shifted(v)) == top + if v < 0 then 0xff00_0000 else 0
    ensures v < 0 <==> top >= 0x80_0000
  {
    assert u == if v < 0 then v + TWO32 else v;
    assert v / 256 == top - if v < 0 then 0x100_0000 else 0;
  }

  /** Shifting drops the lowest byte and repeats the sign. */
  lemma ShiftedMemory(v: int32)
    ensures var m := Memory(v); Memory(Shifted(v)) == [m[1], m[2], m[3], if v < 0 then 255 else 0]
    ensures v < 0 <==> Memory(v)[3] >= 128
  {
    var m := Memory(v);
    MemorySpells(v);
    hide Memory, U32, Shifted;
    var sign: byte := if v < 0 then 255 else 0;
    ShiftedNumber(v, U32(v), m[0], FromDigits(m[1], m[2], m[3], 0));
    MemoryOf(Shifted(v), m[1], m[2], m[3], sign);
  }

  lemma MemoryOf(v: int32, a: byte, b: byte, c: byte, d: byte)
    requires U32(v) == FromDigits(a, b, c, d)
    ensures Memory(v) == [a, b, c, d]
  {
    Digits(a, b, c, d);
  }

  /** "All values are big-endian": the packets carry the most significant byte first, on the devices of
      type 3 after one byte of sign. */
  lemma PacketsAreBigEndian(type3: bool, size: nat, v: int32)
    requires TrackSize(size)
    ensures var bs, low := Encode(type3, size, v), U32(v) % 256;
            if type3 && size == 4 then
              U32(v) == FromDigits(low, bs[3], bs[2], bs[1]) && bs[0] == if v < 0 then 255 else 0
            else
              U32(v) == FromDigits(if size == 4 then bs[3] else low, bs[2], bs[1], bs[0])
  {
    MemorySpells(v);
    SwapReverses(v);
    assert Memory(v)[0] == U32(v) % 256;
    if type3 && size == 4 {
      ShiftedMemory(v);
      SwapReverses(Shifted(v));
    }
    hide Swap, Memory, Shifted, FromDigits;
  }

  /** The sample that comes back has the bytes of the one that went in, except for the lowest one. */
  lemma DecodedMemory(type3: bool, size: nat, v: int32, stale: int32)
    requires TrackSize(size)
    ensures var r, m := Decode(type3, Encode(type3, size, v), stale), Memory(v);
            Memory(r) == [if size == 3 then Memory(stale)[3]
                          else if !type3 then m[0] else if m[1] >= 128 then 255 else 0, m[1], m[2], m[3]]
  {
    var m := Memory(v);
    var x := if type3 && size == 4 then Shifted(v) else v;
    var bs := Encode(type3, size, v);
    var seen := bs + Memory(stale)[size..];
    var y := Loaded(seen);
    var z := if type3 && size == 4 then Shifted(y) else y;
    assert Decode(type3, bs, stale) == Swap(z);
    SwapReverses(x);
    SwapReverses(z);
    MemoryLoaded(seen);
    ShiftedMemory(v);
    ShiftedMemory(y);
    hide Swap, Memory, Shifted, Loaded;
  }

  /** In the top 24 bits the sample is the one that went in; all of it is where the four bytes of a
      track are stored unshifted. */
  predicate Kept(type3: bool, size: nat, v: int32, r: int32) {
    && v / 256 == r / 256
    && -256 < r - v < 256
    && (size == 4 && !type3 ==> r == v)
  }

  lemma SampleRoundTrip(type3: bool, size: nat, v: int32, stale: int32)
    requires TrackSize(size)
    ensures Kept(type3, size, v, Decode(type3, Encode(type3, size, v), stale))
  {
    DecodedMemory(type3, size, v, stale);
    SameTop(v, Decode(type3, Encode(type3, size, v), stale));
  }

  lemma SameTop(v: int32, r: int32)
    requires Memory(v)[1..] == Memory(r)[1..]
    ensures v / 256 == r / 256 && -256 < r - v < 256
    ensures v == r <==> Memory(v)[0] == Memory(r)[0]
  {
    var m, k := Memory(v), Memory(r);
    assert m[1] == m[1..][0] && m[2] == m[1..][1] && m[3] == m[1..][2];
    assert k[1] == k[1..][0] && k[2] == k[1..][1] && k[3] == k[1..][2];
    MemorySpells(v);
    MemorySpells(r);
    Tops(v, r, m, k);
  }

  lemma Tops(v: int32, r: int32, m: seq<byte>, k: seq<byte>)
    requires |m| == 4 && |k| == 4 && m[1] == k[1] && m[2] == k[2] && m[3] == k[3]
    requires U32(v) == FromDigits(m[0], m[1], m[2], m[3]) && U32(r) == FromDigits(k[0], k[1], k[2], k[3])
    ensures v / 256 == r / 256 && -256 < r - v < 256
    ensures v == r <==> m[0] == k[0]
  {
    var top := FromDigits(m[1], m[2], m[3], 0);
    TopOf(v, m[0], top);
    TopOf(r, k[0], top);
  }

  lemma TopOf(v: int32, low: byte, top: int)
    requires U32(v) == low + 256 * top
    ensures var t := if top < 0x80_0000 then top else top - 0x100_0000; v == low + 256 * t && v / 256 == t
  {
    assert U32(v) == if v < 0 then v + TWO32 else v;
  }

  /** Exactly when the whole sample comes back on the other tracks: three bytes leave what the variable
      held, and the shift repeats the top bit of the byte above. */
  lemma LowByteSurvives(type3: bool, size: nat, v: int32, stale: int32)
    requires TrackSize(size)
    ensures Decode(type3, Encode(type3, size, v), stale) == v
            <==> Memory(v)[0] == if size == 3 then Memory(stale)[3]
                                 else if !type3 then Memory(v)[0] else if Memory(v)[1] >= 128 then 255 else 0
  {
    DecodedMemory(type3, size, v, stale);
    SameTop(v, Decode(type3, Encode(type3, size, v), stale));
  }
}
