/** Little-endian integers in byte sequences. */
module LittleEndian {
  import opened Bits
  import opened Slices

  function Le16(v: nat): (r: seq<Byte>)
    requires v < 0x1_0000
    ensures |r| == 2
  {
    [v % 256, v / 256]
  }

  function Le32(v: nat): (r: seq<Byte>)
    requires v < 0x1_0000_0000
    ensures |r| == 4
  {
    Le16(v % 0x1_0000) + Le16(v / 0x1_0000)
  }

  function Le64(v: nat): (r: seq<Byte>)
    requires v < 0x1_0000_0000_0000_0000
    ensures |r| == 8
  {
    Le32(v % 0x1_0000_0000) + Le32(v / 0x1_0000_0000)
  }

  function U16At(s: seq<Byte>, o: nat): (v: nat)
    requires o + 2 <= |s|
    ensures v < 0x1_0000
  {
    s[o] + 256 * s[o + 1] as int
  }

  function U32At(s: seq<Byte>, o: nat): (v: nat)
    requires o + 4 <= |s|
    ensures v < 0x1_0000_0000
  {
    U16At(s, o) + 0x1_0000 * U16At(s, o + 2)
  }

  function U64At(s: seq<Byte>, o: nat): (v: nat)
    requires o + 8 <= |s|
    ensures v < 0x1_0000_0000_0000_0000
  {
    U32At(s, o) + 0x1_0000_0000 * U32At(s, o + 4)
  }

  /** A 16-bit field of two's complement. */
  function I16At(s: seq<Byte>, o: nat): (v: int)
    requires o + 2 <= |s|
    ensures -0x8000 <= v < 0x8000
  {
    Signed16(U16At(s, o))
  }

  function Signed16(v: nat): (r: int)
    requires v < 0x1_0000
    ensures -0x8000 <= r < 0x8000
  {
    if v < 0x8000 then v else v - 0x1_0000
  }

  function Unsigned16(v: int): (r: nat)
    requires -0x8000 <= v < 0x8000
    ensures r < 0x1_0000
  {
    if v >= 0 then v else v + 0x1_0000
  }

  lemma Read16(s: seq<Byte>, o: nat, v: nat)
    requires v < 0x1_0000 && o + 2 <= |s|
    ensures U16At(s, o) == v <==> s[o..o + 2] == Le16(v)
  {
    assert s[o..o + 2] == [s[o], s[o + 1]];
  }

  lemma Halves32(v: nat, low: nat, high: nat)
    requires low < 0x1_0000
    ensures low + 0x1_0000 * high == v <==> low == v % 0x1_0000 && high == v / 0x1_0000
  {
  }

  lemma Halves64(v: nat, low: nat, high: nat)
    requires low < 0x1_0000_0000
    ensures low + 0x1_0000_0000 * high == v <==> low == v % 0x1_0000_0000 && high == v / 0x1_0000_0000
  {
  }

  lemma Read32(s: seq<Byte>, o: nat, v: nat)
    requires v < 0x1_0000_0000 && o + 4 <= |s|
    ensures U32At(s, o) == v <==> s[o..o + 4] == Le32(v)
  {
    var low, high := v % 0x1_0000, v / 0x1_0000;
    Halves32(v, U16At(s, o), U16At(s, o + 2));
    Read16(s, o, low);
    Read16(s, o + 2, high);
    SliceOfTwo(s, o, Le16(low), Le16(high));
  }

  lemma Read64(s: seq<Byte>, o: nat, v: nat)
    requires v < 0x1_0000_0000_0000_0000 && o + 8 <= |s|
    ensures U64At(s, o) == v <==> s[o..o + 8] == Le64(v)
  {
    var low, high := v % 0x1_0000_0000, v / 0x1_0000_0000;
    Halves64(v, U32At(s, o), U32At(s, o + 4));
    Read32(s, o, low);
    Read32(s, o + 4, high);
    SliceOfTwo(s, o, Le32(low), Le32(high));
  }
}
