/** Big-endian fields in byte sequences. */
module WireBytes {
  import opened Common

  function U16(s: seq<byte>, off: nat): (v: uint16)
    requires off + 2 <= |s|
  {
    s[off] as int * 256 + s[off + 1] as int
  }

  function U32(s: seq<byte>, off: nat): (v: uint32)
    requires off + 4 <= |s|
  {
    ((s[off] as int * 256 + s[off + 1] as int) * 256 + s[off + 2] as int) * 256 + s[off + 3] as int
  }

  function Be16(v: uint16): (r: seq<byte>)
    ensures |r| == 2
  {
    [v / 256, v % 256]
  }

  function Be32(v: uint32): (r: seq<byte>)
    ensures |r| == 4
  {
    [v / 0x100_0000, v / 0x1_0000 % 256, v / 256 % 256, v % 256]
  }

  /** Overwriting a window with bytes of the same length. */
  function Put(s: seq<byte>, off: nat, bytes: seq<byte>): (r: seq<byte>)
    requires off + |bytes| <= |s|
    ensures |r| == |s|
    ensures forall i | 0 <= i < |s| :: r[i] == if off <= i < off + |bytes| then bytes[i - off] else s[i]
  {
    s[..off] + bytes + s[off + |bytes|..]
  }

  lemma {:induction false} ReadBack32(s: seq<byte>, off: nat, v: uint32)
    requires off + 4 <= |s|
    ensures U32(Put(s, off, Be32(v)), off) == v
  {
    var r := Put(s, off, Be32(v));
    assert r[off] == v / 0x100_0000 && r[off + 1] == v / 0x1_0000 % 256 && r[off + 2] == v / 256 % 256 && r[off + 3] == v % 256;
    Digits(v);
  }

  lemma {:induction false} Digits(v: uint32)
    ensures ((v / 0x100_0000 * 256 + v / 0x1_0000 % 256) * 256 + v / 256 % 256) * 256 + v % 256 == v
  {
    var a := v / 256;
    var b := a / 256;
    assert b == v / 0x1_0000 && b / 256 == v / 0x100_0000;
  }

  /** A write elsewhere leaves a four-byte field alone. */
  lemma {:induction false} Elsewhere32(s: seq<byte>, off: nat, bytes: seq<byte>, at: nat)
    requires off + |bytes| <= |s| && at + 4 <= |s| && (at + 4 <= off || off + |bytes| <= at)
    ensures U32(Put(s, off, bytes), at) == U32(s, at)
  {
  }
}
