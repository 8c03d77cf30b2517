/**
 The frames of the debuginfo server and how they travel: checksum, length and data, with
 numbers in little-endian order.
*/
module Frames {
  import opened Common
  import opened Adler
  import opened AdlerBuffer

  const MAX_FRAME := 4 * 1024 * 1024

  // ---------------------------------------------------------------- little-endian numbers

  function Pow256(k: nat): (p: nat) ensures p > 0 { if k == 0 then 1 else 256 * Pow256(k - 1) }

  function WriteLe(n: nat, k: nat): (s: seq<Byte>)
    ensures |s| == k
  {
    if k == 0 then [] else [n % 256] + WriteLe(n / 256, k - 1)
  }

  function ReadLe(s: seq<Byte>): nat {
    if s == [] then 0 else s[0] + 256 * ReadLe(s[1..])
  }

  /** A number that fits is read as it was written. */
  lemma {:induction false} ReadWritten(n: nat, k: nat)
    requires n < Pow256(k)
    ensures ReadLe(WriteLe(n, k)) == n
  {
    if k > 0 {
      ReadWritten(n / 256, k - 1);
      assert WriteLe(n, k)[1..] == WriteLe(n / 256, k - 1);
    }
  }

  /** The lowest byte comes first. */
  lemma {:induction false} LowestFirst(n: nat, k: nat, i: nat)
    requires i < k
    ensures WriteLe(n, k)[i] == n / Pow256(i) % 256
  {
    if i > 0 {
      LowestFirst(n / 256, k - 1, i - 1);
      assert WriteLe(n, k)[i] == WriteLe(n / 256, k - 1)[i - 1];
      hide WriteLe;
      assert Pow256(i) == 256 * Pow256(i - 1);
      hide Pow256;
      DivTwice(n, Pow256(i - 1));
    }
  }

  lemma DivTwice(n: nat, a: nat)
    requires a > 0
    ensures n / 256 / a == n / (256 * a)
  {
    var q, r := n / 256 / a, n / 256 % a;
    assert n == 256 * (a * q + r) + n % 256;
    assert n == (256 * a) * q + (256 * r + n % 256);
    QuotientIs(n, 256 * a, q, 256 * r + n % 256);
  }

  lemma QuotientIs(n: nat, a: nat, q: nat, r: nat)
    requires a > 0 && n == a * q + r && r < a
    ensures n / a == q
  {
    var p := n / a;
    assert a * (p - q) == r - n % a;
    if p < q {
      InOrder(a, p - q, -1);
    } else if p > q {
      InOrder(a, 1, p - q);
    }
  }

  lemma InOrder(a: nat, x: int, y: int)
    ensures x <= y ==> a * x <= a * y
  {
  }

  /** Bytes that are read as a number are those that would be written for it. */
  lemma {:induction false} WriteRead(s: seq<Byte>)
    ensures ReadLe(s) < Pow256(|s|) && WriteLe(ReadLe(s), |s|) == s
  {
    if s != [] {
      WriteRead(s[1..]);
      LowByte(s[0], ReadLe(s[1..]));
      assert [s[0]] + s[1..] == s;
    }
  }

  lemma LowByte(b: Byte, m: nat)
    ensures (b + 256 * m) % 256 == b && (b + 256 * m) / 256 == m
  {
  }

  lemma Pow256s()
    ensures Pow256(4) == UINT && Pow256(8) == 0x1_0000_0000_0000_0000
  {
    assert Pow256(4) == UINT;
    assert Pow256(8) == Pow256(4) * UINT;
  }

  /** `write_UInt_le` and `write_ULong_le`, with `k` bytes. */
  method WriteNumber(dst: array<Byte>, off: nat, n0: nat, k: nat)
    requires off + k <= dst.Length
    modifies dst
    ensures dst[off..off + k] == WriteLe(n0, k)
    ensures dst[..off] == old(dst[..off]) && dst[off + k..] == old(dst[off + k..])
  {
    var n, i := n0, 0;
    assert dst[off..off] == [];
    while i < k
      invariant i <= k && dst[off..off + i] + WriteLe(n, k - i) == WriteLe(n0, k)
      invariant dst[..off] == old(dst[..off]) && dst[off + k..] == old(dst[off + k..])
    {
      ghost var before := dst[off..off + i];
      dst[off + i] := n % 256;
      assert dst[off..off + i + 1] == before + [n % 256];
      assert before + ([n % 256] + WriteLe(n / 256, k - i - 1)) == before + [n % 256] + WriteLe(n / 256, k - i - 1);
      n := n / 256;
      i := i + 1;
    }
    assert dst[off..off + k] + [] == dst[off..off + k];
  }

  /** `read_UInt_le` and `read_ULong_le`; in 32 or 64 bits nothing is lost. */
  method ReadNumber(src: array<Byte>, off: nat, k: nat) returns (r: nat)
    requires off + k <= src.Length
    ensures r == ReadLe(src[off..off + k]) && r < Pow256(k)
  {
    r := 0;
    var i: nat := k;
    assert src[off + k..off + k] == [];
    while i > 0
      invariant i <= k && r == ReadLe(src[off + i..off + k])
    {
      i := i - 1;
      assert src[off + i..off + k][1..] == src[off + i + 1..off + k];
      r := r * 256 + src[off + i];
    }
    WriteRead(src[off..off + k]);
  }

  // ---------------------------------------------------------------- kinds of frames

  ghost predicate Tag(t: seq<Byte>) { |t| == 4 }

  /** `mk_Frame_asciiz` */
  function MkAsciiz(tag: seq<Byte>, str: seq<Byte>): seq<Byte> { tag + str + [0] }

  /** `parse_Frame_asciiz`: the loop finds the first zero, which must be the last byte. */
  method ParseAsciiz(data: seq<Byte>, tag: seq<Byte>) returns (r: Option<seq<Byte>>)
    requires Tag(tag)
    ensures r.Some? <==> exists str: seq<Byte> :: 0 !in str && data == MkAsciiz(tag, str)
    ensures r.Some? ==> 0 !in r.value && data == MkAsciiz(tag, r.value)
  {
    if |data| < 4 || data[..4] != tag || |data| < 5 {
      forall str: seq<Byte> ensures data != MkAsciiz(tag, str) {
        assert MkAsciiz(tag, str)[..4] == tag;
      }
      return None;
    }
    var i := 4;
    while i < |data| && data[i] != 0
      invariant 4 <= i <= |data| && 0 !in data[4..i]
    {
      i := i + 1;
    }
    if i == |data| - 1 && data[i] == 0 {
      assert data == MkAsciiz(tag, data[4..i]);
      return Some(data[4..i]);
    }
    forall str: seq<Byte> | 0 !in str ensures data != MkAsciiz(tag, str) {
      OneZero(tag, str);
    }
    return None;
  }

  /** The only zero behind the tag is the one at the end. */
  lemma OneZero(tag: seq<Byte>, str: seq<Byte>)
    requires Tag(tag) && 0 !in str
    ensures var d := MkAsciiz(tag, str); |d| >= 5 && d[|d| - 1] == 0 && forall j :: 4 <= j < |d| - 1 ==> d[j] != 0
  {
    var d := MkAsciiz(tag, str);
    forall j | 4 <= j < |d| - 1 ensures d[j] != 0 {
      assert d[j] == str[j - 4];
    }
  }

  /** `mk_Frame_le64`, `mk_Frame_le64_le64` and `mk_Frame_le64_le64_le64` */
  function MkNumbers(tag: seq<Byte>, ns: seq<nat>): seq<Byte> {
    if ns == [] then tag else MkNumbers(tag, ns[..|ns| - 1]) + WriteLe(ns[|ns| - 1], 8)
  }

  predicate Fit(ns: seq<nat>) { forall i :: 0 <= i < |ns| ==> ns[i] < 0x1_0000_0000_0000_0000 }

  function ReadNumbers(data: seq<Byte>, count: nat): seq<nat>
    requires |data| == 4 + 8 * count
  {
    if count == 0 then [] else ReadNumbers(data[..|data| - 8], count - 1) + [ReadLe(data[|data| - 8..])]
  }

  /** `parse_Frame_le64` and so on */
  function ParseNumbers(data: seq<Byte>, tag: seq<Byte>, count: nat): Option<seq<nat>> {
    if |data| == 4 + 8 * count && data[..4] == tag then Some(ReadNumbers(data, count)) else None
  }

  /** Behind the tag each number takes eight bytes, the lowest first. */
  lemma {:induction false} NumbersLaidOut(tag: seq<Byte>, ns: seq<nat>, j: nat, i: nat)
    requires Tag(tag) && j < |ns| && i < 8
    ensures var d := MkNumbers(tag, ns);
      |d| == 4 + 8 * |ns| && d[..4] == tag && d[4 + 8 * j + i] == ns[j] / Pow256(i) % 256
  {
    hide WriteLe, Pow256;
    var front, n := ns[..|ns| - 1], ns[|ns| - 1];
    NumbersLength(tag, front);
    LastNumber(MkNumbers(tag, front), WriteLe(n, 8));
    if j == |ns| - 1 {
      LowestFirst(n, 8, i);
    } else {
      NumbersLaidOut(tag, front, j, i);
    }
  }

  lemma {:induction false} NumbersLength(tag: seq<Byte>, ns: seq<nat>)
    requires Tag(tag)
    ensures |MkNumbers(tag, ns)| == 4 + 8 * |ns| && MkNumbers(tag, ns)[..4] == tag
  {
    hide WriteLe;
    if ns != [] {
      NumbersLength(tag, ns[..|ns| - 1]);
    }
  }

  lemma Number8(n: nat)
    requires n < 0x1_0000_0000_0000_0000
    ensures ReadLe(WriteLe(n, 8)) == n
  {
    Pow256s();
    ReadWritten(n, 8);
  }

  lemma Bytes8(s: seq<Byte>)
    requires |s| == 8
    ensures ReadLe(s) < 0x1_0000_0000_0000_0000 && WriteLe(ReadLe(s), 8) == s
  {
    Pow256s();
    WriteRead(s);
  }

  lemma LastNumber(front: seq<Byte>, last: seq<Byte>)
    requires |front| >= 4 && |last| == 8
    ensures var d := front + last;
      d[..|d| - 8] == front && d[|d| - 8..] == last && d[..4] == front[..4]
  {
  }

  lemma {:induction false} NumbersShape(tag: seq<Byte>, ns: seq<nat>)
    requires Tag(tag) && Fit(ns)
    ensures var d := MkNumbers(tag, ns);
      |d| == 4 + 8 * |ns| && d[..4] == tag && ReadNumbers(d, |ns|) == ns
  {
    hide WriteLe, ReadLe;
    if ns != [] {
      var front, n := ns[..|ns| - 1], ns[|ns| - 1];
      NumbersShape(tag, front);
      Number8(n);
      LastNumber(MkNumbers(tag, front), WriteLe(n, 8));
    }
  }

  lemma {:induction false} ReadShape(data: seq<Byte>, count: nat)
    requires |data| == 4 + 8 * count
    ensures var ns := ReadNumbers(data, count); |ns| == count && Fit(ns) && MkNumbers(data[..4], ns) == data
  {
    hide *;
    if count == 0 {
      ReadNone(data);
    } else {
      var front, last := data[..|data| - 8], data[|data| - 8..];
      ReadShape(front, count - 1);
      Bytes8(last);
      ReadSnoc(data, count);
      MkSnoc(data[..4], ReadNumbers(front, count - 1), ReadLe(last));
      assert front[..4] == data[..4];
      assert data == front + last;
    }
  }

  lemma ReadNone(data: seq<Byte>)
    requires |data| == 4
    ensures ReadNumbers(data, 0) == [] && Fit([]) && MkNumbers(data[..4], []) == data
  {
  }

  lemma ReadSnoc(data: seq<Byte>, count: nat)
    requires count > 0 && |data| == 4 + 8 * count
    ensures ReadNumbers(data, count) == ReadNumbers(data[..|data| - 8], count - 1) + [ReadLe(data[|data| - 8..])]
  {
  }

  lemma MkSnoc(tag: seq<Byte>, ns: seq<nat>, n: nat)
    ensures MkNumbers(tag, ns + [n]) == MkNumbers(tag, ns) + WriteLe(n, 8)
    ensures Fit(ns + [n]) <==> Fit(ns) && n < 0x1_0000_0000_0000_0000
  {
    assert (ns + [n])[..|ns|] == ns && (ns + [n])[|ns|] == n;
    if Fit(ns + [n]) {
      assert forall i :: 0 <= i < |ns| ==> ns[i] == (ns + [n])[i];
    }
  }

  /** A frame of numbers parses exactly if it is one that is built from the tag and that many numbers. */
  lemma NumbersRoundTrip(tag: seq<Byte>, ns: seq<nat>, data: seq<Byte>, count: nat)
    requires Tag(tag)
    ensures Fit(ns) && |ns| == count ==> ParseNumbers(MkNumbers(tag, ns), tag, count) == Some(ns)
    ensures var r := ParseNumbers(data, tag, count);
      r.Some? ==> |r.value| == count && Fit(r.value) && data == MkNumbers(tag, r.value)
  {
    if Fit(ns) {
      NumbersShape(tag, ns);
    }
    if |data| == 4 + 8 * count {
      ReadShape(data, count);
    }
  }

  // ---------------------------------------------------------------- on the wire

  /** The checksum covers the length and the data. */
  function Wire(data: seq<Byte>): seq<Byte> {
    var len := WriteLe(|data|, 4);
    WriteLe(Checksum(1, len + data), 4) + len + data
  }

  /** A frame travels as four bytes of checksum, four bytes of length, and the data. */
  lemma OnWire(data: seq<Byte>, i: nat)
    requires i < 4
    ensures var w := Wire(data);
      && Split(1).Ok() && |w| == 8 + |data| && w[8..] == data
      && w[4 + i] == |data| / Pow256(i) % 256 && w[i] == Checksum(1, w[4..]) / Pow256(i) % 256
  {
    hide *;
    WireIs(data);
    var len := WriteLe(|data|, 4);
    var sum := Checksum(1, len + data);
    InThree(WriteLe(sum, 4), len, data);
    LowestFirst(|data|, 4, i);
    LowestFirst(sum, 4, i);
  }

  lemma InThree(a: seq<Byte>, b: seq<Byte>, c: seq<Byte>)
    requires |a| == |b| == 4
    ensures var w := a + b + c;
      w[4..] == b + c && w[8..] == c && forall i :: 0 <= i < 4 ==> w[i] == a[i] && w[4 + i] == b[i]
  {
  }

  lemma InitialOk()
    ensures Split(1).Ok() && Split(1) == Sums(1, 0)
  {
  }

  lemma ChecksumFits(bytes: seq<Byte>)
    ensures Split(1).Ok() && Checksum(1, bytes) < UINT
  {
    SplitJoin(Update(Split(1), bytes));
  }

  /** The frame at the front of what arrives, or None if the connection is given up. */
  function Received(wire: seq<Byte>): Option<seq<Byte>> {
    if |wire| < 8 then None
    else
      var len := ReadLe(wire[4..8]);
      if len > MAX_FRAME || |wire| < 8 + len then None
      else if ReadLe(wire[..4]) != Checksum(1, wire[4..8 + len]) then None
      else Some(wire[8..8 + len])
  }

  /** The pieces of what arrives. */
  lemma Pieces(head: seq<Byte>, data: seq<Byte>, more: seq<Byte>)
    requires |head| == 8
    ensures var w := head + data + more;
      && w[..4] == head[..4] && w[4..8] == head[4..8] && w[8..8 + |data|] == data
      && w[4..8 + |data|] == head[4..8] + data
  {
  }

  /** What is sent is received, unless it is longer than 4 MB; and it is received as what was sent. */
  lemma SendReceive(data: seq<Byte>, more: seq<Byte>)
    requires |data| < 0x1_0000_0000
    ensures Received(Wire(data) + more) == if |data| <= 4194304 then Some(data) else None
  {
    hide *;
    InitialOk();
    var len := WriteLe(|data|, 4);
    var sum := Checksum(1, len + data);
    WireIs(data);
    FourMegabytes();
    Written4(|data|);
    ChecksumFits(len + data);
    Written4(sum);
    var head := WriteLe(sum, 4) + len;
    assert head[..4] == WriteLe(sum, 4) && head[4..8] == len;
    ReceivedIs(head, data, more);
  }

  lemma FourMegabytes()
    ensures MAX_FRAME == 4194304 && UINT == 0x1_0000_0000
  {
  }

  lemma WireIs(data: seq<Byte>)
    ensures Split(1).Ok()
    ensures var len := WriteLe(|data|, 4); Wire(data) == WriteLe(Checksum(1, len + data), 4) + len + data
  {
    InitialOk();
  }

  lemma Written4(n: nat)
    requires n < UINT
    ensures ReadLe(WriteLe(n, 4)) == n
  {
    Pow256s();
    ReadWritten(n, 4);
  }

  /** A frame is received if its length and checksum are right. */
  lemma ReceivedIs(head: seq<Byte>, data: seq<Byte>, more: seq<Byte>)
    requires |head| == 8 && ReadLe(head[4..8]) == |data|
    ensures Split(1).Ok()
    ensures Received(head + data + more)
         == if |data| > MAX_FRAME || ReadLe(head[..4]) != Checksum(1, head[4..8] + data) then None else Some(data)
  {
    InitialOk();
    hide ReadLe, Checksum;
    Pieces(head, data, more);
  }

  /** What is received was sent: only a frame with its own length and checksum is accepted. */
  lemma OnlySent(wire: seq<Byte>)
    ensures Received(wire).Some? ==> Wire(Received(wire).value) <= wire
  {
    if Received(wire).Some? {
      var len := ReadLe(wire[4..8]);
      var data := wire[8..8 + len];
      WriteRead(wire[4..8]);
      WriteRead(wire[..4]);
      assert wire[4..8 + len] == wire[4..8] + data;
      assert Wire(data) == wire[..8 + len];
    }
  }

  /** The sending half of `handle_transaction`: the length and the data are checksummed one after the other. */
  method Send(data: array<Byte>) returns (first8: array<Byte>)
    requires data.Length < UINT
    ensures first8.Length == 8 && fresh(first8) && first8[..] + data[..] == Wire(data[..])
  {
    first8 := new Byte[8](_ => 0);
    InitialOk();
    var adler := Adler32(0, null, 0, 0);
    WriteNumber(first8, 4, data.Length, 4);
    adler := Adler32(adler, first8, 4, 4);
    adler := Adler32(adler, data, 0, data.Length);
    ghost var len := first8[4..8];
    assert data[0..data.Length] == data[..];
    ChecksumAppend(1, len, data[..]);
    WriteNumber(first8, 0, adler, 4);
    assert first8[4..8] == first8[4..][..4] == len;
    assert first8[..] == first8[0..4] + first8[4..8];
  }

  /** The receiving half; `first8` and `data` are what has been read for a frame. */
  method Receive(first8: array<Byte>, data: array<Byte>) returns (ok: bool)
    requires first8.Length == 8 && data.Length == ReadLe(first8[4..8])
    ensures ok <==> Received(first8[..] + data[..]) == Some(data[..])
  {
    var rdAdler := ReadNumber(first8, 0, 4);
    var rdLen := ReadNumber(first8, 4, 4);
    ghost var wire := first8[..] + data[..];
    Pieces(first8[..], data[..], []);
    assert wire + [] == wire;
    assert first8[..][..4] == first8[0..4] && first8[..][4..8] == first8[4..8];
    if rdLen > MAX_FRAME {
      return false;
    }
    var adler := SumOf(first8, data);
    return adler == rdAdler;
  }

  /** The checksum of what has been read: the length, then the data if there is any. */
  method SumOf(first8: array<Byte>, data: array<Byte>) returns (adler: nat)
    requires first8.Length == 8
    ensures adler == Checksum(1, first8[4..8] + data[..])
  {
    InitialOk();
    adler := Adler32(0, null, 0, 0);
    adler := Adler32(adler, first8, 4, 4);
    ChecksumAppend(1, first8[4..8], data[..]);
    if data.Length > 0 {
      adler := Adler32(adler, data, 0, data.Length);
      assert data[0..data.Length] == data[..];
    } else {
      assert first8[4..8] + data[..] == first8[4..8];
    }
  }
}
