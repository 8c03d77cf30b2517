/**
 The checksum of a buffer as the debuginfo server computes it, and the frames it checksums.
*/
module AdlerBuffer {
  import opened Common
  import opened Adler

  /** `DO1` for `n` bytes from `off` on, in 32-bit arithmetic; `DO16` is this for 16 bytes, unrolled.  `done`
      are the bytes added since the last reduction. */
  method AddBytes(buf: array<Byte>, off: nat, n: nat, adler0: nat, sum20: nat, ghost s: Sums, ghost done: seq<Byte>)
      returns (adler: nat, sum2: nat)
    requires off + n <= buf.Length && s.Ok() && |done| + n <= NMAX && Sums(adler0, sum20) == Raw(s, done)
    ensures Sums(adler, sum2) == Raw(s, done + buf[off..off + n])
  {
    hide Raw, MaxB, Sums.Ok;
    adler, sum2 := adler0, sum20;
    var i := 0;
    assert done + buf[off..off] == done;
    while i < n
      invariant i <= n && Sums(adler, sum2) == Raw(s, done + buf[off..off + i])
    {
      OneMore(done, buf[..], off, off + i);
      NextSums(s, done + buf[off..off + i], buf[off + i]);
      adler := (adler + buf[off + i]) % UINT;
      sum2 := (sum2 + adler) % UINT;
      i := i + 1;
    }
  }

  /** One byte more does not overflow. */
  lemma NextSums(s: Sums, bytes: seq<Byte>, x: Byte)
    requires s.Ok() && |bytes| < NMAX
    ensures var r := Raw(s, bytes); var a := (r.a + x) % UINT; Raw(s, bytes + [x]) == Sums(a, (r.b + a) % UINT)
  {
    hide Raw, MaxB, Sums.Ok;
    RawOne(s, bytes, x);
    NoOverflow(s, bytes + [x]);
  }

  lemma OneMore<T>(done: seq<T>, s: seq<T>, i: nat, j: nat)
    requires i <= j < |s|
    ensures done + s[i..j + 1] == done + s[i..j] + [s[j]] && |done + s[i..j]| == |done| + j - i
  {
  }

  /** `MOD(adler); MOD(sum2)` */
  method Reduce(adler0: nat, sum20: nat, ghost s: Sums, ghost bytes: seq<Byte>) returns (adler: nat, sum2: nat)
    requires s.Ok() && |bytes| <= NMAX && Sums(adler0, sum20) == Raw(s, bytes)
    ensures Sums(adler, sum2) == Update(s, bytes)
  {
    NoOverflow(s, bytes);
    Shifted16();
    LadderIsMod(adler0, 16);
    LadderIsMod(sum20, 16);
    ReduceLate(s, bytes);
    adler, sum2 := Ladder(adler0, 16), Ladder(sum20, 16);
  }

  /** Whole blocks of 5552 bytes, 16 at a time. */
  method Blocks(buf: array<Byte>, off: nat, len0: nat, adler0: nat, sum20: nat) returns (adler: nat, sum2: nat, len: nat)
    requires off + len0 <= buf.Length && Sums(adler0, sum20).Ok()
    ensures len <= len0 && len < NMAX
    ensures Sums(adler, sum2) == Update(Sums(adler0, sum20), buf[off..off + len0 - len])
  {
    hide Update, Sums.Ok;
    adler, sum2, len := adler0, sum20, len0;
    ghost var s := Sums(adler0, sum20);
    NoBytes(s);
    assert buf[off..off] == [];
    while len >= NMAX
      invariant len <= len0 && Sums(adler, sum2).Ok() && Sums(adler, sum2) == Update(s, buf[off..off + len0 - len])
      decreases len
    {
      var p := off + len0 - len;
      adler, sum2 := Block(buf, p, adler, sum2);
      UpdateAppend(s, buf[off..p], buf[p..p + NMAX]);
      Glue(buf[..], off, p, p + NMAX);
      len := len - NMAX;
    }
  }

  method Block(buf: array<Byte>, p: nat, adler0: nat, sum20: nat) returns (adler: nat, sum2: nat)
    requires p + NMAX <= buf.Length && Sums(adler0, sum20).Ok()
    ensures Sums(adler, sum2) == Update(Sums(adler0, sum20), buf[p..p + NMAX])
  {
    ghost var s := Sums(adler0, sum20);
    adler, sum2 := adler0, sum20;
    var n: nat := NMAX / 16;
    var q := p;
    assert buf[p..p] == [] && Raw(s, []) == s;
    hide Raw, Update, Sums.Ok, MaxB;
    while n > 0
      invariant 16 * n <= NMAX && q == p + NMAX - 16 * n && Sums(adler, sum2) == Raw(s, buf[p..q])
    {
      adler, sum2 := AddBytes(buf, q, 16, adler, sum2, s, buf[p..q]);
      assert buf[p..q] + buf[q..q + 16] == buf[p..q + 16];
      q := q + 16;
      n := n - 1;
    }
    adler, sum2 := Reduce(adler, sum2, s, buf[p..q]);
  }

  lemma Glue<T>(s: seq<T>, i: nat, j: nat, k: nat)
    requires i <= j <= k <= |s|
    ensures s[i..j] + s[j..k] == s[i..k]
  {
  }

  lemma NoBytes(s: Sums)
    requires s.Ok()
    ensures Raw(s, []) == s && Update(s, []) == s
  {
  }

  /** The bytes after the last whole block. */
  method Rest(buf: array<Byte>, off: nat, len0: nat, adler0: nat, sum20: nat) returns (adler: nat, sum2: nat)
    requires off + len0 <= buf.Length && len0 < NMAX && Sums(adler0, sum20).Ok()
    ensures Sums(adler, sum2) == Update(Sums(adler0, sum20), buf[off..off + len0])
  {
    ghost var s := Sums(adler0, sum20);
    adler, sum2 := adler0, sum20;
    hide *;
    NoBytes(s);
    assert buf[off..off] == [];
    if len0 == 0 {
      return;
    }
    var len: nat, q: nat := len0, off;
    while len >= 16
      invariant q == off + len0 - len && len <= len0 && Sums(adler, sum2) == Raw(s, buf[off..q])
    {
      len := len - 16;
      adler, sum2 := AddBytes(buf, q, 16, adler, sum2, s, buf[off..q]);
      Glue(buf[..], off, q, q + 16);
      q := q + 16;
    }
    adler, sum2 := AddBytes(buf, q, len, adler, sum2, s, buf[off..q]);
    Glue(buf[..], off, q, off + len0);
    adler, sum2 := Reduce(adler, sum2, s, buf[off..off + len0]);
  }

  /** Fewer than 16 bytes: one subtraction is enough for the first sum, and a short ladder for the second. */
  method Short(buf: array<Byte>, off: nat, len: nat, adler0: nat, sum20: nat) returns (adler: nat, sum2: nat)
    requires off + len <= buf.Length && len < 16 && Sums(adler0, sum20).Ok()
    ensures Sums(adler, sum2) == Update(Sums(adler0, sum20), buf[off..off + len])
  {
    ghost var s, bytes := Sums(adler0, sum20), buf[off..off + len];
    assert Raw(s, []) == s;
    hide Raw, Update, MaxB, Reduced, Sums.Ok;
    assert [] + bytes == bytes;
    assert s.Ok();
    adler, sum2 := AddBytes(buf, off, len, adler0, sum20, s, []);
    ShortBound(s, bytes);
    ReduceLate(s, bytes);
    adler, sum2 := ReduceShort(adler, sum2);
  }

  method ReduceShort(adler0: nat, sum20: nat) returns (adler: nat, sum2: nat)
    requires adler0 < 2 * BASE && sum20 < 32 * BASE
    ensures Sums(adler, sum2) == Reduced(Sums(adler0, sum20))
  {
    Shifted16();
    LadderIsMod(sum20, 4);
    adler := if adler0 >= BASE then adler0 - BASE else adler0;
    sum2 := Ladder(sum20, 4);
  }

  lemma ShortBound(s: Sums, bytes: seq<Byte>)
    requires s.Ok() && |bytes| < 16
    ensures Raw(s, bytes).a < 2 * BASE && Raw(s, bytes).b < 32 * BASE
  {
    RawBound(s, bytes);
    MaxBGrows(|bytes|, 15);
  }

  method Long(buf: array<Byte>, off: nat, len: nat, adler0: nat, sum20: nat) returns (adler: nat, sum2: nat)
    requires off + len <= buf.Length && Sums(adler0, sum20).Ok()
    ensures Sums(adler, sum2) == Update(Sums(adler0, sum20), buf[off..off + len])
  {
    hide Update;
    var rest;
    adler, sum2, rest := Blocks(buf, off, len, adler0, sum20);
    ghost var mid := off + len - rest;
    UpdateAppend(Sums(adler0, sum20), buf[off..mid], buf[mid..off + len]);
    assert buf[off..mid] + buf[mid..off + len] == buf[off..off + len];
    adler, sum2 := Rest(buf, off + len - rest, rest, adler, sum2);
  }

  lemma OneIs(s: Sums, x: Byte)
    requires s.Ok()
    ensures var a := if s.a + x >= BASE then s.a + x - BASE else s.a + x;
      Update(s, [x]) == Sums(a, if s.b + a >= BASE then s.b + a - BASE else s.b + a)
  {
    hide Step;
    var a := s.a + x;
    UpdateOne(s, x);
    SubtractOnce(a);
    SubtractOnce(s.b + a % BASE);
    StepIs(s, x);
  }

  lemma UpdateOne(s: Sums, x: Byte)
    requires s.Ok()
    ensures Update(s, [x]) == Step(s, x)
  {
    hide Step;
    assert [x][..0] == [];
  }

  lemma StepIs(s: Sums, x: Byte)
    ensures Step(s, x) == Sums((s.a + x) % BASE, (s.b + (s.a + x) % BASE) % BASE)
  {
  }

  lemma SubtractOnce(x: nat)
    requires x < 2 * BASE
    ensures x % BASE == if x >= BASE then x - BASE else x
  {
  }

  /** A single byte: no ladder at all. */
  method One(buf: array<Byte>, off: nat, adler0: nat, sum20: nat) returns (adler: nat, sum2: nat)
    requires off + 1 <= buf.Length && Sums(adler0, sum20).Ok()
    ensures Sums(adler, sum2) == Update(Sums(adler0, sum20), buf[off..off + 1])
  {
    hide *;
    OneIs(Sums(adler0, sum20), buf[off]);
    assert buf[off..off + 1] == [buf[off]];
    adler := adler0 + buf[off];
    if adler >= BASE {
      adler := adler - BASE;
    }
    sum2 := sum20 + adler;
    if sum2 >= BASE {
      sum2 := sum2 - BASE;
    }
  }

  /** `adler32`.  Without a buffer the result is the initial value; with one it is the checksum of RFC 1950. */
  method Adler32(adler0: nat, buf: array?<Byte>, off: nat, len: nat) returns (r: nat)
    requires Split(adler0).Ok() && (if buf == null then len != 1 else off + len <= buf.Length)
    ensures r == if buf == null then 1 else Checksum(adler0, buf[off..off + len])
    ensures Split(r).Ok()
    ensures buf != null ==>
      var s, bytes := Split(adler0), buf[off..off + len];
      && r % 0x1_0000 == (s.a + ByteSum(bytes)) % 65521
      && r / 0x1_0000 == (s.b + len * s.a + Weighted(bytes, len, len)) % 65521
  {
    hide Weighted, ByteSum;
    var sum2 := adler0 / 0x1_0000 % 0x1_0000;
    var adler := adler0 % 0x1_0000;
    if len == 1 {
      adler, sum2 := One(buf, off, adler, sum2);
    } else if buf == null {
      return 1;
    } else if len < 16 {
      adler, sum2 := Short(buf, off, len, adler, sum2);
    } else {
      adler, sum2 := Long(buf, off, len, adler, sum2);
    }
    SplitJoin(Sums(adler, sum2));
    ClosedForm(Split(adler0), buf[off..off + len]);
    return Join(Sums(adler, sum2));
  }
}
