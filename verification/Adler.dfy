/**
 The Adler-32 checksum of the debuginfo server (`valgrind-di-server.c`): modulo operations
 put off for up to 5552 bytes and done by a ladder of subtractions, against the definition
 in sections 2.2 and 9 of RFC 1950, one byte at a time.
*/
module Adler {
  import opened Common

  const BASE := 65521
  const NMAX := 5552
  const UINT := 0x1_0000_0000

  // ---------------------------------------------------------------- the definition

  /** The two sums of a checksum. */
  datatype Sums = Sums(a: nat, b: nat)
  {
    predicate Ok() { a < BASE && b < BASE }
  }

  function Step(s: Sums, x: Byte): Sums {
    var a := (s.a + x) % BASE;
    Sums(a, (s.b + a) % BASE)
  }

  function Update(s: Sums, bytes: seq<Byte>): (r: Sums)
    requires s.Ok()
    ensures r.Ok()
  {
    if bytes == [] then s else Step(Update(s, bytes[..|bytes| - 1]), bytes[|bytes| - 1])
  }

  /** A checksum as one number, and back. */
  function Join(s: Sums): nat { s.a + 0x1_0000 * s.b }

  function Split(adler: nat): Sums { Sums(adler % 0x1_0000, adler / 0x1_0000 % 0x1_0000) }

  lemma SplitJoin(s: Sums)
    requires s.Ok()
    ensures Split(Join(s)) == s && Join(s) < UINT
  {
  }

  /** The checksum after `bytes`, starting from `adler`. */
  function Checksum(adler: nat, bytes: seq<Byte>): nat
    requires Split(adler).Ok()
  {
    Join(Update(Split(adler), bytes))
  }

  lemma {:induction false} UpdateAppend(s: Sums, a: seq<Byte>, b: seq<Byte>)
    requires s.Ok()
    ensures Update(s, a + b) == Update(Update(s, a), b)
  {
    if b == [] {
      assert a + b == a;
    } else {
      UpdateAppend(s, a, b[..|b| - 1]);
      assert (a + b)[..|a + b| - 1] == a + b[..|b| - 1];
    }
  }

  /** Checksumming two buffers one after the other is checksumming both at once. */
  lemma ChecksumAppend(adler: nat, a: seq<Byte>, b: seq<Byte>)
    requires Split(adler).Ok()
    ensures Split(Checksum(adler, a)).Ok()
    ensures Checksum(Checksum(adler, a), b) == Checksum(adler, a + b)
  {
    UpdateAppend(Split(adler), a, b);
    SplitJoin(Update(Split(adler), a));
  }

  // ---------------------------------------------------------------- sums without modulo

  /** `DO1`, for one byte after the other. */
  function Raw(s: Sums, bytes: seq<Byte>): Sums {
    if bytes == [] then s
    else
      var r := Raw(s, bytes[..|bytes| - 1]);
      Sums(r.a + bytes[|bytes| - 1], r.b + r.a + bytes[|bytes| - 1])
  }

  lemma RawOne(s: Sums, bytes: seq<Byte>, x: Byte)
    ensures Raw(s, bytes + [x]) == Sums(Raw(s, bytes).a + x, Raw(s, bytes).b + Raw(s, bytes).a + x)
  {
    assert (bytes + [x])[..|bytes|] == bytes;
  }

  function Reduced(s: Sums): Sums { Sums(s.a % BASE, s.b % BASE) }

  lemma ModSum(x: nat, y: nat)
    ensures (x % BASE + y) % BASE == (x + y) % BASE
  {
  }

  lemma ReducedStep(r: Sums, x: Byte)
    ensures Reduced(Sums(r.a + x, r.b + r.a + x)) == Step(Reduced(r), x)
  {
    ModSum(r.a, x);
    ModSum(r.b, (r.a + x) % BASE);
    ModSum(r.a + x, r.b);
  }

  /** Reducing at the end gives what reducing after each byte gives. */
  lemma {:induction false} ReduceLate(s: Sums, bytes: seq<Byte>)
    requires s.Ok()
    ensures Reduced(Raw(s, bytes)) == Update(s, bytes)
  {
    hide Step;
    if bytes == [] {
      assert s.a % BASE == s.a && s.b % BASE == s.b;
    } else {
      var front, x := bytes[..|bytes| - 1], bytes[|bytes| - 1];
      ReduceLate(s, front);
      ReducedStep(Raw(s, front), x);
    }
  }

  /** How large the sums can get after `n` bytes. */
  function MaxB(n: nat): nat { (n + 1) * (BASE - 1) + 255 * (n * (n + 1) / 2) }

  lemma MaxBStep(n: nat)
    ensures MaxB(n + 1) == MaxB(n) + BASE - 1 + 255 * (n + 1)
  {
    assert (n + 1) * (n + 2) == n * (n + 1) + 2 * (n + 1);
  }

  lemma {:induction false} MaxBGrows(m: nat, n: nat)
    requires m <= n
    ensures MaxB(m) <= MaxB(n)
  {
    if m < n {
      MaxBGrows(m, n - 1);
      MaxBStep(n - 1);
    }
  }

  lemma {:induction false} RawBound(s: Sums, bytes: seq<Byte>)
    requires s.Ok()
    ensures Raw(s, bytes).a <= BASE - 1 + 255 * |bytes| && Raw(s, bytes).b <= MaxB(|bytes|)
  {
    if bytes != [] {
      RawBound(s, bytes[..|bytes| - 1]);
      MaxBStep(|bytes| - 1);
    }
  }

  /** In a block of at most NMAX bytes neither sum leaves 32 bits. */
  lemma NoOverflow(s: Sums, bytes: seq<Byte>)
    requires s.Ok() && |bytes| <= NMAX
    ensures Raw(s, bytes).a < UINT && Raw(s, bytes).b < UINT
  {
    RawBound(s, bytes);
    MaxBGrows(|bytes|, NMAX);
  }

  /** The bounds are attained. */
  lemma {:induction false} WorstCase(n: nat)
    ensures Raw(Sums(BASE - 1, BASE - 1), seq(n, _ => 255)) == Sums(BASE - 1 + 255 * n, MaxB(n))
  {
    if n > 0 {
      WorstCase(n - 1);
      assert seq(n, _ => 255)[..n - 1] == seq(n - 1, _ => 255);
      MaxBStep(n - 1);
    }
  }

  /** NMAX is the largest such size: in a longer block, bytes of 255 on the largest sums leave 32 bits. */
  lemma LongerOverflows(n: nat)
    requires n > NMAX
    ensures Sums(BASE - 1, BASE - 1).Ok() && Raw(Sums(BASE - 1, BASE - 1), seq(n, _ => 255)).b >= UINT
  {
    WorstCase(n);
    MaxBGrows(NMAX + 1, n);
  }

  // ---------------------------------------------------------------- in one formula

  function ByteSum(bytes: seq<Byte>): nat {
    if bytes == [] then 0 else ByteSum(bytes[..|bytes| - 1]) + bytes[|bytes| - 1]
  }

  /** The first `k` bytes, each as often as there are bytes from it to the `n`-th. */
  function Weighted(bytes: seq<Byte>, n: nat, k: nat): nat
    requires k <= |bytes| && k <= n
  {
    if k == 0 then 0 else Weighted(bytes, n, k - 1) + (n - (k - 1)) * bytes[k - 1]
  }

  lemma {:induction false} WeightedMore(bytes: seq<Byte>, x: Byte, n: nat, k: nat)
    requires k <= |bytes| && k <= n
    ensures Weighted(bytes + [x], n + 1, k) == Weighted(bytes, n, k) + ByteSum(bytes[..k])
  {
    if k > 0 {
      WeightedMore(bytes, x, n, k - 1);
      assert bytes[..k][..k - 1] == bytes[..k - 1];
      assert (n + 1 - (k - 1)) * bytes[k - 1] == (n - (k - 1)) * bytes[k - 1] + bytes[k - 1];
    }
  }

  lemma {:induction false} RawInOne(s: Sums, bytes: seq<Byte>)
    ensures Raw(s, bytes) == Sums(s.a + ByteSum(bytes), s.b + |bytes| * s.a + Weighted(bytes, |bytes|, |bytes|))
  {
    if bytes != [] {
      var n := |bytes| - 1;
      var front, x := bytes[..n], bytes[n];
      assert front + [x] == bytes && front[..n] == front;
      hide *;
      RawInOne(s, front);
      RawOne(s, front, x);
      SumsOne(front, x);
      NextTimes(n, s.a);
    }
  }

  lemma SumsOne(front: seq<Byte>, x: Byte)
    ensures var n, bytes := |front|, front + [x];
      ByteSum(bytes) == ByteSum(front) + x && Weighted(bytes, n + 1, n + 1) == Weighted(front, n, n) + ByteSum(front) + x
  {
    var n := |front|;
    WeightedMore(front, x, n, n);
    assert (front + [x])[..n] == front && front[..n] == front;
  }

  lemma NextTimes(n: nat, a: nat)
    ensures (n + 1) * a == n * a + a
  {
  }

  /** The definition in one formula: the sum of all bytes, and the sum of all these sums. */
  lemma ClosedForm(s: Sums, bytes: seq<Byte>)
    requires s.Ok()
    ensures Update(s, bytes).a == (s.a + ByteSum(bytes)) % 65521
    ensures Update(s, bytes).b == (s.b + |bytes| * s.a + Weighted(bytes, |bytes|, |bytes|)) % 65521
  {
    hide Raw, Update, Weighted, ByteSum;
    ReduceLate(s, bytes);
    RawInOne(s, bytes);
  }

  // ---------------------------------------------------------------- the modulus

  ghost predicate IsPrime(n: nat) {
    n > 1 && forall d :: 1 < d < n ==> n % d != 0
  }

  lemma NoDivisorTo64(d: nat)
    requires 2 <= d < 64
    ensures 65521 % d != 0
  {
    match d
    case 2 => case 3 => case 4 => case 5 => case 6 => case 7 => case 8 => case 9 => case 10 => case 11 =>
    case 12 => case 13 => case 14 => case 15 => case 16 => case 17 => case 18 => case 19 => case 20 => case 21 =>
    case 22 => case 23 => case 24 => case 25 => case 26 => case 27 => case 28 => case 29 => case 30 => case 31 =>
    case 32 => case 33 => case 34 => case 35 => case 36 => case 37 => case 38 => case 39 => case 40 => case 41 =>
    case 42 => case 43 => case 44 => case 45 => case 46 => case 47 => case 48 => case 49 => case 50 => case 51 =>
    case 52 => case 53 => case 54 => case 55 => case 56 => case 57 => case 58 => case 59 => case 60 => case 61 =>
    case 62 => case 63 =>
  }

  lemma NoDivisorTo128(d: nat)
    requires 64 <= d < 128
    ensures 65521 % d != 0
  {
    match d
    case 64 => case 65 => case 66 => case 67 => case 68 => case 69 => case 70 => case 71 => case 72 => case 73 =>
    case 74 => case 75 => case 76 => case 77 => case 78 => case 79 => case 80 => case 81 => case 82 => case 83 =>
    case 84 => case 85 => case 86 => case 87 => case 88 => case 89 => case 90 => case 91 => case 92 => case 93 =>
    case 94 => case 95 => case 96 => case 97 => case 98 => case 99 => case 100 => case 101 => case 102 =>
    case 103 => case 104 => case 105 => case 106 => case 107 => case 108 => case 109 => case 110 => case 111 =>
    case 112 => case 113 => case 114 => case 115 => case 116 => case 117 => case 118 => case 119 => case 120 =>
    case 121 => case 122 => case 123 => case 124 => case 125 => case 126 => case 127 =>
  }

  lemma NoDivisorTo192(d: nat)
    requires 128 <= d < 192
    ensures 65521 % d != 0
  {
    match d
    case 128 => case 129 => case 130 => case 131 => case 132 => case 133 => case 134 => case 135 => case 136 =>
    case 137 => case 138 => case 139 => case 140 => case 141 => case 142 => case 143 => case 144 => case 145 =>
    case 146 => case 147 => case 148 => case 149 => case 150 => case 151 => case 152 => case 153 => case 154 =>
    case 155 => case 156 => case 157 => case 158 => case 159 => case 160 => case 161 => case 162 => case 163 =>
    case 164 => case 165 => case 166 => case 167 => case 168 => case 169 => case 170 => case 171 => case 172 =>
    case 173 => case 174 => case 175 => case 176 => case 177 => case 178 => case 179 => case 180 => case 181 =>
    case 182 => case 183 => case 184 => case 185 => case 186 => case 187 => case 188 => case 189 => case 190 =>
    case 191 =>
  }

  lemma NoDivisorTo256(d: nat)
    requires 192 <= d < 256
    ensures 65521 % d != 0
  {
    match d
    case 192 => case 193 => case 194 => case 195 => case 196 => case 197 => case 198 => case 199 => case 200 =>
    case 201 => case 202 => case 203 => case 204 => case 205 => case 206 => case 207 => case 208 => case 209 =>
    case 210 => case 211 => case 212 => case 213 => case 214 => case 215 => case 216 => case 217 => case 218 =>
    case 219 => case 220 => case 221 => case 222 => case 223 => case 224 => case 225 => case 226 => case 227 =>
    case 228 => case 229 => case 230 => case 231 => case 232 => case 233 => case 234 => case 235 => case 236 =>
    case 237 => case 238 => case 239 => case 240 => case 241 => case 242 => case 243 => case 244 => case 245 =>
    case 246 => case 247 => case 248 => case 249 => case 250 => case 251 => case 252 => case 253 => case 254 =>
    case 255 =>
  }

  /** A divisor or its cofactor is below the root. */
  lemma SmallDivisor(n: nat, d: nat, root: nat) returns (e: nat)
    requires 1 < d < n && n % d == 0 && n < root * root
    ensures 1 < e < root && n % e == 0
  {
    var q := n / d;
    assert n == d * q;
    if d < root {
      e := d;
    } else {
      e := q;
      Cofactor(n, d, q, root);
    }
  }

  lemma Cofactor(n: nat, d: nat, q: nat, root: nat)
    requires root <= d < n && n == d * q && n < root * root
    ensures 1 < q < root && n % q == 0
  {
    if q >= root {
      Products(root, q, root, d);
      assert false;
    }
    if q <= 1 {
      Products(q, 1, d, d);
      assert false;
    }
    MultipleMod(d, q);
  }

  lemma Products(a: nat, b: nat, c: nat, d: nat)
    requires a <= b && c <= d
    ensures a * c <= b * d && a * c <= d * b
  {
    assert a * c <= b * c <= b * d;
  }

  lemma MultipleMod(d: nat, q: nat)
    requires q > 0
    ensures d * q % q == 0
  {
    var k := d * q / q;
    assert d * q == q * k + d * q % q;
    if d > k {
      Products(k + 1, d, q, q);
    } else if d < k {
      Products(d + 1, k, q, q);
    }
  }

  lemma NoDivisor(d: nat)
    requires 1 < d < 256
    ensures 65521 % d != 0
  {
    if d < 64 {
      NoDivisorTo64(d);
    } else if d < 128 {
      NoDivisorTo128(d);
    } else if d < 192 {
      NoDivisorTo192(d);
    } else {
      NoDivisorTo256(d);
    }
  }

  /** The modulus is the largest prime below 2^16. */
  lemma LargestPrime()
    ensures BASE == 65521 && IsPrime(BASE) && forall n :: BASE < n < 0x1_0000 ==> !IsPrime(n)
  {
    forall d | 1 < d < BASE ensures BASE % d != 0 {
      if BASE % d == 0 {
        var e := SmallDivisor(BASE, d, 256);
        NoDivisor(e);
      }
    }
    forall n | BASE < n < 0x1_0000 ensures !IsPrime(n) {
      Composite(n);
    }
  }

  lemma Composite(n: nat)
    requires 65521 < n < 65536
    ensures !IsPrime(n)
  {
    if n % 2 != 0 {
      match n
      case 65523 => assert n % 3 == 0;
      case 65525 => assert n % 5 == 0;
      case 65527 => assert n % 7 == 0;
      case 65529 => assert n % 3 == 0;
      case 65531 => assert n % 19 == 0;
      case 65533 => assert n % 13 == 0;
      case 65535 => assert n % 3 == 0;
    }
  }

  // ---------------------------------------------------------------- the ladder

  /** `BASE << k` */
  function Shifted(k: nat): (b: nat)
    ensures b >= BASE
  {
    if k == 0 then BASE else 2 * Shifted(k - 1)
  }

  /** `MOD` is the ladder from 16 down, `MOD4` that from 4. */
  function Ladder(a: nat, k: nat): nat {
    var r := if a >= Shifted(k) then a - Shifted(k) else a;
    if k == 0 then r else Ladder(r, k - 1)
  }

  lemma {:induction false} ShiftedIsMultiple(k: nat) returns (q: nat)
    ensures Shifted(k) == BASE * q
  {
    if k == 0 {
      q := 1;
    } else {
      var q' := ShiftedIsMultiple(k - 1);
      q := 2 * q';
    }
  }

  /** A ladder high enough computes the remainder. */
  lemma {:induction false} LadderIsMod(a: nat, k: nat)
    requires a < 2 * Shifted(k)
    ensures Ladder(a, k) == a % 65521
  {
    var r := if a >= Shifted(k) then a - Shifted(k) else a;
    var q := ShiftedIsMultiple(k);
    assert r % BASE == a % BASE by {
      if a >= Shifted(k) {
        MinusMultiple(a, q);
      }
    }
    if k > 0 {
      LadderIsMod(r, k - 1);
    }
  }

  lemma MinusMultiple(a: nat, q: nat)
    requires a >= BASE * q
    ensures (a - BASE * q) % BASE == a % BASE
  {
    var m := a - BASE * q;
    var p := m / BASE;
    assert a == BASE * (p + q) + m % BASE;
  }

  lemma Shifted16()
    ensures 2 * Shifted(16) > UINT && Shifted(4) == 16 * BASE
  {
    assert Shifted(4) == 16 * BASE;
    assert Shifted(8) == 256 * BASE;
    assert Shifted(12) == 4096 * BASE;
    assert Shifted(16) == 65536 * BASE;
  }
}
