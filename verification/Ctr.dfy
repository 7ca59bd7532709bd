/** AES-CTR with a counter in the low bits of the block only (Appendix B.1 of NIST
    SP 800-38A), over an arbitrary block function. */
module Ctr {
  import opened ByteNumbers

  type Block = b: Bytes | |b| == 16 witness seq(16, _ => 0)

  // ------------------------------------------------------------ single bits

  function Mask(k: nat): bv8
    requires k < 8
  {
    match k
    case 0 => 1
    case 1 => 2
    case 2 => 4
    case 3 => 8
    case 4 => 16
    case 5 => 32
    case 6 => 64
    case _ => 128
  }

  lemma FlipSet(x: bv8, m: bv8)
    requires m & (m - 1) == 0 && m != 0
    ensures (x ^ m) & m != 0 <==> x & m == 0
  {
  }

  lemma FlipApart(x: bv8, m: bv8, m': bv8)
    requires m & m' == 0
    ensures (x ^ m) & m' == x & m'
  {
  }

  lemma Masks(j: nat, k: nat)
    requires j < 8 && k < 8
    ensures Mask(j) != 0 && Mask(j) & (Mask(j) - 1) == 0
    ensures j != k ==> Mask(j) & Mask(k) == 0
  {
  }

  /** Eight bits make a byte. */
  lemma ByteOfBits(x: bv8, y: bv8)
    requires x & 1 == y & 1 && x & 2 == y & 2 && x & 4 == y & 4 && x & 8 == y & 8
    requires x & 16 == y & 16 && x & 32 == y & 32 && x & 64 == y & 64 && x & 128 == y & 128
    ensures x == y
  {
  }

  /** Where bit n of a big-endian block is: its byte counted from the end. */
  function ByteIndex(a: Bytes, n: nat): (i: nat)
    requires n < 8 * |a|
    ensures i < |a|
  {
    |a| - 1 - n / 8
  }

  predicate Bit(a: Bytes, n: nat)
    requires n < 8 * |a|
  {
    a[ByteIndex(a, n)] & Mask(n % 8) != 0
  }

  function Flip(a: Bytes, n: nat): (r: Bytes)
    requires n < 8 * |a|
    ensures |r| == |a|
  {
    a[ByteIndex(a, n) := a[ByteIndex(a, n)] ^ Mask(n % 8)]
  }

  /** Flipping a bit flips that bit and no other. */
  lemma FlipBit(a: Bytes, n: nat, k: nat)
    requires n < 8 * |a| && k < 8 * |a|
    ensures Bit(Flip(a, n), k) == if k == n then !Bit(a, k) else Bit(a, k)
  {
    var i := ByteIndex(a, n);
    Masks(n % 8, k % 8);
    if k / 8 == n / 8 {
      if k == n {
        FlipSet(a[i], Mask(n % 8));
      } else {
        FlipApart(a[i], Mask(n % 8), Mask(k % 8));
      }
    }
  }

  /** The bits of a block, the lowest first. */
  function Bits(a: Bytes): (b: seq<bool>)
    ensures |b| == 8 * |a|
  {
    seq(8 * |a|, k requires 0 <= k < 8 * |a| => Bit(a, k))
  }

  lemma FlipBits(a: Bytes, n: nat)
    requires n < 8 * |a|
    ensures Bits(Flip(a, n)) == Bits(a)[n := !Bits(a)[n]]
  {
    forall k | 0 <= k < 8 * |a|
      ensures Bit(Flip(a, n), k) == if k == n then !Bit(a, k) else Bit(a, k)
    {
      FlipBit(a, n, k);
    }
  }

  lemma BitsAreBlock(a: Bytes, b: Bytes)
    requires Bits(a) == Bits(b)
    ensures a == b
  {
    assert |a| == |b|;
    forall i | 0 <= i < |a|
      ensures a[i] == b[i]
    {
      BitsAreByte(a, b, i);
    }
  }

  lemma BitsAreByte(a: Bytes, b: Bytes, i: nat)
    requires |a| == |b| && Bits(a) == Bits(b) && i < |a|
    ensures a[i] == b[i]
  {
    forall k: nat | k < 8
      ensures a[i] & Mask(k) == b[i] & Mask(k)
    {
      BitOfByte(a, b, i, k);
    }
    assert a[i] & Mask(0) == b[i] & Mask(0) && a[i] & Mask(1) == b[i] & Mask(1);
    assert a[i] & Mask(2) == b[i] & Mask(2) && a[i] & Mask(3) == b[i] & Mask(3);
    assert a[i] & Mask(4) == b[i] & Mask(4) && a[i] & Mask(5) == b[i] & Mask(5);
    assert a[i] & Mask(6) == b[i] & Mask(6) && a[i] & Mask(7) == b[i] & Mask(7);
    ByteOfBits(a[i], b[i]);
  }

  lemma BitOfByte(a: Bytes, b: Bytes, i: nat, k: nat)
    requires |a| == |b| && Bits(a) == Bits(b) && i < |a| && k < 8
    ensures a[i] & Mask(k) == b[i] & Mask(k)
  {
    var n := 8 * (|a| - 1 - i) + k;
    assert n / 8 == |a| - 1 - i && n % 8 == k;
    assert Bits(a)[n] == Bits(b)[n];
    Masks(k, k);
    OneBit(a[i], b[i], Mask(k));
  }

  lemma OneBit(x: bv8, y: bv8, m: bv8)
    requires m & (m - 1) == 0 && (x & m != 0 <==> y & m != 0)
    ensures x & m == y & m
  {
  }

  // ------------------------------------------------------------ counters

  function Pow2(n: nat): (p: nat)
    ensures p >= 1
  {
    if n == 0 then 1 else 2 * Pow2(n - 1)
  }

  /** The number that bits spell, the lowest first. */
  function Value(b: seq<bool>): (v: nat)
    ensures v < Pow2(|b|)
  {
    if b == [] then 0 else (if b[0] then 1 else 0) + 2 * Value(b[1..])
  }

  function Increment(b: seq<bool>): (r: seq<bool>)
    ensures |r| == |b|
  {
    if b == [] then []
    else if b[0] then [false] + Increment(b[1..])
    else [true] + b[1..]
  }

  lemma {:induction false} IncrementValue(b: seq<bool>)
    ensures Value(Increment(b)) == if Value(b) + 1 == Pow2(|b|) then 0 else Value(b) + 1
  {
    if b != [] && b[0] {
      IncrementValue(b[1..]);
    }
  }

  lemma {:induction false} ValueIsBits(b: seq<bool>, c: seq<bool>)
    requires |b| == |c| && Value(b) == Value(c)
    ensures b == c
  {
    if b != [] {
      ValueIsBits(b[1..], c[1..]);
      assert b == [b[0]] + b[1..] && c == [c[0]] + c[1..];
    }
  }

  // ------------------------------------------------------------ the increment

  /** Flip bits upwards from n until one becomes set. */
  function Carry(a: Bytes, n: nat, bits: nat): (r: Bytes)
    requires bits <= 8 * |a|
    ensures |r| == |a|
    decreases bits - n
  {
    if n >= bits then a
    else if Bit(Flip(a, n), n) then Flip(a, n)
    else Carry(Flip(a, n), n + 1, bits)
  }

  /** The increment of bits n up to bits, in the whole. */
  function IncrementWithin(b: seq<bool>, n: nat, bits: nat): seq<bool>
    requires n <= bits <= |b|
  {
    b[..n] + Increment(b[n..bits]) + b[bits..]
  }

  lemma IncrementFrom(b: seq<bool>, n: nat, bits: nat)
    requires n < bits <= |b|
    ensures b[n] ==> IncrementWithin(b, n, bits) == IncrementWithin(b[n := false], n + 1, bits)
    ensures !b[n] ==> IncrementWithin(b, n, bits) == b[n := true]
  {
    assert b[n..bits][0] == b[n] && b[n..bits][1..] == b[n + 1..bits];
    if b[n] {
      var c := b[n := false];
      assert c[..n + 1] == b[..n] + [false] && c[n + 1..bits] == b[n + 1..bits] && c[bits..] == b[bits..];
    }
  }

  lemma {:induction false} CarryBits(a: Bytes, n: nat, bits: nat)
    requires n <= bits <= 8 * |a|
    ensures Bits(Carry(a, n, bits)) == IncrementWithin(Bits(a), n, bits)
    decreases bits - n
  {
    if n < bits {
      FlipBits(a, n);
      IncrementFrom(Bits(a), n, bits);
      assert Bits(Flip(a, n))[n] == Bit(Flip(a, n), n);
      if Bits(a)[n] {
        CarryBits(Flip(a, n), n + 1, bits);
      }
    }
  }

  /** b is a with its low bits counted up by one, wrapping within them, and the rest kept. */
  predicate IsNext(a: Bytes, b: Bytes, bits: nat) {
    && |b| == |a| && bits <= 8 * |a|
    && Bits(b)[bits..] == Bits(a)[bits..]
    && var v := Value(Bits(a)[..bits]); Value(Bits(b)[..bits]) == if v + 1 == Pow2(bits) then 0 else v + 1
  }

  lemma CarryIsNext(a: Bytes, bits: nat)
    requires bits <= 8 * |a|
    ensures IsNext(a, Carry(a, 0, bits), bits)
  {
    var b, c := Bits(a), Bits(Carry(a, 0, bits));
    CarryBits(a, 0, bits);
    assert b[0..bits] == b[..bits] && c[..bits] == Increment(b[..bits]) && c[bits..] == b[bits..];
    IncrementValue(b[..bits]);
  }

  // ------------------------------------------------------------ what that means for numbers

  lemma ModUnique(x: nat, m: nat, q: int, r: nat)
    requires m > 0 && r < m && x == q * m + r
    ensures x % m == r
  {
    var d := x / m - q;
    assert d * m == x / m * m - q * m;
    assert d >= 1 ==> d * m >= m;
    assert d <= -1 ==> d * m + m <= 0;
  }

  lemma DivUnique(x: nat, m: nat, q: nat, r: nat)
    requires m > 0 && r < m && x == q * m + r
    ensures x / m == q
  {
    var d := x / m - q;
    assert d * m == x / m * m - q * m;
    assert d >= 1 ==> d * m >= m;
    assert d <= -1 ==> d * m + m <= 0;
  }

  lemma ModStep(x: nat, m: nat)
    requires m > 0
    ensures (x + 1) % m == if x % m + 1 == m then 0 else x % m + 1
  {
    var q, r := x / m, x % m;
    if r + 1 == m {
      assert x + 1 == (q + 1) * m;
      ModUnique(x + 1, m, q + 1, 0);
    } else {
      ModUnique(x + 1, m, q, r + 1);
    }
  }

  lemma SumOf(x: nat, d: nat, m: nat)
    requires m > 0 && d % m == 0
    ensures (x + d) % m == x % m
  {
    var q := x / m + d / m;
    assert x + d == q * m + x % m;
    ModUnique(x + d, m, q, x % m);
  }

  /** The number v with its low bits counted up by k, modulo 2^bits, and the rest kept. */
  function CountedUp(v: nat, bits: nat, k: nat): nat {
    Counted(v, Pow2(bits), k)
  }

  function Counted(v: nat, m: nat, k: nat): nat
    requires m >= 1
  {
    Whole(v, m);
    v / m * m + (v + k) % m
  }

  lemma Whole(v: nat, m: nat)
    requires m >= 1
    ensures v / m * m >= 0
  {
    assert v / m >= 0;
    NatProduct(v / m, m);
  }

  lemma NatProduct(x: nat, y: nat)
    ensures x * y >= 0
  {
  }

  lemma TwiceProduct(x: nat, y: nat)
    ensures 2 * x * y == 2 * (x * y)
  {
  }

  lemma {:induction false} ValueConcat(p: seq<bool>, q: seq<bool>)
    ensures Value(p + q) == Value(p) + Pow2(|p|) * Value(q)
  {
    if p == [] {
      assert p + q == q;
    } else {
      ValueConcat(p[1..], q);
      assert (p + q)[1..] == p[1..] + q;
      TwiceProduct(Pow2(|p| - 1), Value(q));
    }
  }

  /** A bit's share of a number. */
  function Share(b: bool, v: nat): nat {
    if b then v else 0
  }

  lemma ShareTimes(b: bool, v: nat)
    ensures 16 * Share(b, v) == Share(b, 16 * v)
  {
  }

  lemma ByteSum(x: bv8)
    ensures x as nat
         == Share(x & 1 != 0, 1) + Share(x & 2 != 0, 2) + Share(x & 4 != 0, 4) + Share(x & 8 != 0, 8)
            + Share(x & 16 != 0, 16) + Share(x & 32 != 0, 32) + Share(x & 64 != 0, 64) + Share(x & 128 != 0, 128)
  {
  }

  lemma ValueOfFour(b: seq<bool>)
    requires |b| == 4
    ensures Value(b) == Share(b[0], 1) + Share(b[1], 2) + Share(b[2], 4) + Share(b[3], 8)
  {
    assert b[1..][1..] == b[2..] && b[2..][1..] == b[3..] && b[3..][1..] == [];
    assert Value(b[2..]) == Share(b[2], 1) + 2 * Value(b[3..]);
  }

  lemma ValueHalves(b: seq<bool>)
    requires |b| == 8
    ensures Value(b) == Value(b[..4]) + 16 * Value(b[4..])
  {
    hide Value;
    ValueConcat(b[..4], b[4..]);
    assert b == b[..4] + b[4..];
    assert Pow2(4) == 16;
  }

  lemma ValueOfEight(b: seq<bool>)
    requires |b| == 8
    ensures Value(b) == Share(b[0], 1) + Share(b[1], 2) + Share(b[2], 4) + Share(b[3], 8)
                        + Share(b[4], 16) + Share(b[5], 32) + Share(b[6], 64) + Share(b[7], 128)
  {
    hide Value, Share;
    ValueOfFour(b[..4]);
    ValueOfFour(b[4..]);
    ValueHalves(b);
    ShareTimes(b[4], 1);
    ShareTimes(b[5], 2);
    ShareTimes(b[6], 4);
    ShareTimes(b[7], 8);
  }

  lemma ByteValue(a: Bytes)
    requires |a| == 1
    ensures Value(Bits(a)) == a[0] as nat
  {
    hide Value, Share;
    ValueOfEight(Bits(a));
    ByteSum(a[0]);
  }

  lemma BitsSplit(a: Bytes)
    requires a != []
    ensures Bits(a) == Bits(a[|a| - 1..]) + Bits(a[..|a| - 1])
  {
    var low, high := a[|a| - 1..], a[..|a| - 1];
    forall k | 0 <= k < 8 * |a|
      ensures Bits(a)[k] == (Bits(low) + Bits(high))[k]
    {
      if k >= 8 {
        assert (k - 8) / 8 == k / 8 - 1 && (k - 8) % 8 == k % 8;
      }
    }
  }

  /** The bits of a block spell the number its bytes spell. */
  lemma {:induction false} BitsSpell(a: Bytes)
    ensures Value(Bits(a)) == BigEndian(a)
  {
    if a != [] {
      hide Bits, Value;
      var low, high := a[|a| - 1..], a[..|a| - 1];
      BitsSpell(high);
      BitsSplit(a);
      ByteValue(low);
      ValueConcat(Bits(low), Bits(high));
      assert Pow2(8) == 256;
    } else {
      assert Bits(a) == [];
    }
  }

  lemma CountParts(v: nat, bits: nat, lo: nat, hi: nat, k: nat)
    requires lo < Pow2(bits) && v == lo + Pow2(bits) * hi
    ensures CountedUp(v, bits, k) == (lo + k) % Pow2(bits) + Pow2(bits) * hi
  {
    var m := Pow2(bits);
    DivUnique(v, m, hi, lo);
    ModUnique(m * hi, m, hi, 0);
    SumOf(lo + k, m * hi, m);
  }

  lemma ValueSplit(b: seq<bool>, n: nat)
    requires n <= |b|
    ensures Value(b) == Value(b[..n]) + Pow2(n) * Value(b[n..])
  {
    hide Value, Pow2;
    ValueConcat(b[..n], b[n..]);
    assert b == b[..n] + b[n..];
  }

  lemma NumberParts(a: Bytes, bits: nat)
    requires bits <= 8 * |a|
    ensures BigEndian(a) == Value(Bits(a)[..bits]) + Pow2(bits) * Value(Bits(a)[bits..])
  {
    hide Bits, Value, BigEndian, Pow2;
    BitsSpell(a);
    ValueSplit(Bits(a), bits);
  }

  /** So the increment counts the low bits of the number up by one. */
  lemma NextNumber(a: Bytes, b: Bytes, bits: nat)
    requires IsNext(a, b, bits)
    ensures BigEndian(b) == CountedUp(BigEndian(a), bits, 1)
  {
    hide Bits, Value;
    NumberParts(a, bits);
    NumberParts(b, bits);
    var lo := Value(Bits(a)[..bits]);
    CountParts(BigEndian(a), bits, lo, Value(Bits(a)[bits..]), 1);
    ModUnique(lo, Pow2(bits), 0, lo);
    ModStep(lo, Pow2(bits));
  }

  /** The increment in place. */
  method IncrCounterBits(ctr: array<bv8>, bits: nat)
    requires bits <= 8 * ctr.Length
    modifies ctr
    ensures ctr[..] == Carry(old(ctr[..]), 0, bits) && IsNext(old(ctr[..]), ctr[..], bits)
    ensures BigEndian(ctr[..]) == CountedUp(old(BigEndian(ctr[..])), bits, 1)
  {
    CarryIsNext(ctr[..], bits);
    NextNumber(ctr[..], Carry(ctr[..], 0, bits), bits);
    ghost var end := Carry(ctr[..], 0, bits);
    var bit := 0;
    while bit < bits
      invariant 0 <= bit <= bits
      invariant Carry(ctr[..], bit, bits) == end
    {
      var done := FlipInPlace(ctr, bit);
      if done {
        return;
      }
      bit := bit + 1;
    }
  }

  /** One turn of the loop: flip, and say whether the bit is now set. */
  method FlipInPlace(ctr: array<bv8>, bit: nat) returns (isSet: bool)
    requires bit < 8 * ctr.Length
    modifies ctr
    ensures ctr[..] == Flip(old(ctr[..]), bit) && isSet == Bit(ctr[..], bit)
  {
    var idx := ByteIndex(ctr[..], bit);
    var mask := Mask(bit % 8);
    var flipped := ctr[idx] ^ mask;
    isSet := flipped & mask != 0;
    ctr[idx] := flipped;
  }

  // ------------------------------------------------------------ the key stream

  function Counter(start: Block, bits: nat, k: nat): (c: Block)
    requires bits <= 128
  {
    if k == 0 then start else Carry(Counter(start, bits, k - 1), 0, bits)
  }

  /** Block k is the nonce with the counter k steps on, modulo 2^bits. */
  lemma {:induction false} CounterIs(start: Block, bits: nat, k: nat)
    requires bits <= 128
    ensures var b, c := Bits(start), Bits(Counter(start, bits, k));
      c[bits..] == b[bits..] && Value(c[..bits]) == (Value(b[..bits]) + k) % Pow2(bits)
  {
    var v := Value(Bits(start)[..bits]);
    if k == 0 {
      ModUnique(v, Pow2(bits), 0, v);
    } else {
      CounterIs(start, bits, k - 1);
      CarryIsNext(Counter(start, bits, k - 1), bits);
      ModStep(v + k - 1, Pow2(bits));
    }
  }

  /** In numbers, without a word on bits. */
  lemma CounterNumber(start: Block, bits: nat, k: nat)
    requires bits <= 128
    ensures BigEndian(Counter(start, bits, k)) == CountedUp(BigEndian(start), bits, k)
    ensures Counter(start, bits, k) == Octets(CountedUp(BigEndian(start), bits, k), 16)
  {
    hide Bits, Value;
    var c := Counter(start, bits, k);
    CounterIs(start, bits, k);
    NumberParts(start, bits);
    NumberParts(c, bits);
    CountParts(BigEndian(start), bits, Value(Bits(start)[..bits]), Value(Bits(start)[bits..]), k);
    OctetsBigEndian(c);
  }

  /** Counter blocks repeat exactly with period 2^bits. */
  lemma CountersRepeat(start: Block, bits: nat, j: nat, k: nat)
    requires bits <= 128 && j <= k
    ensures Counter(start, bits, j) == Counter(start, bits, k) <==> (k - j) % Pow2(bits) == 0
  {
    var v := Value(Bits(start)[..bits]);
    var a, b := Counter(start, bits, j), Counter(start, bits, k);
    CounterIs(start, bits, j);
    CounterIs(start, bits, k);
    SameResidue(v + j, v + k, Pow2(bits));
    if Value(Bits(a)[..bits]) == Value(Bits(b)[..bits]) {
      ValueIsBits(Bits(a)[..bits], Bits(b)[..bits]);
      assert Bits(a) == Bits(a)[..bits] + Bits(a)[bits..] && Bits(b) == Bits(b)[..bits] + Bits(b)[bits..];
      BitsAreBlock(a, b);
    }
  }

  lemma SameResidue(x: nat, y: nat, m: nat)
    requires m > 0 && x <= y
    ensures x % m == y % m <==> (y - x) % m == 0
  {
    if x % m == y % m {
      DifferenceOf(x, y, m);
    }
    if (y - x) % m == 0 {
      SumOf(x, y - x, m);
    }
  }

  lemma DifferenceOf(x: nat, y: nat, m: nat)
    requires m > 0 && x <= y && x % m == y % m
    ensures (y - x) % m == 0
  {
    var q := y / m - x / m;
    assert y - x == q * m;
    ModUnique(y - x, m, q, 0);
  }

  function KeyByte(encrypt: Block -> Block, start: Block, bits: nat, i: nat): bv8
    requires bits <= 128
  {
    encrypt(Counter(start, bits, i / 16))[i % 16]
  }

  function Crypt(encrypt: Block -> Block, start: Block, bits: nat, data: Bytes): (out: Bytes)
    requires bits <= 128
    ensures |out| == |data|
  {
    seq(|data|, i requires 0 <= i < |data| => data[i] ^ KeyByte(encrypt, start, bits, i))
  }

  lemma XorTwice(x: bv8, y: bv8)
    ensures (x ^ y) ^ y == x
  {
  }

  /** Applying the mode twice gives the data back, whatever its length. */
  lemma CryptTwice(encrypt: Block -> Block, start: Block, bits: nat, data: Bytes)
    requires bits <= 128
    ensures Crypt(encrypt, start, bits, Crypt(encrypt, start, bits, data)) == data
  {
    forall i | 0 <= i < |data|
      ensures Crypt(encrypt, start, bits, Crypt(encrypt, start, bits, data))[i] == data[i]
    {
      XorTwice(data[i], KeyByte(encrypt, start, bits, i));
    }
  }

  function Xored(a: Bytes, b: Bytes): (r: Bytes)
    requires |a| == |b|
    ensures |r| == |a|
  {
    seq(|a|, i requires 0 <= i < |a| => a[i] ^ b[i])
  }

  /** The inner loop: one block's worth, or less at the end. */
  method XorInto(out: array<bv8>, data: Bytes, off: nat, ks: Bytes)
    requires out.Length == |data| && off + |ks| <= |data|
    modifies out
    ensures out[..off + |ks|] == old(out[..off]) + Xored(data[off..off + |ks|], ks)
  {
    var i := 0;
    while i < |ks|
      invariant 0 <= i <= |ks| && out[..off] == old(out[..off])
      invariant forall j :: off <= j < off + i ==> out[j] == data[j] ^ ks[j - off]
    {
      out[off + i] := data[off + i] ^ ks[i];
      i := i + 1;
    }
  }

  lemma BlockCrypt(encrypt: Block -> Block, start: Block, bits: nat, data: Bytes, k: nat, n: nat)
    requires bits <= 128 && n <= 16 && 16 * k + n <= |data|
    ensures Crypt(encrypt, start, bits, data)[16 * k..16 * k + n]
         == Xored(data[16 * k..16 * k + n], encrypt(Counter(start, bits, k))[..n])
  {
    forall i | 0 <= i < n
      ensures KeyByte(encrypt, start, bits, 16 * k + i) == encrypt(Counter(start, bits, k))[i]
    {
      assert (16 * k + i) / 16 == k && (16 * k + i) % 16 == i;
    }
    var a, b := Crypt(encrypt, start, bits, data)[16 * k..16 * k + n],
      Xored(data[16 * k..16 * k + n], encrypt(Counter(start, bits, k))[..n]);
    assert |a| == |b| && forall i :: 0 <= i < n ==> a[i] == b[i];
  }

  /** One turn of the loop. */
  method CryptBlock(encrypt: Block -> Block, ghost start: Block, ghost bits: nat, data: Bytes,
                    ctr: Block, off: nat, out: array<bv8>, ghost k: nat) returns (n: nat)
    requires bits <= 128 && off == 16 * k < |data| == out.Length && ctr == Counter(start, bits, k)
    requires out[..off] == Crypt(encrypt, start, bits, data)[..off]
    modifies out
    ensures n <= 16 && off + n <= |data| && (off + n == |data| || n == 16)
    ensures out[..off + n] == Crypt(encrypt, start, bits, data)[..off + n]
  {
    var ks := encrypt(ctr);
    n := |data| - off;
    if n > 16 {
      n := 16;
    }
    XorInto(out, data, off, ks[..n]);
    BlockCrypt(encrypt, start, bits, data, k, n);
    ghost var want := Crypt(encrypt, start, bits, data);
    assert want[..off + n] == want[..off] + want[off..off + n];
  }

  // ------------------------------------------------------------ the mode

  /** Counter mode as the standard has it: byte i is xored with byte i mod 16 of the encrypted
      block whose number is the counter's with its low bits counted up i / 16 times. */
  ghost predicate IsCounterMode(encrypt: Block -> Block, counter: Block, bits: nat, data: Bytes, out: Bytes) {
    && |out| == |data|
    && forall i :: 0 <= i < |data| ==>
         out[i] == data[i] ^ encrypt(Octets(CountedUp(BigEndian(counter), bits, i / 16), 16))[i % 16]
  }

  /** A library's counter mode over this block function, which counts all 128 bits. */
  ghost predicate IsLibraryMode(encrypt: Block -> Block, library: (Block, Bytes) -> Bytes) {
    forall counter: Block, data: Bytes :: IsCounterMode(encrypt, counter, 128, data, library(counter, data))
  }

  lemma CryptIsMode(encrypt: Block -> Block, counter: Block, bits: nat, data: Bytes)
    requires bits <= 128
    ensures IsCounterMode(encrypt, counter, bits, data, Crypt(encrypt, counter, bits, data))
  {
    forall i | 0 <= i < |data|
      ensures KeyByte(encrypt, counter, bits, i)
           == encrypt(Octets(CountedUp(BigEndian(counter), bits, i / 16), 16))[i % 16]
    {
      CounterNumber(counter, bits, i / 16);
    }
  }

  lemma ModeUnique(encrypt: Block -> Block, counter: Block, bits: nat, data: Bytes, out: Bytes, out': Bytes)
    requires IsCounterMode(encrypt, counter, bits, data, out) && IsCounterMode(encrypt, counter, bits, data, out')
    ensures out == out'
  {
    hide Octets, CountedUp;
  }

  /** The whole mode, block by block. A counter of all 128 bits is left to the library. */
  method AesCtr(encrypt: Block -> Block, library: (Block, Bytes) -> Bytes, counter: Block, ctrBits: nat, data: Bytes)
    returns (out: array<bv8>)
    requires 1 <= ctrBits <= 128 && IsLibraryMode(encrypt, library)
    ensures IsCounterMode(encrypt, counter, ctrBits, data, out[..])
    ensures out[..] == Crypt(encrypt, counter, ctrBits, data)
  {
    CryptIsMode(encrypt, counter, ctrBits, data);
    if ctrBits >= 128 {
      var done := library(counter, data);
      ModeUnique(encrypt, counter, 128, data, done, Crypt(encrypt, counter, 128, data));
      out := new bv8[|data|](i requires 0 <= i < |data| => done[i]);
      assert out[..] == done;
      return;
    }
    out := new bv8[|data|];
    CryptBlocks(encrypt, counter, ctrBits, data, out);
  }

  method CryptBlocks(encrypt: Block -> Block, counter: Block, ctrBits: nat, data: Bytes, out: array<bv8>)
    requires ctrBits < 128 && out.Length == |data|
    modifies out
    ensures out[..] == Crypt(encrypt, counter, ctrBits, data)
  {
    var ctr := new bv8[16](i requires 0 <= i < 16 => counter[i]);
    assert ctr[..] == counter;
    ghost var want := Crypt(encrypt, counter, ctrBits, data);
    ghost var k, done := 0, 0;
    var off := 0;
    while off < |data|
      invariant off == 16 * k && ctr.Length == 16
      invariant ctr[..] == Counter(counter, ctrBits, k)
      invariant done == (if off <= |data| then off else |data|) && out[..done] == want[..done]
    {
      var n := CryptBlock(encrypt, counter, ctrBits, data, ctr[..], off, out, k);
      IncrCounterBits(ctr, ctrBits);
      off := off + 16;
      k, done := k + 1, done + n;
    }
  }
}
