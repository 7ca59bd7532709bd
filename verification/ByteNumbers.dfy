/** Byte strings as big-endian numbers. */
module ByteNumbers {

  type Bytes = seq<bv8>

  /** The number that bytes spell in base 256, the first byte the most significant. */
  function BigEndian(a: Bytes): nat {
    if a == [] then 0 else 256 * BigEndian(a[..|a| - 1]) + (a[|a| - 1] as nat)
  }

  /** The last n bytes of a number in base 256, the most significant first. */
  function Octets(v: nat, n: nat): (a: Bytes)
    ensures |a| == n
  {
    if n == 0 then [] else Octets(v / 256, n - 1) + [(v % 256) as bv8]
  }

  function Power256(n: nat): (p: nat)
    ensures p >= 1
  {
    if n == 0 then 1 else 256 * Power256(n - 1)
  }

  lemma {:induction false} BigEndianBound(a: Bytes)
    ensures BigEndian(a) < Power256(|a|)
  {
    if a != [] {
      BigEndianBound(a[..|a| - 1]);
    }
  }

  lemma {:induction false} ByteExists(v: nat) returns (x: bv8)
    requires v < 256
    ensures x as nat == v
  {
    if v == 0 {
      x := 0;
    } else {
      var y := ByteExists(v - 1);
      NextByte(y);
      x := y + 1;
    }
  }

  lemma NextByte(y: bv8)
    requires y as nat < 255
    ensures (y + 1) as nat == y as nat + 1
  {
  }

  lemma ByteBack(x: bv8)
    ensures (x as nat) as bv8 == x
  {
  }

  lemma ByteRoundTrip(v: nat)
    requires v < 256
    ensures (v as bv8) as nat == v
  {
    var x := ByteExists(v);
    ByteBack(x);
  }

  lemma QuotientBelow(v: nat, p: nat)
    requires v < 256 * p
    ensures v / 256 < p
  {
  }

  lemma BigEndianAppend(a: Bytes, x: bv8)
    ensures BigEndian(a + [x]) == 256 * BigEndian(a) + (x as nat)
  {
    assert (a + [x])[..|a|] == a;
  }

  /** Reading back what was written. */
  lemma {:induction false} BigEndianOctets(v: nat, n: nat)
    requires v < Power256(n)
    ensures BigEndian(Octets(v, n)) == v
    decreases n
  {
    if n > 0 {
      QuotientBelow(v, Power256(n - 1));
      BigEndianOctets(v / 256, n - 1);
      BigEndianAppend(Octets(v / 256, n - 1), (v % 256) as bv8);
      ByteRoundTrip(v % 256);
    }
  }

  lemma SplitLast(high: nat, low: nat)
    requires low < 256
    ensures (256 * high + low) / 256 == high && (256 * high + low) % 256 == low
  {
  }

  /** Writing back what was read. */
  lemma {:induction false} OctetsBigEndian(a: Bytes)
    ensures Octets(BigEndian(a), |a|) == a
  {
    if a != [] {
      hide BigEndian;
      var high, last := a[..|a| - 1], a[|a| - 1];
      OctetsBigEndian(high);
      assert a == high + [last];
      BigEndianAppend(high, last);
      SplitLast(BigEndian(high), last as nat);
      ByteBack(last);
    }
  }
}
