/** The byte-level vocabulary shared by the sender and both receivers:
    fixed-width unsigned integers, their little-endian encoding (Rust's
    `to_le_bytes`, Python's `struct` formats '<H', '<I', '<Q') and the
    "SYNC" magic that opens a header datagram. */
module Wire {

  type byte = x: int | 0 <= x < 0x100
  type u16 = x: int | 0 <= x < 0x1_0000
  type u32 = x: int | 0 <= x < 0x1_0000_0000
  type u64 = x: int | 0 <= x < 0x1_0000_0000_0000_0000

  /** The header magic b"SYNC", as bytes. */
  const Magic: seq<byte> := [0x53, 0x59, 0x4E, 0x43]

  /** Python's `data[:4] == HEADER_MAGIC`: a shorter slice never equals the magic. */
  predicate HasMagic(data: seq<byte>)
    ensures HasMagic(data) <==>
      |data| >= 4 && data[0] == 0x53 && data[1] == 0x59 && data[2] == 0x4E && data[3] == 0x43
  {
    |data| >= 4 && data[..4] == Magic
  }

  /** What `sock.recvfrom(bufsize)` returns for a datagram on Linux: the
      datagram, or its first bufsize bytes when it is longer (the rest is
      discarded). */
  function Received(d: seq<byte>, bufsize: nat): (r: seq<byte>)
    ensures |r| <= |d| && r == d[..|r|]
    ensures |d| <= bufsize ==> r == d
    ensures |d| > bufsize ==> |r| == bufsize
  {
    if |d| <= bufsize then d else d[..bufsize]
  }

  /** 256 to the power n: the number of values n bytes can hold. */
  function Pow256(n: nat): (p: nat)
    ensures p >= 1
  {
    if n == 0 then 1 else 256 * Pow256(n - 1)
  }

  /** The ranges of the 2-, 4- and 8-byte fields. */
  lemma Pow256Widths()
    ensures Pow256(2) == 0x1_0000 && Pow256(3) == 0x100_0000 && Pow256(4) == 0x1_0000_0000
    ensures Pow256(8) == 0x1_0000_0000_0000_0000
  {
    assert Pow256(1) == 0x100;
    assert Pow256(2) == 0x1_0000;
    assert Pow256(3) == 0x100_0000;
    assert Pow256(4) == 0x1_0000_0000;
    assert Pow256(5) == 0x100_0000_0000;
    assert Pow256(6) == 0x1_0000_0000_0000;
    assert Pow256(7) == 0x100_0000_0000_0000;
  }

  /** The n-byte little-endian encoding of the low n bytes of v. */
  function LeBytes(v: nat, n: nat): (s: seq<byte>)
    ensures |s| == n
  {
    if n == 0 then [] else [v % 256] + LeBytes(v / 256, n - 1)
  }

  /** The unsigned integer whose little-endian encoding is s. */
  function LeValue(s: seq<byte>): (v: nat)
    ensures v < Pow256(|s|)
  {
    if s == [] then 0
    else
      var rest := LeValue(s[1..]);
      assert s[0] + 256 * rest <= 255 + 256 * (Pow256(|s| - 1) - 1);
      s[0] + 256 * rest
  }

  /** Decoding the encoding of a value that fits gives the value back. */
  lemma {:induction false} LeValueOfLeBytes(v: nat, n: nat)
    requires v < Pow256(n)
    ensures LeValue(LeBytes(v, n)) == v
  {
    if n > 0 {
      assert v / 256 < Pow256(n - 1);
      LeValueOfLeBytes(v / 256, n - 1);
      assert LeBytes(v, n)[1..] == LeBytes(v / 256, n - 1);
    }
  }

  /** Encoding the decoded value of some bytes gives the same bytes back. */
  lemma {:induction false} LeBytesOfLeValue(s: seq<byte>)
    ensures LeBytes(LeValue(s), |s|) == s
  {
    if s != [] {
      var v := LeValue(s);
      assert v % 256 == s[0] && v / 256 == LeValue(s[1..]);
      LeBytesOfLeValue(s[1..]);
    }
  }

  /** Decoding keeps only the value modulo 256^n: an encoding truncates. */
  lemma {:induction false} LeValueOfLeBytesMod(v: nat, n: nat)
    ensures LeValue(LeBytes(v, n)) == v % Pow256(n)
  {
    if n > 0 {
      LeValueOfLeBytesMod(v / 256, n - 1);
      assert LeBytes(v, n)[1..] == LeBytes(v / 256, n - 1);
      ModOfProduct(v, 256, Pow256(n - 1));
    }
  }

  /** The value of two byte strings laid end to end: the second one's
      bytes are the more significant. */
  lemma {:induction false} LeValueAppend(a: seq<byte>, b: seq<byte>)
    ensures LeValue(a + b) == LeValue(a) + Pow256(|a|) * LeValue(b)
  {
    if a != [] {
      LeValueAppend(a[1..], b);
      assert (a + b)[1..] == a[1..] + b;
      var x, p, y := LeValue(a[1..]), Pow256(|a| - 1), LeValue(b);
      assert LeValue(a + b) == a[0] + 256 * (x + p * y);
      assert LeValue(a) == a[0] + 256 * x && Pow256(|a|) == 256 * p;
      MulDistributes(256, x, p * y);
      MulAssociates(256, p, y);
    } else {
      assert a + b == b;
    }
  }

  lemma MulAssociates(a: int, b: int, c: int)
    ensures a * (b * c) == (a * b) * c
  {
  }

  /** A prefix of an encoding is the encoding to fewer bytes. */
  lemma {:induction false} LeBytesPrefix(v: nat, n: nat, m: nat)
    requires m <= n
    ensures LeBytes(v, n)[..m] == LeBytes(v, m)
  {
    if m > 0 {
      LeBytesPrefix(v / 256, n - 1, m - 1);
      assert LeBytes(v, n)[..m] == [v % 256] + LeBytes(v / 256, n - 1)[..m - 1];
    }
  }

  /** The remainder modulo a product, digit by digit. */
  lemma ModOfProduct(v: nat, a: nat, b: nat)
    requires a > 0 && b > 0
    ensures v % (a * b) == v % a + a * ((v / a) % b)
  {
    var q, r := v / a, v % a;
    var q2, r2 := q / b, q % b;
    var ab := a * b;
    assert v == a * q + r;
    assert q == b * q2 + r2;
    MulDistributes(a, b * q2, r2);
    MulAssociates(a, b, q2);
    assert v == ab * q2 + (a * r2 + r);
    MulDistributes(a, r2, b - 1 - r2);
    assert a * r2 <= a * (b - 1);
    MulDistributes(a, b - 1, 1);
    ModUnique(v, ab, q2, a * r2 + r);
  }

  lemma MulDistributes(a: int, b: int, c: int)
    ensures a * (b + c) == a * b + a * c
  {
  }

  /** Division with remainder is unique. */
  lemma ModUnique(v: nat, m: nat, q: nat, r: nat)
    requires m > 0 && r < m && v == m * q + r
    ensures v % m == r && v / m == q
  {
    var q', r' := v / m, v % m;
    assert m * q' + r' == m * q + r;
    if q' < q {
      var d := q - q';
      assert m * q == m * q' + m * d;
      MulAtLeast(m, d);
    } else if q' > q {
      var d := q' - q;
      assert m * q' == m * q + m * d;
      MulAtLeast(m, d);
    }
  }

  lemma MulAtLeast(m: nat, d: nat)
    requires d >= 1
    ensures m * d >= m
  {
    assert m * d == m + m * (d - 1);
  }
}
