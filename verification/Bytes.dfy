/** Big- and little-endian byte strings of fixed width. */
module Bytes {
  import opened Types

  type Byte = bv8

  function Pow256(width: nat): (p: nat)
    ensures p > 0
  {
    if width == 0 then 1 else 256 * Pow256(width - 1)
  }

  function ToBE(n: nat, width: nat): (s: seq<Byte>)
    ensures |s| == width
    decreases width
  {
    if width == 0 then [] else ToBE(n / 256, width - 1) + [(n % 256) as Byte]
  }

  function FromBE(s: seq<Byte>): (n: nat)
    ensures n < Pow256(|s|)
    decreases |s|
  {
    if s == [] then 0 else FromBE(s[..|s| - 1]) * 256 + s[|s| - 1] as int
  }

  function ToLE(n: nat, width: nat): (s: seq<Byte>)
    ensures |s| == width
    decreases width
  {
    if width == 0 then [] else [(n % 256) as Byte] + ToLE(n / 256, width - 1)
  }

  function FromLE(s: seq<Byte>): (n: nat)
    ensures n < Pow256(|s|)
    decreases |s|
  {
    if s == [] then 0 else s[0] as int + 256 * FromLE(s[1..])
  }

  lemma ByteRoundTrip(x: int)
    requires 0 <= x < 256
    ensures (x as Byte) as int == x
  {
    if x < 128 {
      if x < 64 {
        if x < 32 {} else {}
      } else {
        if x < 96 {} else {}
      }
    } else {
      if x < 192 {
        if x < 160 {} else {}
      } else {
        if x < 224 {} else {}
      }
    }
  }

  lemma {:induction false} BigEndianRoundTrip(n: nat, width: nat)
    requires n < Pow256(width)
    ensures FromBE(ToBE(n, width)) == n
    decreases width
  {
    if width > 0 {
      BigEndianRoundTrip(n / 256, width - 1);
      assert ToBE(n, width)[..width - 1] == ToBE(n / 256, width - 1);
      ByteRoundTrip(n % 256);
    }
  }

  lemma DivideTwice(n: nat, p: nat)
    requires p > 0
    ensures 256 * p > 0 && (n / 256) / p == n / (256 * p)
  {
    var q, low := n / 256, n % 256;
    var x, r := q / p, q % p;
    assert q == p * x + r;
    assert n == 256 * (p * x + r) + low == (256 * p) * x + (256 * r + low);
    assert 256 * r + low < 256 * p;
    QuotientIs(n, 256 * p, x, 256 * r + low);
  }

  lemma Distribute(d: nat, x: nat, k: nat)
    ensures d * (x + 1 + k) == d * x + d + d * k
    ensures d * k >= 0
  {
  }

  lemma TimesGrows(d: nat, x: nat, y: nat)
    ensures x < y ==> d * x + d <= d * y
  {
    if x < y {
      var k: nat := y - x - 1;
      Distribute(d, x, k);
      assert d * y == d * (x + 1 + k);
    }
  }

  lemma QuotientIs(n: nat, d: nat, x: nat, rest: nat)
    requires n == d * x + rest && rest < d
    ensures n / d == x
  {
    var y := n / d;
    assert d * y <= n < d * y + d;
    TimesGrows(d, x, y);
    TimesGrows(d, y, x);
  }

  /** Byte `k` of a little-endian number is its digit of weight 256 to the `k`. */
  lemma {:induction false} LittleEndianByte(n: nat, width: nat, k: nat)
    requires k < width
    ensures ToLE(n, width)[k] as int == (n / Pow256(k)) % 256
    decreases width
  {
    ByteRoundTrip(n % 256);
    if k > 0 {
      LittleEndianByte(n / 256, width - 1, k - 1);
      DivideTwice(n, Pow256(k - 1));
    }
  }

  /** Byte `k` from the end of a big-endian number is its digit of weight 256 to the `k`. */
  lemma {:induction false} BigEndianByte(n: nat, width: nat, k: nat)
    requires k < width
    ensures ToBE(n, width)[width - 1 - k] as int == (n / Pow256(k)) % 256
    decreases width
  {
    ByteRoundTrip(n % 256);
    if k > 0 {
      BigEndianByte(n / 256, width - 1, k - 1);
      DivideTwice(n, Pow256(k - 1));
    }
  }

  lemma Digits(high: nat, low: nat)
    requires low < 256
    ensures (high * 256 + low) / 256 == high && (high * 256 + low) % 256 == low
  {
  }

  lemma ByteOnto(b: Byte)
    ensures 0 <= b as int < 256 && (b as int) as Byte == b
  {
  }

  lemma {:induction false} BigEndianOnto(s: seq<Byte>)
    ensures ToBE(FromBE(s), |s|) == s
    decreases |s|
  {
    if s != [] {
      var last := s[|s| - 1];
      BigEndianOnto(s[..|s| - 1]);
      Digits(FromBE(s[..|s| - 1]), last as int);
      ByteOnto(last);
      assert ToBE(FromBE(s), |s|) == s[..|s| - 1] + [last];
    }
  }

  lemma {:induction false} LittleEndianRoundTrip(n: nat, width: nat)
    requires n < Pow256(width)
    ensures FromLE(ToLE(n, width)) == n
    decreases width
  {
    if width > 0 {
      LittleEndianRoundTrip(n / 256, width - 1);
      assert ToLE(n, width)[1..] == ToLE(n / 256, width - 1);
      ByteRoundTrip(n % 256);
    }
  }

  /** The order in which MDBX and redb cursors and `sort` visit byte strings. */
  predicate LexLess(a: seq<Byte>, b: seq<Byte>)
    requires |a| == |b|
    decreases |a|
  {
    a != [] && (a[0] < b[0] || (a[0] == b[0] && LexLess(a[1..], b[1..])))
  }

  lemma {:induction false} LeadingByte(s: seq<Byte>)
    requires s != []
    ensures FromBE(s) == (s[0] as int) * Pow256(|s| - 1) + FromBE(s[1..])
    decreases |s|
  {
    if |s| > 1 {
      var front, last := s[..|s| - 1], s[|s| - 1] as int;
      LeadingByte(front);
      assert front[1..] == s[1..][..|s| - 2];
      Shift(s[0] as int, Pow256(|s| - 2), FromBE(front[1..]), last);
    } else {
      assert s[..0] == [] && s[1..] == [];
    }
  }

  lemma Shift(a: int, p: int, r: int, last: int)
    ensures (a * p + r) * 256 + last == a * (256 * p) + (r * 256 + last)
  {
  }

  /** On byte strings of one width, lexicographic order is the order of the numbers they spell. */
  lemma {:induction false} LexicographicIsNumeric(a: seq<Byte>, b: seq<Byte>)
    requires |a| == |b|
    ensures LexLess(a, b) <==> FromBE(a) < FromBE(b)
    decreases |a|
  {
    if a != [] {
      LexicographicIsNumeric(a[1..], b[1..]);
      LeadingByte(a);
      LeadingByte(b);
      ByteOrder(a[0], b[0]);
      DigitsDecide(a[0] as int, b[0] as int, Pow256(|a| - 1), FromBE(a[1..]), FromBE(b[1..]));
    }
  }

  lemma ByteOrder(a: Byte, b: Byte)
    ensures a < b <==> (a as int) < (b as int)
    ensures a == b <==> (a as int) == (b as int)
  {
  }

  lemma DigitsDecide(x: nat, y: nat, p: nat, ra: nat, rb: nat)
    requires ra < p && rb < p
    ensures x * p + ra < y * p + rb <==> x < y || (x == y && ra < rb)
  {
    if x < y {
      LeadingDigitDecides(x, y, p, ra, rb);
    } else if y < x {
      LeadingDigitDecides(y, x, p, rb, ra);
    }
  }

  lemma LeadingDigitDecides(x: nat, y: nat, p: nat, ra: nat, rb: nat)
    requires ra < p && x < y
    ensures x * p + ra < y * p + rb
  {
    var d := y - x - 1;
    assert d * p >= 0;
    assert y * p == (x + 1 + d) * p == x * p + p + d * p;
  }

  lemma Widths()
    ensures Pow256(1) == 256 && Pow256(2) == 0x1_0000
    ensures Pow256(8) == TWO_64
    ensures Pow256(20) == TWO_160
    ensures Pow256(31) == TWO_248
    ensures Pow256(32) == TWO_256
  {
    var p4 := Pow256(4);
    assert p4 == 256 * Pow256(3);
    assert Pow256(3) == 0x100_0000;
    Doubling(4);
    Doubling(8);
    Split(16, 4);
    Split(16, 8);
    Split(24, 7);
    Split(31, 1);
    assert Pow256(7) == 0x1_000000_00000000;
  }

  lemma Doubling(w: nat)
    ensures Pow256(2 * w) == Pow256(w) * Pow256(w)
  {
    Split(w, w);
  }

  lemma {:induction false} Split(v: nat, w: nat)
    ensures Pow256(v + w) == Pow256(v) * Pow256(w)
    decreases w
  {
    if w > 0 {
      Split(v, w - 1);
      assert Pow256(v) * (256 * Pow256(w - 1)) == 256 * (Pow256(v) * Pow256(w - 1));
    }
  }

  lemma LastByte(n: nat, width: nat)
    requires width > 0
    ensures ToBE(n, width) == ToBE(n / 256, width - 1) + [(n % 256) as Byte]
  {
  }

  /** `tree_index_from_key`: 31 stem bytes, then the subindex byte. */
  lemma TreeIndexBytes(key: TreeKey)
    ensures ToBE(TreeIndex(key), 32) == ToBE(key.stem, 31) + [key.subindex as Byte]
  {
    hide ToBE;
    Digits(key.stem, key.subindex);
    LastByte(TreeIndex(key), 32);
  }

  /** `copy_from_slice` into the part of a buffer that starts at `at`. */
  method CopyInto(buffer: array<Byte>, at: nat, slice: seq<Byte>)
    requires at + |slice| <= buffer.Length
    modifies buffer
    ensures buffer[..at + |slice|] == old(buffer[..at]) + slice
    ensures buffer[at + |slice|..] == old(buffer[at + |slice|..])
  {
    forall i | 0 <= i < |slice| {
      buffer[at + i] := slice[i];
    }
  }
}
