/** Geohashes (geospatial.py): a point is located by halving the longitude and
    latitude ranges in turn, and every five bits make one base-32 character.
    Halving +-180 and +-90 is exact in doubles for the precisions in use, so
    reals are faithful. */
module Geohash {
  import opened Wrappers

  const Base32 := "0123456789bcdefghjkmnpqrstuvwxyz"

  datatype Box = Box(latLo: real, lonLo: real, latHi: real, lonHi: real)

  const World := Box(-90.0, -180.0, 90.0, 180.0)

  /** Even positions halve the longitude, odd ones the latitude; a set bit keeps the upper half. */
  function Halve(b: Box, even: bool, bit: bool): Box {
    var midLon, midLat := (b.lonLo + b.lonHi) / 2.0, (b.latLo + b.latHi) / 2.0;
    if even then (if bit then b.(lonLo := midLon) else b.(lonHi := midLon))
    else (if bit then b.(latLo := midLat) else b.(latHi := midLat))
  }

  function IsEven(n: nat): bool { n % 2 == 0 }

  /** The cell a bit string names. */
  function Cell(bits: seq<bool>): Box {
    if bits == [] then World
    else Halve(Cell(bits[..|bits| - 1]), IsEven(|bits| - 1), bits[|bits| - 1])
  }

  function BitFor(b: Box, even: bool, lat: real, lon: real): bool {
    if even then lon >= (b.lonLo + b.lonHi) / 2.0 else lat >= (b.latLo + b.latHi) / 2.0
  }

  /** The first n bits of a point's address. */
  function Address(lat: real, lon: real, n: nat): (bits: seq<bool>)
    ensures |bits| == n
  {
    if n == 0 then []
    else
      var before := Address(lat, lon, n - 1);
      before + [BitFor(Cell(before), IsEven(n - 1), lat, lon)]
  }

  /** Cells are half-open, except that the last one in each direction includes the edge of the world. */
  predicate InCell(b: Box, lat: real, lon: real) {
    && b.latLo <= lat && (lat < b.latHi || lat == b.latHi == 90.0)
    && b.lonLo <= lon && (lon < b.lonHi || lon == b.lonHi == 180.0)
  }

  predicate InWorld(lat: real, lon: real) {
    -90.0 <= lat <= 90.0 && -180.0 <= lon <= 180.0
  }

  // ---- Bits and characters ----

  function Value(bits: seq<bool>): nat {
    if bits == [] then 0 else 2 * Value(bits[..|bits| - 1]) + Bit(bits[|bits| - 1])
  }

  /** `cd & mask` for a mask that is a power of two. */
  predicate Masked(cd: nat, mask: nat)
    requires mask > 0
  {
    (cd / mask) % 2 == 1
  }

  function Bits5(cd: nat): (bits: seq<bool>)
    ensures |bits| == 5
  {
    [Masked(cd, 16), Masked(cd, 8), Masked(cd, 4), Masked(cd, 2), Masked(cd, 1)]
  }

  function Bit(b: bool): nat { if b then 1 else 0 }

  lemma ValueOf5(bits: seq<bool>)
    requires |bits| == 5
    ensures Value(bits) == 16 * Bit(bits[0]) + 8 * Bit(bits[1]) + 4 * Bit(bits[2]) + 2 * Bit(bits[3]) + Bit(bits[4])
  {
    assert bits[..1][..0] == [] && bits[..2][..1] == bits[..1] && bits[..3][..2] == bits[..2];
    assert bits[..4][..3] == bits[..3] && bits[..5] == bits && bits[..5][..4] == bits[..4];
    assert Value(bits[..1]) == Bit(bits[0]);
    assert Value(bits[..2]) == 2 * Value(bits[..1]) + Bit(bits[1]);
    assert Value(bits[..3]) == 2 * Value(bits[..2]) + Bit(bits[2]);
    assert Value(bits[..4]) == 2 * Value(bits[..3]) + Bit(bits[3]);
    assert Value(bits) == 2 * Value(bits[..4]) + Bit(bits[4]);
  }

  lemma MaskedBits(a: bool, b: bool, c: bool, d: bool, e: bool)
    ensures var v := 16 * Bit(a) + 8 * Bit(b) + 4 * Bit(c) + 2 * Bit(d) + Bit(e);
            && v < 32 && Masked(v, 16) == a && Masked(v, 8) == b && Masked(v, 4) == c && Masked(v, 2) == d
            && Masked(v, 1) == e
  {
  }

  lemma Value5(bits: seq<bool>)
    requires |bits| == 5
    ensures Value(bits) < 32 && Bits5(Value(bits)) == bits
  {
    hide Masked, Value;
    ValueOf5(bits);
    MaskedBits(bits[0], bits[1], bits[2], bits[3], bits[4]);
  }

  lemma MasksSum(cd: nat)
    requires cd < 32
    ensures 16 * Bit(Masked(cd, 16)) + 8 * Bit(Masked(cd, 8)) + 4 * Bit(Masked(cd, 4))
            + 2 * Bit(Masked(cd, 2)) + Bit(Masked(cd, 1)) == cd
  {
  }

  lemma Bits5Value(cd: nat)
    requires cd < 32
    ensures Value(Bits5(cd)) == cd
  {
    hide Masked, Value;
    ValueOf5(Bits5(cd));
    MasksSum(cd);
  }

  /** `base32.index(c)`; None where the source raises ValueError. */
  function Index(c: char): (i: Option<nat>)
    ensures i.Some? ==> i.value < 32 && Base32[i.value] == c
    ensures i.None? ==> c !in Base32
  {
    IndexFrom(c, 0)
  }

  function IndexFrom(c: char, i: nat): (r: Option<nat>)
    requires i <= 32
    ensures r.Some? ==> i <= r.value < 32 && Base32[r.value] == c
    ensures r.None? ==> forall j :: i <= j < 32 ==> Base32[j] != c
    decreases 32 - i
  {
    if i == 32 then None else if Base32[i] == c then Some(i) else IndexFrom(c, i + 1)
  }

  lemma Base32Ascends(i: nat)
    requires i < 31
    ensures Base32[i] < Base32[i + 1]
  {
  }

  lemma {:induction false} Base32Injective(i: nat, j: nat)
    requires i < j < 32
    ensures Base32[i] < Base32[j]
    decreases j
  {
    Base32Ascends(j - 1);
    if i < j - 1 {
      Base32Injective(i, j - 1);
    }
  }

  lemma IndexOfBase32(i: nat)
    requires i < 32
    ensures Index(Base32[i]) == Some(i)
  {
    var r := Index(Base32[i]);
    if r.Some? && r.value < i {
      Base32Injective(r.value, i);
    } else if r.Some? && i < r.value {
      Base32Injective(i, r.value);
    }
  }

  predicate Valid(g: string) {
    forall c :: c in g ==> c in Base32
  }

  /** n characters from 5n bits. */
  function Chars(bits: seq<bool>, n: nat): (g: string)
    requires |bits| == 5 * n
    ensures |g| == n
  {
    if n == 0 then []
    else
      var k := 5 * (n - 1);
      Value5(bits[k..]);
      Chars(bits[..k], n - 1) + [Base32[Value(bits[k..])]]
  }

  function BitsOf(g: string): (bits: seq<bool>)
    requires Valid(g)
    ensures |bits| == 5 * |g|
  {
    if g == [] then []
    else BitsOf(g[..|g| - 1]) + Bits5(Index(g[|g| - 1]).value)
  }

  lemma CharsStep(bits: seq<bool>, k: nat)
    requires |bits| == 5 * (k + 1)
    ensures Value(bits[5 * k..]) < 32
    ensures Chars(bits, k + 1) == Chars(bits[..5 * k], k) + [Base32[Value(bits[5 * k..])]]
  {
    Value5(bits[5 * k..]);
  }

  lemma ValidParts(g: string, n: nat)
    requires Valid(g) && n < |g|
    ensures Valid(g[..n]) && Index(g[n]).Some?
  {
    hide Index, Base32;
    assert forall c :: c in g[..n] ==> c in g;
    assert g[n] in g;
  }

  lemma BitsStep(g: string, n: nat)
    requires Valid(g) && |g| == n + 1
    ensures Valid(g[..n]) && Index(g[n]).Some? && BitsOf(g) == BitsOf(g[..n]) + Bits5(Index(g[n]).value)
  {
    hide Index, Bits5, Valid, Base32;
    ValidParts(g, n);
  }

  lemma {:induction false} BitsOfChars(bits: seq<bool>, n: nat)
    requires |bits| == 5 * n
    ensures Valid(Chars(bits, n)) && BitsOf(Chars(bits, n)) == bits
    decreases n
  {
    hide Value, Bits5, Index, Chars, BitsOf;
    if n > 0 {
      var k := 5 * (n - 1);
      BitsOfChars(bits[..k], n - 1);
      Value5(bits[k..]);
      IndexOfBase32(Value(bits[k..]));
      var g := Chars(bits, n);
      CharsStep(bits, n - 1);
      assert g[..n - 1] == Chars(bits[..k], n - 1);
      assert Valid(g) by { assert forall c :: c in g ==> c in g[..n - 1] || c == g[n - 1]; }
      BitsStep(g, n - 1);
      assert bits[..k] + bits[k..] == bits;
    } else {
      NoChars(bits);
    }
  }

  lemma NoChars(bits: seq<bool>)
    requires bits == []
    ensures Chars(bits, 0) == [] && Valid([]) && BitsOf([]) == []
  {
  }

  lemma {:induction false} CharsOfBits(g: string)
    requires Valid(g)
    ensures Chars(BitsOf(g), |g|) == g
    decreases |g|
  {
    hide Index, Bits5, Value, Chars, BitsOf;
    if g != [] {
      var n := |g| - 1;
      var last := Index(g[n]);
      BitsStep(g, n);
      var bits := BitsOf(g);
      CharsOfBits(g[..n]);
      CharsStep(bits, n);
      Bits5Value(last.value);
      assert bits[..5 * n] == BitsOf(g[..n]) && bits[5 * n..] == Bits5(last.value);
      assert g[..n] + [g[n]] == g;
    } else {
      NoChars([]);
    }
  }

  // ---- Encode and decode ----

  function Encode(lat: real, lon: real, precision: nat): (g: string)
    ensures |g| == precision
  {
    Chars(Address(lat, lon, 5 * precision), precision)
  }

  function Decode(g: string): Box
    requires Valid(g)
  {
    Cell(BitsOf(g))
  }

  /** Appending bits refines the cell. */
  predicate Inside(a: Box, b: Box) {
    b.latLo <= a.latLo <= a.latHi <= b.latHi && b.lonLo <= a.lonLo <= a.lonHi <= b.lonHi
  }

  lemma {:induction false} CellInWorld(bits: seq<bool>)
    ensures var b := Cell(bits); b.latLo < b.latHi && b.lonLo < b.lonHi && Inside(b, World)
  {
    if bits != [] {
      CellInWorld(bits[..|bits| - 1]);
    }
  }

  /** A point of the world lies in the cell of bits exactly when bits are its address. */
  lemma {:induction false} AddressIffInCell(lat: real, lon: real, bits: seq<bool>)
    requires InWorld(lat, lon)
    ensures InCell(Cell(bits), lat, lon) <==> Address(lat, lon, |bits|) == bits
    decreases |bits|
  {
    if bits != [] {
      var n := |bits| - 1;
      var front := bits[..n];
      AddressIffInCell(lat, lon, front);
      CellInWorld(front);
      assert front + [bits[n]] == bits;
      var address := Address(lat, lon, |bits|);
      assert address[..n] == Address(lat, lon, n);
      if InCell(Cell(front), lat, lon) {
        assert address == front + [BitFor(Cell(front), IsEven(n), lat, lon)];
        assert InCell(Cell(bits), lat, lon) <==> BitFor(Cell(front), IsEven(n), lat, lon) == bits[n];
        assert address == bits <==> address[n] == bits[n];
      } else {
        assert !InCell(Cell(bits), lat, lon);
      }
    }
  }

  lemma {:induction false} AddressPrefix(lat: real, lon: real, n: nat, m: nat)
    requires n <= m
    ensures Address(lat, lon, m)[..n] == Address(lat, lon, n)
    decreases m
  {
    if n < m {
      AddressPrefix(lat, lon, n, m - 1);
      assert Address(lat, lon, m)[..n] == Address(lat, lon, m - 1)[..n];
    }
  }

  lemma {:induction false} CharsPrefix(bits: seq<bool>, n: nat, m: nat)
    requires |bits| == 5 * m && n <= m
    ensures Chars(bits, m)[..n] == Chars(bits[..5 * n], n)
    decreases m
  {
    if n == m {
      assert bits[..5 * n] == bits;
    } else {
      var k := 5 * (m - 1);
      CharsPrefix(bits[..k], n, m - 1);
      assert bits[..k][..5 * n] == bits[..5 * n];
      assert Chars(bits, m)[..n] == Chars(bits[..k], m - 1)[..n];
    }
  }

  // ---- Theorems ----

  /** A point encodes to g exactly when it lies in the box g decodes to. */
  lemma EncodeIffInBox(lat: real, lon: real, g: string)
    requires InWorld(lat, lon) && Valid(g)
    ensures Encode(lat, lon, |g|) == g <==> InCell(Decode(g), lat, lon)
  {
    AddressIffInCell(lat, lon, BitsOf(g));
    var address := Address(lat, lon, 5 * |g|);
    CharsOfBits(g);
    BitsOfChars(address, |g|);
  }

  /** The box a point's geohash decodes to contains the point. */
  lemma DecodeContains(lat: real, lon: real, precision: nat)
    requires InWorld(lat, lon)
    ensures Valid(Encode(lat, lon, precision)) && InCell(Decode(Encode(lat, lon, precision)), lat, lon)
  {
    var address := Address(lat, lon, 5 * precision);
    BitsOfChars(address, precision);
    AddressIffInCell(lat, lon, address);
  }

  /** Encoding the centre of a decoded box gives the geohash back. */
  lemma EncodeCentre(g: string)
    requires Valid(g)
    ensures var b := Decode(g); Encode((b.latLo + b.latHi) / 2.0, (b.lonLo + b.lonHi) / 2.0, |g|) == g
  {
    CellInWorld(BitsOf(g));
    var b := Decode(g);
    EncodeIffInBox((b.latLo + b.latHi) / 2.0, (b.lonLo + b.lonHi) / 2.0, g);
  }

  /** A shorter encoding is a prefix of a longer one. */
  lemma ShorterIsPrefix(lat: real, lon: real, p: nat, q: nat)
    requires p <= q
    ensures Encode(lat, lon, p) == Encode(lat, lon, q)[..p]
  {
    AddressPrefix(lat, lon, 5 * p, 5 * q);
    CharsPrefix(Address(lat, lon, 5 * q), p, q);
  }

  function Pow2(n: nat): nat {
    if n == 0 then 1 else 2 * Pow2(n - 1)
  }

  /** How often the longitude, and the latitude, is halved by n bits. */
  function LonCount(n: nat): nat {
    if n == 0 then 0 else LonCount(n - 1) + (if IsEven(n - 1) then 1 else 0)
  }

  function LatCount(n: nat): nat {
    if n == 0 then 0 else LatCount(n - 1) + (if IsEven(n - 1) then 0 else 1)
  }

  lemma {:induction false} Counts(n: nat)
    ensures LonCount(n) == (n + 1) / 2 && LatCount(n) == n / 2
  {
    if n > 0 {
      Counts(n - 1);
    }
  }

  /** Width and height of a cell named by n bits. */
  function Width(n: nat): (w: real)
    ensures w > 0.0
  {
    if n == 0 then 360.0 else if IsEven(n - 1) then Width(n - 1) / 2.0 else Width(n - 1)
  }

  function Height(n: nat): (h: real)
    ensures h > 0.0
  {
    if n == 0 then 180.0 else if IsEven(n - 1) then Height(n - 1) else Height(n - 1) / 2.0
  }

  lemma {:induction false} CellSize(bits: seq<bool>)
    ensures var b := Cell(bits); b.lonHi == b.lonLo + Width(|bits|) && b.latHi == b.latLo + Height(|bits|)
    decreases |bits|
  {
    if bits != [] {
      CellSize(bits[..|bits| - 1]);
    }
  }

  lemma Halved(w: real, half: real, p: nat, total: real)
    requires w * p as real == total && half == w / 2.0
    ensures half * (2 * p) as real == total
  {
    assert (2 * p) as real == 2.0 * p as real;
  }

  lemma {:induction false} WidthIs(n: nat)
    ensures Width(n) * Pow2(LonCount(n)) as real == 360.0
  {
    if n > 0 {
      WidthIs(n - 1);
      if IsEven(n - 1) {
        Halved(Width(n - 1), Width(n), Pow2(LonCount(n - 1)), 360.0);
      }
    }
  }

  lemma {:induction false} HeightIs(n: nat)
    ensures Height(n) * Pow2(LatCount(n)) as real == 180.0
  {
    if n > 0 {
      HeightIs(n - 1);
      if !IsEven(n - 1) {
        Halved(Height(n - 1), Height(n), Pow2(LatCount(n - 1)), 180.0);
      }
    }
  }

  /** A geohash of length p names a box of 360/2^ceil(5p/2) by 180/2^floor(5p/2) degrees. */
  lemma DecodeSize(g: string)
    requires Valid(g)
    ensures var b, p := Decode(g), |g|;
            && (b.lonHi - b.lonLo) * Pow2((5 * p + 1) / 2) as real == 360.0
            && (b.latHi - b.latLo) * Pow2(5 * p / 2) as real == 180.0
  {
    hide Pow2, Cell, Width, Height;
    CellSize(BitsOf(g));
    WidthIs(5 * |g|);
    HeightIs(5 * |g|);
    Counts(5 * |g|);
  }

  // ---- The grid of same-size cells ----

  /** Column and row of a cell among the cells of its size. */
  function Column(bits: seq<bool>): nat {
    if bits == [] then 0
    else
      var n := |bits| - 1;
      if IsEven(n) then 2 * Column(bits[..n]) + Bit(bits[n]) else Column(bits[..n])
  }

  function RowOf(bits: seq<bool>): nat {
    if bits == [] then 0
    else
      var n := |bits| - 1;
      if IsEven(n) then RowOf(bits[..n]) else 2 * RowOf(bits[..n]) + Bit(bits[n])
  }

  /** k steps of size w. */
  function Steps(k: int, w: real): real { k as real * w }

  lemma StepsHalve(k: nat, b: nat, w: real)
    ensures Steps(2 * k + b, w / 2.0) == Steps(k, w) + Steps(b, w / 2.0)
    ensures Steps(0, w) == 0.0 && Steps(1, w / 2.0) == w / 2.0
  {
    assert (2 * k + b) as real == 2.0 * k as real + b as real;
  }

  lemma StepsAdd(k: int, d: int, w: real)
    ensures Steps(k + d, w) == Steps(k, w) + Steps(d, w)
    ensures Steps(1, w) == w && Steps(0, w) == 0.0 && Steps(-1, w) == -w
  {
    assert (k + d) as real == k as real + d as real;
  }

  lemma StepsMonotone(i: int, j: int, w: real)
    requires w > 0.0 && i < j
    ensures Steps(i, w) + w <= Steps(j, w)
  {
    StepsAdd(i, j - i, w);
    assert (j - i) as real * w >= w by { assert (j - i) as real >= 1.0; }
  }

  /** Grid positions less than one step apart coincide. */
  lemma SameStep(i: int, j: int, w: real)
    requires w > 0.0 && -w < Steps(i, w) - Steps(j, w) < w
    ensures i == j
  {
    hide Steps;
    if i < j {
      StepsMonotone(i, j, w);
    } else if j < i {
      StepsMonotone(j, i, w);
    }
  }

  lemma {:induction false} CellOnGrid(bits: seq<bool>)
    ensures var b, n := Cell(bits), |bits|;
            && b.lonLo == -180.0 + Steps(Column(bits), Width(n))
            && b.latLo == -90.0 + Steps(RowOf(bits), Height(n))
    decreases |bits|
  {
    hide Steps;
    if bits == [] {
      StepsAdd(0, 0, 360.0);
      StepsAdd(0, 0, 180.0);
    } else {
      var n := |bits| - 1;
      CellOnGrid(bits[..n]);
      CellSize(bits[..n]);
      StepsHalve(Column(bits[..n]), Bit(bits[n]), Width(n));
      StepsHalve(RowOf(bits[..n]), Bit(bits[n]), Height(n));
      StepsHalve(0, 0, Width(n) / 2.0);
      StepsHalve(0, 0, Height(n) / 2.0);
    }
  }
}
