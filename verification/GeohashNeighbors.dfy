/** Neighbouring geohashes, and the loops of geospatial.py proved against the
    functions of module Geohash. */
module GeohashNeighbors {
  import opened Wrappers
  import opened Geohash

  datatype Direction = Direction(dlat: int, dlon: int)

  /** n, ne, e, se, s, sw, w, nw. */
  const Directions: seq<Direction> :=
    [Direction(1, 0), Direction(1, 1), Direction(0, 1), Direction(-1, 1),
     Direction(-1, 0), Direction(-1, -1), Direction(0, -1), Direction(1, -1)]

  predicate Unit(d: Direction) {
    -1 <= d.dlat <= 1 && -1 <= d.dlon <= 1
  }

  function Neighbor(g: string, d: Direction): Option<string>
    requires Valid(g)
  {
    var b := Decode(g);
    var lat := (b.latLo + b.latHi) / 2.0 + Steps(d.dlat, b.latHi - b.latLo);
    var lon := (b.lonLo + b.lonHi) / 2.0 + Steps(d.dlon, b.lonHi - b.lonLo);
    if InWorld(lat, lon) then Some(Encode(lat, lon, |g|)) else None
  }

  function NeighborsFrom(g: string, directions: seq<Direction>): seq<string>
    requires Valid(g)
  {
    if directions == [] then []
    else
      var first := Neighbor(g, directions[0]);
      (if first.Some? then [first.value] else []) + NeighborsFrom(g, directions[1..])
  }

  function Neighbors(g: string): seq<string>
    requires Valid(g)
  {
    if g == [] then [] else NeighborsFrom(g, Directions)
  }

  /** The box of the same size d steps away. */
  function Shift(b: Box, d: Direction): Box {
    var dlat, dlon := Steps(d.dlat, b.latHi - b.latLo), Steps(d.dlon, b.lonHi - b.lonLo);
    Box(b.latLo + dlat, b.lonLo + dlon, b.latHi + dlat, b.lonHi + dlon)
  }

  /** A direction is dropped exactly when it leaves the world, and otherwise leads to the shifted box. */
  lemma NeighborIsShift(g: string, d: Direction)
    requires Valid(g)
    ensures var r, target := Neighbor(g, d), Shift(Decode(g), d);
            && (r.Some? <==> Inside(target, World))
            && (r.Some? ==> Valid(r.value) && |r.value| == |g| && Decode(r.value) == target)
  {
    hide Steps, Width, Height, Cell, Encode, Column, RowOf;
    var b, n, bits := Decode(g), 5 * |g|, BitsOf(g);
    CellSize(bits);
    CellOnGrid(bits);
    CellInWorld(bits);
    var r := Neighbor(g, d);
    if r.Some? {
      var lat := (b.latLo + b.latHi) / 2.0 + Steps(d.dlat, b.latHi - b.latLo);
      var lon := (b.lonLo + b.lonHi) / 2.0 + Steps(d.dlon, b.lonHi - b.lonLo);
      DecodeContains(lat, lon, |g|);
      var bits' := BitsOf(r.value);
      CellSize(bits');
      CellOnGrid(bits');
      CellInWorld(bits');
      StepsAdd(RowOf(bits), d.dlat, Height(n));
      StepsAdd(Column(bits), d.dlon, Width(n));
      SameStep(RowOf(bits'), RowOf(bits) + d.dlat, Height(n));
      SameStep(Column(bits'), Column(bits) + d.dlon, Width(n));
    }
  }

  /** Conversely, every geohash of the shifted box is the neighbour. */
  lemma ShiftIsNeighbor(g: string, d: Direction, h: string)
    requires Valid(g) && Valid(h) && |h| == |g| && Decode(h) == Shift(Decode(g), d)
    ensures Neighbor(g, d) == Some(h)
  {
    hide Steps, Cell, Encode;
    CellInWorld(BitsOf(h));
    var c := Decode(h);
    EncodeIffInBox((c.latLo + c.latHi) / 2.0, (c.lonLo + c.lonHi) / 2.0, h);
  }

  lemma ShiftInjective(g: string, d: Direction, e: Direction)
    requires Valid(g) && Unit(d) && Unit(e) && Shift(Decode(g), d) == Shift(Decode(g), e)
    ensures d == e
  {
    CellInWorld(BitsOf(g));
    var b := Decode(g);
    SameStep(d.dlat, e.dlat, b.latHi - b.latLo);
    SameStep(d.dlon, e.dlon, b.lonHi - b.lonLo);
  }

  /** h lies one step from g in one of the given directions. */
  ghost predicate OneOff(g: string, h: string, directions: seq<Direction>)
    requires Valid(g)
  {
    Valid(h) && |h| == |g| && exists d :: d in directions && Decode(h) == Shift(Decode(g), d)
  }

  lemma {:induction false} NeighborsFromExact(g: string, directions: seq<Direction>, h: string)
    requires Valid(g)
    ensures h in NeighborsFrom(g, directions) <==> OneOff(g, h, directions)
  {
    hide Neighbor, Shift, Valid;
    if directions != [] {
      var d, rest := directions[0], directions[1..];
      NeighborsFromExact(g, rest, h);
      NeighborIsShift(g, d);
      if OneOff(g, h, directions) {
        var e :| e in directions && Decode(h) == Shift(Decode(g), e);
        if e == d {
          ShiftIsNeighbor(g, d, h);
        } else {
          assert e in rest;
        }
      }
      if h in NeighborsFrom(g, rest) {
        var e :| e in rest && Decode(h) == Shift(Decode(g), e);
        assert e in directions;
      } else if h in NeighborsFrom(g, directions) {
        assert Decode(h) == Shift(Decode(g), d) && d in directions;
      }
    }
  }

  ghost predicate Distinct<T>(s: seq<T>) {
    forall i, j :: 0 <= i < j < |s| ==> s[i] != s[j]
  }

  lemma {:induction false} NeighborsFromDistinct(g: string, directions: seq<Direction>)
    requires Valid(g) && Distinct(directions)
    requires forall d :: d in directions ==> Unit(d) && d != Direction(0, 0)
    ensures Distinct(NeighborsFrom(g, directions)) && g !in NeighborsFrom(g, directions)
  {
    hide Neighbor, Shift, Valid, Unit;
    if directions != [] {
      var d, rest := directions[0], directions[1..];
      assert d in directions && forall e :: e in rest ==> e in directions;
      NeighborsFromDistinct(g, rest);
      NeighborIsShift(g, d);
      var first := Neighbor(g, d);
      if first.Some? {
        NeighborsFromExact(g, rest, first.value);
        if first.value in NeighborsFrom(g, rest) {
          var e :| e in rest && Decode(first.value) == Shift(Decode(g), e);
          ShiftInjective(g, d, e);
          assert false;
        }
        NotOwnNeighbor(g, d);
      }
    }
  }

  lemma NotOwnNeighbor(g: string, d: Direction)
    requires Valid(g) && Unit(d) && d != Direction(0, 0)
    ensures Shift(Decode(g), d) != Decode(g)
  {
    StepsAdd(0, 0, Decode(g).latHi - Decode(g).latLo);
    StepsAdd(0, 0, Decode(g).lonHi - Decode(g).lonLo);
    assert Unit(Direction(0, 0)) && Shift(Decode(g), Direction(0, 0)) == Decode(g);
    if Shift(Decode(g), d) == Decode(g) {
      ShiftInjective(g, d, Direction(0, 0));
    }
  }

  /** The neighbours are exactly the existing same-size cells one step away in the eight
      directions, pairwise distinct and different from g. */
  lemma NeighborsExact(g: string, h: string)
    requires Valid(g) && g != []
    ensures h in Neighbors(g) <==> OneOff(g, h, Directions)
    ensures Distinct(Neighbors(g)) && g !in Neighbors(g)
  {
    NeighborsFromExact(g, Directions, h);
    NeighborsFromDistinct(g, Directions);
  }

  // ---- The source's loops ----

  lemma AddressStep(lat: real, lon: real, n: nat, done: nat)
    requires done <= n
    ensures var a, b := Address(lat, lon, n), Address(lat, lon, n + 1);
            && b[n] == BitFor(Cell(a), IsEven(n), lat, lon)
            && Cell(b) == Halve(Cell(a), IsEven(n), b[n])
            && b[..done] == a[..done]
            && Value(b[done..]) == 2 * Value(a[done..]) + Bit(b[n])
  {
    hide Chars;
    var a, b := Address(lat, lon, n), Address(lat, lon, n + 1);
    assert b[..n] == a;
    assert b[done..][..|b[done..]| - 1] == a[done..];
  }

  method GeohashEncode(lat: real, lon: real, precision: nat) returns (geohash: string)
    ensures geohash == Encode(lat, lon, precision)
  {
    hide Chars, Address, Cell, Value, Encode;
    EncodeIs(lat, lon, precision);
    var latLo, latHi, lonLo, lonHi := -90.0, 90.0, -180.0, 180.0;
    geohash := [];
    var bits, bitsTotal, evenBit := 0, 0, true;
    ghost var n: nat := 0;
    EmptyAddress(lat, lon);
    while |geohash| < precision
      invariant |geohash| <= precision && bitsTotal < 5 && (|geohash| == precision ==> bitsTotal == 0)
      invariant n == 5 * |geohash| + bitsTotal && evenBit == IsEven(n)
      invariant Box(latLo, lonLo, latHi, lonHi) == Cell(Address(lat, lon, n))
      invariant geohash == Chars(Address(lat, lon, n)[..5 * |geohash|], |geohash|)
      invariant bits == Value(Address(lat, lon, n)[5 * |geohash|..])
      decreases 5 * precision - n
    {
      AddressStep(lat, lon, n, 5 * |geohash|);
      if evenBit {
        var mid := (lonLo + lonHi) / 2.0;
        if lon >= mid {
          bits := 2 * bits + 1;
          lonLo := mid;
        } else {
          bits := 2 * bits;
          lonHi := mid;
        }
      } else {
        var mid := (latLo + latHi) / 2.0;
        if lat >= mid {
          bits := 2 * bits + 1;
          latLo := mid;
        } else {
          bits := 2 * bits;
          latHi := mid;
        }
      }
      evenBit := !evenBit;
      bitsTotal := bitsTotal + 1;
      n := n + 1;
      if bitsTotal == 5 {
        ghost var address := Address(lat, lon, n);
        CharsStep(address, |geohash|);
        geohash := geohash + [Base32[bits]];
        NoBits(address);
        bits := 0;
        bitsTotal := 0;
      }
    }
  }

  lemma EncodeIs(lat: real, lon: real, precision: nat)
    ensures var a := Address(lat, lon, 5 * precision);
            Encode(lat, lon, precision) == Chars(a, precision) && a[..5 * precision] == a
  {
  }

  lemma EmptyAddress(lat: real, lon: real)
    ensures Address(lat, lon, 0) == [] && Cell([]) == World && Chars([], 0) == []
    ensures Value([]) == 0 && Address(lat, lon, 0)[..0] == [] && Address(lat, lon, 0)[0..] == []
  {
  }

  lemma NoBits(address: seq<bool>)
    ensures address[..|address|] == address && Value(address[|address|..]) == 0
  {
  }

  const Masks: seq<nat> := [16, 8, 4, 2, 1]

  /** None where the source raises ValueError on a character outside its alphabet. */
  method GeohashDecode(geohash: string) returns (box: Option<Box>)
    ensures box == if Valid(geohash) then Some(Decode(geohash)) else None
  {
    hide Bits5, IndexFrom;
    var b, evenBit := World, true;
    var i := 0;
    while i < |geohash|
      invariant i <= |geohash| && Valid(geohash[..i])
      invariant b == Cell(BitsOf(geohash[..i])) && evenBit == IsEven(5 * i)
    {
      var cd := Index(geohash[i]);
      if cd.None? {
        assert geohash[i] in geohash;
        return None;
      }
      assert geohash[..i + 1] == geohash[..i] + [geohash[i]] && geohash[..i + 1][..i] == geohash[..i];
      b, evenBit := DecodeChar(b, evenBit, cd.value, BitsOf(geohash[..i]));
      i := i + 1;
    }
    assert geohash[..i] == geohash;
    return Some(b);
  }

  /** The five masks of one character. */
  method DecodeChar(box: Box, even: bool, cd: nat, ghost before: seq<bool>) returns (refined: Box, evenBit: bool)
    requires box == Cell(before) && even == IsEven(|before|)
    ensures refined == Cell(before + Bits5(cd)) && evenBit == IsEven(|before| + 5)
  {
    hide Bits5, Masked, Cell;
    var latLo, latHi, lonLo, lonHi := box.latLo, box.latHi, box.lonLo, box.lonHi;
    evenBit := even;
    assert before + Bits5(cd)[..0] == before;
    var m := 0;
    while m < 5
      invariant m <= 5
      invariant Box(latLo, lonLo, latHi, lonHi) == Cell(before + Bits5(cd)[..m]) && evenBit == IsEven(|before| + m)
    {
      NextBit(before, cd, m);
      var bit := Masked(cd, Masks[m]);
      if evenBit {
        var mid := (lonLo + lonHi) / 2.0;
        if bit { lonLo := mid; } else { lonHi := mid; }
      } else {
        var mid := (latLo + latHi) / 2.0;
        if bit { latLo := mid; } else { latHi := mid; }
      }
      evenBit := !evenBit;
      m := m + 1;
    }
    assert Bits5(cd)[..5] == Bits5(cd);
    refined := Box(latLo, lonLo, latHi, lonHi);
  }

  lemma BitAt(cd: nat, m: nat)
    requires m < 5
    ensures Bits5(cd)[m] == Masked(cd, Masks[m])
  {
    hide Masked;
    assert m == 0 || m == 1 || m == 2 || m == 3 || m == 4;
  }

  lemma CellSnoc(bits: seq<bool>, b: bool)
    ensures Cell(bits + [b]) == Halve(Cell(bits), IsEven(|bits|), b)
  {
    assert (bits + [b])[..|bits|] == bits;
  }

  lemma NextBit(before: seq<bool>, cd: nat, m: nat)
    requires m < 5
    ensures Cell(before + Bits5(cd)[..m + 1])
         == Halve(Cell(before + Bits5(cd)[..m]), IsEven(|before| + m), Masked(cd, Masks[m]))
  {
    hide Masked, Cell, Halve;
    var next := before + Bits5(cd)[..m + 1];
    BitAt(cd, m);
    CellSnoc(before + Bits5(cd)[..m], Bits5(cd)[m]);
    assert next == before + Bits5(cd)[..m] + [Bits5(cd)[m]];
  }

  lemma EmptyValid()
    ensures Valid([])
  {
  }

  /** One candidate of the neighbour loop. */
  method NeighborIn(geohash: string, d: Direction, b: Box) returns (g: Option<string>)
    requires Valid(geohash) && b == Decode(geohash)
    ensures g == Neighbor(geohash, d)
  {
    hide Decode, Steps, Encode, Valid;
    var lat := (b.latLo + b.latHi) / 2.0 + Steps(d.dlat, b.latHi - b.latLo);
    var lon := (b.lonLo + b.lonHi) / 2.0 + Steps(d.dlon, b.lonHi - b.lonLo);
    if !InWorld(lat, lon) {
      return None;
    }
    var code := GeohashEncode(lat, lon, |geohash|);
    return Some(code);
  }

  method GeohashNeighbors(geohash: string) returns (neighbors: Option<seq<string>>)
    ensures neighbors == if Valid(geohash) then Some(Neighbors(geohash)) else None
  {
    hide Decode, Neighbor, Valid;
    if geohash == [] {
      assert Valid(geohash) by { EmptyValid(); }
      return Some([]);
    }
    var bbox := GeohashDecode(geohash);
    if bbox.None? {
      return None;
    }
    var result := [];
    var i := 0;
    while i < |Directions|
      invariant i <= |Directions|
      invariant result + NeighborsFrom(geohash, Directions[i..]) == NeighborsFrom(geohash, Directions)
    {
      assert Directions[i..][0] == Directions[i] && Directions[i..][1..] == Directions[i + 1..];
      ghost var rest := NeighborsFrom(geohash, Directions[i + 1..]);
      var g := NeighborIn(geohash, Directions[i], bbox.value);
      if g.Some? {
        assert result + ([g.value] + rest) == (result + [g.value]) + rest;
        result := result + [g.value];
      } else {
        assert [] + rest == rest;
      }
      i := i + 1;
    }
    assert Directions[i..] == [] && result + [] == result;
    return Some(result);
  }
}
