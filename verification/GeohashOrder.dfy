/** The geohash alphabet, and that geohashes order as the points do. */
module GeohashOrder {
  import opened Wrappers
  import opened Geohash
  import opened KeyOrder

  /** Neighbouring characters follow one another. */
  predicate Consecutive(s: string) {
    forall i :: 0 <= i < |s| ==> s[i] as int == s[0] as int + i
  }

  lemma InConsecutive(s: string, c: char)
    requires Consecutive(s) && s != []
    ensures c in s <==> s[0] <= c <= s[|s| - 1]
  {
    if s[0] <= c <= s[|s| - 1] {
      assert s[c as int - s[0] as int] == c;
    }
  }

  lemma Runs()
    ensures Base32 == "0123456789" + "bcdefgh" + "jk" + "mn" + "pqrstuvwxyz" && |Base32| == 32
    ensures Consecutive("0123456789") && Consecutive("bcdefgh") && Consecutive("jk") && Consecutive("mn")
    ensures Consecutive("pqrstuvwxyz")
  {
  }

  /** The alphabet: digits and lower-case letters except a, i, l and o.  It ascends (Base32Ascends), so
      this fixes it. */
  lemma AlphabetIs(c: char)
    ensures c in Base32 <==> '0' <= c <= '9' || ('a' <= c <= 'z' && c != 'a' && c != 'i' && c != 'l' && c != 'o')
    ensures |Base32| == 32
  {
    hide Base32, Consecutive;
    Runs();
    InConsecutive("0123456789", c);
    InConsecutive("bcdefgh", c);
    InConsecutive("jk", c);
    InConsecutive("mn", c);
    InConsecutive("pqrstuvwxyz", c);
  }

  // ---- Bits in order ----

  /** At the first place where they differ, a has the lower bit. */
  predicate BitsLess(a: seq<bool>, b: seq<bool>)
    requires |a| == |b|
  {
    a != [] &&
    var n := |a| - 1;
    BitsLess(a[..n], b[..n]) || (a[..n] == b[..n] && !a[n] && b[n])
  }

  /** A point further north or east, or both, has no smaller address. */
  lemma {:induction false} AddressOrder(lat: real, lon: real, lat': real, lon': real, n: nat)
    requires lat <= lat' && lon <= lon'
    ensures Address(lat, lon, n) == Address(lat', lon', n) || BitsLess(Address(lat, lon, n), Address(lat', lon', n))
    decreases n
  {
    if n > 0 {
      AddressOrder(lat, lon, lat', lon', n - 1);
      var a, b := Address(lat, lon, n), Address(lat', lon', n);
      assert a[..n - 1] == Address(lat, lon, n - 1) && b[..n - 1] == Address(lat', lon', n - 1);
      if a[..n - 1] == b[..n - 1] && a[n - 1] == b[n - 1] {
        assert a == a[..n - 1] + [a[n - 1]] && b == b[..n - 1] + [b[n - 1]];
      }
    }
  }

  lemma {:induction false} BitsLessSplits(a: seq<bool>, b: seq<bool>, k: nat)
    requires |a| == |b| && k <= |a| && BitsLess(a, b)
    ensures BitsLess(a[..k], b[..k]) || (a[..k] == b[..k] && BitsLess(a[k..], b[k..]))
    decreases |a|
  {
    var n := |a| - 1;
    if k == |a| {
      assert a[..k] == a && b[..k] == b;
    } else {
      assert a[..n][..k] == a[..k] && b[..n][..k] == b[..k];
      assert a[k..][..n - k] == a[..n][k..] && b[k..][..n - k] == b[..n][k..];
      if BitsLess(a[..n], b[..n]) {
        BitsLessSplits(a[..n], b[..n], k);
      }
    }
  }

  lemma {:induction false} ValueOrder(a: seq<bool>, b: seq<bool>)
    requires |a| == |b| && BitsLess(a, b)
    ensures Value(a) < Value(b)
    decreases |a|
  {
    var n := |a| - 1;
    if BitsLess(a[..n], b[..n]) {
      ValueOrder(a[..n], b[..n]);
    }
  }

  lemma CharsDiffer(a: seq<bool>, b: seq<bool>, n: nat)
    requires |a| == |b| == 5 * n && a != b
    ensures Chars(a, n) != Chars(b, n)
  {
    BitsOfChars(a, n);
    BitsOfChars(b, n);
  }

  lemma {:induction false} NotBelowItself(a: seq<bool>)
    ensures !BitsLess(a, a)
    decreases |a|
  {
    if a != [] {
      NotBelowItself(a[..|a| - 1]);
    }
  }

  lemma NoBitsLess()
    ensures !BitsLess([], [])
  {
  }

  lemma {:induction false} CharsOrder(a: seq<bool>, b: seq<bool>, n: nat)
    requires |a| == |b| == 5 * n && BitsLess(a, b)
    ensures Leq(Chars(a, n), Chars(b, n))
    decreases n
  {
    hide *;
    AlphabetIs('0');
    NoBitsLess();
    var k := 5 * (n - 1);
    CharsStep(a, n - 1);
    CharsStep(b, n - 1);
    var s, t := Chars(a[..k], n - 1), Chars(b[..k], n - 1);
    var i, j := Value(a[k..]), Value(b[k..]);
    LeqFront(s, t, Base32[i], Base32[j]);
    BitsLessSplits(a, b, k);
    if BitsLess(a[..k], b[..k]) {
      NotBelowItself(a[..k]);
      CharsOrder(a[..k], b[..k], n - 1);
      CharsDiffer(a[..k], b[..k], n - 1);
    } else {
      ValueOrder(a[k..], b[k..]);
      Base32Injective(i, j);
    }
  }

  /** Geohashes order as points do: one further north or east, or both, has no smaller geohash. */
  lemma EncodeMonotone(lat: real, lon: real, lat': real, lon': real, precision: nat)
    requires lat <= lat' && lon <= lon'
    ensures Leq(Encode(lat, lon, precision), Encode(lat', lon', precision))
  {
    hide Address, Chars, Leq;
    AddressOrder(lat, lon, lat', lon', 5 * precision);
    var a, b := Address(lat, lon, 5 * precision), Address(lat', lon', 5 * precision);
    if a == b {
      LeqReflexive(Encode(lat, lon, precision));
    } else {
      CharsOrder(a, b, precision);
    }
  }
}
