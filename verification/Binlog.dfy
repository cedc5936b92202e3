/** The binlog of binlog.py: zero-padded keys in a byte-ordered store, paging,
    truncation and reload, and a replica that polls it. */
module Binlogs {
  import opened Wrappers
  import opened KeyOrder
  import DbTypes

  datatype Entry = Entry(position: nat, payload: string)

  datatype Stored = EntryData(entry: Entry) | PositionData(position: nat)

  /** Positions below this have twelve digits at most. */
  const Limit: nat := 1_000_000_000_000

  // ---- Keys ----

  function Digit(d: nat): char
    requires d < 10
  {
    (d + '0' as int) as char
  }

  /** The last k decimal digits of n. */
  function Digits(n: nat, k: nat): (s: string)
    ensures |s| == k
    decreases k
  {
    if k == 0 then [] else Digits(n / 10, k - 1) + [Digit(n % 10)]
  }

  function Power10(k: nat): (p: nat)
    ensures p >= 1
  {
    if k == 0 then 1 else 10 * Power10(k - 1)
  }

  /** `{n:012d}`: a minus sign takes one of the twelve places. */
  function Padded(n: int): string {
    if n < 0 then "-" + (if -n < Power10(11) then Digits(-n, 11) else DbTypes.Decimal(-n))
    else if n < Limit then Digits(n, 12) else DbTypes.Decimal(n)
  }

  const Prefix := "entry:"

  const PositionKey := "_meta:position"

  function Key(n: int): string {
    Prefix + Padded(n)
  }

  /** Zero-padded digits of one width order as the numbers do. */
  lemma {:induction false} DigitsOrder(a: nat, b: nat, k: nat)
    requires a < Power10(k) && b < Power10(k)
    ensures Leq(Digits(a, k), Digits(b, k)) <==> a <= b
    ensures Digits(a, k) == Digits(b, k) <==> a == b
    decreases k
  {
    if k == 0 {
    } else {
      var s, t := Digits(a / 10, k - 1), Digits(b / 10, k - 1);
      DigitsOrder(a / 10, b / 10, k - 1);
      LeqFront(s, t, Digit(a % 10), Digit(b % 10));
      assert (s + [Digit(a % 10)])[..k - 1] == s && (t + [Digit(b % 10)])[..k - 1] == t;
      assert (s + [Digit(a % 10)])[k - 1] == Digit(a % 10) && (t + [Digit(b % 10)])[k - 1] == Digit(b % 10);
    }
  }

  lemma Power12()
    ensures Power10(12) == Limit
  {
    assert Power10(3) == 1000;
    assert Power10(6) == 1000 * Power10(3) by { assert Power10(4) == 10_000 && Power10(5) == 100_000; }
    assert Power10(9) == 1000 * Power10(6) by { assert Power10(7) == 10_000_000 && Power10(8) == 100_000_000; }
    assert Power10(10) == 10_000_000_000 && Power10(11) == 100_000_000_000;
  }

  /** Below the limit, key order is the order of positions. */
  lemma KeyOrderIsNumeric(p: nat, q: nat)
    requires p < Limit && q < Limit
    ensures Leq(Key(p), Key(q)) <==> p <= q
    ensures Key(p) == Key(q) <==> p == q
  {
    hide Leq, Digits, Power10;
    Power12();
    DigitsOrder(p, q, 12);
    LeqConcat(Prefix, Padded(p), Padded(q));
    assert Key(p)[|Prefix|..] == Padded(p) && Key(q)[|Prefix|..] == Padded(q);
  }

  /** The key of a negative position comes before every entry. */
  lemma NegativeFirst(p: int, q: nat)
    requires p < 0 && q < Limit
    ensures Leq(Key(p), Key(q)) && !Leq(Key(q), Key(p))
  {
    hide Power10, DbTypes.Decimal, Digits;
    LeqConcat(Prefix, Padded(p), Padded(q));
    LeqConcat(Prefix, Padded(q), Padded(p));
    FirstDigit(q, 12);
    assert Padded(p)[0] == '-';
  }

  lemma {:induction false} FirstDigit(n: nat, k: nat)
    requires k > 0
    ensures '0' <= Digits(n, k)[0] <= '9'
    decreases k
  {
    if k > 1 {
      FirstDigit(n / 10, k - 1);
    } else {
      assert Digits(n / 10, 0) == [];
    }
  }

  /** The bookkeeping key comes before every entry. */
  lemma PositionKeyFirst(n: int)
    ensures Leq(PositionKey, Key(n)) && !Leq(Key(n), PositionKey)
  {
    assert PositionKey[0] == '_' && Key(n)[0] == 'e';
  }

  /** One more digit and key order is no longer the order of positions. */
  lemma OrderBreaksAtLimit()
    ensures Leq(Key(Limit), Key(Limit - 1)) && Key(Limit) != Key(Limit - 1)
  {
    hide Leq, Digits, DbTypes.Decimal;
    LeqConcat(Prefix, Padded(Limit), Padded(Limit - 1));
    LeadingDigit(Limit, 12);
    NineFirst();
    var s, t := Padded(Limit), Padded(Limit - 1);
    FirstDecides(s, t);
    assert Key(Limit)[|Prefix|] == s[0] && Key(Limit - 1)[|Prefix|] == t[0];
  }

  lemma FirstDecides(s: string, t: string)
    requires s != [] && t != [] && s[0] < t[0]
    ensures Leq(s, t)
  {
  }

  lemma {:induction false} LeadingDigit(n: nat, k: nat)
    requires Power10(k) <= n < 2 * Power10(k)
    ensures DbTypes.Decimal(n)[0] == '1'
    decreases k
  {
    if k > 0 {
      LeadingDigit(n / 10, k - 1);
      assert n >= 10;
    } else {
      assert n == 1;
    }
  }

  lemma {:induction false} NinesFirst(k: nat)
    requires k > 0
    ensures Digits(Power10(k) - 1, k)[0] == '9'
    decreases k
  {
    assert (Power10(k) - 1) / 10 == Power10(k - 1) - 1;
    if k > 1 {
      NinesFirst(k - 1);
    } else {
      assert Digits(0, 0) == [];
    }
  }

  lemma NineFirst()
    ensures Padded(Limit - 1)[0] == '9' && Power10(12) == Limit
  {
    hide Digits;
    Power12();
    NinesFirst(12);
  }

  /** Positions from the limit on have a longer key. */
  lemma {:induction false} LongDecimal(n: nat, k: nat)
    requires n >= Power10(k)
    ensures |DbTypes.Decimal(n)| > k
    decreases k
  {
    if k > 0 {
      LongDecimal(n / 10, k - 1);
    }
  }

  /** No two positions share a key, whatever their size. */
  lemma KeyInjective(p: nat, q: nat)
    requires Key(p) == Key(q)
    ensures p == q
  {
    hide Leq, Digits, Power10, DbTypes.Decimal;
    Power12();
    assert Key(p)[|Prefix|..] == Padded(p) && Key(q)[|Prefix|..] == Padded(q);
    if p < Limit && q < Limit {
      KeyOrderIsNumeric(p, q);
    } else {
      if p >= Limit {
        LongDecimal(p, 12);
      }
      if q >= Limit {
        LongDecimal(q, 12);
      }
      DbTypes.DecimalInjective(p, q);
    }
  }

  /** Up to position `n` the byte order of keys is the order of positions exactly when `n` has
      twelve digits at most. */
  lemma KeyOrderIsNumericIff(n: nat)
    ensures (forall p: nat, q: nat :: p <= n && q <= n ==> (Leq(Key(p), Key(q)) <==> p <= q)) <==> n < Limit
  {
    hide Leq, Key;
    if n < Limit {
      forall p: nat, q: nat | p <= n && q <= n ensures Leq(Key(p), Key(q)) <==> p <= q {
        KeyOrderIsNumeric(p, q);
      }
    } else {
      OrderBreaksAtLimit();
    }
  }

  // ---- What the store holds ----

  /** The entries at the `kept` positions of everything written, and the current position. */
  ghost predicate Holds(store: map<string, Stored>, written: seq<Entry>, kept: set<nat>) {
    && (forall q :: q in kept ==> 1 <= q <= |written|)
    && (forall i :: 0 <= i < |written| ==> written[i].position == i + 1)
    && (forall k :: k in store && k != PositionKey ==> exists q: nat :: q in kept && k == Key(q))
    && (forall q: nat :: q in kept ==> Key(q) in store && store[Key(q)] == EntryData(written[q - 1]))
    && (PositionKey in store ==> store[PositionKey] == PositionData(|written|))
    && (PositionKey !in store ==> written == [])
  }

  /** The positions from `floor` to `last`. */
  function Retained(floor: nat, last: nat): (s: set<nat>)
    ensures forall q: nat :: q in s <==> floor <= q <= last
  {
    if floor > last then {} else if last == 0 then {0} else Retained(floor, last - 1) + {last}
  }

  /** What an iterator that starts at a key sees. */
  function Sought(store: map<string, Stored>, start: string): set<string> {
    set k | k in store && Leq(start, k)
  }

  ghost predicate HasEntry(store: map<string, Stored>, k: string) {
    k in store && if k == PositionKey then store[k].PositionData? else store[k].EntryData?
  }

  ghost predicate EntryUnder(store: map<string, Stored>, k: string, e: Entry) {
    k in store && k != PositionKey && store[k] == EntryData(e)
  }

  /** The entries under `keys` after position `from`. */
  ghost function After(store: map<string, Stored>, keys: seq<string>, from: int): seq<Entry>
    requires forall k :: k in keys ==> HasEntry(store, k)
    decreases |keys|
  {
    if keys == [] then []
    else
      var k := keys[|keys| - 1];
      assert HasEntry(store, k);
      After(store, keys[..|keys| - 1], from)
      + if k != PositionKey && store[k].entry.position > from then [store[k].entry] else []
  }

  function Take(s: seq<Entry>, n: int): seq<Entry> {
    if 0 <= n <= |s| then s[..n] else s
  }

  /** What `get_entries` returns: the first entries after `from` that the seek meets, at least one
      even for a limit below one. */
  ghost function Fetched(store: map<string, Stored>, from: int, limit: int): seq<Entry>
    requires forall k :: k in store ==> HasEntry(store, k)
  {
    Take(After(store, Listing(Sought(store, Key(from))), from), Max(limit, 1))
  }

  lemma {:induction false} AfterPrefix(store: map<string, Stored>, keys: seq<string>, from: int, i: nat)
    requires forall k :: k in keys ==> HasEntry(store, k)
    requires i <= |keys|
    ensures After(store, keys[..i], from) <= After(store, keys, from)
    decreases |keys|
  {
    hide HasEntry;
    if i < |keys| {
      AfterPrefix(store, keys[..|keys| - 1], from, i);
      assert keys[..|keys| - 1][..i] == keys[..i];
    } else {
      assert keys[..i] == keys;
    }
  }

  lemma {:induction false} AfterMember(store: map<string, Stored>, keys: seq<string>, from: int, e: Entry)
    requires forall k :: k in keys ==> HasEntry(store, k)
    requires e in After(store, keys, from)
    ensures e.position > from
    ensures exists k :: k in keys && EntryUnder(store, k, e)
    decreases |keys|
  {
    var last := keys[|keys| - 1];
    assert last in keys;
    if e in After(store, keys[..|keys| - 1], from) {
      AfterMember(store, keys[..|keys| - 1], from, e);
    } else {
      assert EntryUnder(store, last, e);
    }
  }

  // ---- Pages in the order of positions ----

  function Max(a: int, b: int): int { if a >= b then a else b }

  function Min(a: int, b: int): int { if a <= b then a else b }

  function Slice(written: seq<Entry>, lo: int, hi: int): seq<Entry> {
    if 0 <= lo < hi <= |written| then written[lo..hi] else []
  }

  /** The next retained entries after a position, at least one even for a limit below one. */
  function Page(written: seq<Entry>, floor: nat, from: int, limit: int): seq<Entry>
    requires floor >= 1
  {
    var lo := Max(from, floor - 1);
    Slice(written, lo, Min(lo + Max(limit, 1), |written|))
  }

  function KeysOf(first: nat, last: nat): seq<string>
    requires first >= 1
  {
    if first > last then [] else KeysOf(first, last - 1) + [Key(last)]
  }

  lemma {:induction false} KeysOfAt(first: nat, last: nat)
    requires 1 <= first
    ensures |KeysOf(first, last)| == Max(0, last + 1 - first)
    ensures forall i :: 0 <= i < |KeysOf(first, last)| ==> KeysOf(first, last)[i] == Key(first + i)
    decreases last
  {
    hide Key;
    if first <= last {
      KeysOfAt(first, last - 1);
    }
  }

  /** The keys of an interval of positions, in byte order. */
  lemma KeysOfLists(first: nat, last: nat, keys: set<string>)
    requires 1 <= first && last < Limit
    requires forall k :: k in keys <==> exists q: nat :: first <= q <= last && k == Key(q)
    ensures Lists(KeysOf(first, last), keys)
  {
    hide Key, Leq;
    var s := KeysOf(first, last);
    KeysOfAt(first, last);
    forall i, j | 0 <= i < j < |s| ensures Leq(s[i], s[j]) && s[i] != s[j] {
      KeyOrderIsNumeric(first + i, first + j);
    }
    forall k ensures k in s <==> k in keys {
      if k in keys {
        var q: nat :| first <= q <= last && k == Key(q);
        assert s[q - first] == k;
      }
      if k in s {
        var i :| 0 <= i < |s| && s[i] == k;
        assert first <= first + i <= last && k == Key(first + i);
      }
    }
  }

  /** Seeking leaves the kept positions whose keys do not come before. */
  lemma SoughtKeys(store: map<string, Stored>, written: seq<Entry>, kept: set<nat>, from: int, k: string)
    requires Holds(store, written, kept)
    ensures k in Sought(store, Key(from)) <==> exists q: nat :: q in kept && Leq(Key(from), Key(q)) && k == Key(q)
  {
    hide Key, Leq;
    PositionKeyFirst(from);
  }

  lemma SoughtOrder(from: int, q: nat)
    requires from < Limit && q < Limit
    ensures Leq(Key(from), Key(q)) <==> from <= q
  {
    hide Key, Leq;
    if from >= 0 {
      KeyOrderIsNumeric(from, q);
    } else {
      NegativeFirst(from, q);
    }
  }

  /** Below the limit a seek lists the retained positions from there on, in order. */
  lemma SoughtListing(store: map<string, Stored>, written: seq<Entry>, floor: nat, from: int)
    requires 1 <= floor && Holds(store, written, Retained(floor, |written|)) && |written| < Limit && from < Limit
    ensures Listing(Sought(store, Key(from))) == KeysOf(Max(floor, from), |written|)
  {
    hide Holds, Key, Leq, Lists, KeysOf, Sought;
    var first, sought := Max(floor, from), Sought(store, Key(from));
    forall k ensures k in sought <==> exists q: nat :: first <= q <= |written| && k == Key(q) {
      SoughtKeys(store, written, Retained(floor, |written|), from, k);
      forall q: nat | q <= |written| ensures Leq(Key(from), Key(q)) <==> from <= q {
        SoughtOrder(from, q);
      }
      if k in sought {
        var q: nat :| q in Retained(floor, |written|) && Leq(Key(from), Key(q)) && k == Key(q);
        assert first <= q <= |written|;
      }
      if q: nat :| first <= q <= |written| && k == Key(q) {
        assert q in Retained(floor, |written|) && Leq(Key(from), Key(q));
      }
    }
    KeysOfLists(first, |written|, sought);
    ListsUnique(Listing(sought), KeysOf(first, |written|), sought);
  }

  lemma AllReadable(store: map<string, Stored>, written: seq<Entry>, kept: set<nat>)
    requires Holds(store, written, kept)
    ensures forall k :: k in store ==> HasEntry(store, k)
  {
    hide Key;
  }

  lemma StoredAt(store: map<string, Stored>, written: seq<Entry>, kept: set<nat>, q: nat)
    requires Holds(store, written, kept) && q in kept
    ensures 1 <= q <= |written| && Key(q) != PositionKey
    ensures Key(q) in store && store[Key(q)] == EntryData(written[q - 1]) && written[q - 1].position == q
  {
    hide Key;
    PositionKeyFirst(q);
  }

  /** The entries under an interval's keys are a slice of the log. */
  lemma {:induction false} AfterIsSlice(store: map<string, Stored>, written: seq<Entry>, floor: nat, from: int,
                                        last: nat)
    requires 1 <= floor && Holds(store, written, Retained(floor, |written|)) && last <= |written|
    requires forall k :: k in KeysOf(Max(floor, from), last) ==> HasEntry(store, k)
    ensures After(store, KeysOf(Max(floor, from), last), from) == Slice(written, Max(from, floor - 1), last)
    decreases last
  {
    hide Key, Holds, Slice, HasEntry, Retained, After, KeysOf;
    var first, lo := Max(floor, from), Max(from, floor - 1);
    SliceGrows(written, lo, last);
    if first <= last {
      KeysOfGrow(first, last);
      SliceGrows(written, lo, last - 1);
      AfterIsSlice(store, written, floor, from, last - 1);
      StoredAt(store, written, Retained(floor, |written|), last);
      AfterGrows(store, KeysOf(first, last - 1), last, from);
    } else {
      NoKeys(store, first, last, from);
    }
  }

  lemma KeysOfGrow(first: nat, last: nat)
    requires 1 <= first <= last
    ensures KeysOf(first, last) == KeysOf(first, last - 1) + [Key(last)]
    ensures forall k :: k in KeysOf(first, last - 1) ==> k in KeysOf(first, last)
  {
    hide Key;
  }

  lemma NoKeys(store: map<string, Stored>, first: nat, last: nat, from: int)
    requires 1 <= first && last < first
    ensures KeysOf(first, last) == [] && After(store, [], from) == []
  {
  }

  lemma AfterGrows(store: map<string, Stored>, keys: seq<string>, last: nat, from: int)
    requires (forall k :: k in keys ==> HasEntry(store, k)) && HasEntry(store, Key(last)) && Key(last) != PositionKey
    ensures store[Key(last)].EntryData?
    ensures After(store, keys + [Key(last)], from)
            == After(store, keys, from)
               + if store[Key(last)].entry.position > from then [store[Key(last)].entry] else []
  {
    hide Key;
    assert (keys + [Key(last)])[..|keys|] == keys;
  }

  lemma SliceGrows(written: seq<Entry>, lo: int, last: nat)
    requires 0 <= lo && last <= |written|
    ensures last <= lo ==> Slice(written, lo, last) == []
    ensures lo < last ==> Slice(written, lo, last) == Slice(written, lo, last - 1) + [written[last - 1]]
  {
  }

  /** Below the limit a fetch is the next page of retained entries. */
  lemma FetchIsPage(store: map<string, Stored>, written: seq<Entry>, floor: nat, from: int, limit: int)
    requires 1 <= floor <= |written| + 1 && Holds(store, written, Retained(floor, |written|)) && |written| < Limit
    requires forall k :: k in store ==> HasEntry(store, k)
    ensures Fetched(store, from, limit) == Page(written, floor, from, limit)
  {
    hide Key, Leq, Holds, After, HasEntry, Lists;
    var keys, lo := Listing(Sought(store, Key(from))), Max(from, floor - 1);
    SoughtInStore(store, from);
    if from < Limit {
      SoughtListing(store, written, floor, from);
      AfterIsSlice(store, written, floor, from, |written|);
      TakeSlice(written, lo, Max(limit, 1));
    } else {
      var entries := After(store, keys, from);
      if entries != [] {
        assert entries[0] in entries;
        AfterMember(store, keys, from, entries[0]);
        var k :| k in keys && EntryUnder(store, k, entries[0]);
        EntryPosition(store, written, Retained(floor, |written|), k);
      }
    }
  }

  lemma TakeSlice(written: seq<Entry>, lo: int, n: int)
    requires 0 <= lo && 1 <= n
    ensures Take(Slice(written, lo, |written|), n) == Slice(written, lo, Min(lo + n, |written|))
  {
  }

  lemma SoughtInStore(store: map<string, Stored>, from: int)
    ensures forall k :: k in Listing(Sought(store, Key(from))) ==> k in store && Leq(Key(from), k)
  {
    hide Key, Leq, Sorted;
    var s := Listing(Sought(store, Key(from)));
    assert Lists(s, Sought(store, Key(from)));
  }

  lemma EntryPosition(store: map<string, Stored>, written: seq<Entry>, kept: set<nat>, k: string)
    requires Holds(store, written, kept) && k in store && k != PositionKey
    ensures store[k].EntryData? && 1 <= store[k].entry.position <= |written| && k == Key(store[k].entry.position)
  {
    hide Key;
    var q: nat :| q in kept && k == Key(q);
    StoredAt(store, written, kept, q);
  }

  /** `get_entries` pages through the log in the order of positions exactly while fewer than 10^12
      entries were written: from there on a reader at position 10^12 - 1 never sees the next entry. */
  lemma PagesInOrderIff(store: map<string, Stored>, written: seq<Entry>, floor: nat)
    requires 1 <= floor <= |written| + 1 && floor <= Limit && Holds(store, written, Retained(floor, |written|))
    requires forall k :: k in store ==> HasEntry(store, k)
    ensures (forall from, limit :: Fetched(store, from, limit) == Page(written, floor, from, limit))
            <==> |written| < Limit
  {
    hide Key, Leq, Holds, Fetched, Page, HasEntry;
    if |written| < Limit {
      forall from, limit ensures Fetched(store, from, limit) == Page(written, floor, from, limit) {
        FetchIsPage(store, written, floor, from, limit);
      }
    } else {
      EntryAtLimitMissed(store, written, floor);
      assert Fetched(store, Limit - 1, 1) != Page(written, floor, Limit - 1, 1);
    }
  }

  lemma EntryAtLimitMissed(store: map<string, Stored>, written: seq<Entry>, floor: nat)
    requires 1 <= floor <= Limit <= |written| && Holds(store, written, Retained(floor, |written|))
    requires forall k :: k in store ==> HasEntry(store, k)
    ensures Page(written, floor, Limit - 1, 1) == [written[Limit - 1]]
    ensures written[Limit - 1] !in Fetched(store, Limit - 1, 1)
  {
    hide Key, Leq, After, HasEntry;
    var keys, from := Listing(Sought(store, Key(Limit - 1))), Limit - 1;
    SoughtInStore(store, from);
    assert written[Limit - 1].position == Limit;
    if written[Limit - 1] in Fetched(store, from, 1) {
      assert written[Limit - 1] in After(store, keys, from);
      AfterMember(store, keys, from, written[Limit - 1]);
      var k :| k in keys && EntryUnder(store, k, written[Limit - 1]);
      EntryPosition(store, written, Retained(floor, |written|), k);
      OrderBreaksAtLimit();
      LeqAntisymmetric(Key(Limit), Key(Limit - 1));
    }
  }

  /** One entry and the position, written in one batch. */
  function Appended(store: map<string, Stored>, entry: Entry): map<string, Stored> {
    store[Key(entry.position) := EntryData(entry)][PositionKey := PositionData(entry.position)]
  }

  /** The keys from that of `position` on, and the position itself. */
  function Truncated(store: map<string, Stored>, position: int): map<string, Stored> {
    map k | k in store && (k == PositionKey || Leq(Key(position), k)) :: store[k]
  }

  /** The position a reopened log goes on from. */
  function StoredPosition(store: map<string, Stored>): nat
    requires PositionKey in store ==> store[PositionKey].PositionData?
  {
    if PositionKey in store then store[PositionKey].position else 0
  }

  lemma WriteKeeps(store: map<string, Stored>, written: seq<Entry>, kept: set<nat>, entry: Entry)
    requires Holds(store, written, kept) && entry.position == |written| + 1
    ensures Holds(Appended(store, entry), written + [entry], kept + {entry.position})
  {
    hide Key, Leq;
    var n := |written| + 1;
    PositionKeyFirst(n);
    LeqReflexive(PositionKey);
    forall q: nat | q in kept ensures Key(q) != Key(n) && Key(q) != PositionKey {
      if Key(q) == Key(n) {
        KeyInjective(q, n);
      }
      PositionKeyFirst(q);
    }
  }

  /** The kept positions whose keys do not come before that of `position`. */
  ghost function NotBefore(kept: set<nat>, position: int): set<nat> {
    set q | q in kept && Leq(Key(position), Key(q))
  }

  lemma TruncateKeeps(store: map<string, Stored>, written: seq<Entry>, kept: set<nat>, position: int)
    requires Holds(store, written, kept)
    ensures Holds(Truncated(store, position), written, NotBefore(kept, position))
  {
    hide Key, Leq;
  }

  /** Below the limit truncation drops exactly the positions below the given one. */
  lemma TruncatedIsInterval(floor: nat, last: nat, position: int)
    requires 1 <= floor <= last + 1 && last < Limit && position < Limit
    ensures NotBefore(Retained(floor, last), position) == Retained(Max(floor, Min(position, last + 1)), last)
  {
    hide Key, Leq;
    forall q: nat | q <= last ensures Leq(Key(position), Key(q)) <==> position <= q {
      SoughtOrder(position, q);
    }
  }

  // ---- The source's object ----

  class Binlog {
    var store: map<string, Stored>
    var currentPosition: nat
    ghost var written: seq<Entry>
    ghost var kept: set<nat>

    ghost predicate Valid()
      reads this
    {
      Holds(store, written, kept) && currentPosition == |written|
    }

    constructor ()
      ensures Valid() && written == [] && kept == {}
    {
      store, currentPosition := map[], 0;
      written, kept := [], {};
    }

    /** Entry and position are put in one batch. */
    method WriteEntry(payload: string) returns (position: nat)
      requires Valid()
      modifies this
      ensures Valid() && kept == old(kept) + {position}
      ensures position == |old(written)| + 1 && written == old(written) + [Entry(position, payload)]
      ensures store == Appended(old(store), Entry(position, payload))
    {
      hide Holds;
      currentPosition := currentPosition + 1;
      position := currentPosition;
      var entry := Entry(position, payload);
      WriteKeeps(store, written, kept, entry);
      store := store[Key(position) := EntryData(entry)][PositionKey := PositionData(position)];
      written, kept := written + [entry], kept + {position};
    }

    /** Reopening takes the position from the store, so no position is given out twice. */
    method Reload()
      requires Valid()
      modifies this`currentPosition
      ensures Valid() && currentPosition == old(currentPosition)
      ensures (PositionKey in store ==> store[PositionKey].PositionData?) && currentPosition == StoredPosition(store)
    {
      if PositionKey in store {
        currentPosition := store[PositionKey].position;
      } else {
        currentPosition := 0;
      }
    }

    method GetEntries(fromPosition: int, limit: int) returns (entries: seq<Entry>)
      requires Valid()
      ensures forall k :: k in store ==> HasEntry(store, k)
      ensures entries == Fetched(store, fromPosition, limit)
    {
      hide Leq, Sorted, Holds, Key;
      AllReadable(store, written, kept);
      var start := Key(fromPosition);
      var keys := Iterate(Sought(store, start));
      ListsUnique(keys, Listing(Sought(store, start)), Sought(store, start));
      assert forall k :: k in keys ==> HasEntry(store, k);
      entries := [];
      var i := 0;
      while i < |keys|
        invariant i <= |keys| && (forall k :: k in keys[..i] ==> HasEntry(store, k))
        invariant |entries| < Max(limit, 1)
        invariant entries == After(store, keys[..i], fromPosition)
      {
        assert keys[i] in keys;
        assert HasEntry(store, keys[i]);
        assert keys[..i + 1][..i] == keys[..i];
        AfterPrefix(store, keys, fromPosition, i + 1);
        if keys[i] != PositionKey {
          var entry := store[keys[i]].entry;
          if entry.position > fromPosition {
            entries := entries + [entry];
            if |entries| >= limit {
              return;
            }
          }
        }
        i := i + 1;
      }
      assert keys[..i] == keys;
    }

    method TruncateBefore(position: int)
      requires Valid()
      modifies this
      ensures Valid() && written == old(written)
      ensures kept == NotBefore(old(kept), position) && store == Truncated(old(store), position)
    {
      hide Leq, Lists, Holds, Key;
      var end := Key(position);
      var todo := set k | k in store && !Leq(end, k) && k != PositionKey;
      ghost var doomed := todo;
      while todo != {}
        invariant todo <= doomed && written == old(written) && kept == old(kept)
                  && currentPosition == old(currentPosition)
        invariant forall k :: k in store <==> k in old(store) && (k in doomed ==> k in todo)
        invariant forall k :: k in store ==> store[k] == old(store)[k]
        decreases todo
      {
        var k :| k in todo;
        store := store - {k};
        todo := todo - {k};
      }
      assert store == Truncated(old(store), position);
      TruncateKeeps(old(store), written, kept, position);
      kept := NotBefore(kept, position);
    }
  }

  // ---- A replica that polls ----

  datatype Action = Write(payload: string) | Truncate(position: int) | Reopen | Poll(limit: int)

  /** The log as pages of positions: a poll takes the next page and a truncation drops the positions below its
      own.  ServedAsPages shows that the key/value store behaves so while all positions stay below the limit. */
  datatype Replication = Replication(written: seq<Entry>, floor: nat, last: nat, received: seq<Entry>)

  const Fresh := Replication([], 1, 0, [])

  function Next(r: Replication, a: Action): Replication
    requires r.floor >= 1
  {
    match a
    case Write(payload) => r.(written := r.written + [Entry(|r.written| + 1, payload)])
    case Truncate(position) => r.(floor := Max(r.floor, Min(position, |r.written| + 1)))
    case Reopen => r
    case Poll(limit) =>
      var page := Page(r.written, r.floor, r.last, limit);
      r.(received := r.received + page, last := if page == [] then r.last else page[|page| - 1].position)
  }

  function Run(r: Replication, actions: seq<Action>): (r': Replication)
    requires r.floor >= 1
    ensures r'.floor >= 1
    decreases |actions|
  {
    if actions == [] then r else Run(Next(r, actions[0]), actions[1..])
  }

  /** The run writes and truncates at positions below the limit only. */
  predicate WithinLimit(r: Replication, actions: seq<Action>)
    requires r.floor >= 1
  {
    && |Run(r, actions).written| < Limit
    && forall i :: 0 <= i < |actions| && actions[i].Truncate? ==> actions[i].position < Limit
  }

  lemma {:induction false} WrittenGrows(r: Replication, actions: seq<Action>)
    requires r.floor >= 1
    ensures |Run(r, actions).written| >= |r.written|
    decreases |actions|
  {
    hide Page;
    if actions != [] {
      WrittenGrows(Next(r, actions[0]), actions[1..]);
    }
  }

  lemma NextWithinLimit(r: Replication, actions: seq<Action>)
    requires r.floor >= 1 && actions != [] && WithinLimit(r, actions)
    ensures WithinLimit(Next(r, actions[0]), actions[1..]) && |Next(r, actions[0]).written| < Limit
  {
    hide Page;
    WrittenGrows(Next(r, actions[0]), actions[1..]);
  }

  /** What arrived is what was written, in increasing position and each once. */
  ghost predicate Genuine(r: Replication)
    requires r.last <= |r.written|
  {
    && (forall i :: 0 <= i < |r.received| ==> 1 <= r.received[i].position <= r.last
                                              && r.received[i] == r.written[r.received[i].position - 1])
    && (forall i, j :: 0 <= i < j < |r.received| ==> r.received[i].position < r.received[j].position)
  }

  /** What was passed over had been truncated. */
  ghost predicate Complete(r: Replication)
    requires 1 <= r.floor && r.last <= |r.written|
  {
    forall i :: r.floor - 1 <= i < r.last ==> r.written[i] in r.received
  }

  ghost predicate Faithful(r: Replication) {
    && 1 <= r.floor <= |r.written| + 1 && r.last <= |r.written| < Limit
    && (forall i :: 0 <= i < |r.written| ==> r.written[i].position == i + 1)
    && Genuine(r) && Complete(r)
  }

  lemma PageContents(written: seq<Entry>, floor: nat, from: nat, limit: int)
    requires 1 <= floor && from <= |written|
    ensures var page, lo := Page(written, floor, from, limit), Max(from, floor - 1);
            && (forall i :: 0 <= i < |page| ==> lo + i < |written| && page[i] == written[lo + i])
            && (lo < |written| ==> page != [])
  {
  }

  lemma PollMoves(r: Replication, limit: int)
    requires Faithful(r)
    ensures var r' := Next(r, Poll(limit));
            && r'.written == r.written && r'.floor == r.floor && r.last <= r'.last <= |r'.written|
            && (r.last < |r.written| && r.floor <= |r.written| ==> r'.last > r.last)
  {
    hide Page, Genuine, Complete;
    PageContents(r.written, r.floor, r.last, limit);
  }

  lemma PollGenuine(r: Replication, limit: int)
    requires Faithful(r)
    ensures Next(r, Poll(limit)).last <= |r.written| && Genuine(Next(r, Poll(limit)))
  {
    hide Page, Complete;
    PollMoves(r, limit);
    PageContents(r.written, r.floor, r.last, limit);
    var page, lo := Page(r.written, r.floor, r.last, limit), Max(r.last, r.floor - 1);
    assert forall i :: 0 <= i < |page| ==> page[i].position == lo + i + 1;
  }

  lemma PollComplete(r: Replication, limit: int)
    requires Faithful(r)
    ensures Next(r, Poll(limit)).last <= |r.written| && Complete(Next(r, Poll(limit)))
  {
    hide Page, Genuine;
    PollMoves(r, limit);
    PageContents(r.written, r.floor, r.last, limit);
    var page, r', lo := Page(r.written, r.floor, r.last, limit), Next(r, Poll(limit)), Max(r.last, r.floor - 1);
    assert page != [] ==> page[|page| - 1].position == lo + |page|;
    forall i | r.floor - 1 <= i < r'.last ensures r.written[i] in r'.received {
      if i >= lo {
        assert page[i - lo] == r.written[i];
        assert r'.received[|r.received| + (i - lo)] == r.written[i];
      } else {
        assert r.written[i] in r.received;
      }
    }
  }

  lemma PollKeeps(r: Replication, limit: int)
    requires Faithful(r)
    ensures Faithful(Next(r, Poll(limit)))
    ensures r.last < |r.written| && r.floor <= |r.written| ==> Next(r, Poll(limit)).last > r.last
  {
    hide Page, Genuine, Complete;
    PollMoves(r, limit);
    PollGenuine(r, limit);
    PollComplete(r, limit);
  }

  lemma WriteIsFaithful(r: Replication, payload: string)
    requires Faithful(r) && r.floor >= 1 && |r.written| + 1 < Limit
    ensures Faithful(Next(r, Write(payload)))
  {
    hide Page;
    var r' := Next(r, Write(payload));
    assert forall i :: 0 <= i < |r.written| ==> r'.written[i] == r.written[i];
    assert Complete(r') by {
      forall i | r'.floor - 1 <= i < r'.last ensures r'.written[i] in r'.received {
        assert r.written[i] in r.received;
      }
    }
    assert Genuine(r');
  }

  lemma TruncateIsFaithful(r: Replication, position: int)
    requires Faithful(r) && r.floor >= 1
    ensures Faithful(Next(r, Truncate(position)))
  {
    hide Page, Genuine;
    var r' := Next(r, Truncate(position));
    assert Genuine(r') by {
      SameGenuine(r, r');
    }
  }

  lemma SameGenuine(r: Replication, r': Replication)
    requires r.last <= |r.written| && Genuine(r) && r' == r.(floor := r'.floor)
    ensures r'.last <= |r'.written| && Genuine(r')
  {
  }

  lemma NextKeeps(r: Replication, a: Action)
    requires Faithful(r) && r.floor >= 1 && |Next(r, a).written| < Limit
    ensures Faithful(Next(r, a))
  {
    hide Page, Faithful;
    match a {
      case Write(payload) => WriteIsFaithful(r, payload);
      case Truncate(position) => TruncateIsFaithful(r, position);
      case Reopen =>
      case Poll(limit) => PollKeeps(r, limit);
    }
  }

  /** Over every interleaving of writes, truncations and polls with any limits, below 10^12. */
  lemma {:induction false} PagesAreFaithful(r: Replication, actions: seq<Action>)
    requires Faithful(r) && r.floor >= 1 && WithinLimit(r, actions)
    ensures Faithful(Run(r, actions))
    decreases |actions|
  {
    hide Faithful, Next, WithinLimit;
    if actions != [] {
      NextWithinLimit(r, actions);
      NextKeeps(r, actions[0]);
      FloorPositive(Next(r, actions[0]));
      PagesAreFaithful(Next(r, actions[0]), actions[1..]);
    }
  }

  lemma FloorPositive(r: Replication)
    requires Faithful(r)
    ensures r.floor >= 1
  {
  }

  /** Every truncation stays behind the replica. */
  predicate Unhurried(r: Replication, actions: seq<Action>)
    requires r.floor >= 1
    decreases |actions|
  {
    actions != [] ==>
      && (actions[0].Truncate? ==> actions[0].position <= r.last + 1)
      && Unhurried(Next(r, actions[0]), actions[1..])
  }

  /** A replica that no truncation overtakes receives exactly the log up to its position. */
  lemma {:induction false} PagesMissNothing(r: Replication, actions: seq<Action>)
    requires Faithful(r) && r.floor <= r.last + 1 && r.received == r.written[..r.last]
    requires Unhurried(r, actions) && WithinLimit(r, actions)
    ensures Run(r, actions).last <= |Run(r, actions).written|
    ensures Run(r, actions).received == Run(r, actions).written[..Run(r, actions).last]
    decreases |actions|
  {
    hide Page, WithinLimit;
    if actions != [] {
      NextWithinLimit(r, actions);
      NextKeeps(r, actions[0]);
      if actions[0].Poll? {
        PollGapless(r, actions[0].limit);
      }
      PagesMissNothing(Next(r, actions[0]), actions[1..]);
    }
  }

  lemma PollGapless(r: Replication, limit: int)
    requires Faithful(r) && r.floor <= r.last + 1 && r.received == r.written[..r.last]
    ensures var r' := Next(r, Poll(limit)); r'.received == r'.written[..r'.last] && r'.floor <= r'.last + 1
  {
    var page := Page(r.written, r.floor, r.last, limit);
    if page != [] {
      assert page == r.written[r.last..r.last + |page|];
      assert page[|page| - 1] == r.written[r.last + |page| - 1];
      assert r.written[..r.last] + r.written[r.last..r.last + |page|] == r.written[..r.last + |page|];
    }
  }

  // ---- The replica of the key/value store ----

  ghost predicate Readable(store: map<string, Stored>) {
    forall k :: k in store ==> HasEntry(store, k)
  }

  /** The log's store and position, everything ever written, and the replica's position and entries. */
  datatype Served = Served(store: map<string, Stored>, position: nat, written: seq<Entry>, last: nat,
                           received: seq<Entry>)

  const Unserved := Served(map[], 0, [], 0, [])

  /** One call of the object above, and for a poll what the replica makes of the answer. */
  ghost function Serve(s: Served, a: Action): (s': Served)
    requires Readable(s.store)
    ensures Readable(s'.store)
  {
    match a
    case Write(payload) =>
      var entry := Entry(s.position + 1, payload);
      s.(store := Appended(s.store, entry), position := s.position + 1, written := s.written + [entry])
    case Truncate(position) => s.(store := Truncated(s.store, position))
    case Reopen =>
      assert PositionKey in s.store ==> HasEntry(s.store, PositionKey);
      s.(position := StoredPosition(s.store))
    case Poll(limit) =>
      var page := Fetched(s.store, s.last, limit);
      s.(received := s.received + page, last := if page == [] then s.last else page[|page| - 1].position)
  }

  ghost function ServeAll(s: Served, actions: seq<Action>): (s': Served)
    requires Readable(s.store)
    decreases |actions|
  {
    if actions == [] then s else ServeAll(Serve(s, actions[0]), actions[1..])
  }

  /** The store holds the retained positions, and the replica is where the pages put it. */
  ghost predicate Pages(s: Served, r: Replication) {
    && 1 <= r.floor <= |r.written| + 1 && Holds(s.store, s.written, Retained(r.floor, |r.written|))
    && s.position == |s.written| && s.written == r.written && s.last == r.last && s.received == r.received
  }

  ghost predicate BelowLimit(s: Served, actions: seq<Action>)
    requires Readable(s.store)
  {
    && |ServeAll(s, actions).written| < Limit
    && forall i :: 0 <= i < |actions| && actions[i].Truncate? ==> actions[i].position < Limit
  }

  lemma {:induction false} ServedGrows(s: Served, actions: seq<Action>)
    requires Readable(s.store)
    ensures |ServeAll(s, actions).written| >= |s.written|
    decreases |actions|
  {
    hide Fetched, Appended, Truncated, HasEntry;
    if actions != [] {
      ServedGrows(Serve(s, actions[0]), actions[1..]);
    }
  }

  lemma WriteServed(s: Served, r: Replication, payload: string)
    requires Pages(s, r) && Readable(s.store)
    ensures Pages(Serve(s, Write(payload)), Next(r, Write(payload)))
  {
    hide Holds, Appended, HasEntry;
    var n := |s.written| + 1;
    WriteKeeps(s.store, s.written, Retained(r.floor, n - 1), Entry(n, payload));
    assert Retained(r.floor, n - 1) + {n} == Retained(r.floor, n);
  }

  lemma StepAsPages(s: Served, r: Replication, a: Action)
    requires Pages(s, r) && Readable(s.store) && |Serve(s, a).written| < Limit && (a.Truncate? ==> a.position < Limit)
    ensures Pages(Serve(s, a), Next(r, a))
  {
    hide Holds, HasEntry, Appended, Truncated, Fetched, Page, Retained;
    match a {
      case Write(payload) => WriteServed(s, r, payload);
      case Truncate(position) =>
        TruncateKeeps(s.store, s.written, Retained(r.floor, |r.written|), position);
        TruncatedIsInterval(r.floor, |r.written|, position);
      case Reopen => StoredPositionIs(s.store, s.written, Retained(r.floor, |r.written|));
      case Poll(limit) => FetchIsPage(s.store, s.written, r.floor, s.last, limit);
    }
  }

  lemma StoredPositionIs(store: map<string, Stored>, written: seq<Entry>, kept: set<nat>)
    requires Holds(store, written, kept)
    ensures (PositionKey in store ==> store[PositionKey].PositionData?) && StoredPosition(store) == |written|
  {
    hide Key;
  }

  /** Every truncation stays behind the replica. */
  ghost predicate NotOvertaken(s: Served, actions: seq<Action>)
    requires Readable(s.store)
    decreases |actions|
  {
    actions != [] ==>
      && (actions[0].Truncate? ==> actions[0].position <= s.last + 1)
      && NotOvertaken(Serve(s, actions[0]), actions[1..])
  }

  /** Below the limit the store serves the pages, call by call. */
  lemma {:induction false} ServedAsPages(s: Served, r: Replication, actions: seq<Action>)
    requires Pages(s, r) && Readable(s.store) && BelowLimit(s, actions)
    ensures r.floor >= 1 && Pages(ServeAll(s, actions), Run(r, actions)) && WithinLimit(r, actions)
    ensures NotOvertaken(s, actions) <==> Unhurried(r, actions)
    decreases |actions|
  {
    hide Serve, Next, Readable, Holds, Retained;
    if actions != [] {
      ServedGrows(Serve(s, actions[0]), actions[1..]);
      StepAsPages(s, r, actions[0]);
      ServedAsPages(Serve(s, actions[0]), Next(r, actions[0]), actions[1..]);
    }
  }

  lemma NothingServed()
    ensures Pages(Unserved, Fresh) && Readable(Unserved.store) && Faithful(Fresh)
  {
  }

  /** Over every interleaving of writes, truncations, reopenings and polls with any limits, below 10^12: a replica
      of the store receives what was written, in increasing position and each once, and everything up to its
      position that the store still has. */
  lemma ReplicaIsFaithful(actions: seq<Action>)
    requires BelowLimit(Unserved, actions)
    ensures var s := ServeAll(Unserved, actions);
            && s.last <= |s.written|
            && (forall i :: 0 <= i < |s.received| ==> 1 <= s.received[i].position <= s.last
                                                      && s.received[i] == s.written[s.received[i].position - 1])
            && (forall i, j :: 0 <= i < j < |s.received| ==> s.received[i].position < s.received[j].position)
            && (forall q: nat :: 1 <= q <= s.last && Key(q) in s.store ==> s.written[q - 1] in s.received)
  {
    hide Pages, Faithful, WithinLimit, BelowLimit, Holds, Key;
    NothingServed();
    ServedAsPages(Unserved, Fresh, actions);
    PagesAreFaithful(Fresh, actions);
    FaithfulServed(ServeAll(Unserved, actions), Run(Fresh, actions));
  }

  lemma FaithfulServed(s: Served, r: Replication)
    requires Pages(s, r) && Faithful(r)
    ensures s.last <= |s.written| && Genuine(r) && r.written == s.written && r.received == s.received
            && r.last == s.last
    ensures forall q: nat :: 1 <= q <= s.last && Key(q) in s.store ==> s.written[q - 1] in s.received
  {
    hide Key, Genuine;
    forall q: nat | 1 <= q <= s.last && Key(q) in s.store ensures s.written[q - 1] in s.received {
      StoredIsKept(s.store, s.written, Retained(r.floor, |r.written|), q);
      assert r.floor - 1 <= q - 1 < r.last;
    }
  }

  lemma StoredIsKept(store: map<string, Stored>, written: seq<Entry>, kept: set<nat>, q: nat)
    requires Holds(store, written, kept) && Key(q) in store
    ensures q in kept
  {
    hide Key;
    PositionKeyFirst(q);
    var p: nat :| p in kept && Key(q) == Key(p);
    KeyInjective(p, q);
  }

  /** A replica that no truncation overtakes receives exactly the log up to its position. */
  lemma NothingMissed(actions: seq<Action>)
    requires BelowLimit(Unserved, actions) && NotOvertaken(Unserved, actions)
    ensures var s := ServeAll(Unserved, actions);
            s.last <= |s.written| && s.received == s.written[..s.last]
  {
    hide Pages, Faithful, WithinLimit, BelowLimit, Holds;
    NothingServed();
    ServedAsPages(Unserved, Fresh, actions);
    PagesMissNothing(Fresh, actions);
    PagesAgree(ServeAll(Unserved, actions), Run(Fresh, actions));
  }

  lemma PagesAgree(s: Served, r: Replication)
    requires Pages(s, r)
    ensures s.written == r.written && s.last == r.last && s.received == r.received
  {
  }
}
