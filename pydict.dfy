/**
 * Python's `dict` with string keys and its `collections.Counter` subclass,
 * as far as the analyzers use them: insertion-ordered storage, `+= 1` on a
 * counter, `len`, `items()` and `most_common(n)`.
 */
module PyDict {

  /** `keys` lists every stored key once, in the order it was first stored. */
  datatype Dict<V> = Dict(keys: seq<string>, entries: map<string, V>)

  predicate Distinct(s: seq<string>) {
    forall i, j :: 0 <= i < j < |s| ==> s[i] != s[j]
  }

  predicate Valid<V>(d: Dict<V>) {
    && Distinct(d.keys)
    && (forall k :: k in d.entries ==> k in d.keys)
    && (forall k :: k in d.keys ==> k in d.entries)
  }

  function Empty<V>(): Dict<V> {
    Dict([], map[])
  }

  /** `d[k] = v`: a new key goes to the end of the order, a present key keeps its place. */
  function Put<V>(d: Dict<V>, k: string, v: V): (r: Dict<V>)
    ensures Valid(d) ==> Valid(r)
    ensures k in r.entries && r.entries[k] == v
    ensures forall j :: j != k ==> (j in r.entries <==> j in d.entries)
    ensures forall j :: j != k && j in d.entries ==> r.entries[j] == d.entries[j]
    ensures Valid(d) ==> r.keys == if k in d.keys then d.keys else d.keys + [k]
  {
    if k in d.entries then Dict(d.keys, d.entries[k := v])
    else Dict(d.keys + [k], d.entries[k := v])
  }

  /** `len(d)` is the number of distinct keys. */
  lemma {:induction false} DistinctLength(s: seq<string>)
    requires Distinct(s)
    ensures |set k | k in s| == |s|
  {
    if s != [] {
      var init := s[..|s| - 1];
      DistinctLength(init);
      assert (set k | k in s) == (set k | k in init) + {s[|s| - 1]};
      assert s[|s| - 1] !in (set k | k in init);
    }
  }

  lemma LengthIsKeyCount<V>(d: Dict<V>)
    requires Valid(d)
    ensures |d.keys| == |d.entries.Keys|
  {
    DistinctLength(d.keys);
    assert d.entries.Keys == set k | k in d.keys;
  }

  // ---------------------------------------------------------------- Counter

  type Counter = Dict<nat>

  /** `c[k]`: a missing key counts zero. */
  function Count(c: Counter, k: string): nat {
    if k in c.entries then c.entries[k] else 0
  }

  /** `c[k] += 1`. */
  function Inc(c: Counter, k: string): (r: Counter)
    ensures Valid(c) ==> Valid(r)
    ensures Count(r, k) == Count(c, k) + 1
    ensures forall j :: j != k ==> Count(r, j) == Count(c, j)
    ensures Valid(c) ==> r.keys == if k in c.keys then c.keys else c.keys + [k]
  {
    Put(c, k, Count(c, k) + 1)
  }

  /** The sum of the counts of `keys` in `c`. */
  function SumOver(keys: seq<string>, c: Counter): nat {
    if keys == [] then 0 else SumOver(keys[..|keys| - 1], c) + Count(c, keys[|keys| - 1])
  }

  /** `sum(c.values())`. */
  function Total(c: Counter): nat {
    SumOver(c.keys, c)
  }

  lemma {:induction false} SumOverBump(keys: seq<string>, c: Counter, r: Counter, k: string)
    requires Distinct(keys)
    requires Count(r, k) == Count(c, k) + 1
    requires forall j :: j != k ==> Count(r, j) == Count(c, j)
    ensures SumOver(keys, r) == SumOver(keys, c) + (if k in keys then 1 else 0)
  {
    if keys != [] {
      var init := keys[..|keys| - 1];
      assert k in keys <==> k in init || k == keys[|keys| - 1];
      assert keys[|keys| - 1] !in init;
      SumOverBump(init, c, r, k);
    }
  }

  /** Each `+= 1` raises the sum of all counts by exactly one. */
  lemma TotalInc(c: Counter, k: string)
    requires Valid(c)
    ensures Total(Inc(c, k)) == Total(c) + 1
  {
    var r := Inc(c, k);
    SumOverBump(c.keys, c, r, k);
    if k !in c.keys {
      assert r.keys[..|r.keys| - 1] == c.keys;
    }
  }

  /** How often `k` occurs in `ks`. */
  function Occurrences(ks: seq<string>, k: string): nat {
    if ks == [] then 0
    else Occurrences(ks[..|ks| - 1], k) + (if ks[|ks| - 1] == k then 1 else 0)
  }

  /** The position of the first occurrence of `k` in `ks`. */
  function FirstIndex(ks: seq<string>, k: string): (i: nat)
    requires k in ks
    ensures i < |ks| && ks[i] == k && k !in ks[..i]
  {
    if ks[0] == k then 0 else 1 + FirstIndex(ks[1..], k)
  }

  /** `Counter(ks)`: `+= 1` for every element of `ks`, in order, starting empty. */
  function Tally(ks: seq<string>): Counter {
    if ks == [] then Empty() else Inc(Tally(ks[..|ks| - 1]), ks[|ks| - 1])
  }

  /** A counter fed the keys `ks` holds exactly the keys that occur in `ks`. */
  lemma {:induction false} TallyKeys(ks: seq<string>)
    ensures Valid(Tally(ks))
    ensures forall k :: k in Tally(ks).keys <==> k in ks
  {
    if ks != [] {
      var init, x := ks[..|ks| - 1], ks[|ks| - 1];
      assert ks == init + [x];
      TallyKeys(init);
      forall k ensures k in Tally(ks).keys <==> k in ks {
        assert k in ks <==> k in init || k == x;
      }
    }
  }

  /** A counter fed the keys `ks` holds, for every key, the number of times it occurs in `ks`. */
  lemma {:induction false} TallyCounts(ks: seq<string>)
    ensures forall k :: Count(Tally(ks), k) == Occurrences(ks, k)
  {
    if ks != [] {
      TallyCounts(ks[..|ks| - 1]);
    }
  }

  /** Every key of `keys` occurs in `ks`, and `keys` lists them in the order of their first occurrence there. */
  predicate FirstSeenOrder(keys: seq<string>, ks: seq<string>) {
    && (forall k :: k in keys ==> k in ks)
    && (forall i, j :: 0 <= i < j < |keys| ==> FirstIndex(ks, keys[i]) < FirstIndex(ks, keys[j]))
  }

  lemma OrderExtend(keys: seq<string>, init: seq<string>, x: string)
    requires FirstSeenOrder(keys, init)
    ensures FirstSeenOrder(keys, init + [x])
  {
    forall k | k in keys ensures FirstIndex(init + [x], k) == FirstIndex(init, k) {
      FirstIndexPrefix(init, x, k);
    }
  }

  lemma OrderAppend(keys: seq<string>, init: seq<string>, x: string)
    requires FirstSeenOrder(keys, init) && x !in init
    ensures FirstSeenOrder(keys + [x], init + [x])
  {
    OrderExtend(keys, init, x);
    FirstIndexNew(init, x);
    var ks, r := init + [x], keys + [x];
    forall i, j | 0 <= i < j < |r| ensures FirstIndex(ks, r[i]) < FirstIndex(ks, r[j]) {
      assert r[i] == keys[i];
      if j < |keys| {
        assert r[j] == keys[j];
      }
    }
  }

  /** A counter fed the keys `ks` lists them in the order of their first occurrence. */
  lemma {:induction false} TallyOrder(ks: seq<string>)
    ensures FirstSeenOrder(Tally(ks).keys, ks)
  {
    if ks != [] {
      var init, x := ks[..|ks| - 1], ks[|ks| - 1];
      assert ks == init + [x];
      TallyOrder(init);
      TallyKeys(init);
      var c, r := Tally(init), Tally(ks);
      if x !in init {
        assert r.keys == c.keys + [x];
        OrderAppend(c.keys, init, x);
      } else {
        assert r.keys == c.keys;
        OrderExtend(c.keys, init, x);
      }
    }
  }

  lemma {:induction false} FirstIndexPrefix(init: seq<string>, x: string, k: string)
    requires k in init
    ensures FirstIndex(init + [x], k) == FirstIndex(init, k)
  {
    if init[0] != k {
      assert (init + [x])[1..] == init[1..] + [x];
      FirstIndexPrefix(init[1..], x, k);
    }
  }

  lemma FirstIndexNew(init: seq<string>, x: string)
    requires x !in init
    ensures FirstIndex(init + [x], x) == |init|
  {
  }

  // ---------------------------------------------------------- most_common

  /** `c.items()`, in insertion order. */
  function CountItems(c: Counter): seq<(string, nat)> {
    seq(|c.keys|, i requires 0 <= i < |c.keys| => (c.keys[i], Count(c, c.keys[i])))
  }

  /**
   * `items()` of a well-formed counter lists each stored key exactly once,
   * in insertion order, paired with its stored count.
   */
  lemma CountItemsSpec(c: Counter)
    requires Valid(c)
    ensures var r := CountItems(c);
      && KeysDistinct(r)
      && ItemKeys(r) == c.keys
      && (forall i :: 0 <= i < |r| ==> r[i].0 in c.entries && r[i].1 == c.entries[r[i].0])
      && (forall k :: k in c.entries <==> exists i :: 0 <= i < |r| && r[i].0 == k)
  {
    var r := CountItems(c);
    forall k | k in c.entries ensures exists i :: 0 <= i < |r| && r[i].0 == k {
      var i :| 0 <= i < |c.keys| && c.keys[i] == k;
      assert r[i].0 == k;
    }
  }

  predicate Descending(s: seq<(string, nat)>) {
    forall i, j :: 0 <= i < j < |s| ==> s[i].1 >= s[j].1
  }

  /** The items of `s` whose count is `v`, in their order in `s`. */
  function WithCount(s: seq<(string, nat)>, v: nat): seq<(string, nat)> {
    if s == [] then []
    else (if s[0].1 == v then [s[0]] else []) + WithCount(s[1..], v)
  }

  /** Places `x` before the first item whose count is not greater than its own. */
  function InsertDesc(x: (string, nat), t: seq<(string, nat)>): seq<(string, nat)> {
    if t == [] || x.1 >= t[0].1 then [x] + t else [t[0]] + InsertDesc(x, t[1..])
  }

  /** `sorted(s, key=count, reverse=True)`: a stable sort by descending count. */
  function SortDesc(s: seq<(string, nat)>): seq<(string, nat)> {
    if s == [] then [] else InsertDesc(s[0], SortDesc(s[1..]))
  }

  lemma {:induction false} InsertDescPerm(x: (string, nat), t: seq<(string, nat)>)
    ensures multiset(InsertDesc(x, t)) == multiset([x] + t)
  {
    if t != [] && x.1 < t[0].1 {
      InsertDescPerm(x, t[1..]);
      assert t == [t[0]] + t[1..];
    }
  }

  /** Inserting an item whose count is at most `b` into items whose counts are at most `b` keeps that bound. */
  lemma {:induction false} InsertDescBounded(x: (string, nat), t: seq<(string, nat)>, b: nat)
    requires x.1 <= b && forall i :: 0 <= i < |t| ==> t[i].1 <= b
    ensures forall i :: 0 <= i < |InsertDesc(x, t)| ==> InsertDesc(x, t)[i].1 <= b
  {
    if t != [] && x.1 < t[0].1 {
      InsertDescBounded(x, t[1..], b);
    }
  }

  lemma {:induction false} InsertDescDescending(x: (string, nat), t: seq<(string, nat)>)
    requires Descending(t)
    ensures Descending(InsertDesc(x, t))
  {
    if t != [] && x.1 < t[0].1 {
      var rest := InsertDesc(x, t[1..]);
      InsertDescDescending(x, t[1..]);
      InsertDescBounded(x, t[1..], t[0].1);
      var r := [t[0]] + rest;
      forall i, j | 0 <= i < j < |r| ensures r[i].1 >= r[j].1 {
        assert r[j] == rest[j - 1];
        if i > 0 {
          assert r[i] == rest[i - 1];
        }
      }
    }
  }

  lemma {:induction false} InsertDescStable(x: (string, nat), t: seq<(string, nat)>, v: nat)
    ensures WithCount(InsertDesc(x, t), v) == WithCount([x] + t, v)
  {
    if t != [] && x.1 < t[0].1 {
      var rest := InsertDesc(x, t[1..]);
      InsertDescStable(x, t[1..], v);
      assert ([t[0]] + rest)[1..] == rest;
      assert ([x] + t)[1..] == t;
      assert ([x] + t[1..])[1..] == t[1..];
    }
  }

  /**
   * The stable descending sort is a permutation, in descending count order,
   * and keeps items of equal count in their original order.
   */
  lemma {:induction false} SortDescSpec(s: seq<(string, nat)>)
    ensures Descending(SortDesc(s))
    ensures multiset(SortDesc(s)) == multiset(s)
    ensures forall v :: WithCount(SortDesc(s), v) == WithCount(s, v)
  {
    if s != [] {
      var rest := SortDesc(s[1..]);
      SortDescSpec(s[1..]);
      InsertDescDescending(s[0], rest);
      InsertDescPerm(s[0], rest);
      assert s == [s[0]] + s[1..];
      forall v ensures WithCount(SortDesc(s), v) == WithCount(s, v) {
        InsertDescStable(s[0], rest, v);
        assert ([s[0]] + rest)[1..] == rest;
      }
    }
  }

  /** `c.most_common(n)`: the first `n` items of the stable descending sort. */
  function MostCommon(c: Counter, n: nat): seq<(string, nat)> {
    var sorted := SortDesc(CountItems(c));
    if |sorted| <= n then sorted else sorted[..n]
  }

  lemma {:induction false} WithCountPrefix(s: seq<(string, nat)>, n: nat, v: nat)
    requires n <= |s|
    ensures WithCount(s[..n], v) <= WithCount(s, v)
  {
    if n > 0 {
      WithCountPrefix(s[1..], n - 1, v);
      assert s[..n][1..] == s[1..][..n - 1];
    }
  }

  /** The sorted items of a counter are its keys, each once, with their counts. */
  lemma SortedItems(c: Counter)
    ensures var sorted := SortDesc(CountItems(c));
      |sorted| == |c.keys|
    ensures var sorted := SortDesc(CountItems(c));
      forall q :: 0 <= q < |sorted| ==> sorted[q].0 in c.keys && sorted[q].1 == Count(c, sorted[q].0)
    ensures var sorted := SortDesc(CountItems(c));
      forall k :: k in c.keys ==> exists q :: 0 <= q < |sorted| && sorted[q].0 == k
  {
    var items := CountItems(c);
    var sorted := SortDesc(items);
    SortDescSpec(items);
    assert |sorted| == |items| by {
      calc {
        |sorted|;
        |multiset(sorted)|;
        |multiset(items)|;
        |items|;
      }
    }
    forall q | 0 <= q < |sorted| ensures sorted[q].0 in c.keys && sorted[q].1 == Count(c, sorted[q].0) {
      assert sorted[q] in multiset(items);
      assert sorted[q] in items;
    }
    forall k | k in c.keys ensures exists q :: 0 <= q < |sorted| && sorted[q].0 == k {
      var p :| 0 <= p < |c.keys| && c.keys[p] == k;
      assert items[p] in multiset(sorted);
      var q :| 0 <= q < |sorted| && sorted[q] == items[p];
    }
  }

  /** The keys of a list of items, in order. */
  function ItemKeys(s: seq<(string, nat)>): seq<string> {
    seq(|s|, i requires 0 <= i < |s| => s[i].0)
  }

  /**
   * `most_common(n)` holds min(n, len(c)) items of `c` with their counts, in
   * descending count order.
   */
  lemma MostCommonSpec(c: Counter, n: nat)
    ensures var r := MostCommon(c, n);
      |r| == (if |c.keys| <= n then |c.keys| else n)
    ensures Descending(MostCommon(c, n))
    ensures var r := MostCommon(c, n);
      forall i :: 0 <= i < |r| ==> r[i].0 in c.keys && r[i].1 == Count(c, r[i].0)
  {
    SortDescSpec(CountItems(c));
    SortedItems(c);
  }

  /** Every key of `c` that `most_common(n)` leaves out counts no more than any key it keeps. */
  lemma MostCommonLeavesSmaller(c: Counter, n: nat)
    ensures var r := MostCommon(c, n);
      forall k, i :: k in c.keys && 0 <= i < |r| ==> k in ItemKeys(r) || Count(c, k) <= r[i].1
  {
    var sorted := SortDesc(CountItems(c));
    SortDescSpec(CountItems(c));
    SortedItems(c);
    var r := MostCommon(c, n);
    forall k, i | k in c.keys && 0 <= i < |r| ensures k in ItemKeys(r) || Count(c, k) <= r[i].1 {
      var q :| 0 <= q < |sorted| && sorted[q].0 == k;
      if q < |r| {
        assert ItemKeys(r)[q] == k;
      } else {
        assert r[i] == sorted[i];
      }
    }
  }

  /**
   * Among keys of equal count, `most_common(n)` keeps them in insertion order,
   * and the ones it keeps are the first ones: `heapq.nlargest` and `sorted`
   * are both stable.
   */
  lemma MostCommonStable(c: Counter, n: nat)
    ensures forall v :: WithCount(MostCommon(c, n), v) <= WithCount(CountItems(c), v)
  {
    var sorted := SortDesc(CountItems(c));
    SortDescSpec(CountItems(c));
    forall v ensures WithCount(MostCommon(c, n), v) <= WithCount(CountItems(c), v) {
      WithCountPrefix(sorted, |MostCommon(c, n)|, v);
    }
  }

  // ---------------------------------------------------------- sorted(items)

  /** Python's `a < b` on `str`: the first differing character decides, and a proper prefix comes first. */
  predicate StrLess(a: string, b: string) {
    if a == [] then b != []
    else b != [] && (a[0] < b[0] || (a[0] == b[0] && StrLess(a[1..], b[1..])))
  }

  lemma {:induction false} StrLessTotal(a: string, b: string)
    requires a != b
    ensures StrLess(a, b) || StrLess(b, a)
  {
    if a != [] && b != [] && a[0] == b[0] {
      assert a == [a[0]] + a[1..] && b == [b[0]] + b[1..];
      StrLessTotal(a[1..], b[1..]);
    }
  }

  lemma {:induction false} StrLessTransitive(a: string, b: string, c: string)
    requires StrLess(a, b) && StrLess(b, c)
    ensures StrLess(a, c)
  {
    if a != [] && a[0] == b[0] && b[0] == c[0] {
      StrLessTransitive(a[1..], b[1..], c[1..]);
    }
  }

  predicate KeysAscending(s: seq<(string, nat)>) {
    forall i, j :: 0 <= i < j < |s| ==> StrLess(s[i].0, s[j].0)
  }

  predicate KeysDistinct(s: seq<(string, nat)>) {
    forall i, j :: 0 <= i < j < |s| ==> s[i].0 != s[j].0
  }

  /** Places `x` before the first item whose key is greater. */
  function InsertByKey(x: (string, nat), t: seq<(string, nat)>): seq<(string, nat)> {
    if t == [] || StrLess(x.0, t[0].0) then [x] + t else [t[0]] + InsertByKey(x, t[1..])
  }

  /** `sorted(items)` for items with distinct keys: ascending by key. */
  function SortByKey(s: seq<(string, nat)>): seq<(string, nat)> {
    if s == [] then [] else InsertByKey(s[0], SortByKey(s[1..]))
  }

  lemma {:induction false} InsertByKeyPerm(x: (string, nat), t: seq<(string, nat)>)
    ensures multiset(InsertByKey(x, t)) == multiset([x] + t)
  {
    if t != [] && !StrLess(x.0, t[0].0) {
      InsertByKeyPerm(x, t[1..]);
      assert t == [t[0]] + t[1..];
    }
  }

  lemma {:induction false} InsertByKeyAscending(x: (string, nat), t: seq<(string, nat)>)
    requires KeysAscending(t)
    requires forall i :: 0 <= i < |t| ==> t[i].0 != x.0
    ensures KeysAscending(InsertByKey(x, t))
  {
    if t != [] && StrLess(x.0, t[0].0) {
      PrependAscending(x, t);
    } else if t != [] {
      var rest := InsertByKey(x, t[1..]);
      InsertByKeyAscending(x, t[1..]);
      InsertByKeyPerm(x, t[1..]);
      StrLessTotal(x.0, t[0].0);
      var r := [t[0]] + rest;
      forall i, j | 0 <= i < j < |r| ensures StrLess(r[i].0, r[j].0) {
        if i == 0 {
          assert r[j] == rest[j - 1];
          assert rest[j - 1] in multiset([x] + t[1..]);
          assert rest[j - 1] in [x] + t[1..];
        } else {
          assert r[i] == rest[i - 1] && r[j] == rest[j - 1];
        }
      }
    }
  }

  lemma PrependAscending(x: (string, nat), t: seq<(string, nat)>)
    requires KeysAscending(t) && t != [] && StrLess(x.0, t[0].0)
    ensures KeysAscending([x] + t)
  {
    forall j | 0 <= j < |t| ensures StrLess(x.0, t[j].0) {
      if j > 0 {
        StrLessTransitive(x.0, t[0].0, t[j].0);
      }
    }
    var r := [x] + t;
    forall i, j | 0 <= i < j < |r| ensures StrLess(r[i].0, r[j].0) {
      if i > 0 {
        assert r[i] == t[i - 1] && r[j] == t[j - 1];
      }
    }
  }

  /** Sorting items with distinct keys yields the same items, in strictly ascending key order. */
  lemma {:induction false} SortByKeySpec(s: seq<(string, nat)>)
    requires KeysDistinct(s)
    ensures KeysAscending(SortByKey(s))
    ensures multiset(SortByKey(s)) == multiset(s)
  {
    if s != [] {
      var rest := SortByKey(s[1..]);
      SortByKeySpec(s[1..]);
      InsertByKeyPerm(s[0], rest);
      forall i | 0 <= i < |rest| ensures rest[i].0 != s[0].0 {
        assert rest[i] in multiset(s[1..]);
        var m :| 0 <= m < |s[1..]| && s[1..][m] == rest[i];
        assert s[m + 1] == rest[i];
      }
      InsertByKeyAscending(s[0], rest);
      assert s == [s[0]] + s[1..];
    }
  }
}
