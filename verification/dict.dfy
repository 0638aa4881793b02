/**
 * A plain JavaScript object used as a dictionary from string keys to values: its own
 * keys in insertion order beside the value stored under each. Assigning to a key that
 * is already present keeps its position; assigning to a new key appends it.
 */
module Dict {

  datatype Dict<V> = Dict(keys: seq<string>, vals: map<string, V>)

  predicate Distinct(ids: seq<string>) {
    forall i, j :: 0 <= i < j < |ids| ==> ids[i] != ids[j]
  }

  /** The key order lists every stored key exactly once. */
  predicate Valid<V>(d: Dict<V>) {
    && Distinct(d.keys)
    && (forall k :: k in d.vals ==> k in d.keys)
    && (forall k :: k in d.keys ==> k in d.vals)
  }

  /** `{}` */
  function Empty<V>(): Dict<V> {
    Dict([], map[])
  }

  /** `obj[k] !== undefined` */
  predicate HasKey<V>(d: Dict<V>, k: string) {
    k in d.vals
  }

  /**
   * `obj[k] = v`: the key is present afterwards, and at most one key (a new `k`) is
   * added, at the end.
   */
  function Set<V>(d: Dict<V>, k: string, v: V): (r: Dict<V>)
    ensures HasKey(r, k)
    ensures |d.keys| <= |r.keys| <= |d.keys| + 1
  {
    Dict(if k in d.vals then d.keys else d.keys + [k], d.vals[k := v])
  }

  /** Assignment stores the value and keeps every listed key at its position. */
  lemma SetKeepsOrder<V>(d: Dict<V>, k: string, v: V)
    ensures Set(d, k, v).vals[k] == v
    ensures Set(d, k, v).keys[..|d.keys|] == d.keys
  {
  }

  /** Assignment keeps every key listed once. */
  lemma SetValid<V>(d: Dict<V>, k: string, v: V)
    requires Valid(d)
    ensures Valid(Set(d, k, v))
  {
    if k !in d.vals {
      assert forall i :: 0 <= i < |d.keys| ==> d.keys[i] != k;
    }
  }

  /** A lookup table of numbers read the JavaScript way: a missing key reads as 0. */
  function Get(src: map<string, int>, k: string): int {
    if k in src then src[k] else 0
  }

  /** `obj[k] || 0` for a dictionary of numbers. */
  function Amount(d: Dict<int>, k: string): int {
    Get(d.vals, k)
  }

  /** The positive part of an amount. */
  function Pos(v: int): (r: nat)
    ensures v > 0 ==> r == v
    ensures v <= 0 ==> r == 0
  {
    if v > 0 then v else 0
  }

  // -------------------------------------------------------------------- sums

  /** Total of the amounts `src` holds under the ids `ids`, missing ones read as 0. */
  function SumOver(src: map<string, int>, ids: seq<string>): int {
    if ids == [] then 0 else SumOver(src, ids[..|ids| - 1]) + Get(src, ids[|ids| - 1])
  }

  /** Total of the positive amounts `src` holds under the ids `ids`. */
  function PosOver(src: map<string, int>, ids: seq<string>): nat {
    if ids == [] then 0 else PosOver(src, ids[..|ids| - 1]) + Pos(Get(src, ids[|ids| - 1]))
  }

  /** Total of all values, in key order. */
  function Sum(d: Dict<int>): int {
    SumOver(d.vals, d.keys)
  }

  /** Total of the positive values. */
  function SumPos(d: Dict<int>): nat {
    PosOver(d.vals, d.keys)
  }

  /** Sums over ids only see the amounts under those ids. */
  lemma {:induction false} SumsFrame(d1: map<string, int>, d2: map<string, int>, ids: seq<string>)
    requires forall i :: 0 <= i < |ids| ==> Get(d1, ids[i]) == Get(d2, ids[i])
    ensures SumOver(d1, ids) == SumOver(d2, ids)
    ensures PosOver(d1, ids) == PosOver(d2, ids)
  {
    if ids != [] {
      SumsFrame(d1, d2, ids[..|ids| - 1]);
    }
  }

  /** Positive sums split over a concatenation of id lists. */
  lemma {:induction false} PosOverAppend(d: map<string, int>, a: seq<string>, b: seq<string>)
    ensures PosOver(d, a + b) == PosOver(d, a) + PosOver(d, b)
  {
    if b == [] {
      assert a + b == a;
    } else {
      var init := b[..|b| - 1];
      assert (a + b)[..|a + b| - 1] == a + init;
      PosOverAppend(d, a, init);
    }
  }

  /** Ids under which `d` holds nothing add nothing to a positive sum. */
  lemma {:induction false} PosOverMissing(d: map<string, int>, ids: seq<string>)
    requires forall i :: 0 <= i < |ids| ==> ids[i] !in d
    ensures PosOver(d, ids) == 0
  {
    if ids != [] {
      PosOverMissing(d, ids[..|ids| - 1]);
    }
  }

  /** The dictionary without key `k`. */
  function Without(d: Dict<int>, k: string): Dict<int> {
    Dict(Filter(d.keys, k), d.vals - {k})
  }

  /** `ids` with every occurrence of `k` dropped. */
  function Filter(ids: seq<string>, k: string): (r: seq<string>)
    ensures forall y :: y in r <==> y in ids && y != k
  {
    if ids == [] then []
    else Filter(ids[..|ids| - 1], k) + if ids[|ids| - 1] == k then [] else [ids[|ids| - 1]]
  }

  /** Dropping a key that occurs once in a duplicate-free list subtracts its positive amount. */
  lemma {:induction false} PosOverWithout(d: Dict<int>, ids: seq<string>, k: string)
    requires Distinct(ids)
    ensures PosOver(d.vals, ids) == PosOver(Without(d, k).vals, Filter(ids, k)) + if k in ids then Pos(Amount(d, k)) else 0
  {
    if ids != [] {
      var init := ids[..|ids| - 1];
      var y := ids[|ids| - 1];
      var d' := Without(d, k);
      var f := Filter(init, k);
      assert Distinct(init);
      PosOverWithout(d, init, k);
      if y == k {
        assert k !in init by {
          assert forall i :: 0 <= i < |init| ==> init[i] == ids[i];
        }
        assert Filter(ids, k) == f;
      } else {
        PosOverSnoc(d'.vals, f, y);
        assert Filter(ids, k) == f + [y];
        assert Amount(d', y) == Amount(d, y);
      }
    }
  }

  /** One more id adds its positive amount. */
  lemma PosOverSnoc(d: map<string, int>, ids: seq<string>, y: string)
    ensures PosOver(d, ids + [y]) == PosOver(d, ids) + Pos(Get(d, y))
  {
    assert (ids + [y])[..|ids|] == ids;
  }

  lemma {:induction false} FilterDistinct(ids: seq<string>, k: string)
    requires Distinct(ids)
    ensures Distinct(Filter(ids, k))
  {
    if ids != [] {
      var init := ids[..|ids| - 1];
      var y := ids[|ids| - 1];
      assert Distinct(init);
      FilterDistinct(init, k);
      assert y !in init;
      assert y !in Filter(init, k);
    }
  }

  /**
   * Summing the positive values of a dictionary in key order equals summing its
   * positive amounts over any duplicate-free id list that covers its keys.
   */
  lemma {:induction false} SumPosOver(d: Dict<int>, ids: seq<string>)
    requires Valid(d) && Distinct(ids)
    requires forall k :: k in d.vals ==> k in ids
    ensures SumPos(d) == PosOver(d.vals, ids)
    decreases |d.keys|
  {
    if d.keys == [] {
      PosOverMissing(d.vals, ids);
    } else {
      var k := d.keys[0];
      var d' := Without(d, k);
      FilterDistinct(d.keys, k);
      FilterDistinct(ids, k);
      assert |Filter(d.keys, k)| < |d.keys| by {
        FilterShorter(d.keys, k);
      }
      SumPosOver(d', Filter(ids, k));
      PosOverWithout(d, d.keys, k);
      PosOverWithout(d, ids, k);
    }
  }

  lemma {:induction false} FilterShorter(ids: seq<string>, k: string)
    requires k in ids
    ensures |Filter(ids, k)| < |ids|
  {
    var init := ids[..|ids| - 1];
    if ids[|ids| - 1] != k {
      FilterShorter(init, k);
    } else {
      FilterNoLonger(init, k);
    }
  }

  lemma {:induction false} FilterNoLonger(ids: seq<string>, k: string)
    ensures |Filter(ids, k)| <= |ids|
  {
    if ids != [] {
      FilterNoLonger(ids[..|ids| - 1], k);
    }
  }

  // ------------------------------------------------------------ positive part

  /**
   * The positive amounts of `src` under `ids`, assigned in `ids` order to a fresh
   * object: the `if (amount > 0) out[key] = amount` loop.
   */
  function PositiveOver(src: map<string, int>, ids: seq<string>): (r: Dict<int>)
    ensures |r.keys| <= |ids|
  {
    if ids == [] then Empty()
    else
      var p := PositiveOver(src, ids[..|ids| - 1]);
      var k := ids[|ids| - 1];
      if Get(src, k) > 0 then Set(p, k, Get(src, k)) else p
  }

  /** The positive entries of `d`, in its key order. */
  function Positive(d: Dict<int>): (r: Dict<int>)
    ensures |r.keys| <= |d.keys|
  {
    PositiveOver(d.vals, d.keys)
  }

  /** The ids of `ids` whose amount in `src` is positive, in order. */
  function PositiveKeys(src: map<string, int>, ids: seq<string>): (r: seq<string>)
    ensures forall k :: k in r <==> k in ids && Get(src, k) > 0
  {
    if ids == [] then []
    else
      var k := ids[|ids| - 1];
      PositiveKeys(src, ids[..|ids| - 1]) + if Get(src, k) > 0 then [k] else []
  }

  /**
   * The positive part holds a key exactly when the key is among `ids` with a positive
   * amount, and then holds that amount.
   */
  lemma {:induction false} PositiveOverAmount(src: map<string, int>, ids: seq<string>, k: string)
    ensures HasKey(PositiveOver(src, ids), k) <==> k in ids && Get(src, k) > 0
    ensures Amount(PositiveOver(src, ids), k) == if k in ids then Pos(Get(src, k)) else 0
  {
    if ids != [] {
      var init := ids[..|ids| - 1];
      PositiveOverAmount(src, init, k);
      assert k in ids <==> k in init || k == ids[|ids| - 1];
    }
  }

  /**
   * The positive part keeps every key once, lists the positive ids in order, and
   * holds only positive values.
   */
  lemma {:induction false} PositiveOverShape(src: map<string, int>, ids: seq<string>)
    requires Distinct(ids)
    ensures Valid(PositiveOver(src, ids))
    ensures PositiveOver(src, ids).keys == PositiveKeys(src, ids)
    ensures forall k :: k in PositiveOver(src, ids).vals ==> PositiveOver(src, ids).vals[k] > 0
  {
    if ids != [] {
      var init := ids[..|ids| - 1];
      var k := ids[|ids| - 1];
      assert Distinct(init);
      PositiveOverShape(src, init);
      var p := PositiveOver(src, init);
      if Get(src, k) > 0 {
        PositiveOverAmount(src, init, k);
        SetValid(p, k, Get(src, k));
      }
    }
  }

  /** The positive part of a duplicate-free id list totals the positive amounts. */
  lemma {:induction false} PositiveOverSum(src: map<string, int>, ids: seq<string>)
    requires Distinct(ids)
    ensures Sum(PositiveOver(src, ids)) == PosOver(src, ids)
  {
    if ids != [] {
      var init := ids[..|ids| - 1];
      var k := ids[|ids| - 1];
      assert Distinct(init);
      PositiveOverSum(src, init);
      if Get(src, k) > 0 {
        PositiveOverShape(src, init);
        PositiveOverAmount(src, init, k);
        SumSetFresh(PositiveOver(src, init), k, Get(src, k));
      }
    }
  }

  /** Assigning a fresh key adds its value to the total. */
  lemma SumSetFresh(p: Dict<int>, k: string, v: int)
    requires Valid(p) && k !in p.vals
    ensures Sum(Set(p, k, v)) == Sum(p) + v
  {
    var r := Set(p, k, v);
    assert r.keys == p.keys + [k];
    assert forall i :: 0 <= i < |p.keys| ==> p.keys[i] != k;
    SumsFrame(p.vals, r.vals, p.keys);
    assert r.keys[..|r.keys| - 1] == p.keys;
  }
}
