/**
 * Id-keyed record lists: the findIndex / replace-or-push / filter idiom that
 * src/utils/storage.ts applies to every collection. `key` extracts a record's id.
 */
module Records {

  /** Some record of `s` has id `id`. */
  predicate HasId<T>(s: seq<T>, id: string, key: T -> string) {
    exists j :: 0 <= j < |s| && key(s[j]) == id
  }

  /** Array.prototype.findIndex: the first position holding id `id`, or -1. */
  function FindIndex<T>(s: seq<T>, id: string, key: T -> string): (i: int)
    ensures -1 <= i < |s|
    ensures i == -1 <==> !HasId(s, id, key)
    ensures 0 <= i ==> key(s[i]) == id
    ensures forall j :: 0 <= j < i ==> key(s[j]) != id
  {
    if s == [] then -1
    else if key(s[0]) == id then 0
    else
      var i := FindIndex(s[1..], id, key);
      assert forall j :: 0 < j < |s| ==> s[j] == s[1..][j - 1];
      if i == -1 then -1 else i + 1
  }

  /** The records whose id is not `id`, in their original order (`filter(r => r.id !== id)`). */
  function Remove<T>(s: seq<T>, id: string, key: T -> string): (r: seq<T>)
    ensures |r| <= |s|
    ensures !HasId(r, id, key)
    ensures forall x :: x in r ==> x in s
    ensures forall x :: x in s && key(x) != id ==> x in r
  {
    if s == [] then []
    else if key(s[0]) == id then Remove(s[1..], id, key)
    else [s[0]] + Remove(s[1..], id, key)
  }

  /**
   * Save-by-id: when some record has the same id as `x`, the first such record is
   * replaced in place; otherwise `x` is appended.
   */
  function Upsert<T>(s: seq<T>, x: T, key: T -> string): (r: seq<T>)
    ensures HasId(s, key(x), key) ==>
      |r| == |s| && r[FindIndex(s, key(x), key)] == x &&
      forall j :: 0 <= j < |s| && j != FindIndex(s, key(x), key) ==> r[j] == s[j]
    ensures !HasId(s, key(x), key) ==> |r| == |s| + 1 && r[..|s|] == s && r[|s|] == x
  {
    var i := FindIndex(s, key(x), key);
    if i >= 0 then s[i := x] else s + [x]
  }

  /** Insert-only save: a record whose id is already present is dropped. */
  function InsertNew<T>(s: seq<T>, x: T, key: T -> string): (r: seq<T>)
    ensures HasId(s, key(x), key) ==> r == s
    ensures !HasId(s, key(x), key) ==> |r| == |s| + 1 && r[..|s|] == s && r[|s|] == x
  {
    if HasId(s, key(x), key) then s else s + [x]
  }

  /** After an upsert, looking up the saved id finds exactly the saved record. */
  lemma UpsertThenFind<T>(s: seq<T>, x: T, key: T -> string)
    ensures var r := Upsert(s, x, key);
      var i := FindIndex(r, key(x), key);
      0 <= i && r[i] == x
  {
    var r := Upsert(s, x, key);
    if HasId(s, key(x), key) {
      var i := FindIndex(s, key(x), key);
      assert key(r[i]) == key(x);
      assert FindIndex(r, key(x), key) == i;
    } else {
      assert key(r[|s|]) == key(x);
      assert forall j :: 0 <= j < |s| ==> r[j] == s[j];
      assert FindIndex(r, key(x), key) == |s|;
    }
  }

  /** Saving the same record twice is the same as saving it once. */
  lemma UpsertIdempotent<T>(s: seq<T>, x: T, key: T -> string)
    ensures Upsert(Upsert(s, x, key), x, key) == Upsert(s, x, key)
  {
    var r := Upsert(s, x, key);
    UpsertThenFind(s, x, key);
    var i := FindIndex(r, key(x), key);
    assert r[i := x] == r;
  }

  /** Removing distributes over concatenation: the surviving records keep their order. */
  lemma {:induction false} RemoveAppend<T>(a: seq<T>, b: seq<T>, id: string, key: T -> string)
    ensures Remove(a + b, id, key) == Remove(a, id, key) + Remove(b, id, key)
  {
    if a == [] {
      assert a + b == b;
    } else {
      assert (a + b)[0] == a[0];
      assert (a + b)[1..] == a[1..] + b;
      RemoveAppend(a[1..], b, id, key);
    }
  }

  /** Removing an id no record carries changes nothing. */
  lemma {:induction false} RemoveAbsent<T>(s: seq<T>, id: string, key: T -> string)
    requires !HasId(s, id, key)
    ensures Remove(s, id, key) == s
  {
    if s != [] {
      assert key(s[0]) != id;
      assert !HasId(s[1..], id, key) by {
        forall j | 0 <= j < |s| - 1 ensures key(s[1..][j]) != id {
          assert s[1..][j] == s[j + 1];
        }
      }
      RemoveAbsent(s[1..], id, key);
    }
  }

  /** A single record survives removal exactly when it does not carry `id`. */
  lemma RemoveSingleton<T>(x: T, id: string, key: T -> string)
    ensures Remove([x], id, key) == if key(x) == id then [] else [x]
  {
    assert [x][1..] == [];
  }

  /**
   * An upsert only affects records with the saved id: removing that id afterwards
   * gives the same list as removing it before.
   */
  lemma UpsertOthersUnchanged<T>(s: seq<T>, x: T, key: T -> string)
    ensures Remove(Upsert(s, x, key), key(x), key) == Remove(s, key(x), key)
  {
    var id := key(x);
    var i := FindIndex(s, id, key);
    if i >= 0 {
      var pre, post := s[..i], s[i + 1..];
      assert s == pre + [s[i]] + post;
      assert Upsert(s, x, key) == pre + [x] + post;
      RemoveReplace(pre, s[i], x, post, id, key);
    } else {
      RemoveAppendDropped(s, x, key);
    }
  }

  /** Swapping one record for another with the removed id is invisible to Remove. */
  lemma RemoveReplace<T>(pre: seq<T>, y: T, x: T, post: seq<T>, id: string, key: T -> string)
    requires key(y) == id && key(x) == id
    ensures Remove(pre + [x] + post, id, key) == Remove(pre + [y] + post, id, key)
  {
    RemoveDropsOne(pre, x, post, id, key);
    RemoveDropsOne(pre, y, post, id, key);
  }

  /** A record with the removed id in the middle of a list leaves no trace. */
  lemma RemoveDropsOne<T>(pre: seq<T>, y: T, post: seq<T>, id: string, key: T -> string)
    requires key(y) == id
    ensures Remove(pre + [y] + post, id, key) == Remove(pre, id, key) + Remove(post, id, key)
  {
    RemoveAppend(pre + [y], post, id, key);
    RemoveAppend(pre, [y], id, key);
    RemoveSingleton(y, id, key);
    assert Remove(pre, id, key) + [] == Remove(pre, id, key);
  }

  /** An appended record carrying the removed id leaves no trace. */
  lemma RemoveAppendDropped<T>(s: seq<T>, x: T, key: T -> string)
    ensures Remove(s + [x], key(x), key) == Remove(s, key(x), key)
  {
    RemoveAppend(s, [x], key(x), key);
    RemoveSingleton(x, key(x), key);
    assert Remove(s, key(x), key) + [] == Remove(s, key(x), key);
  }

  /** An insert-only save of the same record twice is the same as once. */
  lemma InsertNewIdempotent<T>(s: seq<T>, x: T, key: T -> string)
    ensures InsertNew(InsertNew(s, x, key), x, key) == InsertNew(s, x, key)
  {
    var r := InsertNew(s, x, key);
    if !HasId(s, key(x), key) {
      assert key(r[|s|]) == key(x);
    }
  }

  /** Removing twice is removing once. */
  lemma RemoveIdempotent<T>(s: seq<T>, id: string, key: T -> string)
    ensures Remove(Remove(s, id, key), id, key) == Remove(s, id, key)
  {
    RemoveAbsent(Remove(s, id, key), id, key);
  }

  /** `xs.forEach(save)`: each record upserted in turn. */
  function UpsertAll<T>(s: seq<T>, xs: seq<T>, key: T -> string): (r: seq<T>)
    ensures |s| <= |r| <= |s| + |xs|
  {
    if xs == [] then s else Upsert(UpsertAll(s, xs[..|xs| - 1], key), xs[|xs| - 1], key)
  }

  /** No two records of `xs` share an id. */
  predicate DistinctKeys<T>(xs: seq<T>, key: T -> string) {
    forall i, j :: 0 <= i < j < |xs| ==> key(xs[i]) != key(xs[j])
  }

  /** Saving records with fresh, distinct ids one by one appends them in order. */
  lemma {:induction false} UpsertAllFresh<T>(s: seq<T>, xs: seq<T>, key: T -> string)
    requires DistinctKeys(xs, key)
    requires forall i :: 0 <= i < |xs| ==> !HasId(s, key(xs[i]), key)
    ensures UpsertAll(s, xs, key) == s + xs
  {
    if xs != [] {
      var init, x := xs[..|xs| - 1], xs[|xs| - 1];
      UpsertAllFresh(s, init, key);
      assert !HasId(s + init, key(x), key) by {
        forall j | 0 <= j < |s + init|
          ensures key((s + init)[j]) != key(x)
        {
          if j >= |s| {
            assert (s + init)[j] == xs[j - |s|];
          } else {
            assert (s + init)[j] == s[j];
          }
        }
      }
      assert s + init + [x] == s + xs;
    }
  }
}
