/**
 * The Spring Data repositories as in-memory tables. A table is the sequence of its
 * documents in insertion order; every document has a string id. `save` replaces the
 * document that has the same id or appends a new one, `deleteById` removes it, and a
 * single-result finder (`findByEmail`, `findByResetToken`, ...) returns the first
 * document that matches.
 */
module Tables {
  import opened Nullable

  /** No two documents share an id: the `@Id` field is the primary key of a collection. */
  predicate UniqueKeys<T>(rows: seq<T>, key: T -> string) {
    forall i, j :: 0 <= i < j < |rows| ==> key(rows[i]) != key(rows[j])
  }

  /** The position of the first document that satisfies `p`, if any. */
  function IndexWhere<T>(rows: seq<T>, p: T -> bool): (r: Option<nat>)
    ensures r.Some? ==> r.value < |rows| && p(rows[r.value])
    ensures r.Some? ==> forall k :: 0 <= k < r.value ==> !p(rows[k])
    ensures r.None? ==> forall k :: 0 <= k < |rows| ==> !p(rows[k])
  {
    if rows == [] then None
    else if p(rows[0]) then Some(0)
    else
      match IndexWhere(rows[1..], p)
      case None => None
      case Some(k) => Some(k + 1)
  }

  /** A single-result finder: the first matching document. */
  function FindWhere<T>(rows: seq<T>, p: T -> bool): (r: Option<T>)
    ensures r.Some? ==> p(r.value) && exists k :: 0 <= k < |rows| && rows[k] == r.value
    ensures r.None? ==> forall k :: 0 <= k < |rows| ==> !p(rows[k])
  {
    match IndexWhere(rows, p)
    case None => None
    case Some(i) => Some(rows[i])
  }

  /** A derived query returning a list: the matching documents, in table order. */
  function Filter<T(==)>(rows: seq<T>, p: T -> bool): (r: seq<T>)
    ensures |r| <= |rows|
    ensures forall k :: 0 <= k < |r| ==> p(r[k])
    ensures forall k :: 0 <= k < |r| ==> r[k] in rows
    ensures forall k :: 0 <= k < |rows| && p(rows[k]) ==> rows[k] in r
  {
    if rows == [] then []
    else if p(rows[0]) then [rows[0]] + Filter(rows[1..], p)
    else Filter(rows[1..], p)
  }

  /** `countBy…`: how many documents match. */
  function Count<T>(rows: seq<T>, p: T -> bool): (n: nat)
    ensures n <= |rows|
    ensures n == 0 <==> forall k :: 0 <= k < |rows| ==> !p(rows[k])
  {
    if rows == [] then 0
    else
      var rest := Count(rows[1..], p);
      assert forall k :: 1 <= k < |rows| ==> rows[k] == rows[1..][k - 1];
      (if p(rows[0]) then 1 else 0) + rest
  }

  /** The position of the document whose id is `id`. */
  function KeyIndex<T>(rows: seq<T>, key: T -> string, id: string): (r: Option<nat>)
    ensures r.Some? ==> r.value < |rows| && key(rows[r.value]) == id
    ensures r.Some? ==> forall k :: 0 <= k < r.value ==> key(rows[k]) != id
    ensures r.None? <==> forall k :: 0 <= k < |rows| ==> key(rows[k]) != id
  {
    IndexWhere(rows, (y: T) => key(y) == id)
  }

  /** `findById` */
  function Lookup<T>(rows: seq<T>, key: T -> string, id: string): (r: Option<T>)
    ensures r.Some? ==> key(r.value) == id && exists k :: 0 <= k < |rows| && rows[k] == r.value
    ensures r.None? <==> forall k :: 0 <= k < |rows| ==> key(rows[k]) != id
  {
    match KeyIndex(rows, key, id)
    case None => None
    case Some(i) => Some(rows[i])
  }

  /**
   * `save`: the document replaces the one with the same id, or is appended when its id
   * is new. Ids stay unique, and afterwards `findById` returns exactly the saved document.
   */
  function Upsert<T>(rows: seq<T>, x: T, key: T -> string): (r: seq<T>)
    ensures |r| == |rows| || |r| == |rows| + 1
    ensures forall k :: 0 <= k < |rows| && key(rows[k]) != key(x) ==> rows[k] == r[k]
    ensures |r| == |rows| + 1 <==> KeyIndex(rows, key, key(x)).None?
    ensures UniqueKeys(rows, key) ==> UniqueKeys(r, key) && Lookup(r, key, key(x)) == Some(x)
  {
    match KeyIndex(rows, key, key(x))
    case None =>
      var r := rows + [x];
      assert KeyIndex(r, key, key(x)) == Some(|rows|) by {
        assert key(r[|rows|]) == key(x);
      }
      r
    case Some(i) =>
      var r := rows[i := x];
      assert UniqueKeys(rows, key) ==> KeyIndex(r, key, key(x)) == Some(i) by {
        if UniqueKeys(rows, key) {
          assert forall k :: 0 <= k < i ==> key(r[k]) != key(x) by {
            forall k | 0 <= k < i ensures key(r[k]) != key(x) {
              assert r[k] == rows[k] && key(rows[i]) == key(x);
            }
          }
          var j := KeyIndex(r, key, key(x));
          assert key(r[i]) == key(x);
          assert j.Some?;
          assert !(j.value < i) && !(i < j.value);
        }
      }
      r
  }

  /** Saving a document whose id is already stored replaces it in place. */
  lemma UpsertExisting<T>(rows: seq<T>, x: T, key: T -> string, i: nat)
    requires UniqueKeys(rows, key) && i < |rows| && key(rows[i]) == key(x)
    ensures Upsert(rows, x, key) == rows[i := x]
    ensures UniqueKeys(rows[i := x], key)
  {
    var j := KeyIndex(rows, key, key(x));
    assert j.Some?;
    assert !(j.value < i) && !(i < j.value);
    var after := rows[i := x];
    forall a, b | 0 <= a < b < |after|
      ensures key(after[a]) != key(after[b])
    {
      assert key(after[a]) == key(rows[a]) && key(after[b]) == key(rows[b]);
    }
  }

  /** Saving a document with a new id appends it. */
  lemma UpsertFresh<T>(rows: seq<T>, x: T, key: T -> string)
    requires forall k :: 0 <= k < |rows| ==> key(rows[k]) != key(x)
    ensures Upsert(rows, x, key) == rows + [x]
    ensures UniqueKeys(rows, key) ==> UniqueKeys(rows + [x], key)
  {
    var after := rows + [x];
    if UniqueKeys(rows, key) {
      forall a, b | 0 <= a < b < |after|
        ensures key(after[a]) != key(after[b])
      {
        assert after[a] == rows[a];
      }
    }
  }

  /** The documents `deleteById(id)` keeps. */
  function KeyIsNot<T>(key: T -> string, id: string): T -> bool {
    (y: T) => key(y) != id
  }

  /** `deleteById`: every document with that id is gone, every other one is kept, in order. */
  function RemoveKey<T(==)>(rows: seq<T>, key: T -> string, id: string): (r: seq<T>)
    ensures |r| <= |rows|
    ensures forall k :: 0 <= k < |r| ==> r[k] in rows && key(r[k]) != id
    ensures forall k :: 0 <= k < |rows| && key(rows[k]) != id ==> rows[k] in r
    ensures UniqueKeys(rows, key) ==> UniqueKeys(r, key)
  {
    var r := Filter(rows, KeyIsNot(key, id));
    assert UniqueKeys(rows, key) ==> UniqueKeys(r, key) by {
      if UniqueKeys(rows, key) {
        FilterPreservesUnique(rows, key, KeyIsNot(key, id));
      }
    }
    r
  }

  /** Appending a document adds one to the count exactly when it matches. */
  lemma CountAppend<T>(rows: seq<T>, x: T, p: T -> bool)
    ensures Count(rows + [x], p) == Count(rows, p) + (if p(x) then 1 else 0)
    decreases |rows|
  {
    if rows != [] {
      assert (rows + [x])[1..] == rows[1..] + [x];
      CountAppend(rows[1..], x, p);
    }
  }

  /** The last row adds one to the count exactly when it matches. */
  lemma {:induction false} CountLast<T>(rows: seq<T>, p: T -> bool)
    requires rows != []
    ensures Count(rows, p) == Count(rows[..|rows| - 1], p) + (if p(rows[|rows| - 1]) then 1 else 0)
  {
    assert rows == rows[..|rows| - 1] + [rows[|rows| - 1]];
    CountAppend(rows[..|rows| - 1], rows[|rows| - 1], p);
  }

  /** The count over two collections is the sum of their counts. */
  lemma {:induction false} CountConcat<T>(a: seq<T>, b: seq<T>, p: T -> bool)
    ensures Count(a + b, p) == Count(a, p) + Count(b, p)
    decreases |a|
  {
    if a == [] {
      assert a + b == b;
    } else {
      assert (a + b)[0] == a[0] && (a + b)[1..] == a[1..] + b;
      CountConcat(a[1..], b, p);
    }
  }

  /** The count does not depend on the order of the documents. */
  lemma {:induction false} CountPermutation<T>(a: seq<T>, b: seq<T>, p: T -> bool)
    requires multiset(a) == multiset(b)
    ensures Count(a, p) == Count(b, p)
    decreases |a|
  {
    if a == [] {
      assert |b| == |multiset(b)| == 0;
    } else {
      var x := a[0];
      assert x in multiset(b);
      var j :| 0 <= j < |b| && b[j] == x;
      var rest := b[..j] + b[j + 1..];
      assert b == b[..j] + [x] + b[j + 1..];
      assert a == [x] + a[1..];
      assert multiset(b) == multiset(b[..j]) + multiset{x} + multiset(b[j + 1..]);
      assert multiset(a) == multiset{x} + multiset(a[1..]);
      assert multiset(rest) == multiset(b[..j]) + multiset(b[j + 1..]);
      calc {
        multiset(a[1..]);
        multiset(a) - multiset{x};
        multiset(b) - multiset{x};
        multiset(rest);
      }
      CountPermutation(a[1..], rest, p);
      CountConcat(b[..j] + [x], b[j + 1..], p);
      CountConcat(b[..j], [x], p);
      CountConcat(b[..j], b[j + 1..], p);
    }
  }

  /** Counting within a filtered list is counting both conditions together. */
  lemma {:induction false} CountFilter<T>(rows: seq<T>, p: T -> bool, q: T -> bool, both: T -> bool)
    requires forall x :: both(x) == (p(x) && q(x))
    ensures Count(Filter(rows, p), q) == Count(rows, both)
    decreases |rows|
  {
    if rows != [] {
      CountFilter(rows[1..], p, q, both);
      if p(rows[0]) {
        assert Filter(rows, p) == [rows[0]] + Filter(rows[1..], p);
        assert ([rows[0]] + Filter(rows[1..], p))[1..] == Filter(rows[1..], p);
      }
    }
  }

  /** Replacing a document changes the count by what the old and the new one contribute. */
  lemma {:induction false} CountUpdate<T>(rows: seq<T>, i: nat, x: T, p: T -> bool)
    requires i < |rows|
    ensures Count(rows[i := x], p) == Count(rows, p) - (if p(rows[i]) then 1 else 0) + (if p(x) then 1 else 0)
  {
    if i > 0 {
      assert rows[i := x][1..] == rows[1..][i - 1 := x];
      CountUpdate(rows[1..], i - 1, x, p);
    } else {
      assert rows[i := x][1..] == rows[1..];
    }
  }

  /** Removing the one document with id `id` lowers the count by one exactly when it matched. */
  lemma {:induction false} CountRemoveKey<T>(rows: seq<T>, key: T -> string, id: string, i: nat, p: T -> bool)
    requires UniqueKeys(rows, key) && i < |rows| && key(rows[i]) == id
    ensures Count(RemoveKey(rows, key, id), p) == Count(rows, p) - (if p(rows[i]) then 1 else 0)
  {
    CountFilterOne(rows, KeyIsNot(key, id), p, i);
  }

  /** Filtering out exactly one document lowers a count by one exactly when that document matched. */
  lemma {:induction false} CountFilterOne<T>(rows: seq<T>, q: T -> bool, p: T -> bool, i: nat)
    requires i < |rows| && !q(rows[i])
    requires forall k :: 0 <= k < |rows| && k != i ==> q(rows[k])
    ensures Count(Filter(rows, q), p) == Count(rows, p) - (if p(rows[i]) then 1 else 0)
  {
    if i == 0 {
      FilterAll(rows[1..], q);
    } else {
      var rest := Filter(rows[1..], q);
      CountFilterOne(rows[1..], q, p, i - 1);
      assert ([rows[0]] + rest)[1..] == rest;
    }
  }

  /** Documents that match two exclusive conditions are at most all of them. */
  lemma {:induction false} CountDisjoint<T>(rows: seq<T>, p: T -> bool, q: T -> bool)
    requires forall k :: 0 <= k < |rows| ==> !(p(rows[k]) && q(rows[k]))
    ensures Count(rows, p) + Count(rows, q) <= |rows|
  {
    if rows != [] {
      CountDisjoint(rows[1..], p, q);
    }
  }

  /** A derived list query returns as many documents as the matching count query counts. */
  lemma {:induction false} FilterCount<T>(rows: seq<T>, p: T -> bool)
    ensures |Filter(rows, p)| == Count(rows, p)
  {
    if rows != [] {
      FilterCount(rows[1..], p);
    }
  }

  /** Filtering keeps the relative order, hence distinct ids stay distinct. */
  lemma {:induction false} FilterPreservesUnique<T>(rows: seq<T>, key: T -> string, p: T -> bool)
    requires UniqueKeys(rows, key)
    ensures UniqueKeys(Filter(rows, p), key)
  {
    if rows != [] {
      var rest := Filter(rows[1..], p);
      assert UniqueKeys(rows[1..], key);
      FilterPreservesUnique(rows[1..], key, p);
      assert forall m :: 0 <= m < |rest| ==> key(rest[m]) != key(rows[0]) by {
        forall m | 0 <= m < |rest| ensures key(rest[m]) != key(rows[0]) {
          assert rest[m] in rows[1..];
          var k :| 0 <= k < |rows[1..]| && rows[1..][k] == rest[m];
          assert rows[k + 1] == rest[m];
        }
      }
    }
  }

  /** `xs` is `ys` with some elements left out, the rest kept in their order. */
  predicate Subsequence<T(==)>(xs: seq<T>, ys: seq<T>) {
    xs == [] || (ys != [] && ((xs[0] == ys[0] && Subsequence(xs[1..], ys[1..])) || Subsequence(xs, ys[1..])))
  }

  /** A filtered list keeps the table order. */
  lemma {:induction false} FilterIsSubsequence<T>(rows: seq<T>, p: T -> bool)
    ensures Subsequence(Filter(rows, p), rows)
  {
    if rows != [] {
      FilterIsSubsequence(rows[1..], p);
    }
  }

  lemma {:induction false} SubsequenceTransitive<T>(xs: seq<T>, ys: seq<T>, zs: seq<T>)
    requires Subsequence(xs, ys) && Subsequence(ys, zs)
    ensures Subsequence(xs, zs)
    decreases |zs|
  {
    if xs != [] {
      if ys[0] == zs[0] && Subsequence(ys[1..], zs[1..]) {
        if xs[0] == ys[0] && Subsequence(xs[1..], ys[1..]) {
          SubsequenceTransitive(xs[1..], ys[1..], zs[1..]);
        } else {
          SubsequenceTransitive(xs, ys[1..], zs[1..]);
        }
      } else {
        SubsequenceTransitive(xs, ys, zs[1..]);
      }
    }
  }

  /** Filters that agree on every document give the same list. */
  lemma {:induction false} FilterAgreeing<T>(rows: seq<T>, p: T -> bool, q: T -> bool)
    requires forall k :: 0 <= k < |rows| ==> p(rows[k]) == q(rows[k])
    ensures Filter(rows, p) == Filter(rows, q)
  {
    if rows != [] {
      FilterAgreeing(rows[1..], p, q);
    }
  }

  /** A filter every document passes keeps the whole list. */
  lemma {:induction false} FilterAll<T>(rows: seq<T>, p: T -> bool)
    requires forall k :: 0 <= k < |rows| ==> p(rows[k])
    ensures Filter(rows, p) == rows
  {
    if rows != [] {
      FilterAll(rows[1..], p);
    }
  }

  /** `findById` on a table whose ids are unique finds the document at its position. */
  lemma LookupUnique<T>(rows: seq<T>, key: T -> string, i: nat)
    requires UniqueKeys(rows, key) && i < |rows|
    ensures KeyIndex(rows, key, key(rows[i])) == Some(i)
    ensures Lookup(rows, key, key(rows[i])) == Some(rows[i])
  {
    var j := KeyIndex(rows, key, key(rows[i]));
    assert j.Some?;
    assert !(j.value < i) && !(i < j.value);
  }

  /** A repository: its documents, changed only through `save` and the delete operations. */
  class Table<T(==)> {
    var rows: seq<T>

    constructor()
      ensures rows == []
    {
      rows := [];
    }

    method Save(x: T, key: T -> string)
      modifies this
      ensures rows == Upsert(old(rows), x, key)
    {
      rows := Upsert(rows, x, key);
    }

    method Delete(id: string, key: T -> string)
      modifies this
      ensures rows == RemoveKey(old(rows), key, id)
    {
      rows := RemoveKey(rows, key, id);
    }

    /**
     * `saveAll` of documents that are all stored already: each replaces the stored document
     * with its id, in place; the others stay.
     */
    method SaveAll(batch: seq<T>, key: T -> string)
      requires UniqueKeys(rows, key) && UniqueKeys(batch, key)
      requires forall p :: 0 <= p < |batch| ==> KeyIndex(rows, key, key(batch[p])).Some?
      modifies this
      ensures UniqueKeys(rows, key) && |rows| == |old(rows)|
      ensures forall k :: 0 <= k < |rows| ==> rows[k] == Lookup(batch, key, key(old(rows)[k])).OrElse(old(rows)[k])
    {
      ghost var saved: set<string> := {};
      var s := 0;
      while s < |batch|
        invariant 0 <= s <= |batch|
        invariant UniqueKeys(rows, key) && |rows| == |old(rows)|
        invariant forall k :: 0 <= k < |rows| ==> key(rows[k]) == key(old(rows)[k])
        invariant forall k :: 0 <= k < |rows| ==>
          rows[k] == (if key(old(rows)[k]) in saved then Lookup(batch, key, key(old(rows)[k])).OrElse(old(rows)[k]) else old(rows)[k])
        invariant forall p :: 0 <= p < s ==> key(batch[p]) in saved
        invariant forall id :: id in saved ==> Lookup(batch, key, id).Some?
      {
        ghost var i := KeyIndex(old(rows), key, key(batch[s])).value;
        LookupUnique(batch, key, s);
        UpsertExisting(rows, batch[s], key, i);
        Save(batch[s], key);
        saved := saved + {key(batch[s])};
        s := s + 1;
      }
      forall k | 0 <= k < |rows| && key(old(rows)[k]) !in saved
        ensures Lookup(batch, key, key(old(rows)[k])).None?
      {
      }
    }

    /** `deleteBy…`: keeps exactly the documents that `keep` accepts. */
    method Retain(keep: T -> bool)
      modifies this
      ensures rows == Filter(old(rows), keep)
    {
      rows := Filter(rows, keep);
    }
  }
}
