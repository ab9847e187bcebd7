/**
 * The query shapes the services use, over a table held as a sequence of
 * records in insertion order: `.filter(...).first()`, `.filter(...).all()`,
 * `.order_by(name)` and `.offset(...).limit(...)`.
 */
module Collections {
  import opened Wrappers

  /** `.filter(key == k).first()`: the earliest record whose key is `k`, or None. */
  function FindBy<T, K(==)>(s: seq<T>, key: T -> K, k: K): (r: Option<T>)
    ensures r.Some? ==> r.value in s && key(r.value) == k
    ensures r.None? <==> forall x :: x in s ==> key(x) != k
    ensures r.Some? ==> exists i :: 0 <= i < |s| && s[i] == r.value && forall j :: 0 <= j < i ==> key(s[j]) != k
  {
    if s == [] then None
    else if key(s[0]) == k then Some(s[0])
    else
      var r := FindBy(s[1..], key, k);
      assert forall x :: x in s[1..] ==> x in s;
      assert r.Some? ==> exists i :: 1 <= i < |s| && s[i] == r.value && forall j :: 0 <= j < i ==> key(s[j]) != k by {
        if r.Some? {
          var i :| 0 <= i < |s[1..]| && s[1..][i] == r.value && forall j :: 0 <= j < i ==> key(s[1..][j]) != k;
          assert s[i + 1] == r.value;
          forall j | 0 <= j < i + 1 ensures key(s[j]) != k {
            if j > 0 { assert s[j] == s[1..][j - 1]; }
          }
        }
      }
      r
  }

  /** The position of the record FindBy returns. */
  function FindIndexBy<T, K(==)>(s: seq<T>, key: T -> K, k: K): (r: Option<nat>)
    ensures r.Some? ==> r.value < |s| && key(s[r.value]) == k && FindBy(s, key, k) == Some(s[r.value])
    ensures r.None? <==> FindBy(s, key, k).None?
  {
    if s == [] then None
    else if key(s[0]) == k then Some(0)
    else
      match FindIndexBy(s[1..], key, k)
      case Some(i) => Some(i + 1)
      case None => None
  }

  /** At most one record of `s` has each key. */
  ghost predicate UniqueBy<T, K>(s: seq<T>, key: T -> K) {
    forall i, j :: 0 <= i < j < |s| && key(s[i]) == key(s[j]) ==> false
  }

  /** Under a unique key, the record found by that key is the record holding it. */
  lemma FindUnique<T, K>(s: seq<T>, key: T -> K, x: T)
    requires UniqueBy(s, key)
    requires x in s
    ensures FindBy(s, key, key(x)) == Some(x)
  {
    var r := FindBy(s, key, key(x));
    var a :| 0 <= a < |s| && s[a] == x;
    var b :| 0 <= b < |s| && s[b] == r.value;
  }

  lemma UniqueByAppend<T, K>(s: seq<T>, key: T -> K, x: T)
    requires UniqueBy(s, key)
    requires forall y :: y in s ==> key(y) != key(x)
    ensures UniqueBy(s + [x], key)
  {
    var s' := s + [x];
    forall i, j | 0 <= i < j < |s'| ensures key(s'[i]) != key(s'[j]) {
      if j == |s| {
        assert s'[i] in s;
      } else {
        assert s'[i] == s[i] && s'[j] == s[j];
      }
    }
  }

  /** Under a unique key, the key picks out exactly one position. */
  lemma UniqueKeyAt<T, K>(s: seq<T>, key: T -> K, i: nat)
    requires UniqueBy(s, key) && i < |s|
    ensures forall j :: 0 <= j < |s| && j != i ==> key(s[j]) != key(s[i])
  {
    forall j | 0 <= j < |s| && j != i ensures key(s[j]) != key(s[i]) {
      if j < i {
        assert !(key(s[j]) == key(s[i]));
      } else {
        assert !(key(s[i]) == key(s[j]));
      }
    }
  }

  /** Overwriting one position with a record whose key no other position holds keeps the key unique. */
  lemma UniqueByUpdate<T, K>(s: seq<T>, key: T -> K, i: nat, x: T)
    requires UniqueBy(s, key) && i < |s|
    requires forall j :: 0 <= j < |s| && j != i ==> key(s[j]) != key(x)
    ensures UniqueBy(s[i := x], key)
  {
    var s' := s[i := x];
    forall a, b | 0 <= a < b < |s'| ensures key(s'[a]) != key(s'[b]) {
      if a != i && b != i {
        assert !(key(s[a]) == key(s[b]));
      }
    }
  }

  /** Removing one position keeps a key unique and adds no record. */
  lemma UniqueByRemove<T, K>(s: seq<T>, key: T -> K, i: nat)
    requires UniqueBy(s, key) && i < |s|
    ensures UniqueBy(s[..i] + s[i + 1..], key)
    ensures forall x :: x in s[..i] + s[i + 1..] ==> x in s
  {
    var s' := s[..i] + s[i + 1..];
    forall a, b | 0 <= a < b < |s'| ensures key(s'[a]) != key(s'[b]) {
      var a0 := if a < i then a else a + 1;
      var b0 := if b < i then b else b + 1;
      assert s'[a] == s[a0] && s'[b] == s[b0];
      assert !(key(s[a0]) == key(s[b0]));
    }
    forall x | x in s' ensures x in s {
      var a :| 0 <= a < |s'| && s'[a] == x;
      assert s'[a] == s[if a < i then a else a + 1];
    }
  }

  /** Every record with the key of `x` replaced by `x`; the others untouched. */
  function ReplaceBy<T, K(==)>(s: seq<T>, key: T -> K, x: T): (r: seq<T>)
    ensures |r| == |s|
    ensures forall i :: 0 <= i < |s| ==> r[i] == if key(s[i]) == key(x) then x else s[i]
  {
    seq(|s|, i requires 0 <= i < |s| => if key(s[i]) == key(x) then x else s[i])
  }

  /** Under a unique key, overwriting the one position holding it is ReplaceBy. */
  lemma ReplaceByAt<T, K>(s: seq<T>, key: T -> K, x: T, i: nat)
    requires UniqueBy(s, key) && i < |s| && key(s[i]) == key(x)
    ensures s[i := x] == ReplaceBy(s, key, x)
  {
    UniqueKeyAt(s, key, i);
  }

  /** Replacing by key keeps every record that holds another key. */
  lemma ReplaceByKeeps<T, K>(s: seq<T>, key: T -> K, x: T)
    ensures forall y :: y in s && key(y) != key(x) ==> y in ReplaceBy(s, key, x)
  {
    var r := ReplaceBy(s, key, x);
    forall y | y in s && key(y) != key(x) ensures y in r {
      var i :| 0 <= i < |s| && s[i] == y;
      assert r[i] == y;
    }
  }

  /** A second replacement under the same key overrides the first. */
  lemma ReplaceByTwice<T, K>(s: seq<T>, key: T -> K, x: T, y: T)
    requires key(x) == key(y)
    ensures ReplaceBy(ReplaceBy(s, key, x), key, y) == ReplaceBy(s, key, y)
  {
  }

  /** `.filter(p).all()`: the records satisfying `p`, in table order. */
  function Filter<T>(s: seq<T>, p: T -> bool): (r: seq<T>)
    ensures forall x :: x in r ==> x in s && p(x)
    ensures forall x :: x in s && p(x) ==> x in r
    ensures |r| <= |s|
  {
    if s == [] then []
    else
      var rest := Filter(s[1..], p);
      assert forall x :: x in s ==> x == s[0] || x in s[1..];
      if p(s[0]) then [s[0]] + rest else rest
  }

  lemma {:induction false} FilterAll<T>(s: seq<T>, p: T -> bool)
    requires forall x :: x in s ==> p(x)
    ensures Filter(s, p) == s
  {
    if s != [] {
      FilterAll(s[1..], p);
    }
  }

  /** Two conditions that agree on every element select the same records. */
  lemma {:induction false} FilterCongruent<T>(s: seq<T>, p: T -> bool, q: T -> bool)
    requires forall x :: x in s ==> p(x) == q(x)
    ensures Filter(s, p) == Filter(s, q)
  {
    if s != [] {
      assert forall x :: x in s[1..] ==> x in s;
      FilterCongruent(s[1..], p, q);
    }
  }

  /** Filtering keeps a key unique. */
  lemma {:induction false} FilterUnique<T, K>(s: seq<T>, p: T -> bool, key: T -> K)
    requires UniqueBy(s, key)
    ensures UniqueBy(Filter(s, p), key)
  {
    if s != [] {
      var tail := s[1..];
      assert UniqueBy(tail, key) by {
        forall i, j | 0 <= i < j < |tail| ensures key(tail[i]) != key(tail[j]) {
          assert tail[i] == s[i + 1] && tail[j] == s[j + 1];
        }
      }
      FilterUnique(tail, p, key);
      if p(s[0]) {
        var rest := Filter(tail, p);
        var r := [s[0]] + rest;
        forall i, j | 0 <= i < j < |r| ensures key(r[i]) != key(r[j]) {
          if i == 0 {
            assert r[j] in tail;
            var m :| 0 <= m < |tail| && tail[m] == r[j];
            assert s[m + 1] == r[j];
          } else {
            assert r[i] == rest[i - 1] && r[j] == rest[j - 1];
          }
        }
      }
    }
  }

  /** `.filter(key == k).delete()`: every record without key `k`, in order. */
  function RemoveBy<T, K(==)>(s: seq<T>, key: T -> K, k: K): (r: seq<T>)
    ensures forall x :: x in r ==> x in s && key(x) != k
    ensures forall x :: x in s && key(x) != k ==> x in r
    ensures |r| <= |s|
  {
    if s == [] then []
    else
      var rest := RemoveBy(s[1..], key, k);
      assert forall x :: x in s ==> x == s[0] || x in s[1..];
      if key(s[0]) == k then rest else [s[0]] + rest
  }

  /** Dropping the first record keeps a key unique. */
  lemma UniqueByTail<T, K>(s: seq<T>, key: T -> K)
    requires UniqueBy(s, key) && s != []
    ensures UniqueBy(s[1..], key)
  {
    var tail := s[1..];
    forall a, b | 0 <= a < b < |tail| ensures key(tail[a]) != key(tail[b]) {
      assert tail[a] == s[a + 1] && tail[b] == s[b + 1];
    }
  }

  /** Under a unique key, removing by key deletes exactly the one position holding it. */
  lemma {:induction false} RemoveByAt<T, K>(s: seq<T>, key: T -> K, i: nat)
    requires UniqueBy(s, key) && i < |s|
    ensures RemoveBy(s, key, key(s[i])) == s[..i] + s[i + 1..]
  {
    var k := key(s[i]);
    var tail := s[1..];
    UniqueKeyAt(s, key, i);
    if i == 0 {
      forall x | x in tail ensures key(x) != k {
        var j :| 0 <= j < |tail| && tail[j] == x;
        assert s[j + 1] == x;
      }
      RemoveByNone(tail, key, k);
    } else {
      assert key(s[0]) != k;
      UniqueByTail(s, key);
      assert tail[i - 1] == s[i];
      RemoveByAt(tail, key, i - 1);
      assert s[..i] + s[i + 1..] == [s[0]] + (tail[..i - 1] + tail[i..]);
    }
  }

  /** Removing a key no record holds changes nothing. */
  lemma {:induction false} RemoveByNone<T, K>(s: seq<T>, key: T -> K, k: K)
    requires forall x :: x in s ==> key(x) != k
    ensures RemoveBy(s, key, k) == s
  {
    if s != [] {
      assert forall x :: x in s[1..] ==> x in s;
      RemoveByNone(s[1..], key, k);
    }
  }

  /** The records in reverse order: `order_by(desc(created_at))`, newest first. */
  function NewestFirst<T>(s: seq<T>): (r: seq<T>)
    ensures |r| == |s|
    ensures forall i :: 0 <= i < |s| ==> r[i] == s[|s| - 1 - i]
  {
    if s == [] then [] else NewestFirst(s[1..]) + [s[0]]
  }

  /** Where page `page` of `size` records starts: `(page - 1) * page_size`. */
  function Offset(page: nat, size: nat): nat
    requires page >= 1
  {
    (page - 1) * size
  }

  /** `.offset((page - 1) * size).limit(size)`. */
  function Page<T>(s: seq<T>, page: nat, size: nat): (r: seq<T>)
    requires page >= 1
    ensures |r| <= size
    ensures Offset(page, size) >= |s| ==> r == []
    ensures Offset(page, size) < |s| ==>
      |r| == (if |s| - Offset(page, size) < size then |s| - Offset(page, size) else size)
    ensures forall i :: 0 <= i < |r| ==> r[i] == s[Offset(page, size) + i]
  {
    var start := Offset(page, size);
    if start >= |s| then []
    else if start + size <= |s| then s[start..start + size]
    else s[start..]
  }

  /** Every record on a page of the newest-first listing is one of the listed records. */
  lemma PageOfNewestWithin<T>(s: seq<T>, page: nat, size: nat)
    requires page >= 1
    ensures forall x :: x in Page(NewestFirst(s), page, size) ==> x in s
  {
    var items := Page(NewestFirst(s), page, size);
    forall x | x in items ensures x in s {
      var i :| 0 <= i < |items| && items[i] == x;
      assert items[i] == NewestFirst(s)[Offset(page, size) + i];
    }
  }

  // ---- loops over items ----------------------------------------------------

  /** `x` after `step` has been applied to each item of `fs` in turn: the effect of a loop over `fs`. */
  function Steps<R, F>(x: R, fs: seq<F>, step: (R, F) -> R): R {
    if fs == [] then x else step(Steps(x, fs[..|fs| - 1], step), fs[|fs| - 1])
  }

  lemma {:induction false} StepsConcat<R, F>(x: R, a: seq<F>, b: seq<F>, step: (R, F) -> R)
    ensures Steps(x, a + b, step) == Steps(Steps(x, a, step), b, step)
    decreases |b|
  {
    if b == [] {
      assert a + b == a;
    } else {
      assert (a + b)[..|a + b| - 1] == a + b[..|b| - 1];
      StepsConcat(x, a, b[..|b| - 1], step);
    }
  }

  lemma StepsSingle<R, F>(x: R, f: F, step: (R, F) -> R)
    ensures Steps(x, [f], step) == step(x, f)
  {
    assert [f][..0] == [];
  }

  // ---- names in order ------------------------------------------------------

  /** Lexicographic order on strings, comparing code points. */
  predicate StrLeq(a: string, b: string) {
    a == [] || (b != [] && (a[0] < b[0] || (a[0] == b[0] && StrLeq(a[1..], b[1..]))))
  }

  lemma {:induction false} StrLeqTotal(a: string, b: string)
    ensures StrLeq(a, b) || StrLeq(b, a)
  {
    if a != [] && b != [] && a[0] == b[0] {
      StrLeqTotal(a[1..], b[1..]);
    }
  }

  lemma {:induction false} StrLeqTransitive(a: string, b: string, c: string)
    requires StrLeq(a, b) && StrLeq(b, c)
    ensures StrLeq(a, c)
  {
    if a != [] && a[0] == b[0] && b[0] == c[0] {
      StrLeqTransitive(a[1..], b[1..], c[1..]);
    }
  }

  lemma {:induction false} StrLeqAntisymmetric(a: string, b: string)
    requires StrLeq(a, b) && StrLeq(b, a)
    ensures a == b
  {
    if a != [] {
      StrLeqAntisymmetric(a[1..], b[1..]);
    }
  }

  /** Each record's name is at most the next one's. */
  predicate SortedBy<T>(s: seq<T>, name: T -> string) {
    forall i :: 0 < i < |s| ==> StrLeq(name(s[i - 1]), name(s[i]))
  }

  /** Sortedness between neighbours gives it between any two positions. */
  lemma {:induction false} SortedByAllPairs<T>(s: seq<T>, name: T -> string, i: nat, j: nat)
    requires SortedBy(s, name)
    requires i <= j < |s|
    ensures StrLeq(name(s[i]), name(s[j]))
    decreases j - i
  {
    if i == j {
      StrLeqTotal(name(s[i]), name(s[j]));
    } else {
      SortedByAllPairs(s, name, i + 1, j);
      StrLeqTransitive(name(s[i]), name(s[i + 1]), name(s[j]));
    }
  }

  function InsertByName<T>(x: T, s: seq<T>, name: T -> string): (r: seq<T>)
    requires SortedBy(s, name)
    ensures SortedBy(r, name)
    ensures multiset(r) == multiset(s) + multiset{x}
    ensures |r| == |s| + 1
    ensures r[0] == x || (s != [] && r[0] == s[0])
  {
    if s == [] then [x]
    else if StrLeq(name(x), name(s[0])) then [x] + s
    else
      StrLeqTotal(name(x), name(s[0]));
      var rest := InsertByName(x, s[1..], name);
      assert s == [s[0]] + s[1..];
      [s[0]] + rest
  }

  /** `.order_by(name).all()`: the same records, sorted by name. */
  function SortByName<T>(s: seq<T>, name: T -> string): (r: seq<T>)
    ensures SortedBy(r, name)
    ensures multiset(r) == multiset(s)
    ensures |r| == |s|
  {
    if s == [] then []
    else
      assert s == [s[0]] + s[1..];
      InsertByName(s[0], SortByName(s[1..], name), name)
  }
}
