/** Go's `sort.Slice` by an integer key, and the sorted duplicate-free identifier lists built with it. */
module Sorting {
  import opened Prelude

  ghost predicate SortedBy<T>(s: seq<T>, key: T -> int) {
    forall i, j | 0 <= i <= j < |s| :: key(s[i]) <= key(s[j])
  }

  /** Elements with the same key are the same element, as when identifiers are distinct. */
  ghost predicate KeyedBy<T>(s: seq<T>, key: T -> int) {
    forall x, y | x in s && y in s :: key(x) == key(y) ==> x == y
  }

  /** A fresh slice with the given contents. */
  method SliceOf<T>(s: seq<T>) returns (a: array<T>)
    ensures fresh(a) && a[..] == s
  {
    a := new T[|s|](i requires 0 <= i < |s| => s[i]);
  }

  /** `sort.Slice` is not stable: its contract leaves the order of equal keys open. */
  method SortSlice<T>(a: array<T>, key: T -> int)
    modifies a
    ensures SortedBy(a[..], key)
    ensures multiset(a[..]) == old(multiset(a[..]))
  {
    for n := 0 to a.Length
      invariant SortedBy(a[..n], key)
      invariant multiset(a[..]) == old(multiset(a[..]))
    {
      SiftDown(a, n, key);
    }
    assert a[..a.Length] == a[..];
  }

  method SiftDown<T>(a: array<T>, n: int, key: T -> int)
    requires 0 <= n < a.Length && SortedBy(a[..n], key)
    modifies a
    ensures SortedBy(a[..n + 1], key)
    ensures multiset(a[..]) == old(multiset(a[..]))
  {
    var k := n;
    while k > 0 && key(a[k]) < key(a[k - 1])
      invariant 0 <= k <= n
      invariant forall i, j | 0 <= i <= j <= n && i != k && j != k :: key(a[i]) <= key(a[j])
      invariant forall j | k < j <= n :: key(a[k]) <= key(a[j])
      invariant multiset(a[..]) == old(multiset(a[..]))
    {
      SwapBelow(a, k);
      k := k - 1;
    }
  }

  method SwapBelow<T>(a: array<T>, k: int)
    requires 0 < k < a.Length
    modifies a
    ensures a[k - 1] == old(a[k]) && a[k] == old(a[k - 1])
    ensures forall i | 0 <= i < a.Length && i != k && i != k - 1 :: a[i] == old(a[i])
    ensures multiset(a[..]) == old(multiset(a[..]))
  {
    a[k - 1], a[k] := a[k], a[k - 1];
  }

  lemma HeadIsLeast<T>(s: seq<T>, key: T -> int)
    requires s != [] && SortedBy(s, key)
    ensures forall x | x in s :: key(s[0]) <= key(x)
  {
  }

  ghost function Without<T>(s: seq<T>, k: nat): seq<T>
    requires k < |s|
  {
    s[..k] + s[k + 1..]
  }

  lemma WithoutMultiset<T>(s: seq<T>, k: nat)
    requires k < |s|
    ensures multiset(s) == multiset(Without(s, k)) + multiset{s[k]}
  {
    assert s == s[..k] + [s[k]] + s[k + 1..];
  }

  lemma {:induction false} WithoutPermutes<T>(a: seq<T>, b: seq<T>, i: nat, k: nat)
    requires i < |a| && k < |b| && a[i] == b[k]
    ensures multiset(a) == multiset(b) <==> multiset(Without(a, i)) == multiset(Without(b, k))
  {
    WithoutMultiset(a, i);
    WithoutMultiset(b, k);
    var x := multiset{a[i]};
    assert multiset(Without(a, i)) == multiset(a) - x;
    assert multiset(Without(b, k)) == multiset(b) - x;
  }

  lemma Position<T>(b: seq<T>, a: seq<T>) returns (k: nat)
    requires |a| > 0 && multiset(a) == multiset(b)
    ensures k < |b| && b[k] == a[0]
  {
    assert a[0] in multiset(b);
    k :| 0 <= k < |b| && b[k] == a[0];
  }

  lemma HeadsAgree<T>(a: seq<T>, b: seq<T>, key: T -> int)
    requires SortedBy(a, key) && SortedBy(b, key) && KeyedBy(a, key)
    requires multiset(a) == multiset(b) && |a| > 0 && |b| > 0
    ensures a[0] == b[0]
  {
    HeadIsLeast(a, key);
    HeadIsLeast(b, key);
    assert a[0] in multiset(b) && b[0] in multiset(a);
  }

  lemma TailKeepsKeys<T>(a: seq<T>, key: T -> int)
    requires |a| > 0 && KeyedBy(a, key)
    ensures KeyedBy(a[1..], key)
  {
  }

  /** A sorted arrangement is unique once equal keys mean equal elements, whatever algorithm made it. */
  lemma {:induction false} SortedIsUnique<T>(a: seq<T>, b: seq<T>, key: T -> int)
    requires SortedBy(a, key) && SortedBy(b, key) && KeyedBy(a, key)
    requires multiset(a) == multiset(b)
    ensures a == b
  {
    assert |a| == |multiset(a)| && |b| == |multiset(b)|;
    if |a| > 0 {
      HeadsAgree(a, b, key);
      TailsPermute(a, b);
      TailKeepsKeys(a, key);
      SortedTail(a, key);
      SortedTail(b, key);
      SortedIsUnique(a[1..], b[1..], key);
      Rejoin(a, b);
    }
  }

  lemma TailsPermute<T>(a: seq<T>, b: seq<T>)
    requires |a| > 0 && |b| > 0 && a[0] == b[0] && multiset(a) == multiset(b)
    ensures multiset(a[1..]) == multiset(b[1..])
  {
    assert a == [a[0]] + a[1..] && b == [b[0]] + b[1..];
    assert multiset(a[1..]) == multiset(a) - multiset{a[0]};
    assert multiset(b[1..]) == multiset(b) - multiset{b[0]};
  }

  lemma Rejoin<T>(a: seq<T>, b: seq<T>)
    requires |a| > 0 && |b| > 0 && a[0] == b[0] && a[1..] == b[1..]
    ensures a == b
  {
    assert a == [a[0]] + a[1..] && b == [b[0]] + b[1..];
  }

  lemma SortedTail<T>(s: seq<T>, key: T -> int)
    requires |s| > 0 && SortedBy(s, key)
    ensures SortedBy(s[1..], key)
  {
  }

  function InsertBy<T>(x: T, s: seq<T>, key: T -> int): seq<T> {
    if s == [] || key(x) <= key(s[0]) then [x] + s else [s[0]] + InsertBy(x, s[1..], key)
  }

  function SortBy<T>(s: seq<T>, key: T -> int): seq<T> {
    if s == [] then [] else InsertBy(s[0], SortBy(s[1..], key), key)
  }

  lemma {:induction false} InsertByPermutes<T>(x: T, s: seq<T>, key: T -> int)
    ensures multiset(InsertBy(x, s, key)) == multiset{x} + multiset(s)
  {
    if s != [] {
      assert s == [s[0]] + s[1..];
      if key(x) > key(s[0]) {
        InsertByPermutes(x, s[1..], key);
      }
    }
  }

  lemma {:induction false} InsertByIsSorted<T>(x: T, s: seq<T>, key: T -> int)
    requires SortedBy(s, key)
    ensures SortedBy(InsertBy(x, s, key), key)
    ensures InsertBy(x, s, key) != [] && (InsertBy(x, s, key)[0] == x || (s != [] && InsertBy(x, s, key)[0] == s[0]))
  {
    if s != [] && key(x) > key(s[0]) {
      SortedTail(s, key);
      InsertByIsSorted(x, s[1..], key);
    }
  }

  lemma {:induction false} SortByIsSorted<T>(s: seq<T>, key: T -> int)
    ensures SortedBy(SortBy(s, key), key)
    ensures multiset(SortBy(s, key)) == multiset(s)
  {
    if s != [] {
      assert s == [s[0]] + s[1..];
      SortByIsSorted(s[1..], key);
      InsertByIsSorted(s[0], SortBy(s[1..], key), key);
      InsertByPermutes(s[0], SortBy(s[1..], key), key);
    }
  }

  // ----- identifier lists

  ghost predicate Ascending(s: seq<Uint>) {
    forall i, j | 0 <= i < j < |s| :: s[i] < s[j]
  }

  lemma Prepend(x: Uint, s: seq<Uint>)
    requires Ascending(s) && (s != [] ==> x < s[0])
    ensures Ascending([x] + s)
  {
  }

  function InsertId(x: Uint, s: seq<Uint>): (r: seq<Uint>)
    requires Ascending(s)
    ensures Ascending(r) && r != [] && r[0] == if s == [] || x < s[0] then x else s[0]
    ensures forall y :: y in r <==> y == x || y in s
  {
    if s == [] || x < s[0] then [x] + s
    else if x == s[0] then s
    else
      var rest := InsertId(x, s[1..]);
      assert s == [s[0]] + s[1..];
      Prepend(s[0], rest);
      [s[0]] + rest
  }

  /** The identifiers other than 0, ascending and without duplicates. */
  function SortedUnique(values: seq<Uint>): (r: seq<Uint>)
    ensures Ascending(r)
    ensures forall y :: y in r <==> y in values && y > 0
  {
    if values == [] then []
    else
      var rest := SortedUnique(values[1..]);
      assert values == [values[0]] + values[1..];
      if values[0] > 0 then InsertId(values[0], rest) else rest
  }

  lemma {:induction false} AscendingIsUnique(a: seq<Uint>, b: seq<Uint>)
    requires Ascending(a) && Ascending(b)
    requires forall y :: y in a <==> y in b
    ensures a == b
  {
    assert |a| > 0 ==> a[0] in b;
    assert |b| > 0 ==> b[0] in a;
    if a != [] && b != [] {
      assert a[0] == b[0];
      assert a == [a[0]] + a[1..] && b == [b[0]] + b[1..];
      forall y ensures y in a[1..] <==> y in b[1..] {
        assert a[0] !in a[1..] && b[0] !in b[1..];
        assert y in a <==> y == a[0] || y in a[1..];
        assert y in b <==> y == b[0] || y in b[1..];
      }
      AscendingIsUnique(a[1..], b[1..]);
    }
  }

  /** Order and repetition of the input do not matter; running it again changes nothing. */
  lemma {:induction false} SortedUniqueIsCanonical(a: seq<Uint>, b: seq<Uint>)
    requires forall y | y > 0 :: y in a <==> y in b
    ensures SortedUnique(a) == SortedUnique(b)
    ensures SortedUnique(SortedUnique(a)) == SortedUnique(a)
  {
    AscendingIsUnique(SortedUnique(a), SortedUnique(b));
    AscendingIsUnique(SortedUnique(SortedUnique(a)), SortedUnique(a));
  }

  method SortIds(values: seq<Uint>) returns (r: seq<Uint>)
    ensures multiset(r) == multiset(values) && SortedBy(r, (x: Uint) => x as int)
  {
    var slice := SliceOf(values);
    SortSlice(slice, (x: Uint) => x as int);
    return slice[..];
  }

  method UniqueIds(values: seq<Uint>) returns (result: seq<Uint>)
    ensures result == SortedUnique(values)
  {
    var seen: set<Uint> := {};
    result := [];
    for i := 0 to |values|
      invariant forall y :: y in result <==> y in values[..i] && y > 0
      invariant forall y :: y in seen <==> y in result
      invariant forall j, k | 0 <= j < k < |result| :: result[j] != result[k]
    {
      var value := values[i];
      if value > 0 && value !in seen {
        seen := seen + {value};
        result := result + [value];
      }
    }
    var found := result;
    result := SortIds(found);
    SortedDistinctIsAscending(found, result);
    forall y ensures y in result <==> y in SortedUnique(values) {
      assert y in result <==> y in multiset(result);
      assert y in found <==> y in multiset(found);
      assert values[..|values|] == values;
    }
    AscendingIsUnique(result, SortedUnique(values));
  }

  lemma {:induction false} SortedDistinctIsAscending(found: seq<Uint>, sorted: seq<Uint>)
    requires forall j, k | 0 <= j < k < |found| :: found[j] != found[k]
    requires multiset(found) == multiset(sorted) && SortedBy(sorted, (x: Uint) => x as int)
    ensures Ascending(sorted)
  {
    DistinctMultiplicity(found);
    forall i, j | 0 <= i < j < |sorted| ensures sorted[i] < sorted[j] {
      var key := (x: Uint) => x as int;
      assert key(sorted[i]) <= key(sorted[j]);
      if sorted[i] == sorted[j] {
        TwiceInMultiset(sorted, i, j);
      }
    }
  }

  lemma {:induction false} TwiceInMultiset<T>(s: seq<T>, i: int, j: int)
    requires 0 <= i < j < |s| && s[i] == s[j]
    ensures multiset(s)[s[i]] >= 2
  {
    assert s == s[..j] + [s[j]] + s[j + 1..];
    assert s[i] == s[..j][i];
  }

  lemma {:induction false} DistinctMultiplicity<T>(s: seq<T>)
    requires forall j, k | 0 <= j < k < |s| :: s[j] != s[k]
    ensures forall y | y in s :: multiset(s)[y] == 1
  {
    if s != [] {
      DistinctMultiplicity(s[1..]);
      assert s == [s[0]] + s[1..];
    }
  }

  lemma {:induction false} SamePermutedElements<T>(a: seq<T>, b: seq<T>)
    requires multiset(a) == multiset(b)
    ensures forall x :: x in a <==> x in b
  {
    forall x ensures x in a <==> x in b {
      assert x in a <==> x in multiset(a);
      assert x in b <==> x in multiset(b);
    }
  }

  /** Sorting entries with keys of their own puts them in strictly ascending order. */
  lemma {:induction false} DistinctKeysAscend<T>(a: seq<T>, sorted: seq<T>, key: T -> int)
    requires forall i, j | 0 <= i < j < |a| :: key(a[i]) != key(a[j])
    requires SortedBy(sorted, key) && multiset(sorted) == multiset(a)
    ensures forall i, j | 0 <= i < j < |sorted| :: key(sorted[i]) < key(sorted[j])
  {
    SamePermutedElements(sorted, a);
    DistinctMultiplicity(a);
    forall i, j | 0 <= i < j < |sorted| ensures key(sorted[i]) < key(sorted[j]) {
      assert key(sorted[i]) <= key(sorted[j]);
      if key(sorted[i]) == key(sorted[j]) {
        assert sorted[i] in a && sorted[j] in a;
        TwiceInMultiset(sorted, i, j);
      }
    }
  }
}
