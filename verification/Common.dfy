/** Shared vocabulary: optional values, saturating 64-bit arithmetic, and the
    sequence operations (sum, filter, stable sort) that the Rust collections
    used by Hivra provide. */
module Common {

  datatype Option<+T> = None | Some(value: T)

  datatype Result<+T, +E> = Ok(value: T) | Err(error: E)

  const U64_MAX: nat := 0xFFFF_FFFF_FFFF_FFFF

  type u64 = n: nat | n <= U64_MAX

  function SatAdd(a: u64, b: nat): u64 {
    if a + b <= U64_MAX then a + b else U64_MAX
  }

  function SatSub(a: u64, b: u64): u64 {
    if b <= a then a - b else 0
  }

  function Min(a: nat, b: nat): nat {
    if a <= b then a else b
  }

  function Max(a: nat, b: nat): nat {
    if a <= b then b else a
  }

  // ----- sums over a sequence -----

  function Sum<T>(s: seq<T>, f: T -> nat): nat {
    if |s| == 0 then 0 else Sum(s[..|s|-1], f) + f(s[|s|-1])
  }

  lemma SumAppend<T(!new)>(s: seq<T>, x: T, f: T -> nat)
    ensures Sum(s + [x], f) == Sum(s, f) + f(x)
  {
    assert (s + [x])[..|s|] == s;
  }

  lemma {:induction false} SumConcat<T(!new)>(a: seq<T>, b: seq<T>, f: T -> nat)
    ensures Sum(a + b, f) == Sum(a, f) + Sum(b, f)
  {
    if |b| == 0 {
      assert a + b == a;
    } else {
      var b' := b[..|b|-1];
      assert (a + b)[..|a + b|-1] == a + b';
      SumConcat(a, b', f);
    }
  }

  lemma {:induction false} SumUpdate<T(!new)>(s: seq<T>, k: nat, x: T, f: T -> nat)
    requires k < |s|
    ensures Sum(s[k := x], f) + f(s[k]) == Sum(s, f) + f(x)
  {
    var n := |s| - 1;
    if k == n {
      assert s[k := x][..n] == s[..n];
    } else {
      assert s[k := x][..n] == s[..n][k := x];
      SumUpdate(s[..n], k, x, f);
    }
  }

  /** Replacing every element by one that weighs no more lowers the sum. */
  lemma {:induction false} SumPointwise<T(!new)>(s: seq<T>, t: seq<T>, f: T -> nat)
    requires |s| == |t|
    requires forall i | 0 <= i < |s| :: f(s[i]) <= f(t[i])
    ensures Sum(s, f) <= Sum(t, f)
  {
    if |s| > 0 {
      SumPointwise(s[..|s|-1], t[..|t|-1], f);
    }
  }

  lemma {:induction false} SumRemoveAt<T(!new)>(s: seq<T>, k: nat, f: T -> nat)
    requires k < |s|
    ensures Sum(s[..k] + s[k+1..], f) + f(s[k]) == Sum(s, f)
  {
    SumConcat(s[..k], s[k+1..], f);
    SumConcat(s[..k], s[k..], f);
    assert s[..k] + s[k..] == s;
    assert s[k..] == [s[k]] + s[k+1..];
    SumConcat([s[k]], s[k+1..], f);
    SumAppend([], s[k], f);
    assert [] + [s[k]] == [s[k]];
  }

  /** An element is counted, so a sum is at least each summand. */
  lemma {:induction false} SumBound<T(!new)>(s: seq<T>, f: T -> nat, c: nat)
    requires forall x | x in s :: f(x) <= c
    ensures Sum(s, f) <= |s| * c
  {
    if |s| > 0 {
      SumBound(s[..|s|-1], f, c);
      assert s[|s|-1] in s;
      assert |s| * c == (|s|-1) * c + c;
    }
  }

  // ----- search -----

  /** The first index whose element satisfies `p` (Rust's `position`). */
  function Position<T>(s: seq<T>, p: T -> bool): (r: Option<nat>)
    ensures r.Some? ==> r.value < |s| && p(s[r.value]) && forall i | 0 <= i < r.value :: !p(s[i])
    ensures r.None? ==> forall i | 0 <= i < |s| :: !p(s[i])
  {
    PositionFrom(s, p, 0)
  }

  function PositionFrom<T>(s: seq<T>, p: T -> bool, k: nat): (r: Option<nat>)
    requires k <= |s|
    ensures r.Some? ==> k <= r.value < |s| && p(s[r.value]) && forall i | k <= i < r.value :: !p(s[i])
    ensures r.None? ==> forall i | k <= i < |s| :: !p(s[i])
    decreases |s| - k
  {
    if k == |s| then None else if p(s[k]) then Some(k) else PositionFrom(s, p, k + 1)
  }

  // ----- retain -----

  function Filter<T>(s: seq<T>, p: T -> bool): seq<T> {
    if |s| == 0 then []
    else if p(s[|s|-1]) then Filter(s[..|s|-1], p) + [s[|s|-1]]
    else Filter(s[..|s|-1], p)
  }

  lemma {:induction false} FilterMembers<T(!new)>(s: seq<T>, p: T -> bool)
    ensures forall x :: x in Filter(s, p) <==> x in s && p(x)
    ensures |Filter(s, p)| <= |s|
  {
    if |s| > 0 {
      FilterMembers(s[..|s|-1], p);
      assert s == s[..|s|-1] + [s[|s|-1]];
    }
  }

  lemma {:induction false} FilterAll<T(!new)>(s: seq<T>, p: T -> bool)
    ensures |Filter(s, p)| == |s| ==> Filter(s, p) == s
    ensures (forall x | x in s :: p(x)) ==> Filter(s, p) == s
  {
    if |s| > 0 {
      FilterAll(s[..|s|-1], p);
      FilterMembers(s[..|s|-1], p);
      assert s == s[..|s|-1] + [s[|s|-1]];
    }
  }

  lemma {:induction false} SumFilter<T(!new)>(s: seq<T>, p: T -> bool, f: T -> nat)
    ensures Sum(Filter(s, p), f) <= Sum(s, f)
  {
    if |s| > 0 {
      SumFilter(s[..|s|-1], p, f);
      if p(s[|s|-1]) {
        SumAppend(Filter(s[..|s|-1], p), s[|s|-1], f);
      }
    }
  }

  // ----- distinct keys -----

  ghost predicate UniqueBy<T, K>(s: seq<T>, key: T -> K) {
    forall i, j | 0 <= i < j < |s| :: key(s[i]) != key(s[j])
  }

  lemma {:induction false} UniqueFilter<T(!new), K>(s: seq<T>, p: T -> bool, key: T -> K)
    requires UniqueBy(s, key)
    ensures UniqueBy(Filter(s, p), key)
  {
    if |s| > 0 {
      var t, x := s[..|s|-1], s[|s|-1];
      UniqueFilter(t, p, key);
      FilterMembers(t, p);
      forall y | y in Filter(t, p) ensures key(y) != key(x) {
        var i :| 0 <= i < |t| && t[i] == y;
        assert key(s[i]) != key(s[|s|-1]);
      }
    }
  }

  lemma UniqueAppend<T(!new), K>(s: seq<T>, x: T, key: T -> K)
    requires UniqueBy(s, key)
    requires forall y | y in s :: key(y) != key(x)
    ensures UniqueBy(s + [x], key)
  {
  }

  lemma UniqueMember<T(!new), K>(s: seq<T>, x: T, y: T, key: T -> K)
    requires UniqueBy(s, key) && x in s && y in s && key(x) == key(y)
    ensures x == y
  {
    var i :| 0 <= i < |s| && s[i] == x;
    var j :| 0 <= j < |s| && s[j] == y;
    assert i == j;
  }

  // ----- stable sort -----

  ghost predicate TotalPreorder<T(!new)>(le: (T, T) -> bool) {
    && (forall x, y :: le(x, y) || le(y, x))
    && (forall x, y, z :: le(x, y) && le(y, z) ==> le(x, z))
  }

  ghost predicate SortedBy<T>(s: seq<T>, le: (T, T) -> bool) {
    forall i, j | 0 <= i < j < |s| :: le(s[i], s[j])
  }

  /** Puts `x` after every element that is not greater than it. */
  function Insert<T>(s: seq<T>, x: T, le: (T, T) -> bool): seq<T> {
    if |s| == 0 || le(s[|s|-1], x) then s + [x]
    else Insert(s[..|s|-1], x, le) + [s[|s|-1]]
  }

  /** The result of Rust's stable `sort_by`. */
  function Sort<T>(s: seq<T>, le: (T, T) -> bool): seq<T> {
    if |s| == 0 then [] else Insert(Sort(s[..|s|-1], le), s[|s|-1], le)
  }

  lemma {:induction false} InsertContents<T(!new)>(s: seq<T>, x: T, le: (T, T) -> bool)
    ensures multiset(Insert(s, x, le)) == multiset(s) + multiset{x}
  {
    if !(|s| == 0 || le(s[|s|-1], x)) {
      InsertContents(s[..|s|-1], x, le);
      assert s == s[..|s|-1] + [s[|s|-1]];
    }
  }

  lemma {:induction false} SortContents<T(!new)>(s: seq<T>, le: (T, T) -> bool)
    ensures multiset(Sort(s, le)) == multiset(s)
    ensures |Sort(s, le)| == |s|
    ensures forall x :: x in Sort(s, le) <==> x in s
  {
    if |s| > 0 {
      SortContents(s[..|s|-1], le);
      InsertContents(Sort(s[..|s|-1], le), s[|s|-1], le);
      assert s == s[..|s|-1] + [s[|s|-1]];
    }
    assert |Sort(s, le)| == |multiset(Sort(s, le))|;
    forall x ensures x in Sort(s, le) <==> x in s {
      assert x in Sort(s, le) <==> x in multiset(Sort(s, le));
      assert x in s <==> x in multiset(s);
    }
  }

  lemma {:induction false} InsertSorted<T(!new)>(s: seq<T>, x: T, le: (T, T) -> bool)
    requires TotalPreorder(le) && SortedBy(s, le)
    ensures SortedBy(Insert(s, x, le), le)
  {
    if |s| == 0 || le(s[|s|-1], x) {
    } else {
      var t := s[..|s|-1];
      InsertSorted(t, x, le);
      InsertContents(t, x, le);
      var r := Insert(t, x, le);
      forall y | y in r ensures le(y, s[|s|-1]) {
        assert y in multiset(r);
        if y != x {
          assert y in multiset(t);
          var i :| 0 <= i < |t| && t[i] == y;
          assert le(s[i], s[|s|-1]);
        }
      }
      var out := r + [s[|s|-1]];
      forall i, j | 0 <= i < j < |out| ensures le(out[i], out[j]) {
        assert r[i] in r;
      }
    }
  }

  lemma {:induction false} SortSorted<T(!new)>(s: seq<T>, le: (T, T) -> bool)
    requires TotalPreorder(le)
    ensures SortedBy(Sort(s, le), le)
  {
    if |s| > 0 {
      SortSorted(s[..|s|-1], le);
      InsertSorted(Sort(s[..|s|-1], le), s[|s|-1], le);
    }
  }

  lemma {:induction false} SumInsert<T(!new)>(s: seq<T>, x: T, le: (T, T) -> bool, f: T -> nat)
    ensures Sum(Insert(s, x, le), f) == Sum(s, f) + f(x)
  {
    if |s| == 0 || le(s[|s|-1], x) {
      SumAppend(s, x, f);
    } else {
      SumInsert(s[..|s|-1], x, le, f);
      SumAppend(Insert(s[..|s|-1], x, le), s[|s|-1], f);
    }
  }

  lemma {:induction false} SumSort<T(!new)>(s: seq<T>, le: (T, T) -> bool, f: T -> nat)
    ensures Sum(Sort(s, le), f) == Sum(s, f)
  {
    if |s| > 0 {
      SumSort(s[..|s|-1], le, f);
      SumInsert(Sort(s[..|s|-1], le), s[|s|-1], le, f);
    }
  }

  lemma {:induction false} UniqueInsert<T(!new), K>(s: seq<T>, x: T, le: (T, T) -> bool, key: T -> K)
    requires UniqueBy(s, key)
    requires forall y | y in s :: key(y) != key(x)
    ensures UniqueBy(Insert(s, x, le), key)
  {
    if !(|s| == 0 || le(s[|s|-1], x)) {
      var t := s[..|s|-1];
      UniqueInsert(t, x, le, key);
      InsertContents(t, x, le);
      forall y | y in Insert(t, x, le) ensures key(y) != key(s[|s|-1]) {
        assert y in multiset(Insert(t, x, le));
      }
    }
  }

  lemma {:induction false} UniqueSort<T(!new), K>(s: seq<T>, le: (T, T) -> bool, key: T -> K)
    requires UniqueBy(s, key)
    ensures UniqueBy(Sort(s, le), key)
  {
    if |s| > 0 {
      UniqueSort(s[..|s|-1], le, key);
      SortContents(s[..|s|-1], le);
      forall y | y in s[..|s|-1] ensures key(y) != key(s[|s|-1]) {
        var i :| 0 <= i < |s| - 1 && s[i] == y;
      }
      UniqueInsert(Sort(s[..|s|-1], le), s[|s|-1], le, key);
    }
  }

  // A push followed by a sort, as the stores do it.

  lemma PushSortMembers<T(!new)>(s: seq<T>, x: T, le: (T, T) -> bool)
    ensures |Sort(s + [x], le)| == |s| + 1
    ensures forall y :: y in Sort(s + [x], le) <==> y in s || y == x
  {
    SortContents(s + [x], le);
  }

  lemma PushSortUnique<T(!new), K>(s: seq<T>, x: T, le: (T, T) -> bool, key: T -> K)
    requires UniqueBy(s, key)
    requires forall y | y in s :: key(y) != key(x)
    ensures UniqueBy(Sort(s + [x], le), key)
  {
    UniqueAppend(s, x, key);
    UniqueSort(s + [x], le, key);
  }

  lemma PushSortSum<T(!new)>(s: seq<T>, x: T, le: (T, T) -> bool, f: T -> nat)
    ensures Sum(Sort(s + [x], le), f) == Sum(s, f) + f(x)
  {
    SumSort(s + [x], le, f);
    SumAppend(s, x, f);
  }

  /** The last element of a strictly sorted sequence is its only maximum. */
  lemma LastIsMax<T(!new)>(a: seq<T>, le: (T, T) -> bool, y: T)
    requires SortedBy(a, le) && |a| > 0 && y in a
    ensures y == a[|a|-1] || le(y, a[|a|-1])
  {
    var j :| 0 <= j < |a| && a[j] == y;
  }

  ghost predicate NoRepeats<T>(a: seq<T>) {
    forall i, j | 0 <= i < j < |a| :: a[i] != a[j]
  }

  ghost function Elements<T>(s: seq<T>): set<T> { set x | x in s }

  lemma {:induction false} DistinctSize<T(!new)>(s: seq<T>)
    requires NoRepeats(s)
    ensures |Elements(s)| == |s|
  {
    if |s| == 0 {
      assert Elements(s) == {};
    } else {
      var t, y := s[..|s|-1], s[|s|-1];
      DistinctSize(t);
      assert s == t + [y];
      assert Elements(s) == Elements(t) + {y};
    }
  }

  lemma DropLast<T(!new)>(a: seq<T>)
    requires |a| > 0 && NoRepeats(a)
    ensures NoRepeats(a[..|a|-1])
    ensures forall z :: z in a[..|a|-1] <==> z in a && z != a[|a|-1]
  {
    var a', x := a[..|a|-1], a[|a|-1];
    assert a == a' + [x];
  }

  lemma SameMembersEmpty<T(!new)>(a: seq<T>, b: seq<T>)
    requires forall x :: x in a <==> x in b
    ensures a == [] <==> b == []
  {
    if a != [] { assert a[0] in b; }
    if b != [] { assert b[0] in a; }
  }

  /** Two sorted sequences without repetition that hold the same elements are
      equal, whatever order the elements arrived in. */
  lemma {:induction false} SortedSetUnique<T(!new)>(a: seq<T>, b: seq<T>, le: (T, T) -> bool)
    requires forall x, y :: le(x, y) && le(y, x) ==> x == y
    requires SortedBy(a, le) && SortedBy(b, le) && NoRepeats(a) && NoRepeats(b)
    requires forall x :: x in a <==> x in b
    ensures a == b
  {
    SameMembersEmpty(a, b);
    if |a| == 0 {
    } else {
      var x, y := a[|a|-1], b[|b|-1];
      assert x in b && y in a;
      LastIsMax(a, le, y);
      LastIsMax(b, le, x);
      DropLast(a);
      DropLast(b);
      var a', b' := a[..|a|-1], b[..|b|-1];
      forall z ensures z in a' <==> z in b' {
        assert z in a' <==> z in a && z != x;
        assert z in b' <==> z in b && z != y;
      }
      SortedSetUnique(a[..|a|-1], b[..|b|-1], le);
      assert a == a[..|a|-1] + [x] && b == b[..|b|-1] + [y];
    }
  }

  // ----- byte-wise order of strings -----

  predicate StringLe(a: string, b: string) {
    if a == [] then true
    else if b == [] then false
    else if a[0] == b[0] then StringLe(a[1..], b[1..])
    else a[0] < b[0]
  }

  lemma {:induction false} StringLeTotal(a: string, b: string)
    ensures StringLe(a, b) || StringLe(b, a)
  {
    if a != [] && b != [] && a[0] == b[0] { StringLeTotal(a[1..], b[1..]); }
  }

  lemma {:induction false} StringLeTransitive(a: string, b: string, c: string)
    requires StringLe(a, b) && StringLe(b, c)
    ensures StringLe(a, c)
  {
    if a != [] && b != [] && c != [] && a[0] == b[0] == c[0] {
      StringLeTransitive(a[1..], b[1..], c[1..]);
    }
  }
}
