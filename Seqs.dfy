/** The underscore.js array helpers the services rely on, stated over
    sequences: `_.without`, `_.indexOf`, `_.intersection`, `_.max`/`_.min`,
    `Array.prototype.reverse` and a numeric `sort`, plus the ascending order in
    which JavaScript enumerates the integer keys of an object. */
module Seqs {

  predicate NoDup<T(==)>(s: seq<T>)
  {
    forall i, j :: 0 <= i < j < |s| ==> s[i] != s[j]
  }

  predicate Sorted(s: seq<int>)
  {
    forall i, j :: 0 <= i < j < |s| ==> s[i] <= s[j]
  }

  predicate StrictlyAscending(s: seq<int>)
  {
    forall i, j :: 0 <= i < j < |s| ==> s[i] < s[j]
  }

  /** `_.without(s, x)`: every occurrence of `x` removed, the rest in order. */
  function Without<T(==,!new)>(s: seq<T>, x: T): (r: seq<T>)
    ensures forall y :: y in r <==> y in s && y != x
    ensures multiset(r) == multiset(s)[x := 0]
    ensures x !in s ==> r == s
    ensures NoDup(s) ==> NoDup(r)
    ensures |r| <= |s|
  {
    if s == [] then []
    else
      var rest := Without(s[1..], x);
      WithoutStep(s, x, rest);
      if s[0] == x then rest else [s[0]] + rest
  }

  /** The contract of `Without` carried from the tail to the whole sequence. */
  lemma WithoutStep<T>(s: seq<T>, x: T, rest: seq<T>)
    requires s != []
    requires forall y :: y in rest <==> y in s[1..] && y != x
    requires multiset(rest) == multiset(s[1..])[x := 0]
    requires x !in s[1..] ==> rest == s[1..]
    requires NoDup(s[1..]) ==> NoDup(rest)
    requires |rest| <= |s[1..]|
    ensures var r := if s[0] == x then rest else [s[0]] + rest;
      && (forall y :: y in r <==> y in s && y != x)
      && multiset(r) == multiset(s)[x := 0]
      && (x !in s ==> r == s)
      && (NoDup(s) ==> NoDup(r))
      && |r| <= |s|
  {
    assert s == [s[0]] + s[1..];
    assert multiset(s) == multiset{s[0]} + multiset(s[1..]);
    NoDupTail(s);
    if s[0] != x {
      assert multiset([s[0]] + rest) == multiset{s[0]} + multiset(rest);
    }
  }

  /** `_.without` keeps the order of what remains: it works piece by piece
      (`WithoutConcat`), and a single element stays unless it is the one
      removed (`WithoutSingle`). */
  lemma {:induction false} WithoutConcat<T(!new)>(a: seq<T>, b: seq<T>, x: T)
    ensures Without(a + b, x) == Without(a, x) + Without(b, x)
    decreases |a|
  {
    if a == [] {
      assert a + b == b;
    } else {
      WithoutConcat(a[1..], b, x);
      WithoutConcatStep(a, b, x);
    }
  }

  lemma WithoutConcatStep<T(!new)>(a: seq<T>, b: seq<T>, x: T)
    requires a != []
    requires Without(a[1..] + b, x) == Without(a[1..], x) + Without(b, x)
    ensures Without(a + b, x) == Without(a, x) + Without(b, x)
  {
    var y, c := a[0], a[1..];
    var h := if y == x then [] else [y];
    Split(a, b);
    WithoutCons(y, c + b, x);
    WithoutCons(y, c, x);
    Assoc(h, Without(c, x), Without(b, x));
  }

  lemma Split<T>(a: seq<T>, b: seq<T>)
    requires a != []
    ensures a == [a[0]] + a[1..] && a + b == [a[0]] + (a[1..] + b)
  {
  }

  lemma Assoc<T>(p: seq<T>, q: seq<T>, r: seq<T>)
    ensures p + (q + r) == (p + q) + r
  {
  }

  lemma WithoutCons<T(!new)>(y: T, s: seq<T>, x: T)
    ensures Without([y] + s, x) == (if y == x then [] else [y]) + Without(s, x)
  {
    assert ([y] + s)[1..] == s;
  }

  lemma WithoutSingle<T(!new)>(y: T, x: T)
    ensures Without([y], x) == if y == x then [] else [y]
  {
    assert [y][1..] == [];
  }

  lemma NoDupTail<T>(s: seq<T>)
    requires s != []
    ensures NoDup(s) ==> NoDup(s[1..]) && s[0] !in s[1..]
  {
  }

  /** Removing an element that occurs once shortens the sequence by one. */
  lemma {:induction false} WithoutLength<T(!new)>(s: seq<T>, x: T)
    requires NoDup(s) && x in s
    ensures |Without(s, x)| == |s| - 1
  {
    NoDupTail(s);
    if s[0] != x {
      assert x in s[1..];
      WithoutLength(s[1..], x);
    }
  }

  /** `_.indexOf(s, x)`: the first position of `x`, or -1 when it is absent. */
  function IndexOf<T(==)>(s: seq<T>, x: T): (r: int)
    ensures -1 <= r < |s|
    ensures r == -1 <==> x !in s
    ensures r >= 0 ==> s[r] == x && x !in s[..r]
  {
    if s == [] then -1
    else if s[0] == x then 0
    else
      var k := IndexOf(s[1..], x);
      if k == -1 then -1
      else
        assert s[..k + 1] == [s[0]] + s[1..][..k];
        k + 1
  }

  /** `_.intersection(a, b)`: the distinct elements of `a`, in the order of their
      first occurrence, that also occur in `b`. */
  function Intersection<T(==,!new)>(a: seq<T>, b: seq<T>): (r: seq<T>)
    ensures forall x :: x in r <==> x in a && x in b
    ensures NoDup(r)
    ensures |r| <= |a|
  {
    if a == [] then []
    else
      var n := |a| - 1;
      var r := Intersection(a[..n], b);
      assert forall x :: x in a <==> x in a[..n] || x == a[n] by {
        assert a == a[..n] + [a[n]];
      }
      if a[n] in b && a[n] !in r then r + [a[n]] else r
  }

  /** The position of an element in a sequence is its position in any prefix
      that contains it. */
  lemma IndexOfPrefix<T>(a: seq<T>, n: nat, x: T)
    requires n <= |a| && x in a[..n]
    ensures IndexOf(a, x) == IndexOf(a[..n], x)
  {
    var i, j := IndexOf(a, x), IndexOf(a[..n], x);
    assert a[j] == x;
    assert forall k :: 0 <= k < i ==> a[..i][k] == a[k];
    assert forall k :: 0 <= k < j ==> a[..n][..j][k] == a[k];
  }

  /** `r` lists its elements in the order in which `a` first mentions them. */
  predicate InOrderOf<T(==)>(a: seq<T>, r: seq<T>)
  {
    forall i, j :: 0 <= i < j < |r| ==> IndexOf(a, r[i]) < IndexOf(a, r[j])
  }

  /** `_.intersection` keeps the order in which `a` first mentions its elements. */
  lemma {:induction false} IntersectionOrder<T(!new)>(a: seq<T>, b: seq<T>)
    ensures InOrderOf(a, Intersection(a, b))
    decreases |a|
  {
    if a != [] {
      var n := |a| - 1;
      var r := Intersection(a[..n], b);
      IntersectionOrder(a[..n], b);
      OrderLift(a, n, r);
      if a[n] in b && a[n] !in r {
        LastIndex(a);
        OrderSnoc(a, r, a[n]);
      }
    }
  }

  /** The last element of `a`, when it does not occur earlier, is first
      mentioned at the end. */
  lemma LastIndex<T>(a: seq<T>)
    requires a != []
    ensures a[|a| - 1] !in a[..|a| - 1] ==> IndexOf(a, a[|a| - 1]) == |a| - 1
  {
  }

  /** Positions in a prefix are positions in the whole sequence. */
  lemma OrderLift<T>(a: seq<T>, n: nat, r: seq<T>)
    requires n <= |a|
    requires forall x :: x in r ==> x in a[..n]
    requires InOrderOf(a[..n], r)
    ensures forall i :: 0 <= i < |r| ==> IndexOf(a, r[i]) < n
    ensures InOrderOf(a, r)
  {
    forall i | 0 <= i < |r| ensures IndexOf(a, r[i]) == IndexOf(a[..n], r[i]) < n {
      assert r[i] in r;
      IndexOfPrefix(a, n, r[i]);
    }
  }

  /** Appending an element first mentioned after all of `r` keeps the order. */
  lemma OrderSnoc<T>(a: seq<T>, r: seq<T>, x: T)
    requires InOrderOf(a, r)
    requires forall i :: 0 <= i < |r| ==> IndexOf(a, r[i]) < IndexOf(a, x)
    ensures InOrderOf(a, r + [x])
  {
  }

  /** `Array.prototype.reverse`. */
  function Reverse<T>(s: seq<T>): (r: seq<T>)
    ensures |r| == |s|
    ensures forall i :: 0 <= i < |s| ==> r[i] == s[|s| - 1 - i]
  {
    if s == [] then [] else Reverse(s[1..]) + [s[0]]
  }

  lemma ReverseMembers<T>(s: seq<T>)
    ensures forall x :: x in Reverse(s) <==> x in s
  {
  }

  /** Inserts `x` into an ascending sequence, keeping it ascending. */
  function Insert(x: int, s: seq<int>): (r: seq<int>)
    ensures multiset(r) == multiset(s) + multiset{x}
    ensures Sorted(s) ==> Sorted(r)
    ensures StrictlyAscending(s) && x !in s ==> StrictlyAscending(r)
  {
    if s == [] then [x]
    else if x <= s[0] then [x] + s
    else
      var rest := Insert(x, s[1..]);
      InsertStep(x, s, rest);
      [s[0]] + rest
  }

  /** The step of `Insert` past the head of the sequence. */
  lemma InsertStep(x: int, s: seq<int>, rest: seq<int>)
    requires s != [] && s[0] < x
    requires multiset(rest) == multiset(s[1..]) + multiset{x}
    requires Sorted(s[1..]) ==> Sorted(rest)
    requires StrictlyAscending(s[1..]) && x !in s[1..] ==> StrictlyAscending(rest)
    ensures multiset([s[0]] + rest) == multiset(s) + multiset{x}
    ensures Sorted(s) ==> Sorted([s[0]] + rest)
    ensures StrictlyAscending(s) && x !in s ==> StrictlyAscending([s[0]] + rest)
  {
    assert s == [s[0]] + s[1..];
    InsertMembers(x, s[1..], rest);
    if Sorted(s) {
      forall y | y in s[1..] ensures s[0] <= y {
        var j :| 0 <= j < |s[1..]| && s[1..][j] == y;
        assert s[j + 1] == y;
      }
      ConsSorted(s[0], rest);
    }
    if StrictlyAscending(s) && x !in s {
      forall y | y in s[1..] ensures s[0] < y {
        var j :| 0 <= j < |s[1..]| && s[1..][j] == y;
        assert s[j + 1] == y;
      }
      ConsAscending(s[0], rest);
    }
  }

  lemma InsertMembers(x: int, t: seq<int>, rest: seq<int>)
    requires multiset(rest) == multiset(t) + multiset{x}
    ensures forall y :: y in rest ==> y == x || y in t
  {
    forall y | y in rest ensures y == x || y in t {
      assert y in multiset(rest);
    }
  }

  lemma ConsSorted(a: int, s: seq<int>)
    requires Sorted(s) && forall y :: y in s ==> a <= y
    ensures Sorted([a] + s)
  {
    forall i, j | 0 <= i < j < |[a] + s| ensures ([a] + s)[i] <= ([a] + s)[j] {
      assert ([a] + s)[j] == s[j - 1] && s[j - 1] in s;
      if i > 0 { assert ([a] + s)[i] == s[i - 1]; }
    }
  }

  lemma ConsAscending(a: int, s: seq<int>)
    requires StrictlyAscending(s) && forall y :: y in s ==> a < y
    ensures StrictlyAscending([a] + s)
  {
    forall i, j | 0 <= i < j < |[a] + s| ensures ([a] + s)[i] < ([a] + s)[j] {
      assert ([a] + s)[j] == s[j - 1] && s[j - 1] in s;
      if i > 0 { assert ([a] + s)[i] == s[i - 1]; }
    }
  }

  /** The numeric ascending `sort` of an array (`sort(function(v,k){return v-k;})`). */
  function SortAsc(s: seq<int>): (r: seq<int>)
    ensures multiset(r) == multiset(s)
    ensures Sorted(r)
    ensures NoDup(s) ==> StrictlyAscending(r)
  {
    if s == [] then []
    else
      var rest := SortAsc(s[1..]);
      SortStep(s, rest);
      Insert(s[0], rest)
  }

  /** What inserting the head into the sorted tail needs. */
  lemma SortStep(s: seq<int>, rest: seq<int>)
    requires s != []
    requires multiset(rest) == multiset(s[1..])
    requires NoDup(s[1..]) ==> StrictlyAscending(rest)
    ensures multiset(rest) + multiset{s[0]} == multiset(s)
    ensures NoDup(s) ==> StrictlyAscending(rest) && s[0] !in rest
  {
    assert s == [s[0]] + s[1..];
    NoDupTail(s);
    assert s[0] in rest <==> s[0] in multiset(rest);
  }

  /** `_.max` of a non-empty list of numbers. */
  function Max(s: seq<int>): (m: int)
    requires s != []
    ensures m in s
    ensures forall x :: x in s ==> x <= m
  {
    if |s| == 1 then s[0]
    else
      var m := Max(s[1..]);
      assert s == [s[0]] + s[1..];
      if s[0] > m then s[0] else m
  }

  /** `_.min` of a non-empty list of numbers. */
  function Min(s: seq<int>): (m: int)
    requires s != []
    ensures m in s
    ensures forall x :: x in s ==> m <= x
  {
    if |s| == 1 then s[0]
    else
      var m := Min(s[1..]);
      assert s == [s[0]] + s[1..];
      if s[0] < m then s[0] else m
  }

  /** A non-empty set of naturals has a least element. */
  lemma LeastExists(s: set<nat>) returns (m: nat)
    requires s != {}
    ensures m in s && forall x :: x in s ==> m <= x
    decreases |s|
  {
    var y :| y in s;
    if s == {y} {
      m := y;
    } else {
      var m' := LeastExists(s - {y});
      m := if y < m' then y else m';
      forall x | x in s ensures m <= x {
        if x != y { assert x in s - {y}; }
      }
    }
  }

  /** The least element of a non-empty set of naturals. */
  function Least(s: set<nat>): (m: nat)
    requires s != {}
    ensures m in s
    ensures forall x :: x in s ==> m <= x
  {
    assert exists m :: m in s && forall x :: x in s ==> m <= x by {
      var m := LeastExists(s);
    }
    var m :| m in s && forall x :: x in s ==> m <= x;
    m
  }

  /** The integer keys of a JavaScript object in the order a `for..in`
      (and so `_.each`, `_.where`, `_.findWhere`) enumerates them: ascending. */
  function AscendingKeys(s: set<nat>): (r: seq<nat>)
    ensures forall k :: k in r <==> k in s
    ensures StrictlyAscending(r)
    ensures |r| == |s|
    decreases |s|
  {
    if s == {} then []
    else
      var m := Least(s);
      var rest := AscendingKeys(s - {m});
      assert forall k :: k in rest ==> m < k;
      ConsAscending(m, rest);
      [m] + rest
  }
}
