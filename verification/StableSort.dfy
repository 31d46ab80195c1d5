/** Insertion behind equals, and what inserting a whole list that way amounts to. */
module StableSort {
  import opened Sequences

  /** `less` orders these elements as a total preorder does: read `!less(y, x)` as "x may come before y". */
  ghost predicate Preorder<T>(less: (T, T) -> bool, xs: seq<T>) {
    && (forall x, y | x in xs && y in xs && less(x, y) :: !less(y, x))
    && (forall x, y, z | x in xs && y in xs && z in xs && !less(y, x) && !less(z, y) :: !less(z, x))
  }

  ghost predicate Within<T>(s: seq<T>, all: seq<T>) {
    forall i | 0 <= i < |s| :: s[i] in all
  }

  ghost predicate Sorted<T>(less: (T, T) -> bool, s: seq<T>) {
    forall i, j | 0 <= i < j < |s| :: !less(s[j], s[i])
  }

  predicate Equivalent<T>(less: (T, T) -> bool, x: T, y: T) {
    !less(x, y) && !less(y, x)
  }

  /** The elements equivalent to `p`, in the order they have in `s`. */
  function Class<T>(less: (T, T) -> bool, p: T, s: seq<T>): seq<T> {
    if s == [] then []
    else (if Equivalent(less, s[0], p) then [s[0]] else []) + Class(less, p, s[1..])
  }

  /** The reference: a sorted rearrangement that keeps equivalent elements in their original order. */
  ghost predicate IsStableSort<T>(less: (T, T) -> bool, xs: seq<T>, s: seq<T>) {
    && Sorted(less, s)
    && multiset(s) == multiset(xs)
    && forall p | p in xs :: Class(less, p, s) == Class(less, p, xs)
  }

  /** How many elements the insertion walks past: all up to the first one that `x` is less than. */
  function InsertPosition<T>(less: (T, T) -> bool, x: T, s: seq<T>): (n: nat)
    ensures n <= |s|
  {
    if s == [] || less(x, s[0]) then 0 else 1 + InsertPosition(less, x, s[1..])
  }

  function Insert<T>(less: (T, T) -> bool, x: T, s: seq<T>): seq<T> {
    var n := InsertPosition(less, x, s);
    s[..n] + [x] + s[n..]
  }

  function InsertAll<T>(less: (T, T) -> bool, xs: seq<T>): seq<T> {
    if xs == [] then []
    else Insert(less, xs[|xs| - 1], InsertAll(less, xs[..|xs| - 1]))
  }

  lemma {:induction false} PassedAreNotGreater<T>(less: (T, T) -> bool, x: T, s: seq<T>)
    ensures var n := InsertPosition(less, x, s);
            && (forall i | 0 <= i < n :: !less(x, s[i]))
            && (n < |s| ==> less(x, s[n]))
    decreases |s|
  {
    if s != [] && !less(x, s[0]) {
      PassedAreNotGreater(less, x, s[1..]);
      var n := InsertPosition(less, x, s);
      forall i | 0 <= i < n
        ensures !less(x, s[i])
      {
        if i > 0 {
          assert s[i] == s[1..][i - 1];
        }
      }
    }
  }

  /** Everything behind the insertion point of a sorted list is greater. */
  lemma TailIsGreater<T>(less: (T, T) -> bool, all: seq<T>, x: T, s: seq<T>, j: nat)
    requires Preorder(less, all) && Within(s, all) && x in all
    requires Sorted(less, s) && InsertPosition(less, x, s) <= j < |s|
    ensures less(x, s[j])
  {
    PassedAreNotGreater(less, x, s);
    var n := InsertPosition(less, x, s);
    if n < j {
      assert !less(s[j], s[n]);
    }
  }

  lemma InsertSorts<T>(less: (T, T) -> bool, all: seq<T>, x: T, s: seq<T>)
    requires Preorder(less, all) && Within(s, all) && x in all
    requires Sorted(less, s)
    ensures Sorted(less, Insert(less, x, s)) && Within(Insert(less, x, s), all)
  {
    var n := InsertPosition(less, x, s);
    var t := Insert(less, x, s);
    PassedAreNotGreater(less, x, s);
    forall i, j | 0 <= i < j < |t|
      ensures !less(t[j], t[i])
    {
      if i == n {
        TailIsGreater(less, all, x, s, j - 1);
      }
    }
  }

  lemma InsertPermutes<T>(less: (T, T) -> bool, x: T, s: seq<T>)
    ensures multiset(Insert(less, x, s)) == multiset(s + [x])
  {
    var n := InsertPosition(less, x, s);
    assert s == s[..n] + s[n..];
  }

  lemma {:induction false} ClassAppend<T>(less: (T, T) -> bool, p: T, s: seq<T>, t: seq<T>)
    ensures Class(less, p, s + t) == Class(less, p, s) + Class(less, p, t)
    decreases |s|
  {
    if s == [] {
      assert s + t == t;
    } else {
      assert (s + t)[1..] == s[1..] + t;
      ClassAppend(less, p, s[1..], t);
      var first := if Equivalent(less, s[0], p) then [s[0]] else [];
      Associate(first, Class(less, p, s[1..]), Class(less, p, t));
    }
  }

  lemma {:induction false} ClassEmpty<T>(less: (T, T) -> bool, p: T, s: seq<T>)
    requires forall i | 0 <= i < |s| :: !Equivalent(less, s[i], p)
    ensures Class(less, p, s) == []
    decreases |s|
  {
    if s != [] {
      ClassEmpty(less, p, s[1..]);
    }
  }

  /** An inserted element goes behind its equals. */
  lemma InsertIsStable<T>(less: (T, T) -> bool, all: seq<T>, x: T, s: seq<T>, p: T)
    requires Preorder(less, all) && Within(s, all) && x in all && p in all
    requires Sorted(less, s)
    ensures Class(less, p, Insert(less, x, s)) == Class(less, p, s + [x])
  {
    var n := InsertPosition(less, x, s);
    var front, back := s[..n], s[n..];
    assert s == front + back;
    if Equivalent(less, x, p) {
      TailHasNoEquals(less, all, x, s, p);
    }
    MoveAcross(less, p, front, x, back);
  }

  lemma TailHasNoEquals<T>(less: (T, T) -> bool, all: seq<T>, x: T, s: seq<T>, p: T)
    requires Preorder(less, all) && Within(s, all) && x in all && p in all
    requires Sorted(less, s) && Equivalent(less, x, p)
    ensures Class(less, p, s[InsertPosition(less, x, s)..]) == []
  {
    var n := InsertPosition(less, x, s);
    forall i | n <= i < |s|
      ensures !Equivalent(less, s[i], p)
    {
      TailIsGreater(less, all, x, s, i);
    }
    ClassEmpty(less, p, s[n..]);
  }

  /** Moving an element to the end past others of a class only when it is not in that class. */
  lemma MoveAcross<T>(less: (T, T) -> bool, p: T, front: seq<T>, x: T, back: seq<T>)
    requires Equivalent(less, x, p) ==> Class(less, p, back) == []
    ensures Class(less, p, front + [x] + back) == Class(less, p, front + back + [x])
  {
    ClassAppend(less, p, front + [x], back);
    ClassAppend(less, p, front, [x]);
    ClassAppend(less, p, front + back, [x]);
    ClassAppend(less, p, front, back);
  }

  /** Inserting a list one by one: sorted, nothing lost, equals in order of insertion. */
  lemma {:induction false} InsertAllWithin<T>(less: (T, T) -> bool, all: seq<T>, xs: seq<T>, p: T)
    requires Preorder(less, all) && Within(xs, all) && p in all
    ensures var s := InsertAll(less, xs);
            && Sorted(less, s) && Within(s, all) && multiset(s) == multiset(xs)
            && Class(less, p, s) == Class(less, p, xs)
    decreases |xs|
  {
    if xs != [] {
      var early, x := xs[..|xs| - 1], xs[|xs| - 1];
      var s := InsertAll(less, early);
      assert xs == early + [x];
      InsertAllWithin(less, all, early, p);
      InsertSorts(less, all, x, s);
      InsertPermutes(less, x, s);
      InsertIsStable(less, all, x, s, p);
      ClassAppend(less, p, s, [x]);
      ClassAppend(less, p, early, [x]);
    }
  }

  lemma HeadIsLeast<T>(less: (T, T) -> bool, all: seq<T>, s: seq<T>, y: T)
    requires Preorder(less, all) && Within(s, all) && Sorted(less, s) && y in s
    ensures !less(y, s[0])
  {
    assert s[0] in all;
  }

  lemma Cancel<T>(a: seq<T>, b: seq<T>, c: seq<T>)
    requires a + b == a + c
    ensures b == c
  {
    assert b == (a + b)[|a|..];
    assert c == (a + c)[|a|..];
  }

  /** Sorted lists with the same classes are the same list: a stable sort is unique. */
  lemma {:induction false} StableSortIsUnique<T>(less: (T, T) -> bool, all: seq<T>, s: seq<T>, t: seq<T>)
    requires Preorder(less, all) && Within(s, all) && Within(t, all)
    requires Sorted(less, s) && Sorted(less, t) && multiset(s) == multiset(t)
    requires forall p | p in all :: Class(less, p, s) == Class(less, p, t)
    ensures s == t
    decreases |s|
  {
    if s == [] {
      assert |t| == |multiset(t)| == 0;
    } else {
      SameHead(less, all, s, t);
      var x := s[0];
      assert s == [x] + s[1..] && t == [x] + t[1..];
      TailsRearranged(s, t);
      forall p | p in all
        ensures Class(less, p, s[1..]) == Class(less, p, t[1..])
      {
        ClassTails(less, p, s, t);
      }
      StableSortIsUnique(less, all, s[1..], t[1..]);
    }
  }

  lemma TailsRearranged<T>(s: seq<T>, t: seq<T>)
    requires s != [] && t != [] && s[0] == t[0] && multiset(s) == multiset(t)
    ensures multiset(s[1..]) == multiset(t[1..])
  {
    assert s == [s[0]] + s[1..] && t == [t[0]] + t[1..];
    assert multiset(s[1..]) == multiset(s) - multiset{s[0]};
    assert multiset(t[1..]) == multiset(t) - multiset{t[0]};
  }

  lemma ClassTails<T>(less: (T, T) -> bool, p: T, s: seq<T>, t: seq<T>)
    requires s != [] && t != [] && s[0] == t[0] && Class(less, p, s) == Class(less, p, t)
    ensures Class(less, p, s[1..]) == Class(less, p, t[1..])
  {
    var skip := if Equivalent(less, s[0], p) then [s[0]] else [];
    Cancel(skip, Class(less, p, s[1..]), Class(less, p, t[1..]));
  }

  lemma HeadsAreEquivalent<T>(less: (T, T) -> bool, all: seq<T>, s: seq<T>, t: seq<T>)
    requires Preorder(less, all) && Within(s, all) && Within(t, all)
    requires Sorted(less, s) && Sorted(less, t) && multiset(s) == multiset(t) && s != []
    ensures t != [] && s[0] in all && Equivalent(less, t[0], s[0])
  {
    assert s[0] in multiset(t);
    assert t[0] in multiset(s);
    HeadIsLeast(less, all, s, t[0]);
    HeadIsLeast(less, all, t, s[0]);
  }

  lemma ClassHead<T>(less: (T, T) -> bool, p: T, s: seq<T>)
    requires s != [] && Equivalent(less, s[0], p)
    ensures Class(less, p, s) != [] && Class(less, p, s)[0] == s[0]
  {}

  lemma SameHead<T>(less: (T, T) -> bool, all: seq<T>, s: seq<T>, t: seq<T>)
    requires Preorder(less, all) && Within(s, all) && Within(t, all)
    requires Sorted(less, s) && Sorted(less, t) && multiset(s) == multiset(t) && s != []
    requires forall p | p in all :: Class(less, p, s) == Class(less, p, t)
    ensures t != [] && s[0] == t[0]
  {
    HeadsAreEquivalent(less, all, s, t);
    HeadsAreEquivalent(less, all, s, s);
    ClassHead(less, s[0], s);
    ClassHead(less, s[0], t);
  }

  /** Inserting a list one by one yields its stable sort, and there is only that one. */
  lemma InsertAllIsTheStableSort<T>(less: (T, T) -> bool, xs: seq<T>, s: seq<T>)
    requires Preorder(less, xs)
    ensures IsStableSort(less, xs, s) <==> s == InsertAll(less, xs)
  {
    var t := InsertAll(less, xs);
    if xs != [] {
      InsertAllWithin(less, xs, xs, xs[0]);
    }
    forall p | p in xs
      ensures Class(less, p, t) == Class(less, p, xs)
    {
      InsertAllWithin(less, xs, xs, p);
    }
    if IsStableSort(less, xs, s) {
      forall i | 0 <= i < |s|
        ensures s[i] in xs
      {
        assert s[i] in multiset(xs);
      }
      StableSortIsUnique(less, xs, s, t);
    }
  }

  // ---- what stability means for two elements ----

  /** How many elements of the class come before position i. */
  function Rank<T>(less: (T, T) -> bool, p: T, s: seq<T>, i: nat): nat
    requires i <= |s|
  {
    |Class(less, p, s[..i])|
  }

  lemma RankInClass<T>(less: (T, T) -> bool, p: T, s: seq<T>, i: nat)
    requires i < |s| && Equivalent(less, s[i], p)
    ensures Rank(less, p, s, i) < |Class(less, p, s)| && Class(less, p, s)[Rank(less, p, s, i)] == s[i]
  {
    assert s == s[..i] + s[i..];
    ClassAppend(less, p, s[..i], s[i..]);
    assert Class(less, p, s[i..])[0] == s[i];
  }

  lemma RankGrows<T>(less: (T, T) -> bool, p: T, s: seq<T>, i: nat, j: nat)
    requires i <= j <= |s|
    ensures Rank(less, p, s, i) <= Rank(less, p, s, j)
    ensures i < j && Equivalent(less, s[i], p) ==> Rank(less, p, s, i) < Rank(less, p, s, j)
  {
    assert s[..j] == s[..i] + s[i..j];
    ClassAppend(less, p, s[..i], s[i..j]);
    assert i < j ==> s[i..j][0] == s[i];
  }

  lemma {:induction false} ClassMembers<T>(less: (T, T) -> bool, p: T, s: seq<T>)
    ensures forall x | x in Class(less, p, s) :: x in s
    decreases |s|
  {
    if s != [] {
      ClassMembers(less, p, s[1..]);
    }
  }

  lemma {:induction false} ClassIsDistinct<T>(less: (T, T) -> bool, p: T, s: seq<T>)
    requires Distinct(s)
    ensures Distinct(Class(less, p, s))
    decreases |s|
  {
    if s != [] {
      assert s[0] !in s[1..];
      assert forall i, j | 0 <= i < j < |s[1..]| :: s[1..][i] == s[i + 1] && s[1..][j] == s[j + 1];
      ClassIsDistinct(less, p, s[1..]);
      ClassMembers(less, p, s[1..]);
      assert s[0] !in Class(less, p, s[1..]);
    }
  }

  /** Two elements of one class stand in the same order in two sequences in which the class is the same. */
  lemma TiesKeepOrder<T>(less: (T, T) -> bool, p: T, xs: seq<T>, s: seq<T>, a: nat, b: nat, i: nat, j: nat)
    requires Distinct(xs) && Class(less, p, s) == Class(less, p, xs)
    requires a < b < |xs| && Equivalent(less, xs[a], p) && Equivalent(less, xs[b], p)
    requires i < |s| && j < |s| && s[i] == xs[a] && s[j] == xs[b]
    ensures i < j
  {
    ClassIsDistinct(less, p, xs);
    RankInClass(less, p, xs, a);
    RankInClass(less, p, xs, b);
    RankInClass(less, p, s, i);
    RankInClass(less, p, s, j);
    RankGrows(less, p, xs, a, b);
    if j <= i {
      RankGrows(less, p, s, j, i);
    }
  }
}
