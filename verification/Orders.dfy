/** Total preorders, the sort the source's `sort_by` performs, and when a sorted order is unique. */
module Orders {

  ghost predicate TotalPreorder<T(!new)>(le: (T, T) -> bool) {
    && (forall x, y :: le(x, y) || le(y, x))
    && (forall x, y, z :: le(x, y) && le(y, z) ==> le(x, z))
  }

  ghost predicate Sorted<T>(le: (T, T) -> bool, s: seq<T>) {
    forall i, j :: 0 <= i < j < |s| ==> le(s[i], s[j])
  }

  /** No two different elements of `s` tie. */
  ghost predicate NoTies<T>(le: (T, T) -> bool, s: seq<T>) {
    forall x, y :: x in s && y in s && le(x, y) && le(y, x) ==> x == y
  }

  /** `x` after every element it does not precede: a stable insertion from the right. */
  function Insert<T>(le: (T, T) -> bool, s: seq<T>, x: T): (r: seq<T>)
    ensures multiset(r) == multiset(s) + multiset{x}
  {
    if s == [] then [x]
    else if le(s[|s| - 1], x) then s + [x]
    else
      assert s == s[..|s| - 1] + [s[|s| - 1]];
      Insert(le, s[..|s| - 1], x) + [s[|s| - 1]]
  }

  /** A stable sort. */
  function Sort<T>(le: (T, T) -> bool, s: seq<T>): (r: seq<T>)
    ensures multiset(r) == multiset(s) && |r| == |s|
  {
    if s == [] then []
    else
      assert s == s[..|s| - 1] + [s[|s| - 1]];
      var r := Insert(le, Sort(le, s[..|s| - 1]), s[|s| - 1]);
      SameSize(r, s);
      r
  }

  function Min(a: nat, b: nat): (m: nat)
    ensures m <= a && m <= b && (m == a || m == b)
  {
    if a < b then a else b
  }

  lemma SubsetSize<T>(part: set<T>, all: set<T>)
    requires part <= all
    ensures |part| <= |all| && (|part| == |all| ==> part == all)
  {
    assert all == part + (all - part);
  }

  lemma SameSize<T>(a: seq<T>, b: seq<T>)
    requires multiset(a) == multiset(b)
    ensures |a| == |b|
  {
    assert |multiset(a)| == |a| && |multiset(b)| == |b|;
  }

  lemma {:induction false} InsertSorts<T(!new)>(le: (T, T) -> bool, s: seq<T>, x: T)
    requires TotalPreorder(le) && Sorted(le, s)
    ensures Sorted(le, Insert(le, s, x))
  {
    if s != [] && !le(s[|s| - 1], x) {
      InsertSorts(le, s[..|s| - 1], x);
      InsertStaysBelow(le, s, x, Insert(le, s[..|s| - 1], x));
    }
  }

  lemma InsertStaysBelow<T(!new)>(le: (T, T) -> bool, s: seq<T>, x: T, r: seq<T>)
    requires TotalPreorder(le) && Sorted(le, s) && s != [] && !le(s[|s| - 1], x)
    requires multiset(r) == multiset(s[..|s| - 1]) + multiset{x}
    ensures forall i :: 0 <= i < |r| ==> le(r[i], s[|s| - 1])
  {
    forall i | 0 <= i < |r|
      ensures le(r[i], s[|s| - 1])
    {
      assert r[i] in multiset(s[..|s| - 1]) + multiset{x};
    }
  }

  lemma {:induction false} SortSorts<T(!new)>(le: (T, T) -> bool, s: seq<T>)
    requires TotalPreorder(le)
    ensures Sorted(le, Sort(le, s))
  {
    if s != [] {
      SortSorts(le, s[..|s| - 1]);
      InsertSorts(le, Sort(le, s[..|s| - 1]), s[|s| - 1]);
    }
  }

  lemma FirstBelow<T(!new)>(le: (T, T) -> bool, s: seq<T>, x: T)
    requires TotalPreorder(le) && Sorted(le, s) && x in s
    ensures le(s[0], x)
  {
    assert le(x, x);
  }

  lemma DropFirst<T>(s: seq<T>)
    requires s != []
    ensures multiset(s[1..]) == multiset(s) - multiset{s[0]}
  {
    assert s == [s[0]] + s[1..];
  }

  lemma TailKeeps<T(!new)>(le: (T, T) -> bool, s: seq<T>)
    requires s != []
    ensures Sorted(le, s) ==> Sorted(le, s[1..])
    ensures NoTies(le, s) ==> NoTies(le, s[1..])
  {
  }

  lemma FirstIsSame<T(!new)>(le: (T, T) -> bool, a: seq<T>, b: seq<T>)
    requires TotalPreorder(le) && Sorted(le, a) && Sorted(le, b) && NoTies(le, a) && a != [] && b != []
    requires a[0] in b && b[0] in a
    ensures a[0] == b[0]
  {
    FirstBelow(le, a, b[0]);
    FirstBelow(le, b, a[0]);
  }

  /** Without ties a multiset has one sorted order. */
  lemma {:induction false} SortedUnique<T(!new)>(le: (T, T) -> bool, a: seq<T>, b: seq<T>)
    requires TotalPreorder(le) && Sorted(le, a) && Sorted(le, b) && multiset(a) == multiset(b) && NoTies(le, a)
    ensures a == b
  {
    hide TotalPreorder, Sorted, NoTies;
    SameSize(a, b);
    if a != [] {
      assert a[0] in multiset(b) && b[0] in multiset(a);
      FirstIsSame(le, a, b);
      TailKeeps(le, a);
      TailKeeps(le, b);
      DropFirst(a);
      DropFirst(b);
      SortedUnique(le, a[1..], b[1..]);
      assert a == [a[0]] + a[1..] && b == [b[0]] + b[1..];
    }
  }

  /** So sorting ignores the order it is given. */
  lemma SortIgnoresOrder<T(!new)>(le: (T, T) -> bool, a: seq<T>, b: seq<T>)
    requires TotalPreorder(le) && multiset(a) == multiset(b) && NoTies(le, a)
    ensures Sort(le, a) == Sort(le, b)
  {
    SortSorts(le, b);
    SortOfSorted(le, a, Sort(le, b));
  }

  /** And a sorted list without ties is its own sort. */
  lemma SortOfSorted<T(!new)>(le: (T, T) -> bool, a: seq<T>, sorted: seq<T>)
    requires TotalPreorder(le) && multiset(a) == multiset(sorted) && NoTies(le, a) && Sorted(le, sorted)
    ensures Sort(le, a) == sorted
  {
    SortSorts(le, a);
    forall x | x in Sort(le, a)
      ensures x in a
    {
      assert x in multiset(Sort(le, a));
    }
    SortedUnique(le, Sort(le, a), sorted);
  }

  // ----- unordered collections -----

  ghost predicate NoTiesIn<T(!new)>(le: (T, T) -> bool, s: set<T>) {
    forall x, y :: x in s && y in s && le(x, y) && le(y, x) ==> x == y
  }

  /** The elements of a set, each once. */
  ghost function Listed<T>(s: set<T>): (r: seq<T>)
    ensures multiset(r) == multiset(s)
  {
    if s == {} then []
    else
      var x :| x in s;
      assert s == (s - {x}) + {x};
      [x] + Listed(s - {x})
  }

  ghost function Ranking<T>(le: (T, T) -> bool, s: set<T>): seq<T> {
    Sort(le, Listed(s))
  }

  lemma RankingFacts<T(!new)>(le: (T, T) -> bool, s: set<T>)
    requires TotalPreorder(le)
    ensures multiset(Ranking(le, s)) == multiset(s) && |Ranking(le, s)| == |s| && Sorted(le, Ranking(le, s))
  {
    SortSorts(le, Listed(s));
    assert |multiset(Ranking(le, s))| == |Ranking(le, s)| && |multiset(s)| == |s|;
  }

  lemma NoTiesInList<T(!new)>(le: (T, T) -> bool, s: set<T>, list: seq<T>)
    requires NoTiesIn(le, s) && multiset(list) <= multiset(s)
    ensures NoTies(le, list)
  {
    forall x | x in list
      ensures x in s
    {
      assert x in multiset(list);
    }
  }

  /** Without ties there is one sorted listing, whatever order the elements came in. */
  lemma OneRanking<T(!new)>(le: (T, T) -> bool, s: set<T>, list: seq<T>)
    requires TotalPreorder(le) && NoTiesIn(le, s) && multiset(list) == multiset(s) && Sorted(le, list)
    ensures list == Ranking(le, s)
  {
    hide Ranking;
    RankingFacts(le, s);
    NoTiesInList(le, s, list);
    SortedUnique(le, list, Ranking(le, s));
  }

  /** Iterating over a hash map or set: every element once, in no particular order. */
  method InAnyOrder<T(==)>(s: set<T>) returns (values: seq<T>)
    ensures multiset(values) == multiset(s)
  {
    values := [];
    var todo := s;
    while todo != {}
      invariant multiset(values) + multiset(todo) == multiset(s)
      decreases |todo|
    {
      var x :| x in todo;
      assert todo == (todo - {x}) + {x};
      values := values + [x];
      todo := todo - {x};
    }
  }

  // ----- strings -----

  /** Byte-wise lexicographic order. */
  predicate StringLe(a: string, b: string) {
    a == [] || (b != [] && (a[0] < b[0] || (a[0] == b[0] && StringLe(a[1..], b[1..]))))
  }

  /** `a` is a prefix of `b`, or smaller where they first differ. */
  lemma {:induction false} StringLeMeans(a: string, b: string)
    ensures StringLe(a, b) <==> a <= b || exists n: nat :: n < |a| && n < |b| && a[..n] == b[..n] && a[n] < b[n]
  {
    if a != [] && b != [] && a[0] == b[0] {
      StringLeMeans(a[1..], b[1..]);
      DifferLater(a, b);
    } else if a != [] && b != [] && a[0] < b[0] {
      assert a[..0] == b[..0];
    }
  }

  lemma DifferLater(a: string, b: string)
    requires a != [] && b != [] && a[0] == b[0]
    ensures a <= b <==> a[1..] <= b[1..]
    ensures (exists n: nat :: n < |a| && n < |b| && a[..n] == b[..n] && a[n] < b[n])
        <==> (exists n: nat :: n < |a[1..]| && n < |b[1..]| && a[1..][..n] == b[1..][..n] && a[1..][n] < b[1..][n])
  {
    assert a == [a[0]] + a[1..] && b == [b[0]] + b[1..];
    if n: nat :| n < |a| && n < |b| && a[..n] == b[..n] && a[n] < b[n] {
      assert n > 0;
      assert a[1..][..n - 1] == a[1..n] == a[..n][1..] && b[1..][..n - 1] == b[1..n] == b[..n][1..];
      assert a[1..][n - 1] < b[1..][n - 1];
    }
    if n: nat :| n < |a[1..]| && n < |b[1..]| && a[1..][..n] == b[1..][..n] && a[1..][n] < b[1..][n] {
      assert a[..n + 1] == [a[0]] + a[1..][..n] && b[..n + 1] == [b[0]] + b[1..][..n];
      assert a[n + 1] < b[n + 1];
    }
  }

  lemma {:induction false} StringLeTransitive(a: string, b: string, c: string)
    requires StringLe(a, b) && StringLe(b, c)
    ensures StringLe(a, c)
  {
    if a != [] && a[0] == b[0] && b[0] == c[0] {
      StringLeTransitive(a[1..], b[1..], c[1..]);
    }
  }

  lemma {:induction false} StringLeTotal(a: string, b: string)
    ensures StringLe(a, b) || StringLe(b, a)
    ensures StringLe(a, b) && StringLe(b, a) ==> a == b
  {
    if a != [] && b != [] && a[0] == b[0] {
      StringLeTotal(a[1..], b[1..]);
      assert a == [a[0]] + a[1..] && b == [b[0]] + b[1..];
    }
  }
}
