/** The orders and the stable sort that the resolver uses. */
module Ordering {

  ghost predicate Total<T(!new)>(le: (T, T) -> bool) {
    && (forall a, b :: le(a, b) || le(b, a))
    && (forall a, b, c :: le(a, b) && le(b, c) ==> le(a, c))
  }

  ghost predicate Antisymmetric<T(!new)>(le: (T, T) -> bool) {
    forall a, b :: le(a, b) && le(b, a) ==> a == b
  }

  /** Lexicographic comparison, of text as of tuples. */
  predicate Lex<T(==)>(le: (T, T) -> bool, a: seq<T>, b: seq<T>) {
    if a == [] then true
    else if b == [] then false
    else if a[0] == b[0] then Lex(le, a[1..], b[1..])
    else le(a[0], b[0])
  }

  lemma {:induction false} LexTotal<T(!new)>(le: (T, T) -> bool, a: seq<T>, b: seq<T>)
    requires Total(le) && Antisymmetric(le)
    ensures Lex(le, a, b) || Lex(le, b, a)
    ensures Lex(le, a, b) && Lex(le, b, a) ==> a == b
  {
    if a != [] && b != [] && a[0] == b[0] {
      LexTotal(le, a[1..], b[1..]);
      assert a == [a[0]] + a[1..] && b == [b[0]] + b[1..];
    }
  }

  lemma {:induction false} LexTransitive<T(!new)>(le: (T, T) -> bool, a: seq<T>, b: seq<T>, c: seq<T>)
    requires Total(le) && Antisymmetric(le) && Lex(le, a, b) && Lex(le, b, c)
    ensures Lex(le, a, c)
  {
    if a != [] && b != [] && c != [] && a[0] == b[0] == c[0] {
      LexTransitive(le, a[1..], b[1..], c[1..]);
    }
  }

  predicate CharLe(a: char, b: char) {
    a <= b
  }

  /** Text in code-point order. */
  predicate TextLe(a: string, b: string) {
    Lex(CharLe, a, b)
  }

  lemma TextOrder()
    ensures Total(TextLe) && Antisymmetric(TextLe)
  {
    forall a, b {
      LexTotal(CharLe, a, b);
    }
    forall a, b, c | TextLe(a, b) && TextLe(b, c)
      ensures TextLe(a, c)
    {
      LexTransitive(CharLe, a, b, c);
    }
  }

  predicate KeyLe(a: seq<string>, b: seq<string>) {
    Lex(TextLe, a, b)
  }

  lemma KeyOrder()
    ensures Total(KeyLe) && Antisymmetric(KeyLe)
  {
    TextOrder();
    forall a, b {
      LexTotal(TextLe, a, b);
    }
    forall a, b, c | KeyLe(a, b) && KeyLe(b, c)
      ensures KeyLe(a, c)
    {
      LexTransitive(TextLe, a, b, c);
    }
  }

  // ---------------------------------------------------------------- sorting

  function Insert<T>(le: (T, T) -> bool, x: T, s: seq<T>): seq<T> {
    if s == [] || le(x, s[0]) then [x] + s else [s[0]] + Insert(le, x, s[1..])
  }

  /** The stable sort. */
  function Sort<T>(le: (T, T) -> bool, s: seq<T>): seq<T> {
    if s == [] then [] else Insert(le, s[0], Sort(le, s[1..]))
  }

  ghost predicate Sorted<T>(le: (T, T) -> bool, s: seq<T>) {
    forall i, j :: 0 <= i < j < |s| ==> le(s[i], s[j])
  }

  lemma {:induction false} InsertKeeps<T(!new)>(le: (T, T) -> bool, x: T, s: seq<T>)
    ensures multiset(Insert(le, x, s)) == multiset(s) + multiset{x}
  {
    if s != [] && !le(x, s[0]) {
      assert s == [s[0]] + s[1..];
      InsertKeeps(le, x, s[1..]);
    }
  }

  lemma {:induction false} InsertSorts<T(!new)>(le: (T, T) -> bool, x: T, s: seq<T>)
    requires Total(le) && Sorted(le, s)
    ensures Sorted(le, Insert(le, x, s))
  {
    if s != [] && !le(x, s[0]) {
      InsertSorts(le, x, s[1..]);
      InsertKeeps(le, x, s[1..]);
      var r := Insert(le, x, s[1..]);
      forall j | 0 <= j < |r|
        ensures le(s[0], r[j])
      {
        assert r[j] in multiset(r);
        assert r[j] in multiset(s[1..]) || r[j] == x;
        assert r[j] in s[1..] || r[j] == x;
      }
    }
  }

  lemma {:induction false} SortSorts<T(!new)>(le: (T, T) -> bool, s: seq<T>)
    ensures multiset(Sort(le, s)) == multiset(s)
    ensures |Sort(le, s)| == |s|
    ensures Total(le) ==> Sorted(le, Sort(le, s))
  {
    if s != [] {
      assert s == [s[0]] + s[1..];
      SortSorts(le, s[1..]);
      InsertKeeps(le, s[0], Sort(le, s[1..]));
      if Total(le) {
        InsertSorts(le, s[0], Sort(le, s[1..]));
      }
    }
    assert |multiset(Sort(le, s))| == |multiset(s)|;
  }

  lemma SortMembers<T(!new)>(le: (T, T) -> bool, s: seq<T>)
    ensures forall x :: x in Sort(le, s) <==> x in s
  {
    SortSorts(le, s);
    forall x
      ensures x in Sort(le, s) <==> x in s
    {
      assert x in multiset(Sort(le, s)) <==> x in multiset(s);
    }
  }

  /** Sorted sequences over the same elements are equal when the order tells the elements apart. */
  lemma {:induction false} SortedUnique<T(!new)>(le: (T, T) -> bool, a: seq<T>, b: seq<T>)
    requires Total(le) && Sorted(le, a) && Sorted(le, b) && multiset(a) == multiset(b)
    requires forall x, y :: x in a && y in a && le(x, y) && le(y, x) ==> x == y
    ensures a == b
  {
    assert |a| == |multiset(a)| == |multiset(b)| == |b|;
    if a != [] {
      assert a[0] in multiset(b) && b[0] in multiset(a);
      FirstIsLeast(le, a, b[0]);
      FirstIsLeast(le, b, a[0]);
      assert a == [a[0]] + a[1..] && b == [b[0]] + b[1..];
      assert multiset(a[1..]) == multiset(a) - multiset{a[0]};
      assert multiset(b[1..]) == multiset(b) - multiset{b[0]};
      SortedUnique(le, a[1..], b[1..]);
    }
  }

  lemma FirstIsLeast<T(!new)>(le: (T, T) -> bool, s: seq<T>, x: T)
    requires Total(le) && Sorted(le, s) && x in s
    ensures le(s[0], x)
  {
    assert le(x, x);
  }

  /** Sorting forgets the order it was given. */
  lemma SortForgetsOrder<T(!new)>(le: (T, T) -> bool, a: seq<T>, b: seq<T>)
    requires Total(le) && multiset(a) == multiset(b)
    requires forall x, y :: x in a && y in a && le(x, y) && le(y, x) ==> x == y
    ensures Sort(le, a) == Sort(le, b)
  {
    SortSorts(le, a);
    SortSorts(le, b);
    SortMembers(le, a);
    SortedUnique(le, Sort(le, a), Sort(le, b));
  }

  // ---------------------------------------------------------------- small sequence functions

  function Filter<T>(p: T -> bool, s: seq<T>): seq<T> {
    if s == [] then [] else (if p(s[0]) then [s[0]] else []) + Filter(p, s[1..])
  }

  lemma {:induction false} FilterMember<T>(p: T -> bool, s: seq<T>, x: T)
    ensures x in Filter(p, s) <==> x in s && p(x)
  {
    if s != [] {
      assert s == [s[0]] + s[1..];
      FilterMember(p, s[1..], x);
    }
  }

  lemma {:induction false} FilterAgrees<T>(p: T -> bool, q: T -> bool, s: seq<T>)
    requires forall i :: 0 <= i < |s| ==> (p(s[i]) <==> q(s[i]))
    ensures Filter(p, s) == Filter(q, s)
  {
    if s != [] {
      FilterAgrees(p, q, s[1..]);
    }
  }

  /** First occurrences only. */
  function Dedupe<T(==)>(s: seq<T>): seq<T> {
    if s == [] then []
    else
      var rest, last := Dedupe(s[..|s| - 1]), s[|s| - 1];
      if last in rest then rest else rest + [last]
  }

  ghost predicate NoRepeats<T>(s: seq<T>) {
    forall i, j :: 0 <= i < j < |s| ==> s[i] != s[j]
  }

  lemma {:induction false} DedupeKeeps<T(!new)>(s: seq<T>)
    ensures NoRepeats(Dedupe(s))
    ensures forall x :: x in Dedupe(s) <==> x in s
  {
    if s != [] {
      DedupeKeeps(s[..|s| - 1]);
      assert s == s[..|s| - 1] + [s[|s| - 1]];
    }
  }

  lemma {:induction false} NoRepeatsCount<T>(s: seq<T>, x: T)
    requires NoRepeats(s)
    ensures multiset(s)[x] <= 1
  {
    if s != [] {
      assert s == [s[0]] + s[1..];
      assert s[0] !in s[1..];
      NoRepeatsCount(s[1..], x);
    }
  }

  lemma SameMultisetNoRepeats<T>(s: seq<T>, r: seq<T>)
    requires NoRepeats(s) && multiset(r) == multiset(s)
    ensures NoRepeats(r)
  {
    forall i, j | 0 <= i < j < |r|
      ensures r[i] != r[j]
    {
      if r[i] == r[j] {
        var x := r[i];
        assert r == r[..j] + r[j..];
        assert r[..j][i] == x && r[j..][0] == x;
        assert multiset(r)[x] == multiset(r[..j])[x] + multiset(r[j..])[x];
        NoRepeatsCount(s, x);
      }
    }
  }

  function Map<T, U>(f: T -> U, s: seq<T>): (r: seq<U>)
    ensures |r| == |s| && forall i :: 0 <= i < |s| ==> r[i] == f(s[i])
  {
    seq(|s|, i requires 0 <= i < |s| => f(s[i]))
  }

  function Concat<T>(ss: seq<seq<T>>): seq<T> {
    if ss == [] then [] else ss[0] + Concat(ss[1..])
  }

  /** The length of the first run of equal keys. */
  function RunLength<T, K(==)>(key: T -> K, s: seq<T>): (n: nat)
    requires s != []
    ensures 1 <= n <= |s|
    ensures forall i :: 0 <= i < n ==> key(s[i]) == key(s[0])
    ensures n < |s| ==> key(s[n]) != key(s[0])
  {
    if |s| == 1 || key(s[1]) != key(s[0]) then 1
    else
      var n := RunLength(key, s[1..]);
      assert forall i :: 0 < i < 1 + n ==> s[i] == s[1..][i - 1];
      1 + n
  }

  /** Consecutive runs of equal keys, as `itertools.groupby` yields them. */
  function GroupBy<T, K(==)>(key: T -> K, s: seq<T>): seq<seq<T>> {
    if s == [] then []
    else
      var n := RunLength(key, s);
      [s[..n]] + GroupBy(key, s[n..])
  }

  /** The key of a group. */
  function KeyOf<T, K>(key: T -> K, g: seq<T>): K
    requires g != []
  {
    key(g[0])
  }

  /** Groups of one key each, keys ascending, nothing lost. */
  ghost predicate Grouped<T(!new), K(!new)>(key: T -> K, le: (K, K) -> bool, s: seq<T>, gs: seq<seq<T>>) {
    Pure(key, s, gs) && Ascending(key, le, gs) && Complete(s, gs)
  }

  ghost predicate Pure<T(!new), K>(key: T -> K, s: seq<T>, gs: seq<seq<T>>) {
    forall i :: 0 <= i < |gs| ==> gs[i] != [] && forall x :: x in gs[i] ==> x in s && key(x) == KeyOf(key, gs[i])
  }

  ghost predicate Ascending<T, K>(key: T -> K, le: (K, K) -> bool, gs: seq<seq<T>>) {
    && (forall i :: 0 <= i < |gs| ==> gs[i] != [])
    && forall i, j :: 0 <= i < j < |gs| ==> Before(le, KeyOf(key, gs[i]), KeyOf(key, gs[j]))
  }

  ghost predicate Before<K>(le: (K, K) -> bool, a: K, b: K) {
    le(a, b) && a != b
  }

  ghost predicate Complete<T(!new)>(s: seq<T>, gs: seq<seq<T>>) {
    forall x :: x in s ==> Collected(x, gs)
  }

  ghost predicate Collected<T>(x: T, gs: seq<seq<T>>) {
    exists i :: 0 <= i < |gs| && x in gs[i]
  }

  ghost predicate SortedByKey<T, K>(key: T -> K, le: (K, K) -> bool, s: seq<T>) {
    forall i, j :: 0 <= i < j < |s| ==> le(key(s[i]), key(s[j]))
  }

  /** On a sequence sorted by the key, `groupby` collects each key exactly once, in order. */
  lemma {:induction false} GroupByGroups<T(!new), K(!new)>(key: T -> K, le: (K, K) -> bool, s: seq<T>)
    requires Total(le) && Antisymmetric(le) && SortedByKey(key, le, s)
    ensures Grouped(key, le, s, GroupBy(key, s))
  {
    if s != [] {
      var n := RunLength(key, s);
      var first, tail := s[..n], s[n..];
      GroupByGroups(key, le, tail);
      FirstGroupBefore(key, le, s, n);
      ConsGroups(key, le, s, n, GroupBy(key, tail));
    }
  }

  /** Groups of a sorted sequence are sorted. */
  lemma {:induction false} GroupsStaySorted<T, K>(key: T -> K, le: (T, T) -> bool, s: seq<T>)
    requires Sorted(le, s)
    ensures forall i :: 0 <= i < |GroupBy(key, s)| ==> Sorted(le, GroupBy(key, s)[i])
  {
    if s != [] {
      GroupsStaySorted(key, le, s[RunLength(key, s)..]);
    }
  }

  /** Comparing longer keys of equal length compares their fronts. */
  lemma {:induction false} LexFront<T>(le: (T, T) -> bool, a: seq<T>, b: seq<T>, x: seq<T>, y: seq<T>)
    requires |a| == |b| && Lex(le, a + x, b + y)
    ensures Lex(le, a, b)
  {
    if a != [] {
      assert (a + x)[1..] == a[1..] + x && (b + y)[1..] == b[1..] + y;
      if a[0] == b[0] {
        LexFront(le, a[1..], b[1..], x, y);
      }
    }
  }

  /** No key has two groups. */
  lemma OneGroupPerKey<T, K>(key: T -> K, le: (K, K) -> bool, gs: seq<seq<T>>, i: nat, j: nat)
    requires Ascending(key, le, gs) && i < |gs| && j < |gs| && KeyOf(key, gs[i]) == KeyOf(key, gs[j])
    ensures i == j
  {
  }

  lemma FirstGroupBefore<T(!new), K(!new)>(key: T -> K, le: (K, K) -> bool, s: seq<T>, n: nat)
    requires Total(le) && Antisymmetric(le) && SortedByKey(key, le, s) && s != [] && n == RunLength(key, s)
    ensures forall x :: x in s[n..] ==> Before(le, key(s[0]), key(x))
  {
    forall x | x in s[n..]
      ensures Before(le, key(s[0]), key(x))
    {
      var i :| 0 <= i < |s[n..]| && s[n..][i] == x;
      assert le(key(s[0]), key(s[n])) && (0 < i ==> le(key(s[n]), key(s[n + i])));
    }
  }

  lemma ConsGroups<T(!new), K(!new)>(key: T -> K, le: (K, K) -> bool, s: seq<T>, n: nat, rest: seq<seq<T>>)
    requires s != [] && n == RunLength(key, s) && Grouped(key, le, s[n..], rest)
    requires forall x :: x in s[n..] ==> Before(le, key(s[0]), key(x))
    ensures Grouped(key, le, s, [s[..n]] + rest)
  {
    hide Pure, Ascending, Complete, RunLength;
    var first, tail := s[..n], s[n..];
    assert s == first + tail && first[0] == s[0];
    assert forall i :: 0 <= i < n ==> key(first[i]) == key(first[0]);
    ConsPure(key, s, first, tail, rest);
    ConsAscending(key, le, first, tail, rest);
    ConsComplete(s, first, tail, rest);
  }

  lemma ConsPure<T(!new), K>(key: T -> K, s: seq<T>, first: seq<T>, tail: seq<T>, rest: seq<seq<T>>)
    requires s == first + tail && first != [] && Pure(key, tail, rest)
    requires forall i :: 0 <= i < |first| ==> key(first[i]) == key(first[0])
    ensures Pure(key, s, [first] + rest)
  {
    var gs := [first] + rest;
    forall i | 0 <= i < |gs|
      ensures gs[i] != [] && forall x :: x in gs[i] ==> x in s && key(x) == KeyOf(key, gs[i])
    {
      if i > 0 {
        assert gs[i] == rest[i - 1];
      }
    }
  }

  lemma ConsAscending<T(!new), K(!new)>(key: T -> K, le: (K, K) -> bool, first: seq<T>, tail: seq<T>, rest: seq<seq<T>>)
    requires first != [] && Pure(key, tail, rest) && Ascending(key, le, rest)
    requires forall x :: x in tail ==> Before(le, key(first[0]), key(x))
    ensures Ascending(key, le, [first] + rest)
  {
    var gs := [first] + rest;
    assert forall j :: 0 <= j < |rest| ==> rest[j][0] in rest[j];
    forall i, j | 0 <= i < j < |gs|
      ensures Before(le, KeyOf(key, gs[i]), KeyOf(key, gs[j]))
    {
      assert gs[j] == rest[j - 1] && (i > 0 ==> gs[i] == rest[i - 1]);
    }
  }

  lemma ConsComplete<T(!new)>(s: seq<T>, first: seq<T>, tail: seq<T>, rest: seq<seq<T>>)
    requires s == first + tail && Complete(tail, rest)
    ensures Complete(s, [first] + rest)
  {
    var gs := [first] + rest;
    forall x | x in s
      ensures Collected(x, gs)
    {
      if x in first {
        assert x in gs[0];
      } else {
        assert Collected(x, rest);
        var i :| 0 <= i < |rest| && x in rest[i];
        assert x in gs[i + 1];
      }
    }
  }

  // ---------------------------------------------------------------- how often an element occurs

  lemma {:induction false} FilterCount<T>(p: T -> bool, s: seq<T>, x: T)
    ensures multiset(Filter(p, s))[x] == if p(x) then multiset(s)[x] else 0
  {
    if s != [] {
      FilterCount(p, s[1..], x);
      assert s == [s[0]] + s[1..];
    }
  }

  /** On a sequence sorted by the key a group holds each element of its key as often as the sequence does. */
  lemma {:induction false} GroupCount<T(!new), K(!new)>(
    key: T -> K, le: (K, K) -> bool, s: seq<T>, i: nat, x: T)
    requires Total(le) && Antisymmetric(le) && SortedByKey(key, le, s) && i < |GroupBy(key, s)|
    ensures GroupBy(key, s)[i] != []
    ensures multiset(GroupBy(key, s)[i])[x] == if key(x) == KeyOf(key, GroupBy(key, s)[i]) then multiset(s)[x] else 0
  {
    var n := RunLength(key, s);
    var first, tail := s[..n], s[n..];
    assert s == first + tail;
    GroupByGroups(key, le, tail);
    FirstGroupBefore(key, le, s, n);
    if i > 0 {
      GroupCount(key, le, tail, i - 1, x);
      var g := GroupBy(key, tail)[i - 1];
      assert g[0] in g && g[0] in tail;
      assert x in first ==> key(x) == key(s[0]);
    } else {
      assert x in tail ==> key(x) != key(s[0]);
      assert x in first ==> key(x) == key(s[0]);
    }
  }
}
