/** Row sequences and the three things SQL does with them here: where, order by, limit.
    Sorting is a stable insertion sort over a total preorder, so it also serves as
    the model of `Array.prototype.sort`. */
module Queries {
  datatype Option<+T> = None | Some(value: T) {
    function UnwrapOr(default: T): T {
      if Some? then value else default
    }
  }
  datatype Result<+T, +E> = Success(value: T) | Failure(error: E)

  ghost predicate Preorder<T(!new)>(le: (T, T) -> bool) {
    && (forall a, b :: le(a, b) || le(b, a))
    && (forall a, b, c :: le(a, b) && le(b, c) ==> le(a, c))
  }

  ghost predicate Sorted<T>(s: seq<T>, le: (T, T) -> bool) {
    forall i, j | 0 <= i < j < |s| :: le(s[i], s[j])
  }

  /** Each element is strictly below every later one. */
  ghost predicate Ascending<T>(s: seq<T>, le: (T, T) -> bool) {
    forall i, j | 0 <= i < j < |s| :: le(s[i], s[j]) && !le(s[j], s[i])
  }

  function Where<T>(s: seq<T>, p: T -> bool): seq<T> {
    if s == [] then [] else (if p(s[0]) then [s[0]] else []) + Where(s[1..], p)
  }

  function Insert<T>(x: T, s: seq<T>, le: (T, T) -> bool): seq<T> {
    if s == [] || le(x, s[0]) then [x] + s else [s[0]] + Insert(x, s[1..], le)
  }

  function OrderBy<T>(s: seq<T>, le: (T, T) -> bool): seq<T> {
    if s == [] then [] else Insert(s[0], OrderBy(s[1..], le), le)
  }

  function Limit<T>(s: seq<T>, n: nat): seq<T> {
    if |s| <= n then s else s[..n]
  }

  /** `slice(-n)` for n > 0, and the empty sequence for n = 0. */
  function LastN<T>(s: seq<T>, n: nat): seq<T> {
    if |s| <= n then s else s[|s| - n..]
  }

  function Reverse<T>(s: seq<T>): seq<T> {
    if s == [] then [] else Reverse(s[1..]) + [s[0]]
  }

  // ----- where -----

  lemma Position<T(!new)>(x: T, s: seq<T>)
    requires x in s
    ensures exists k :: 0 <= k < |s| && s[k] == x
  {
  }

  lemma WhereCons<T>(x: T, s: seq<T>, p: T -> bool)
    ensures Where([x] + s, p) == (if p(x) then [x] else []) + Where(s, p)
  {
    assert ([x] + s)[1..] == s;
  }

  lemma {:induction false} WhereConcat<T>(a: seq<T>, b: seq<T>, p: T -> bool)
    ensures Where(a + b, p) == Where(a, p) + Where(b, p)
  {
    if a == [] {
      assert a + b == b;
    } else {
      WhereConcat(a[1..], b, p);
      WhereCons(a[0], a[1..] + b, p);
      WhereCons(a[0], a[1..], p);
      hide Where;
      assert a + b == [a[0]] + (a[1..] + b) && a == [a[0]] + a[1..];
    }
  }

  lemma {:induction false} WhereMembers<T(!new)>(s: seq<T>, p: T -> bool)
    ensures forall x :: x in Where(s, p) <==> x in s && p(x)
  {
    if s != [] {
      WhereMembers(s[1..], p);
    }
  }

  lemma {:induction false} WhereAll<T(!new)>(s: seq<T>, p: T -> bool)
    requires forall x | x in s :: p(x)
    ensures Where(s, p) == s
  {
    if s != [] {
      WhereAll(s[1..], p);
    }
  }

  lemma {:induction false} WhereNone<T(!new)>(s: seq<T>, p: T -> bool)
    requires forall x | x in s :: !p(x)
    ensures Where(s, p) == []
  {
    if s != [] {
      WhereNone(s[1..], p);
    }
  }

  lemma {:induction false} WhereSame<T(!new)>(s: seq<T>, p: T -> bool, q: T -> bool)
    requires forall x | x in s :: p(x) == q(x)
    ensures Where(s, p) == Where(s, q)
  {
    if s != [] {
      WhereSame(s[1..], p, q);
    }
  }

  lemma {:induction false} WhereCommutes<T>(s: seq<T>, p: T -> bool, q: T -> bool)
    ensures Where(Where(s, p), q) == Where(Where(s, q), p)
  {
    if s != [] {
      WhereCommutes(s[1..], p, q);
      WhereConcat(if p(s[0]) then [s[0]] else [], Where(s[1..], p), q);
      WhereConcat(if q(s[0]) then [s[0]] else [], Where(s[1..], q), p);
    }
  }

  lemma {:induction false} WhereTake<T>(s: seq<T>, n: nat, p: T -> bool)
    requires n <= |s|
    ensures Where(s[..n], p) <= Where(s, p)
  {
    assert s == s[..n] + s[n..];
    WhereConcat(s[..n], s[n..], p);
  }

  // ----- order by -----

  lemma {:induction false} InsertSorted<T(!new)>(x: T, s: seq<T>, le: (T, T) -> bool)
    requires Preorder(le) && Sorted(s, le)
    ensures Sorted(Insert(x, s, le), le)
    ensures multiset(Insert(x, s, le)) == multiset(s) + multiset{x}
  {
    if s == [] {
    } else if le(x, s[0]) {
      forall j | 0 <= j < |s| ensures le(x, s[j]) {
      }
    } else {
      InsertSorted(x, s[1..], le);
      assert s == [s[0]] + s[1..];
      var rest := Insert(x, s[1..], le);
      assert multiset(s) == multiset{s[0]} + multiset(s[1..]);
      forall j | 0 <= j < |rest| ensures le(s[0], rest[j]) {
        assert rest[j] in multiset(rest);
        assert rest[j] == x || rest[j] in s[1..];
      }
    }
  }

  lemma {:induction false} OrderBySorts<T(!new)>(s: seq<T>, le: (T, T) -> bool)
    requires Preorder(le)
    ensures Sorted(OrderBy(s, le), le)
    ensures multiset(OrderBy(s, le)) == multiset(s)
    ensures |OrderBy(s, le)| == |s|
  {
    if s != [] {
      OrderBySorts(s[1..], le);
      InsertSorted(s[0], OrderBy(s[1..], le), le);
      assert s == [s[0]] + s[1..];
    }
    assert |multiset(OrderBy(s, le))| == |multiset(s)|;
  }

  lemma OrderByMembers<T(!new)>(s: seq<T>, le: (T, T) -> bool)
    requires Preorder(le)
    ensures forall x :: x in OrderBy(s, le) <==> x in s
  {
    OrderBySorts(s, le);
    forall x ensures x in OrderBy(s, le) <==> x in s {
      assert x in OrderBy(s, le) <==> x in multiset(OrderBy(s, le));
    }
  }

  /** Sorting what is already strictly ascending changes nothing. */
  lemma {:induction false} OrderByAscending<T>(s: seq<T>, le: (T, T) -> bool)
    requires Ascending(s, le)
    ensures OrderBy(s, le) == s
  {
    if s != [] {
      OrderByAscending(s[1..], le);
      if |s| > 1 {
        assert le(s[0], s[1]);
      }
    }
  }

  /** Sorting what is strictly descending reverses it. */
  lemma {:induction false} OrderByDescending<T(!new)>(s: seq<T>, le: (T, T) -> bool)
    requires forall i, j | 0 <= i < j < |s| :: !le(s[i], s[j])
    ensures OrderBy(s, le) == Reverse(s)
  {
    if s != [] {
      OrderByDescending(s[1..], le);
      ReverseMembers(s[1..]);
      forall y | y in Reverse(s[1..]) ensures !le(s[0], y) {
        Position(y, s[1..]);
      }
      InsertLast(s[0], Reverse(s[1..]), le);
    }
  }

  lemma {:induction false} InsertLast<T(!new)>(x: T, s: seq<T>, le: (T, T) -> bool)
    requires forall y | y in s :: !le(x, y)
    ensures Insert(x, s, le) == s + [x]
  {
    if s != [] {
      InsertLast(x, s[1..], le);
    }
  }

  lemma {:induction false} ReverseMembers<T(!new)>(s: seq<T>)
    ensures forall x :: x in Reverse(s) <==> x in s
    ensures |Reverse(s)| == |s|
  {
    if s != [] {
      ReverseMembers(s[1..]);
      assert s == [s[0]] + s[1..];
    }
  }

  lemma {:induction false} InsertWhere<T(!new)>(x: T, s: seq<T>, le: (T, T) -> bool, p: T -> bool)
    requires Preorder(le) && Sorted(s, le)
    ensures Where(Insert(x, s, le), p) == if p(x) then Insert(x, Where(s, p), le) else Where(s, p)
  {
    if s == [] {
    } else if le(x, s[0]) {
      WhereCons(x, s, p);
      if p(x) {
        WhereMembers(s, p);
        var kept := Where(s, p);
        if kept != [] {
          assert kept[0] in s;
          assert le(x, kept[0]);
        }
        assert Insert(x, kept, le) == [x] + kept;
      }
    } else {
      InsertWhere(x, s[1..], le, p);
      WhereCons(s[0], Insert(x, s[1..], le), p);
      var kept := Where(s[1..], p);
      WhereMembers(s[1..], p);
      if p(s[0]) {
        assert Where(s, p) == [s[0]] + kept && Where(s, p)[1..] == kept;
      } else {
        assert Where(s, p) == kept;
      }
    }
  }

  /** Filtering commutes with a stable sort. */
  lemma {:induction false} OrderByWhere<T(!new)>(s: seq<T>, le: (T, T) -> bool, p: T -> bool)
    requires Preorder(le)
    ensures Where(OrderBy(s, le), p) == OrderBy(Where(s, p), le)
  {
    if s != [] {
      OrderByWhere(s[1..], le, p);
      OrderBySorts(s[1..], le);
      InsertWhere(s[0], OrderBy(s[1..], le), le, p);
      var kept := Where(s[1..], p);
      if p(s[0]) {
        assert Where(s, p) == [s[0]] + kept && Where(s, p)[1..] == kept;
      } else {
        assert Where(s, p) == kept;
      }
    }
  }

  lemma SameFirst<T(!new)>(a: seq<T>, b: seq<T>, le: (T, T) -> bool)
    requires Sorted(a, le) && Ascending(b, le) && multiset(a) == multiset(b) && a != [] && b != []
    ensures a[0] == b[0]
  {
    assert a[0] in multiset(a) && b[0] in multiset(b);
    assert a[0] in b && b[0] in a;
    var i :| 0 <= i < |b| && b[i] == a[0];
    var j :| 0 <= j < |a| && a[j] == b[0];
    assert j > 0 ==> le(a[0], a[j]);
    assert i > 0 ==> !le(b[i], b[0]);
  }

  /** A strictly ascending sequence is the only sorted arrangement of its elements. */
  lemma {:induction false} SortedIsUnique<T(!new)>(a: seq<T>, b: seq<T>, le: (T, T) -> bool)
    requires Sorted(a, le) && Ascending(b, le) && multiset(a) == multiset(b)
    ensures a == b
  {
    assert |a| == |multiset(a)| == |multiset(b)| == |b|;
    if a != [] {
      SameFirst(a, b, le);
      TailMultiset(a);
      TailMultiset(b);
      SortedIsUnique(a[1..], b[1..], le);
    }
  }

  lemma TailMultiset<T>(s: seq<T>)
    requires s != []
    ensures multiset(s[1..]) == multiset(s) - multiset{s[0]}
  {
    assert s == [s[0]] + s[1..];
  }

  lemma AscendingCons<T(!new)>(x: T, s: seq<T>, le: (T, T) -> bool)
    requires Ascending(s, le) && forall y | y in s :: le(x, y) && !le(y, x)
    ensures Ascending([x] + s, le)
  {
    var all := [x] + s;
    forall i, j | 0 <= i < j < |all| ensures le(all[i], all[j]) && !le(all[j], all[i]) {
      assert all[j] == s[j - 1] && s[j - 1] in s;
      if i > 0 {
        assert all[i] == s[i - 1];
      }
    }
  }

  lemma AscendingParts<T(!new)>(a: seq<T>, b: seq<T>, le: (T, T) -> bool)
    requires Ascending(a + b, le)
    ensures Ascending(a, le) && Ascending(b, le)
    ensures forall x, y | x in a && y in b :: le(x, y) && !le(y, x)
  {
    var all := a + b;
    assert forall i | 0 <= i < |a| :: all[i] == a[i];
    assert forall j | 0 <= j < |b| :: all[|a| + j] == b[j];
  }

  lemma NotAbove<T(!new)>(s: seq<T>, n: nat, le: (T, T) -> bool, x: T)
    requires Ascending(s, le) && 0 < n <= |s| && le(s[n - 1], s[n - 1]) && x in s[..n]
    ensures x in s && le(x, s[n - 1])
  {
    var i :| 0 <= i < n && s[..n][i] == x;
    assert x == s[i];
  }

  lemma Above<T(!new)>(s: seq<T>, n: nat, le: (T, T) -> bool, x: T)
    requires Ascending(s, le) && 0 < n <= |s| && x in s[n..]
    ensures x in s && !le(x, s[n - 1])
  {
    var i :| 0 <= i < |s| - n && s[n..][i] == x;
    assert x == s[n + i];
  }

  /** In a strictly ascending sequence, what is above an element is what follows it. */
  lemma AscendingCut<T(!new)>(s: seq<T>, n: nat, le: (T, T) -> bool, p: T -> bool)
    requires Ascending(s, le) && 0 < n <= |s| && le(s[n - 1], s[n - 1])
    requires forall x | x in s :: p(x) == !le(x, s[n - 1])
    ensures Where(s, p) == s[n..]
  {
    hide Ascending;
    hide Where;
    var low, high := s[..n], s[n..];
    assert s == low + high;
    WhereConcat(low, high, p);
    forall x | x in low ensures !p(x) {
      NotAbove(s, n, le, x);
    }
    WhereNone(low, p);
    forall x | x in high ensures p(x) {
      Above(s, n, le, x);
    }
    WhereAll(high, p);
    assert [] + high == high;
  }

  lemma {:induction false} AscendingOnce<T(!new)>(s: seq<T>, x: T, le: (T, T) -> bool)
    requires Ascending(s, le)
    ensures multiset(s)[x] == if x in s then 1 else 0
  {
    if s != [] {
      assert s == [s[0]] + s[1..];
      AscendingParts([s[0]], s[1..], le);
      AscendingOnce(s[1..], x, le);
    }
  }
}
