/**
 * What the SQL of the `query` and `count` operations computes once the
 * WHERE clause has selected the rows: enumeration of a table, filtering,
 * `ORDER BY ... ASC|DESC`, `CHARINDEX` substring tests, and paging with
 * `OFFSET ? ROWS FETCH NEXT 50 ROWS ONLY`.
 */
module Listing {
  /** `DB_PAGINATION_QUERY` in server/config.py. */
  const PAGE_SIZE: nat := 50

  function Min(a: int, b: int): int { if a <= b then a else b }

  /** `OFFSET offset ROWS FETCH NEXT 50 ROWS ONLY`. */
  function Page<T>(rows: seq<T>, offset: nat): (r: seq<T>)
    ensures |r| == if offset >= |rows| then 0 else Min(PAGE_SIZE, |rows| - offset)
    ensures forall i :: 0 <= i < |r| ==> offset + i < |rows| && r[i] == rows[offset + i]
  {
    if offset >= |rows| then [] else rows[offset..Min(|rows|, offset + PAGE_SIZE)]
  }

  /**
   * `CHARINDEX(needle, haystack) > 0`: `needle` occurs as a contiguous
   * substring. SQL Server's `CHARINDEX` of an empty string is 0, so the empty
   * needle matches nothing.
   */
  predicate Contains(haystack: string, needle: string) {
    |needle| > 0 && exists i :: 0 <= i <= |haystack| - |needle| && OccursAt(haystack, needle, i)
  }

  predicate OccursAt(haystack: string, needle: string, i: int) {
    0 <= i && i + |needle| <= |haystack| && haystack[i..i + |needle|] == needle
  }

  lemma {:induction false} ContainsSelf(s: string)
    requires |s| > 0
    ensures Contains(s, s)
  {
    assert OccursAt(s, s, 0);
  }

  /** Rows satisfying `p`, in their original order (a WHERE clause). */
  function Select<T(!new)>(rows: seq<T>, p: T -> bool): (r: seq<T>)
    ensures |r| <= |rows|
    ensures forall x :: x in r <==> x in rows && p(x)
    ensures forall x :: p(x) ==> multiset(r)[x] == multiset(rows)[x]
    ensures forall x :: !p(x) ==> multiset(r)[x] == 0
  {
    if rows == [] then []
    else
      assert rows == [rows[0]] + rows[1..];
      var rest := Select(rows[1..], p);
      if p(rows[0]) then [rows[0]] + rest else rest
  }

  /* ---------- ordering ---------- */

  /** A column value as `ORDER BY` sees it. NULL sorts first in SQL Server. */
  datatype SortKey = NullKey | IntKey(n: int) | RealKey(x: real) | TextKey(t: string)

  /** Code-point lexicographic order on strings. */
  predicate TextLe(a: string, b: string) {
    |a| == 0 || (|b| > 0 && (a[0] < b[0] || (a[0] == b[0] && TextLe(a[1..], b[1..]))))
  }

  lemma {:induction false} TextLeTotal(a: string, b: string)
    ensures TextLe(a, b) || TextLe(b, a)
    decreases |a|
  {
    if |a| > 0 && |b| > 0 && a[0] == b[0] {
      TextLeTotal(a[1..], b[1..]);
    }
  }

  function Rank(k: SortKey): int {
    match k
    case NullKey => 0
    case IntKey(_) => 1
    case RealKey(_) => 2
    case TextKey(_) => 3
  }

  predicate KeyLe(a: SortKey, b: SortKey) {
    if Rank(a) != Rank(b) then Rank(a) < Rank(b)
    else match (a, b)
      case (IntKey(x), IntKey(y)) => x <= y
      case (RealKey(x), RealKey(y)) => x <= y
      case (TextKey(x), TextKey(y)) => TextLe(x, y)
      case _ => true
  }

  lemma KeyLeTotal(a: SortKey, b: SortKey)
    ensures KeyLe(a, b) || KeyLe(b, a)
  {
    if a.TextKey? && b.TextKey? {
      TextLeTotal(a.t, b.t);
    }
  }

  /** `a` may come before `b` under `ORDER BY key ASC` (or `DESC` when `!ascending`). */
  predicate Before<T>(key: T -> SortKey, ascending: bool, a: T, b: T) {
    if ascending then KeyLe(key(a), key(b)) else KeyLe(key(b), key(a))
  }

  predicate Ordered<T>(rows: seq<T>, key: T -> SortKey, ascending: bool) {
    forall i :: 0 <= i < |rows| - 1 ==> Before(key, ascending, rows[i], rows[i + 1])
  }

  function Insert<T>(x: T, rows: seq<T>, key: T -> SortKey, ascending: bool): (r: seq<T>)
    requires Ordered(rows, key, ascending)
    ensures multiset(r) == multiset(rows) + multiset{x}
    ensures |r| == |rows| + 1
    ensures r[0] == x || (|rows| > 0 && r[0] == rows[0])
    ensures Ordered(r, key, ascending)
  {
    if rows == [] then [x]
    else if Before(key, ascending, x, rows[0]) then [x] + rows
    else
      assert rows == [rows[0]] + rows[1..];
      KeyLeTotal(key(x), key(rows[0]));
      var rest := Insert(x, rows[1..], key, ascending);
      [rows[0]] + rest
  }

  /**
   * `ORDER BY key ASC|DESC`: a permutation of `rows` ordered by `key`
   * (a stable insertion sort; SQL leaves the order of ties unspecified).
   */
  function SortBy<T>(rows: seq<T>, key: T -> SortKey, ascending: bool): (r: seq<T>)
    ensures multiset(r) == multiset(rows)
    ensures |r| == |rows|
    ensures Ordered(r, key, ascending)
  {
    if rows == [] then []
    else
      assert rows == [rows[0]] + rows[1..];
      Insert(rows[0], SortBy(rows[1..], key, ascending), key, ascending)
  }

  /**
   * `SELECT ... WHERE keep ORDER BY key OFFSET offset ROWS FETCH NEXT 50
   * ROWS ONLY`: at most one page of matching rows, in order.
   */
  function Query<T(==,!new)>(rows: seq<T>, keep: T -> bool, key: T -> SortKey, ascending: bool, offset: nat): (r: seq<T>)
    ensures |r| <= PAGE_SIZE
    ensures forall x :: x in r ==> x in rows && keep(x)
    ensures Ordered(r, key, ascending)
  {
    var sorted := SortBy(Select(rows, keep), key, ascending);
    var r := Page(sorted, offset);
    assert forall x :: x in r ==> x in sorted by {
      forall x | x in r ensures x in sorted {
        var i :| 0 <= i < |r| && r[i] == x;
        assert sorted[offset + i] == x;
      }
    }
    assert forall x :: x in sorted ==> x in multiset(sorted);
    forall i | 0 <= i < |r| - 1
      ensures Before(key, ascending, r[i], r[i + 1])
    {
      assert r[i] == sorted[offset + i] && r[i + 1] == sorted[offset + i + 1];
    }
    r
  }

  /** The facts of `Query`, stated position by position. */
  lemma QueryAt<T(!new)>(rows: seq<T>, keep: T -> bool, key: T -> SortKey, ascending: bool, offset: nat)
    ensures var r := Query(rows, keep, key, ascending, offset);
      (forall i :: 0 <= i < |r| ==> r[i] in rows && keep(r[i])) &&
      (forall i :: 0 <= i < |r| - 1 ==> Before(key, ascending, r[i], r[i + 1]))
  {
    var r := Query(rows, keep, key, ascending, offset);
    assert forall i :: 0 <= i < |r| ==> r[i] in r;
  }

  /** Every matching row is listed on the page that starts at its position. */
  lemma {:induction false} QueryComplete<T(!new)>(rows: seq<T>, keep: T -> bool, key: T -> SortKey, ascending: bool, x: T)
    requires x in rows && keep(x)
    ensures exists offset: nat :: x in Query(rows, keep, key, ascending, offset)
  {
    var selected := Select(rows, keep);
    var sorted := SortBy(selected, key, ascending);
    assert x in multiset(selected);
    assert x in multiset(sorted);
    var i :| 0 <= i < |sorted| && sorted[i] == x;
    assert Page(sorted, i)[0] == x;
    assert x in Query(rows, keep, key, ascending, i);
  }

  /** `SELECT COUNT(1) ... WHERE keep`. */
  function Count<T(!new)>(rows: seq<T>, keep: T -> bool): (n: nat)
    ensures n <= |rows|
    ensures n == 0 <==> forall x :: x in rows ==> !keep(x)
  {
    var selected := Select(rows, keep);
    assert selected != [] ==> selected[0] in selected;
    |selected|
  }

  /** Two WHERE conditions that agree on every row select the same rows. */
  lemma {:induction false} SelectCongruent<T(!new)>(rows: seq<T>, p: T -> bool, q: T -> bool)
    requires forall x :: x in rows ==> p(x) == q(x)
    ensures Select(rows, p) == Select(rows, q)
    decreases |rows|
  {
    if rows != [] {
      SelectCongruent(rows[1..], p, q);
    }
  }

  lemma QueryCongruent<T(!new)>(rows: seq<T>, p: T -> bool, q: T -> bool, key: T -> SortKey, ascending: bool, offset: nat)
    requires forall x :: x in rows ==> p(x) == q(x)
    ensures Query(rows, p, key, ascending, offset) == Query(rows, q, key, ascending, offset)
    ensures Count(rows, p) == Count(rows, q)
  {
    SelectCongruent(rows, p, q);
  }

  /* ---------- enumerating a keyed table ---------- */

  /** The least element of a non-empty key set, found by induction on the set's size. */
  lemma {:induction false} Least(s: set<int>) returns (k: int)
    requires s != {}
    ensures k in s && forall j :: j in s ==> k <= j
    decreases |s|
  {
    assert exists y :: y in s by { if forall y :: y !in s { assert false; } }
    var x :| x in s;
    if s == {x} {
      k := x;
    } else {
      var m := Least(s - {x});
      k := if x < m then x else m;
      forall j | j in s
        ensures k <= j
      {
        if j != x { assert j in s - {x}; }
      }
    }
  }

  /** `Least` as an existence fact, the form `MinKey`'s choice needs. */
  lemma HasLeast(s: set<int>)
    requires s != {}
    ensures exists k :: k in s && forall j :: j in s ==> k <= j
  {
    var k := Least(s);
  }

  /** The smallest key of a non-empty key set. */
  function MinKey(s: set<int>): (k: int)
    requires s != {}
    ensures k in s && forall j :: j in s ==> k <= j
  {
    HasLeast(s);
    var k :| k in s && forall j :: j in s ==> k <= j; k
  }

  /** The rows of a table keyed by id, in ascending id order (a table scan). */
  function Rows<V(==,!new)>(table: map<int, V>): (r: seq<V>)
    ensures |r| == |table|
    ensures forall v :: v in r <==> v in table.Values
    decreases |table|
  {
    if table == map[] then []
    else
      var k := MinKey(table.Keys);
      var rest := table - {k};
      assert |rest| == |table| - 1;
      var r := [table[k]] + Rows(rest);
      assert forall v :: v in table.Values <==> v == table[k] || v in rest.Values by {
        forall v | v in table.Values
          ensures v == table[k] || v in rest.Values
        {
          var j :| j in table && table[j] == v;
          if j != k { assert j in rest; }
        }
      }
      r
  }

  /**
   * When only the row under key `k` can satisfy `p`, a scan selects that
   * row alone, or nothing.
   */
  lemma {:induction false} SelectSingleKey<V(!new)>(table: map<int, V>, k: int, p: V -> bool)
    requires forall j :: j in table && p(table[j]) ==> j == k
    ensures Select(Rows(table), p) == if k in table && p(table[k]) then [table[k]] else []
    decreases |table|
  {
    if table != map[] {
      var j := MinKey(table.Keys);
      var rest := table - {j};
      assert Rows(table) == [table[j]] + Rows(rest);
      SelectSingleKey(rest, k, p);
      assert Rows(table)[1..] == Rows(rest);
    }
  }

  /** A query whose selection is a single row lists exactly that row on the first page. */
  lemma QuerySingle<T(!new)>(rows: seq<T>, keep: T -> bool, key: T -> SortKey, ascending: bool, x: T)
    requires Select(rows, keep) == [x]
    ensures Query(rows, keep, key, ascending, 0) == [x]
  {
    assert SortBy([x], key, ascending) == [x];
  }

  lemma QueryNone<T(!new)>(rows: seq<T>, keep: T -> bool, key: T -> SortKey, ascending: bool, offset: nat)
    requires Select(rows, keep) == []
    ensures Query(rows, keep, key, ascending, offset) == []
  {
  }
}
