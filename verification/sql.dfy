/**
 * The relational operations the application's queries are built from:
 * `.first()` (an optional row), `UNION` (set union of two row lists) and
 * `ORDER BY <column> DESC`.
 */
module Sql {

  /** The result of `.first()` or `.get()`: a row, or nothing. */
  datatype Option<T> = None | Some(value: T)

  /** `.filter(cond)`: the rows satisfying `cond`, in table order. */
  function Where<T(!new)>(rows: seq<T>, cond: T -> bool): (r: seq<T>)
    ensures forall x :: x in r <==> x in rows && cond(x)
    ensures forall x :: multiset(r)[x] == if cond(x) then multiset(rows)[x] else 0
  {
    if rows == [] then []
    else
      assert rows == [rows[0]] + rows[1..];
      (if cond(rows[0]) then [rows[0]] else []) + Where(rows[1..], cond)
  }

  /** `.filter(cond).first()`: the first row satisfying `cond`, if any. */
  function First<T(!new)>(rows: seq<T>, cond: T -> bool): (r: Option<T>)
    ensures r.Some? ==> r.value in rows && cond(r.value)
    ensures r.None? <==> forall x :: x in rows ==> !cond(x)
  {
    if rows == [] then None
    else if cond(rows[0]) then Some(rows[0])
    else
      assert rows == [rows[0]] + rows[1..];
      First(rows[1..], cond)
  }

  /** No row occurs twice. */
  ghost predicate Distinct<T>(s: seq<T>) {
    forall i, j :: 0 <= i < j < |s| ==> s[i] != s[j]
  }

  /** Rows ordered by `key`, largest first (`ORDER BY key DESC`). */
  ghost predicate SortedDesc<T>(s: seq<T>, key: T -> int) {
    forall i, j :: 0 <= i < j < |s| ==> key(s[i]) >= key(s[j])
  }

  /** Keeps the first occurrence of every row, in order of appearance. */
  function Dedup<T(==,!new)>(s: seq<T>): (r: seq<T>)
    ensures forall x :: x in r <==> x in s
    ensures Distinct(r)
    ensures |r| <= |s|
  {
    if |s| == 0 then []
    else
      var d := Dedup(s[..|s| - 1]);
      var last := s[|s| - 1];
      assert s == s[..|s| - 1] + [last];
      if last in d then d else d + [last]
  }

  /** `a UNION b`: every row of either operand, each distinct row once. */
  function Union<T(==,!new)>(a: seq<T>, b: seq<T>): (r: seq<T>)
    ensures forall x :: x in r <==> x in a || x in b
    ensures Distinct(r)
  {
    Dedup(a + b)
  }

  /** Inserts `x` into a list already ordered by `key` descending. */
  function InsertDesc<T(==,!new)>(x: T, s: seq<T>, key: T -> int): (r: seq<T>)
    requires SortedDesc(s, key)
    ensures forall y :: y in r <==> y == x || y in s
    ensures SortedDesc(r, key)
    ensures multiset(r) == multiset(s) + multiset{x}
    ensures Distinct(s) && x !in s ==> Distinct(r)
  {
    if s == [] || key(x) >= key(s[0]) then
      InsertedBelowHead(x, s, key);
      [x] + s
    else
      SortedTail(s, key);
      var t := InsertDesc(x, s[1..], key);
      HeadAboveInsertion(x, s, t, key);
      [s[0]] + t
  }

  /** The tail of an ordered list is ordered, and bounded by its head. */
  lemma SortedTail<T>(s: seq<T>, key: T -> int)
    requires SortedDesc(s, key) && s != []
    ensures SortedDesc(s[1..], key)
    ensures forall y :: y in s[1..] ==> key(s[0]) >= key(y)
  {
    forall y | y in s[1..] ensures key(s[0]) >= key(y) {
      var k :| 0 <= k < |s[1..]| && s[1..][k] == y;
      assert s[k + 1] == y;
    }
  }

  /**
   * Putting back the head of `s` in front of `t`, the insertion of `x` into
   * the tail of `s`, gives the insertion of `x` into `s`.
   */
  lemma HeadAboveInsertion<T>(x: T, s: seq<T>, t: seq<T>, key: T -> int)
    requires s != [] && key(x) < key(s[0])
    requires forall y :: y in s[1..] ==> key(s[0]) >= key(y)
    requires SortedDesc(t, key)
    requires forall y :: y in t <==> y == x || y in s[1..]
    requires multiset(t) == multiset(s[1..]) + multiset{x}
    requires Distinct(s[1..]) && x !in s[1..] ==> Distinct(t)
    ensures forall y :: y in [s[0]] + t <==> y == x || y in s
    ensures SortedDesc([s[0]] + t, key)
    ensures multiset([s[0]] + t) == multiset(s) + multiset{x}
    ensures Distinct(s) && x !in s ==> Distinct([s[0]] + t)
  {
    assert s == [s[0]] + s[1..];
    InsertedBelowHead(s[0], t, key);
    if Distinct(s) && x !in s {
      DistinctTail(s);
      HeadNotInTail(s);
      DistinctCons(s[0], t);
    }
  }

  /** The tail of a distinct list is distinct. */
  lemma DistinctTail<T>(s: seq<T>)
    requires Distinct(s) && s != []
    ensures Distinct(s[1..])
  {
    forall i, j | 0 <= i < j < |s[1..]| ensures s[1..][i] != s[1..][j] {
      assert s[1..][i] == s[i + 1] && s[1..][j] == s[j + 1];
    }
  }

  /** The head of a distinct list does not occur in its tail. */
  lemma HeadNotInTail<T>(s: seq<T>)
    requires Distinct(s) && s != []
    ensures s[0] !in s[1..]
  {
    forall k | 0 <= k < |s[1..]| ensures s[1..][k] != s[0] {
      assert s[1..][k] == s[k + 1];
    }
  }

  /** Prepending a row absent from a distinct list keeps it distinct. */
  lemma DistinctCons<T>(h: T, t: seq<T>)
    requires Distinct(t) && h !in t
    ensures Distinct([h] + t)
  {
    forall i, j | 0 <= i < j < |[h] + t|
      ensures ([h] + t)[i] != ([h] + t)[j]
    {
      if i == 0 {
        assert ([h] + t)[j] == t[j - 1];
      }
    }
  }

  /** A head whose key bounds every row of an ordered tail keeps the list ordered. */
  lemma InsertedBelowHead<T>(h: T, t: seq<T>, key: T -> int)
    requires SortedDesc(t, key)
    requires forall y :: y in t ==> key(h) >= key(y)
    ensures SortedDesc([h] + t, key)
  {
    forall i, j | 0 <= i < j < |[h] + t|
      ensures key(([h] + t)[i]) >= key(([h] + t)[j])
    {
      if i == 0 {
        assert ([h] + t)[j] == t[j - 1];
        assert t[j - 1] in t;
      }
    }
  }

  /**
   * `ORDER BY key DESC`: a permutation of the rows, largest key first.
   * SQL leaves the order of rows with equal keys open; this insertion sort
   * fixes one.
   */
  function OrderByDesc<T(==,!new)>(s: seq<T>, key: T -> int): (r: seq<T>)
    ensures SortedDesc(r, key)
    ensures multiset(r) == multiset(s)
    ensures forall x :: x in r <==> x in s
    ensures Distinct(s) ==> Distinct(r)
  {
    if s == [] then []
    else
      var t := OrderByDesc(s[1..], key);
      assert s == [s[0]] + s[1..];
      assert s[0] in t <==> s[0] in s[1..] by {
        assert s[0] in t <==> s[0] in multiset(t);
      }
      InsertDesc(s[0], t, key)
  }

  /** The rows of a list as a set. */
  ghost function Rows<T>(s: seq<T>): set<T> {
    set x | x in s
  }

  /** A distinct list has as many rows as its set of rows. */
  lemma {:induction false} DistinctCard<T>(s: seq<T>)
    requires Distinct(s)
    ensures |Rows(s)| == |s|
  {
    if s != [] {
      var t := s[1..];
      assert s == [s[0]] + t;
      DistinctTail(s);
      DistinctCard(t);
      HeadNotInTail(s);
      assert Rows(s) == Rows(t) + {s[0]};
    }
  }

  /** A distinct list whose every row is `x`, and that holds `x`, is `[x]`. */
  lemma OnlyRow<T>(s: seq<T>, x: T)
    requires Distinct(s) && x in s
    requires forall y :: y in s ==> y == x
    ensures s == [x]
  {
    DistinctCard(s);
    assert Rows(s) == {x};
  }

  /**
   * A distinct list ordered by `key` descending, holding exactly `x` and `y`
   * where `x` has the larger key, is `[x, y]`.
   */
  lemma TwoRowsByKey<T>(s: seq<T>, x: T, y: T, key: T -> int)
    requires Distinct(s) && SortedDesc(s, key)
    requires x in s && y in s && key(x) > key(y)
    requires forall z :: z in s ==> z == x || z == y
    ensures s == [x, y]
  {
    DistinctCard(s);
    assert Rows(s) == {x, y};
    assert s[0] in s && s[1] in s;
  }
}
