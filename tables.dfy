/** The result table: rows are held in a sequence, and `drop_duplicates()` (pandas' default,
    keep="first", comparing every column) removes each row that equals an earlier row. */
module Tables {

  /** No two rows of `s` are equal. */
  predicate NoDuplicates<T(==)>(s: seq<T>) {
    forall i, j :: 0 <= i < j < |s| ==> s[i] != s[j]
  }

  /** The position of the first row equal to `x`. */
  function FirstIndex<T(==)>(s: seq<T>, x: T): (k: nat)
    requires x in s
    ensures k < |s| && s[k] == x && x !in s[..k]
  {
    if s[0] == x then 0
    else
      var k := FirstIndex(s[1..], x);
      assert s[..k + 1] == [s[0]] + s[1..][..k];
      k + 1
  }

  /** `drop_duplicates()`: the rows that are not duplicated, in their original order. The
      result holds no two equal rows, and only rows that `s` holds. */
  function DropDuplicates<T(==)>(s: seq<T>): (r: seq<T>)
    ensures NoDuplicates(r)
    ensures forall k :: 0 <= k < |r| ==> r[k] in s
    ensures |r| <= |s|
  {
    if s == [] then []
    else
      var p := s[..|s| - 1];
      var last := s[|s| - 1];
      assert s == p + [last];
      if last in p then DropDuplicates(p) else DropDuplicates(p) + [last]
  }

  /** Every row of `s` survives in the result: dropping duplicates loses no row value. */
  lemma {:induction false} DropDuplicatesKeepsEveryRow<T>(s: seq<T>)
    ensures forall k :: 0 <= k < |s| ==> s[k] in DropDuplicates(s)
  {
    if s != [] {
      var p := s[..|s| - 1];
      DropDuplicatesKeepsEveryRow(p);
      forall k | 0 <= k < |s| ensures s[k] in DropDuplicates(s) {
        if k < |p| {
          assert s[k] == p[k];
        }
      }
    }
  }

  lemma FirstIndexInPrefix<T>(p: seq<T>, y: T, x: T)
    requires x in p
    ensures x in p + [y] && FirstIndex(p + [y], x) == FirstIndex(p, x)
  {
    var s := p + [y];
    var a := FirstIndex(p, x);
    var b := FirstIndex(s, x);
    assert s[a] == x;
    assert p[..a] == s[..a];
  }

  /** Surviving rows appear in the order in which their values first occur in `s`. */
  lemma {:induction false} DropDuplicatesKeepsFirstOccurrenceOrder<T>(s: seq<T>)
    ensures forall i, j :: 0 <= i < j < |DropDuplicates(s)| ==>
              FirstIndex(s, DropDuplicates(s)[i]) < FirstIndex(s, DropDuplicates(s)[j])
  {
    if s != [] {
      var p := s[..|s| - 1];
      var last := s[|s| - 1];
      assert s == p + [last];
      var q := DropDuplicates(p);
      DropDuplicatesKeepsFirstOccurrenceOrder(p);
      forall x | x in q ensures FirstIndex(s, x) == FirstIndex(p, x) && FirstIndex(p, x) < |p| {
        FirstIndexInPrefix(p, last, x);
      }
      var r := DropDuplicates(s);
      forall i, j | 0 <= i < j < |r| ensures FirstIndex(s, r[i]) < FirstIndex(s, r[j]) {
        assert r[i] == q[i];
        if j < |q| {
          assert r[j] == q[j];
        } else {
          assert last !in p && r[j] == last;
          assert FirstIndex(s, last) == |p|;
        }
      }
    }
  }

  /** `r` lists each row of `s` exactly once, in the order of first occurrence in `s`. */
  predicate IsDistinctRowsOf<T(==)>(r: seq<T>, s: seq<T>) {
    NoDuplicates(r) &&
    (forall k :: 0 <= k < |r| ==> r[k] in s) &&
    (forall k :: 0 <= k < |s| ==> s[k] in r) &&
    (forall i, j :: 0 <= i < j < |r| ==> FirstIndex(s, r[i]) < FirstIndex(s, r[j]))
  }

  /** A row value that first occurs at the very end of `s` must come last in `r`. */
  lemma NewLastComesLast<T>(s: seq<T>, r: seq<T>)
    requires IsDistinctRowsOf(r, s)
    requires s != [] && s[|s| - 1] !in s[..|s| - 1]
    ensures r != [] && r[|r| - 1] == s[|s| - 1]
  {
    var last := s[|s| - 1];
    assert FirstIndex(s, last) == |s| - 1;
    assert s[|s| - 1] in r;
    var m :| 0 <= m < |r| && r[m] == last;
    assert m == |r| - 1;
  }

  /** Dropping the final row of `s` (a value seen for the first time) and of `r` keeps `r` a
      distinct-row listing of `s`. */
  lemma DistinctRowsDropLast<T>(s: seq<T>, r: seq<T>)
    requires IsDistinctRowsOf(r, s)
    requires s != [] && s[|s| - 1] !in s[..|s| - 1]
    requires r != [] && r[|r| - 1] == s[|s| - 1]
    ensures IsDistinctRowsOf(r[..|r| - 1], s[..|s| - 1])
  {
    var p, q := s[..|s| - 1], r[..|r| - 1];
    var last := s[|s| - 1];
    assert s == p + [last];
    forall k | 0 <= k < |q| ensures q[k] in p {
      assert q[k] == r[k] != r[|r| - 1];
      assert r[k] in s;
    }
    forall k | 0 <= k < |p| ensures p[k] in q {
      assert p[k] == s[k];
      var i :| 0 <= i < |r| && r[i] == p[k];
      assert q[i] == p[k];
    }
    forall i, j | 0 <= i < j < |q| ensures FirstIndex(p, q[i]) < FirstIndex(p, q[j]) {
      assert q[i] == r[i] && q[j] == r[j];
      FirstIndexInPrefix(p, last, q[i]);
      FirstIndexInPrefix(p, last, q[j]);
    }
  }

  /** When the final row of `s` repeats an earlier one, `r` is a distinct-row listing of `s`
      without it. */
  lemma DistinctRowsDropRepeat<T>(s: seq<T>, r: seq<T>)
    requires IsDistinctRowsOf(r, s)
    requires s != [] && s[|s| - 1] in s[..|s| - 1]
    ensures IsDistinctRowsOf(r, s[..|s| - 1])
  {
    var p := s[..|s| - 1];
    var last := s[|s| - 1];
    assert s == p + [last];
    forall k | 0 <= k < |r| ensures r[k] in p {
      assert r[k] in s;
    }
    forall k | 0 <= k < |p| ensures p[k] in r {
      assert p[k] == s[k];
    }
    forall i, j | 0 <= i < j < |r| ensures FirstIndex(p, r[i]) < FirstIndex(p, r[j]) {
      FirstIndexInPrefix(p, last, r[i]);
      FirstIndexInPrefix(p, last, r[j]);
    }
  }

  /** `DropDuplicates` is the only table that has no two equal rows, holds exactly the rows of
      `s`, and lists them in the order of their first occurrence in `s`. */
  lemma {:induction false} DropDuplicatesUnique<T>(s: seq<T>, r: seq<T>)
    requires IsDistinctRowsOf(r, s)
    ensures r == DropDuplicates(s)
  {
    if s != [] {
      var p := s[..|s| - 1];
      var last := s[|s| - 1];
      if last in p {
        DistinctRowsDropRepeat(s, r);
        DropDuplicatesUnique(p, r);
      } else {
        NewLastComesLast(s, r);
        DistinctRowsDropLast(s, r);
        DropDuplicatesUnique(p, r[..|r| - 1]);
        assert r == r[..|r| - 1] + [last];
      }
    }
  }

  /** Removing duplicates from a table that has none changes nothing. */
  lemma {:induction false} DropDuplicatesOfDistinct<T>(s: seq<T>)
    requires NoDuplicates(s)
    ensures DropDuplicates(s) == s
  {
    if s != [] {
      var p := s[..|s| - 1];
      assert s == p + [s[|s| - 1]];
      assert s[|s| - 1] !in p;
      DropDuplicatesOfDistinct(p);
    }
  }

  /** `drop_duplicates()` is idempotent. */
  lemma DropDuplicatesIdempotent<T>(s: seq<T>)
    ensures DropDuplicates(DropDuplicates(s)) == DropDuplicates(s)
  {
    DropDuplicatesOfDistinct(DropDuplicates(s));
  }

  /** Appending rows that are all already present leaves the deduplicated table as it was. */
  lemma {:induction false} DropDuplicatesAbsorbsSeen<T>(s: seq<T>, t: seq<T>)
    requires forall x :: x in t ==> x in s
    ensures DropDuplicates(s + t) == DropDuplicates(s)
    decreases |t|
  {
    if t == [] {
      assert s + t == s;
    } else {
      var u := t[..|t| - 1];
      assert s + t == (s + u) + [t[|t| - 1]];
      assert (s + t)[..|s + t| - 1] == s + u;
      assert t[|t| - 1] in s + u;
      DropDuplicatesAbsorbsSeen(s, u);
    }
  }

  /** A table with the same row twice in a row-sequence has duplicates. */
  lemma RepeatedHasDuplicates<T>(s: seq<T>, t: seq<T>)
    requires t != []
    ensures !NoDuplicates(s + t + t)
  {
    var u := s + t + t;
    assert u[|s|] == t[0] == u[|s| + |t|];
  }

  /** Appending rows batch by batch: regrouping the concatenation changes nothing. */
  lemma ConcatAssoc<T>(a: seq<T>, b: seq<T>, c: seq<T>)
    ensures a + b + c == a + (b + c)
  {
  }
}
