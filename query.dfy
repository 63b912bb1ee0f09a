/**
 * The few SQL shapes the laboratory handlers use, over tables held as
 * sequences of rows in rowid order:
 *   - `Where`      the rows a `WHERE` clause keeps (and so, negated, what a `DELETE` leaves);
 *   - `Update`     an `UPDATE ... SET ... WHERE ...` applied row by row;
 *   - `Pick`       a `SELECT` with its `WHERE` and `JOIN`s, one optional result row per table row;
 *   - `CountWhere` a `SELECT COUNT(*) ... WHERE ...`;
 *   - `SelectSorted` a `SELECT ... ORDER BY key [DESC]`.
 */
module Query {
  import opened Common
  import opened TextOrder

  function Where<T(==,!new)>(rows: seq<T>, keep: T -> bool): (r: seq<T>)
    ensures |r| <= |rows|
    ensures forall x :: x in r <==> x in rows && keep(x)
    decreases |rows|
  {
    if rows == [] then []
    else
      var init, last := rows[..|rows| - 1], rows[|rows| - 1];
      assert rows == init + [last];
      Where(init, keep) + (if keep(last) then [last] else [])
  }

  /** Every row that satisfied keep was kept: `Where` of an all-true predicate is the table itself. */
  lemma {:induction false} WhereAll<T(!new)>(rows: seq<T>, keep: T -> bool)
    requires forall i :: 0 <= i < |rows| ==> keep(rows[i])
    ensures Where(rows, keep) == rows
    decreases |rows|
  {
    if rows != [] {
      WhereAll(rows[..|rows| - 1], keep);
      assert rows == rows[..|rows| - 1] + [rows[|rows| - 1]];
    }
  }

  lemma {:induction false} WhereStep<T(!new)>(rows: seq<T>, x: T, keep: T -> bool)
    ensures Where(rows + [x], keep) == Where(rows, keep) + (if keep(x) then [x] else [])
  {
    assert (rows + [x])[..|rows|] == rows;
  }

  /** An empty result means no row satisfied the condition. */
  lemma WhereNone<T(!new)>(rows: seq<T>, keep: T -> bool)
    requires |Where(rows, keep)| == 0
    ensures forall i :: 0 <= i < |rows| ==> !keep(rows[i])
  {
    forall i | 0 <= i < |rows| ensures !keep(rows[i]) {
      assert rows[i] in rows;
    }
  }

  /** A predicate and its negation split a table: the two WHEREs together hold every row once. */
  lemma {:induction false} WhereSplit<T(!new)>(rows: seq<T>, keep: T -> bool, drop: T -> bool)
    requires forall i :: 0 <= i < |rows| ==> keep(rows[i]) != drop(rows[i])
    ensures |Where(rows, keep)| + |Where(rows, drop)| == |rows|
    decreases |rows|
  {
    if rows != [] {
      var init, last := rows[..|rows| - 1], rows[|rows| - 1];
      assert rows == init + [last];
      WhereStep(init, last, keep);
      WhereStep(init, last, drop);
      WhereSplit(init, keep, drop);
    }
  }

  function Update<T>(rows: seq<T>, sel: T -> bool, change: T -> T): (r: seq<T>)
    ensures |r| == |rows|
    ensures forall i :: 0 <= i < |rows| ==> r[i] == (if sel(rows[i]) then change(rows[i]) else rows[i])
  {
    seq(|rows|, i requires 0 <= i < |rows| => if sel(rows[i]) then change(rows[i]) else rows[i])
  }

  /** `UPDATE ... SET <every column> WHERE id = k`: the row with key k becomes x. */
  function Reemplazar<T>(rows: seq<T>, key: T -> int, k: int, x: T): (r: seq<T>)
    ensures |r| == |rows|
    ensures forall i :: 0 <= i < |rows| ==> r[i] == (if key(rows[i]) == k then x else rows[i])
  {
    Update(rows, (y: T) => key(y) == k, (y: T) => x)
  }

  function Pick<T, V(==)>(rows: seq<T>, pick: T -> Option<V>): (r: seq<V>)
    ensures |r| <= |rows|
    decreases |rows|
  {
    if rows == [] then []
    else
      var init, last := rows[..|rows| - 1], rows[|rows| - 1];
      Pick(init, pick) + (match pick(last) case Some(v) => [v] case None => [])
  }

  lemma {:induction false} PickStep<T, V>(rows: seq<T>, x: T, pick: T -> Option<V>)
    ensures Pick(rows + [x], pick) == Pick(rows, pick) + (match pick(x) case Some(v) => [v] case None => [])
  {
    assert (rows + [x])[..|rows|] == rows;
  }

  /** Scanning one more row of the table adds at most that row's result. */
  lemma PickPrefix<T, V>(rows: seq<T>, i: int, pick: T -> Option<V>)
    requires 0 <= i < |rows|
    ensures multiset(Pick(rows[..i + 1], pick)) ==
            multiset(Pick(rows[..i], pick)) + (match pick(rows[i]) case Some(v) => multiset{v} case None => multiset{})
  {
    assert rows[..i + 1] == rows[..i] + [rows[i]];
    PickStep(rows[..i], rows[i], pick);
  }

  /** A result row comes from some table row, and every table row that yields one is in the result. */
  lemma {:induction false} PickMembers<T, V>(rows: seq<T>, pick: T -> Option<V>)
    ensures forall v :: v in Pick(rows, pick) <==> exists i :: 0 <= i < |rows| && pick(rows[i]) == Some(v)
    decreases |rows|
  {
    if rows != [] {
      var init, last := rows[..|rows| - 1], rows[|rows| - 1];
      PickMembers(init, pick);
      forall v
        ensures v in Pick(rows, pick) <==> exists i :: 0 <= i < |rows| && pick(rows[i]) == Some(v)
      {
        if v in Pick(rows, pick) {
          if v in Pick(init, pick) {
            var i :| 0 <= i < |init| && pick(init[i]) == Some(v);
            assert rows[i] == init[i];
          } else {
            assert pick(rows[|rows| - 1]) == Some(v);
          }
        }
        if exists i :: 0 <= i < |rows| && pick(rows[i]) == Some(v) {
          var i :| 0 <= i < |rows| && pick(rows[i]) == Some(v);
          if i < |init| {
            assert init[i] == rows[i];
          }
        }
      }
    }
  }

  /** Two selections that agree on every row of the table give the same result. */
  lemma {:induction false} PickExt<T, V>(rows: seq<T>, p: T -> Option<V>, q: T -> Option<V>)
    requires forall i :: 0 <= i < |rows| ==> p(rows[i]) == q(rows[i])
    ensures Pick(rows, p) == Pick(rows, q)
    decreases |rows|
  {
    if rows != [] {
      PickExt(rows[..|rows| - 1], p, q);
    }
  }

  /** The row an equality JOIN on the key finds (the first one, in rowid order). */
  function FindBy<T>(rows: seq<T>, key: T -> int, k: int): (r: Option<T>)
    ensures r.Some? ==> key(r.value) == k && exists i :: 0 <= i < |rows| && rows[i] == r.value
    ensures r.None? <==> forall i :: 0 <= i < |rows| ==> key(rows[i]) != k
    decreases |rows|
  {
    if rows == [] then None
    else if key(rows[0]) == k then Some(rows[0])
    else
      var r := FindBy(rows[1..], key, k);
      assert forall i :: 1 <= i < |rows| ==> rows[i] == rows[1..][i - 1];
      r
  }

  /** An AND-joined `WHERE 1=1 AND ...` clause: row r satisfies every condition of cs. */
  predicate AllHold<R, C>(r: R, cs: seq<C>, holds: (R, C) -> bool)
    decreases |cs|
  {
    cs == [] || (AllHold(r, cs[..|cs| - 1], holds) && holds(r, cs[|cs| - 1]))
  }

  /** Appending `AND c` to the query narrows it by exactly c. */
  lemma AllHoldAppend<R, C>(r: R, cs: seq<C>, c: C, holds: (R, C) -> bool)
    ensures AllHold(r, cs + [c], holds) <==> AllHold(r, cs, holds) && holds(r, c)
  {
    assert (cs + [c])[..|cs|] == cs;
  }

  method CountWhere<T(==,!new)>(rows: seq<T>, keep: T -> bool) returns (n: nat)
    ensures n == |Where(rows, keep)|
    ensures n > 0 <==> exists i :: 0 <= i < |rows| && keep(rows[i])
  {
    n := 0;
    for i := 0 to |rows|
      invariant n == |Where(rows[..i], keep)|
    {
      WhereStep(rows[..i], rows[i], keep);
      assert rows[..i + 1] == rows[..i] + [rows[i]];
      if keep(rows[i]) {
        n := n + 1;
      }
    }
    assert rows[..|rows|] == rows;
    if n > 0 {
      var x := Where(rows, keep)[0];
      assert x in rows && keep(x);
    }
    if exists i :: 0 <= i < |rows| && keep(rows[i]) {
      var i :| 0 <= i < |rows| && keep(rows[i]);
      assert rows[i] in Where(rows, keep);
    }
  }

  // ---------------------------------------------------------------- ORDER BY

  datatype Direction = Asc | Desc

  /** a may come before b under `ORDER BY ... ASC` (resp. `DESC`). */
  predicate Before(d: Direction, a: string, b: string)
  {
    if d.Asc? then LexLe(a, b) else LexLe(b, a)
  }

  ghost predicate SortedBy<V>(s: seq<V>, key: V -> string, d: Direction)
  {
    forall i, j :: 0 <= i < j < |s| ==> Before(d, key(s[i]), key(s[j]))
  }

  lemma BeforeTotal(d: Direction, a: string, b: string)
    ensures Before(d, a, b) || Before(d, b, a)
  {
    LexLeTotal(a, b);
  }

  lemma BeforeTrans(d: Direction, a: string, b: string, c: string)
    requires Before(d, a, b) && Before(d, b, c)
    ensures Before(d, a, c)
  {
    if d.Asc? { LexLeTrans(a, b, c); } else { LexLeTrans(c, b, a); }
  }

  /** Insert one row into an already ordered result, keeping it ordered. */
  function InsertSorted<V(==)>(s: seq<V>, x: V, key: V -> string, d: Direction): (r: seq<V>)
    requires SortedBy(s, key, d)
    ensures SortedBy(r, key, d)
    ensures multiset(r) == multiset(s) + multiset{x}
    decreases |s|
  {
    if s == [] then [x]
    else if Before(d, key(x), key(s[0])) then
      assert forall j :: 0 <= j < |s| ==> Before(d, key(x), key(s[j])) by {
        forall j | 0 <= j < |s| ensures Before(d, key(x), key(s[j])) {
          if j > 0 { BeforeTrans(d, key(x), key(s[0]), key(s[j])); }
        }
      }
      assert forall j :: 0 < j < |[x] + s| ==> ([x] + s)[j] == s[j - 1];
      [x] + s
    else
      BeforeTotal(d, key(x), key(s[0]));
      var rest := InsertSorted(s[1..], x, key, d);
      assert s == [s[0]] + s[1..];
      assert forall j :: 0 <= j < |rest| ==> Before(d, key(s[0]), key(rest[j])) by {
        forall j | 0 <= j < |rest| ensures Before(d, key(s[0]), key(rest[j])) {
          assert rest[j] in multiset(rest);
          if rest[j] != x {
            assert rest[j] in multiset(s[1..]);
            var k :| 0 <= k < |s[1..]| && s[1..][k] == rest[j];
            assert s[k + 1] == rest[j];
          }
        }
      }
      assert forall j :: 0 < j < |[s[0]] + rest| ==> ([s[0]] + rest)[j] == rest[j - 1];
      [s[0]] + rest
  }

  /**
   * Run a `SELECT ... ORDER BY`: scan the table in rowid order, keep the rows
   * pick yields, and place each in order of its key.
   */
  method SelectSorted<T, V(==)>(rows: seq<T>, pick: T -> Option<V>, key: V -> string, d: Direction)
    returns (out: seq<V>)
    ensures SortedBy(out, key, d)
    ensures multiset(out) == multiset(Pick(rows, pick))
  {
    out := [];
    for i := 0 to |rows|
      invariant SortedBy(out, key, d)
      invariant multiset(out) == multiset(Pick(rows[..i], pick))
    {
      PickPrefix(rows, i, pick);
      var p := pick(rows[i]);
      if p.Some? {
        out := InsertSorted(out, p.value, key, d);
      }
    }
    assert rows[..|rows|] == rows;
  }
}
