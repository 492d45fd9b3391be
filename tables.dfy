/** How a table of the in-memory repository is read: rows in primary-key
    order, and `WHERE` filtering of a row sequence. */
module Tables {

  /** The rows whose keys lie in `[lo, hi)`, in ascending key order. */
  function Rows<T>(m: map<int, T>, lo: int, hi: int): (r: seq<T>)
    ensures forall k :: lo <= k < hi && k in m ==> m[k] in r
    decreases hi - lo
  {
    if lo >= hi then []
    else (if lo in m then [m[lo]] else []) + Rows(m, lo + 1, hi)
  }

  /** Every row read comes from the table, with a key in range. */
  lemma {:induction false} RowsFromTable<T>(m: map<int, T>, lo: int, hi: int, i: int)
    requires 0 <= i < |Rows(m, lo, hi)|
    ensures exists k :: lo <= k < hi && k in m && m[k] == Rows(m, lo, hi)[i]
    decreases hi - lo
  {
    if lo < hi {
      var head := if lo in m then [m[lo]] else [];
      assert Rows(m, lo, hi) == head + Rows(m, lo + 1, hi);
      if i < |head| {
        assert m[lo] == Rows(m, lo, hi)[i];
      } else {
        RowsFromTable(m, lo + 1, hi, i - |head|);
        var k :| lo + 1 <= k < hi && k in m && m[k] == Rows(m, lo + 1, hi)[i - |head|];
        assert m[k] == Rows(m, lo, hi)[i];
      }
    }
  }

  /** The elements of `s` that satisfy `p`, in their order in `s`. */
  function Filter<T>(s: seq<T>, p: T -> bool): (r: seq<T>)
    ensures |r| <= |s|
    ensures forall i :: 0 <= i < |r| ==> r[i] in s && p(r[i])
    ensures forall i :: 0 <= i < |s| && p(s[i]) ==> s[i] in r
  {
    if s == [] then []
    else (if p(s[0]) then [s[0]] else []) + Filter(s[1..], p)
  }

  /** Two conditions that agree on every row select the same rows. */
  lemma {:induction false} FilterExtensional<T>(s: seq<T>, p: T -> bool, q: T -> bool)
    requires forall x :: x in s ==> p(x) == q(x)
    ensures Filter(s, p) == Filter(s, q)
  {
    if s != [] {
      FilterExtensional(s[1..], p, q);
    }
  }

  /** A row is selected from a table exactly when it is stored under a key
      in range and satisfies the condition. */
  lemma FilterRowsMembership<T>(m: map<int, T>, lo: int, hi: int, p: T -> bool, x: T)
    ensures x in Filter(Rows(m, lo, hi), p) <==> p(x) && exists k :: lo <= k < hi && k in m && m[k] == x
  {
    var rows := Rows(m, lo, hi);
    var r := Filter(rows, p);
    if x in r {
      var i :| 0 <= i < |r| && r[i] == x;
      var j :| 0 <= j < |rows| && rows[j] == x;
      RowsFromTable(m, lo, hi, j);
    }
    if p(x) && exists k :: lo <= k < hi && k in m && m[k] == x {
      var k :| lo <= k < hi && k in m && m[k] == x;
      var j :| 0 <= j < |rows| && rows[j] == x;
    }
  }

  /** A row is read from a table exactly when it is stored under a key in range. */
  lemma RowsMembership<T>(m: map<int, T>, lo: int, hi: int, x: T)
    ensures x in Rows(m, lo, hi) <==> exists k :: lo <= k < hi && k in m && m[k] == x
  {
    var rows := Rows(m, lo, hi);
    if x in rows {
      var j :| 0 <= j < |rows| && rows[j] == x;
      RowsFromTable(m, lo, hi, j);
    }
  }

  /** An element is selected exactly when it is in the input and satisfies the condition. */
  lemma FilterMembership<T>(s: seq<T>, p: T -> bool, x: T)
    ensures x in Filter(s, p) <==> x in s && p(x)
  {
    var r := Filter(s, p);
    if x in r {
      var i :| 0 <= i < |r| && r[i] == x;
    }
    if x in s && p(x) {
      var i :| 0 <= i < |s| && s[i] == x;
    }
  }

  /** A `WHERE` built from conjuncts: `x` satisfies every criterion. */
  predicate AllHold<T, C>(x: T, cs: seq<C>, holds: (T, C) -> bool) {
    forall i :: 0 <= i < |cs| ==> holds(x, cs[i])
  }

  /** One more `andWhere` conjoins its criterion. */
  lemma AllHoldSnoc<T, C>(cs: seq<C>, c: C, holds: (T, C) -> bool)
    ensures forall x :: AllHold(x, cs + [c], holds) == (AllHold(x, cs, holds) && holds(x, c))
  {
    forall x ensures AllHold(x, cs + [c], holds) == (AllHold(x, cs, holds) && holds(x, c)) {
      if AllHold(x, cs + [c], holds) {
        assert holds(x, (cs + [c])[|cs|]);
        assert forall i :: 0 <= i < |cs| ==> (cs + [c])[i] == cs[i];
      }
    }
  }

  /** Two chains of `andWhere` calls one after the other conjoin. */
  lemma AllHoldAppend<T, C>(cs: seq<C>, ds: seq<C>, holds: (T, C) -> bool)
    ensures forall x :: AllHold(x, cs + ds, holds) == (AllHold(x, cs, holds) && AllHold(x, ds, holds))
  {
    forall x ensures AllHold(x, cs + ds, holds) == (AllHold(x, cs, holds) && AllHold(x, ds, holds)) {
      if AllHold(x, cs + ds, holds) {
        assert forall i :: 0 <= i < |cs| ==> (cs + ds)[i] == cs[i];
        assert forall i :: 0 <= i < |ds| ==> (cs + ds)[|cs| + i] == ds[i];
      }
    }
  }
}
