/** Table operations over rows kept in storage order. A table is a sequence
    of rows; `key` picks the column a statement filters on (`id` for
    `product`, `product_id` for `clothing` and `electronic`). */
module Rows {
  import opened Wrappers

  /** Every key in the table is below `bound`. */
  ghost predicate KeysBelow<R>(rows: seq<R>, key: R -> int, bound: int) {
    forall i :: 0 <= i < |rows| ==> key(rows[i]) < bound
  }

  /** No two rows of the table share a key (a primary key). */
  ghost predicate KeysDistinct<R>(rows: seq<R>, key: R -> int) {
    forall i, j :: 0 <= i < j < |rows| ==> key(rows[i]) != key(rows[j])
  }

  /** A `SELECT ... WHERE key = k` fetching one row: the first row whose key
      is `k`, or nothing when no row has that key. */
  function Find<R>(rows: seq<R>, key: R -> int, k: int): (r: Option<R>)
    ensures r.None? <==> forall i :: 0 <= i < |rows| ==> key(rows[i]) != k
    ensures r.Some? ==> r.value in rows && key(r.value) == k
  {
    if rows == [] then None
    else if key(rows[0]) == k then Some(rows[0])
    else Find(rows[1..], key, k)
  }

  /** Find returns the first row with the key, not just any. */
  lemma {:induction false} FindFirst<R>(rows: seq<R>, key: R -> int, i: nat)
    requires i < |rows|
    requires forall j :: 0 <= j < i ==> key(rows[j]) != key(rows[i])
    ensures Find(rows, key, key(rows[i])) == Some(rows[i])
  {
    if i > 0 {
      assert rows[1..][i - 1] == rows[i];
      FindFirst(rows[1..], key, i - 1);
    }
  }

  /** An appended row whose key is new is the row Find returns for that key. */
  lemma FindAppended<R>(rows: seq<R>, key: R -> int, r: R)
    requires forall i :: 0 <= i < |rows| ==> key(rows[i]) != key(r)
    ensures Find(rows + [r], key, key(r)) == Some(r)
  {
    FindFirst(rows + [r], key, |rows|);
  }

  /** Appending a row does not change what Find returns for any other key. */
  lemma {:induction false} FindAppendedOther<R>(rows: seq<R>, key: R -> int, r: R, k: int)
    requires key(r) != k
    ensures Find(rows + [r], key, k) == Find(rows, key, k)
  {
    if rows != [] {
      assert (rows + [r])[1..] == rows[1..] + [r];
      FindAppendedOther(rows[1..], key, r, k);
    }
  }

  /** An `UPDATE ... WHERE key = k` setting the whole row to `r`: every row
      with key `k` becomes `r`, every other row stays as it was, in place. */
  function Replace<R>(rows: seq<R>, key: R -> int, k: int, r: R): (s: seq<R>)
    ensures |s| == |rows|
    ensures forall i :: 0 <= i < |rows| ==> s[i] == (if key(rows[i]) == k then r else rows[i])
  {
    if rows == [] then []
    else [if key(rows[0]) == k then r else rows[0]] + Replace(rows[1..], key, k, r)
  }

  /** After the update, the lookup by `k` yields the new row exactly when a
      row with key `k` was there before; an update of a missing key adds nothing. */
  lemma FindReplaced<R>(rows: seq<R>, key: R -> int, k: int, r: R)
    requires key(r) == k
    ensures Find(Replace(rows, key, k, r), key, k) == if Find(rows, key, k).Some? then Some(r) else None
  {
  }

  /** The update by `k` does not change what Find returns for any other key. */
  lemma {:induction false} FindReplacedOther<R>(rows: seq<R>, key: R -> int, k: int, r: R, k': int)
    requires key(r) == k && k' != k
    ensures Find(Replace(rows, key, k, r), key, k') == Find(rows, key, k')
  {
    if rows != [] {
      assert Replace(rows, key, k, r)[1..] == Replace(rows[1..], key, k, r);
      FindReplacedOther(rows[1..], key, k, r, k');
    }
  }

  /** The rows of `right` that join with `l`, paired with it, in storage order. */
  function Matches<L(!new), E(!new)>(l: L, right: seq<E>, lkey: L -> int, rkey: E -> int): (s: seq<(L, E)>)
    ensures forall i :: 0 <= i < |s| ==> s[i].0 == l && s[i].1 in right && rkey(s[i].1) == lkey(l)
    ensures forall e :: e in right && rkey(e) == lkey(l) ==> (l, e) in s
  {
    if right == [] then []
    else
      var rest := Matches(l, right[1..], lkey, rkey);
      assert forall e :: e in right ==> e == right[0] || e in right[1..];
      if rkey(right[0]) == lkey(l) then [(l, right[0])] + rest else rest
  }

  /** The pairs for `l` hold each joining row of `right` exactly as often as
      it is stored there, and no other pair. */
  lemma {:induction false} MatchesMultiplicity<L(!new), E(!new)>(l: L, right: seq<E>, lkey: L -> int, rkey: E -> int)
    ensures forall p :: multiset(Matches(l, right, lkey, rkey))[p] == if p.0 == l && rkey(p.1) == lkey(l) then multiset(right)[p.1] else 0
  {
    if right != [] {
      MatchesMultiplicity(l, right[1..], lkey, rkey);
      assert right == [right[0]] + right[1..];
      assert multiset(right) == multiset{right[0]} + multiset(right[1..]);
    }
  }

  /** The inner join `left JOIN right ON lkey = rkey`, enumerated row by row
      of `left`, then row by row of `right`: it pairs exactly the rows whose
      keys agree. */
  function Join<L(!new), E(!new)>(left: seq<L>, right: seq<E>, lkey: L -> int, rkey: E -> int): (s: seq<(L, E)>)
    ensures forall i :: 0 <= i < |s| ==> s[i].0 in left && s[i].1 in right && rkey(s[i].1) == lkey(s[i].0)
    ensures forall l, e :: l in left && e in right && rkey(e) == lkey(l) ==> (l, e) in s
  {
    if left == [] then []
    else
      var here := Matches(left[0], right, lkey, rkey);
      var rest := Join(left[1..], right, lkey, rkey);
      assert forall l :: l in left ==> l == left[0] || l in left[1..];
      assert forall i :: 0 <= i < |rest| ==> (here + rest)[|here| + i] == rest[i];
      here + rest
  }

  /** The join holds each pair of agreeing rows exactly as many times as the
      product of their counts in the two tables: once for rows stored once. */
  lemma {:induction false} JoinMultiplicity<L(!new), E(!new)>(left: seq<L>, right: seq<E>, lkey: L -> int, rkey: E -> int)
    ensures forall p :: multiset(Join(left, right, lkey, rkey))[p] == if rkey(p.1) == lkey(p.0) then multiset(left)[p.0] * multiset(right)[p.1] else 0
  {
    if left != [] {
      JoinMultiplicity(left[1..], right, lkey, rkey);
      MatchesMultiplicity(left[0], right, lkey, rkey);
      JoinCount(left, right, lkey, rkey, Matches(left[0], right, lkey, rkey), Join(left[1..], right, lkey, rkey));
    }
  }

  /** The count of a pair in one step of the join: the pairs of the first
      left row plus the pairs of the rest. */
  lemma JoinCount<L(!new), E(!new)>(left: seq<L>, right: seq<E>, lkey: L -> int, rkey: E -> int,
                        here: seq<(L, E)>, rest: seq<(L, E)>)
    requires left != []
    requires forall p :: multiset(here)[p] == (if p.0 == left[0] && rkey(p.1) == lkey(left[0]) then multiset(right)[p.1] else 0)
    requires forall p :: multiset(rest)[p] == (if rkey(p.1) == lkey(p.0) then multiset(left[1..])[p.0] * multiset(right)[p.1] else 0)
    ensures forall p :: multiset(here + rest)[p] == if rkey(p.1) == lkey(p.0) then multiset(left)[p.0] * multiset(right)[p.1] else 0
  {
    assert left == [left[0]] + left[1..];
    assert multiset(left) == multiset{left[0]} + multiset(left[1..]);
    forall p
      ensures multiset(here + rest)[p] ==
        if rkey(p.1) == lkey(p.0) then multiset(left)[p.0] * multiset(right)[p.1] else 0
    {
      var a := if p.0 == left[0] then 1 else 0;
      assert multiset(left)[p.0] == a + multiset(left[1..])[p.0];
      assert (a + multiset(left[1..])[p.0]) * multiset(right)[p.1]
          == a * multiset(right)[p.1] + multiset(left[1..])[p.0] * multiset(right)[p.1];
    }
  }
}
