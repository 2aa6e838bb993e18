/**
 The `SparseArray<PointF>` the fractal view keys its pointer samples by: an
 array of (pointer id, point) entries kept in strictly increasing id order,
 so that `valueAt(i)` is the point of the i-th smallest id and `size()` is the
 number of entries.
 */
module PointerArray {

  import opened Options
  import opened Numerics

  datatype Entry = Entry(id: int, at: Vec2)

  /** The ids of the entries, in storage order. */
  function Ids(s: seq<Entry>): seq<int>
  {
    seq(|s|, i requires 0 <= i < |s| => s[i].id)
  }

  /** Ids strictly increase along the array. */
  predicate Sorted(s: seq<Entry>)
  {
    forall i, j :: 0 <= i < j < |s| ==> s[i].id < s[j].id
  }

  /** `get(k)`: the point stored under `k`, or `None` for `null`. */
  function Get(s: seq<Entry>, k: int): Option<Vec2>
  {
    if s == [] then None
    else if s[0].id == k then Some(s[0].at)
    else Get(s[1..], k)
  }

  predicate Has(s: seq<Entry>, k: int)
  {
    Get(s, k).Some?
  }

  /** `put(k, v)`: overwrite the entry for `k`, or insert one at its place in id order. */
  function Put(s: seq<Entry>, k: int, v: Vec2): (r: seq<Entry>)
    requires Sorted(s)
    ensures Sorted(r)
    ensures forall k' :: Get(r, k') == if k' == k then Some(v) else Get(s, k')
    ensures |r| == if Has(s, k) then |s| else |s| + 1
    ensures |r| > 0 && r[0].id == if |s| > 0 && s[0].id < k then s[0].id else k
  {
    if s == [] then [Entry(k, v)]
    else if k < s[0].id then
      LowestFirst(s);
      [Entry(k, v)] + s
    else if k == s[0].id then [Entry(k, v)] + s[1..]
    else
      var rest := Put(s[1..], k, v);
      assert rest[0].id > s[0].id;
      [s[0]] + rest
  }

  /** `remove(k)`: drop the entry for `k`, if there is one. */
  function Remove(s: seq<Entry>, k: int): (r: seq<Entry>)
    requires Sorted(s)
    ensures Sorted(r)
    ensures forall k' :: Get(r, k') == if k' == k then None else Get(s, k')
    ensures |r| == if Has(s, k) then |s| - 1 else |s|
    ensures |r| > 0 ==> r[0].id >= s[0].id
  {
    if s == [] then []
    else if s[0].id == k then
      LowestFirst(s[1..]);
      assert |s| > 1 ==> s[1..][0].id > k;
      assert !Has(s[1..], k);
      assert forall k' :: k' != k ==> Get(s, k') == Get(s[1..], k');
      s[1..]
    else
      var rest := Remove(s[1..], k);
      LowestFirst(s);
      [s[0]] + rest
  }

  /**
   In a sorted array the first entry holds the smallest id present, so
   `valueAt(0)` is the point of the lowest pointer id.
   */
  lemma {:induction false} LowestFirst(s: seq<Entry>)
    requires Sorted(s)
    ensures forall k :: Has(s, k) ==> |s| > 0 && s[0].id <= k
    ensures forall k :: Has(s, k) && |s| > 1 && k != s[0].id ==> s[1].id <= k
  {
    if |s| > 1 {
      LowestFirst(s[1..]);
    }
    forall k | Has(s, k)
      ensures |s| > 0 && s[0].id <= k
      ensures |s| > 1 && k != s[0].id ==> s[1].id <= k
    {
      if s[0].id != k {
        assert Has(s[1..], k);
      }
    }
  }

  /** The ids of an array with `e` in front. */
  lemma IdsCons(e: Entry, t: seq<Entry>)
    ensures Ids([e] + t) == [e.id] + Ids(t)
  {
  }

  /** The ids of a non-empty array split at its first entry. */
  lemma IdsSplit(s: seq<Entry>)
    requires s != []
    ensures Ids(s) == [s[0].id] + Ids(s[1..])
  {
  }

  /** `put` on the ids alone: the ids after `put(k, _)` depend only on the ids before. */
  function InsertId(ids: seq<int>, k: int): seq<int>
  {
    if ids == [] then [k]
    else if k < ids[0] then [k] + ids
    else if k == ids[0] then ids
    else [ids[0]] + InsertId(ids[1..], k)
  }

  /** `remove` on the ids alone. */
  function DeleteId(ids: seq<int>, k: int): seq<int>
  {
    if ids == [] then []
    else if ids[0] == k then ids[1..]
    else [ids[0]] + DeleteId(ids[1..], k)
  }

  /** The ids after `put(k, v)` are the ids before with `k` inserted in order, whatever `v` is. */
  lemma {:induction false} PutIds(s: seq<Entry>, k: int, v: Vec2)
    requires Sorted(s)
    ensures Ids(Put(s, k, v)) == InsertId(Ids(s), k)
  {
    if s != [] {
      IdsSplit(s);
      if k < s[0].id {
        IdsCons(Entry(k, v), s);
      } else if k == s[0].id {
        IdsCons(Entry(k, v), s[1..]);
      } else {
        PutIds(s[1..], k, v);
        IdsCons(s[0], Put(s[1..], k, v));
      }
    }
  }

  /** The ids after `remove(k)` are the ids before with `k` deleted. */
  lemma {:induction false} RemoveIds(s: seq<Entry>, k: int)
    requires Sorted(s)
    ensures Ids(Remove(s, k)) == DeleteId(Ids(s), k)
  {
    if s != [] {
      IdsSplit(s);
      if s[0].id != k {
        RemoveIds(s[1..], k);
        IdsCons(s[0], Remove(s[1..], k));
      }
    }
  }

  /** Overwriting an id that is present changes no id. */
  lemma {:induction false} PutPresentKeepsIds(s: seq<Entry>, k: int, v: Vec2)
    requires Sorted(s) && Has(s, k)
    ensures Ids(Put(s, k, v)) == Ids(s)
  {
    LowestFirst(s);
    IdsSplit(s);
    if s[0].id != k {
      assert Has(s[1..], k);
      PutPresentKeepsIds(s[1..], k, v);
      IdsCons(s[0], Put(s[1..], k, v));
    } else {
      IdsCons(Entry(k, v), s[1..]);
    }
  }

  /** Two arrays with the same ids hold the same set of ids. */
  lemma {:induction false} AlignedIdsSameKeys(s: seq<Entry>, t: seq<Entry>, k: int)
    requires Ids(s) == Ids(t)
    ensures Has(s, k) <==> Has(t, k)
  {
    assert |s| == |Ids(s)| == |Ids(t)| == |t|;
    if s != [] {
      IdsSplit(s);
      IdsSplit(t);
      assert Ids(s[1..]) == Ids(s)[1..] == Ids(t)[1..] == Ids(t[1..]);
      assert s[0].id == Ids(s)[0] == Ids(t)[0] == t[0].id;
      AlignedIdsSameKeys(s[1..], t[1..], k);
    }
  }
}
