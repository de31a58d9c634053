/** The table operations every handler repeats: a filter-then-update pass over
    a table in key order, the list of rows it produced, and linear scans that
    stop at the first matching row. */
module Tables {
  import opened Base

  // ---------------------------------------------------------------------------
  // Filter-then-update
  // ---------------------------------------------------------------------------

  /** The table after the rows with a key below `n` that satisfy `sel` have been rewritten by `upd`,
      one key at a time in increasing order. */
  function UpdateBelow<V>(t: map<Id, V>, sel: (Id, V) -> bool, upd: V -> V, n: nat): map<Id, V>
  {
    if n == 0 then t
    else
      var m := UpdateBelow(t, sel, upd, n - 1);
      if n - 1 in t && sel(n - 1, t[n - 1]) then m[n - 1 := upd(t[n - 1])] else m
  }

  /** The pass keeps every key, and a row below `n` is rewritten exactly when it is selected. */
  lemma {:induction false} UpdateBelowRows<V>(t: map<Id, V>, sel: (Id, V) -> bool, upd: V -> V, n: nat)
    ensures UpdateBelow(t, sel, upd, n).Keys == t.Keys
    ensures forall k :: k in t ==>
      UpdateBelow(t, sel, upd, n)[k] == if k < n && sel(k, t[k]) then upd(t[k]) else t[k]
  {
    if n > 0 {
      UpdateBelowRows(t, sel, upd, n - 1);
    }
  }

  /** A whole pass: every selected row rewritten, every other row and every key kept. */
  function UpdateWhere<V>(t: map<Id, V>, sel: (Id, V) -> bool, upd: V -> V): (r: map<Id, V>)
    ensures r.Keys == t.Keys
    ensures forall k :: k in t && sel(k, t[k]) ==> r[k] == upd(t[k])
    ensures forall k :: k in t && !sel(k, t[k]) ==> r[k] == t[k]
  {
    UpdateBelowRows(t, sel, upd, GenerateId(t));
    UpdateBelow(t, sel, upd, GenerateId(t))
  }

  /** Visiting key `n` extends the pass by that one row; before the visit the row is still the original. */
  lemma UpdateBelowStep<V>(t: map<Id, V>, sel: (Id, V) -> bool, upd: V -> V, n: nat)
    ensures UpdateBelow(t, sel, upd, n).Keys == t.Keys
    ensures n in t ==> UpdateBelow(t, sel, upd, n)[n] == t[n]
    ensures UpdateBelow(t, sel, upd, n + 1) ==
      if n in t && sel(n, t[n]) then UpdateBelow(t, sel, upd, n)[n := upd(t[n])]
      else UpdateBelow(t, sel, upd, n)
  {
    UpdateBelowRows(t, sel, upd, n);
  }

  /** `f` of every row with a key below `n` that satisfies `sel`, in key order. */
  function CollectBelow<V, W>(t: map<Id, V>, sel: (Id, V) -> bool, f: V -> W, n: nat): seq<W>
  {
    if n == 0 then []
    else
      CollectBelow(t, sel, f, n - 1)
      + (if n - 1 in t && sel(n - 1, t[n - 1]) then [f(t[n - 1])] else [])
  }

  /** Visiting key `n` appends that row's image when it is selected. */
  lemma CollectBelowStep<V, W>(t: map<Id, V>, sel: (Id, V) -> bool, f: V -> W, n: nat)
    ensures CollectBelow(t, sel, f, n + 1) ==
      if n in t && sel(n, t[n]) then CollectBelow(t, sel, f, n) + [f(t[n])] else CollectBelow(t, sel, f, n)
  {
  }

  /** The list a filter-then-update handler returns: `f` of each selected row, in key order. */
  function CollectWhere<V, W>(t: map<Id, V>, sel: (Id, V) -> bool, f: V -> W): seq<W>
  {
    CollectBelow(t, sel, f, GenerateId(t))
  }

  /** The keys of the selected rows. */
  function Selected<V>(t: map<Id, V>, sel: (Id, V) -> bool): set<Id>
  {
    set k | k in t && sel(k, t[k])
  }

  function SelectedBelow<V>(t: map<Id, V>, sel: (Id, V) -> bool, n: nat): set<Id>
  {
    set k | k in t && k < n && sel(k, t[k])
  }

  lemma {:induction false} CollectBelowMembers<V, W>(t: map<Id, V>, sel: (Id, V) -> bool, f: V -> W, n: nat, w: W)
    ensures w in CollectBelow(t, sel, f, n) <==> exists k :: k < n && k in t && sel(k, t[k]) && f(t[k]) == w
  {
    if n > 0 {
      CollectBelowMembers(t, sel, f, n - 1, w);
      if n - 1 in t && sel(n - 1, t[n - 1]) && f(t[n - 1]) == w {
        assert w in CollectBelow(t, sel, f, n);
      }
    }
  }

  /** The returned list holds exactly the images of the selected rows. */
  lemma CollectWhereMembers<V, W>(t: map<Id, V>, sel: (Id, V) -> bool, f: V -> W, w: W)
    ensures w in CollectWhere(t, sel, f) <==> exists k :: k in t && sel(k, t[k]) && f(t[k]) == w
  {
    CollectBelowMembers(t, sel, f, GenerateId(t), w);
  }

  lemma {:induction false} CollectBelowLength<V, W>(t: map<Id, V>, sel: (Id, V) -> bool, f: V -> W, n: nat)
    ensures |CollectBelow(t, sel, f, n)| == |SelectedBelow(t, sel, n)|
  {
    if n == 0 {
      assert SelectedBelow(t, sel, n) == {};
    } else {
      CollectBelowLength(t, sel, f, n - 1);
      if n - 1 in t && sel(n - 1, t[n - 1]) {
        assert SelectedBelow(t, sel, n) == SelectedBelow(t, sel, n - 1) + {n - 1};
      } else {
        assert SelectedBelow(t, sel, n) == SelectedBelow(t, sel, n - 1);
      }
    }
  }

  /** The returned list has exactly one entry per selected row. */
  lemma CollectWhereLength<V, W>(t: map<Id, V>, sel: (Id, V) -> bool, f: V -> W)
    ensures |CollectWhere(t, sel, f)| == |Selected(t, sel)|
  {
    CollectBelowLength(t, sel, f, GenerateId(t));
    assert SelectedBelow(t, sel, GenerateId(t)) == Selected(t, sel);
  }

  /** Zero matching rows gives an empty list, and only then. */
  lemma CollectWhereEmpty<V, W>(t: map<Id, V>, sel: (Id, V) -> bool, f: V -> W)
    ensures CollectWhere(t, sel, f) == [] <==> forall k :: k in t ==> !sel(k, t[k])
  {
    CollectWhereLength(t, sel, f);
    if exists k :: k in t && sel(k, t[k]) {
      var k :| k in t && sel(k, t[k]);
      assert k in Selected(t, sel);
    } else {
      assert Selected(t, sel) == {};
    }
  }

  /** `len([row for row in table.values() if p(row)])`. */
  method Count<V>(t: map<Id, V>, p: (Id, V) -> bool) returns (n: nat)
    ensures n == |Selected(t, p)|
  {
    ghost var keep := (v: V) => v;
    ghost var matches: seq<V> := [];
    n := 0;
    var bound := GenerateId(t);
    for k := 0 to bound
      invariant matches == CollectBelow(t, p, keep, k)
      invariant n == |matches|
    {
      CollectBelowStep(t, p, keep, k);
      if k in t && p(k, t[k]) {
        matches := matches + [t[k]];
        n := n + 1;
      }
    }
    CollectWhereLength(t, p, keep);
  }

  // ---------------------------------------------------------------------------
  // Cascading deletes
  // ---------------------------------------------------------------------------

  /** The table without the rows that satisfy `p`. */
  function RemoveWhere<V>(t: map<Id, V>, p: (Id, V) -> bool): (r: map<Id, V>)
    ensures forall k :: k in r <==> k in t && !p(k, t[k])
    ensures forall k :: k in r ==> r[k] == t[k]
  {
    map k | k in t && !p(k, t[k]) :: t[k]
  }

  /** The keys of the rows below `n` that satisfy `p`. */
  ghost predicate ListsMatchesBelow<V>(t: map<Id, V>, p: (Id, V) -> bool, keys: seq<Id>, n: nat)
  {
    forall j :: j in keys <==> j < n && j in t && p(j, t[j])
  }

  /** `to_delete = [k for k, row in table.items() if p(row)]` followed by `for k in to_delete:
      del table[k]`, on a local copy of the table. */
  method DeleteWhere<V>(t: map<Id, V>, p: (Id, V) -> bool) returns (r: map<Id, V>)
    ensures r == RemoveWhere(t, p)
  {
    var toDelete: seq<Id> := [];
    var bound := GenerateId(t);
    for k := 0 to bound
      invariant ListsMatchesBelow(t, p, toDelete, k)
    {
      if k in t && p(k, t[k]) {
        toDelete := toDelete + [k];
      }
    }
    r := t;
    for i := 0 to |toDelete|
      invariant r == map j | j in t && j !in toDelete[..i] :: t[j]
    {
      assert toDelete[..i + 1] == toDelete[..i] + [toDelete[i]];
      r := r - {toDelete[i]};
    }
    assert toDelete[..|toDelete|] == toDelete;
  }

  // ---------------------------------------------------------------------------
  // Scans
  // ---------------------------------------------------------------------------

  /** Some row satisfies `p`. */
  predicate Exists<V>(t: map<Id, V>, p: (Id, V) -> bool)
  {
    exists k :: k in t && p(k, t[k])
  }

  /** `for row in table.values(): if p(row): ...; break`: a scan in key order that stops at the
      first match. */
  method Scan<V>(t: map<Id, V>, p: (Id, V) -> bool) returns (found: bool)
    ensures found <==> Exists(t, p)
  {
    var bound := GenerateId(t);
    for k := 0 to bound
      invariant forall j :: j < k && j in t ==> !p(j, t[j])
    {
      if k in t && p(k, t[k]) {
        return true;
      }
    }
    return false;
  }

  /** The smallest key whose row satisfies `p`, searching upward from `from`. */
  function FirstFrom<V>(t: map<Id, V>, p: (Id, V) -> bool, from: nat): (r: Option<Id>)
    ensures r.Some? ==> from <= r.value && r.value in t && p(r.value, t[r.value])
    ensures r.Some? ==> forall k :: from <= k < r.value && k in t ==> !p(k, t[k])
    ensures r.None? ==> forall k :: from <= k && k in t ==> !p(k, t[k])
    decreases GenerateId(t) - from
  {
    if from >= GenerateId(t) then None
    else if from in t && p(from, t[from]) then Some(from)
    else FirstFrom(t, p, from + 1)
  }

  /** The first matching row in key order, or None. */
  function First<V>(t: map<Id, V>, p: (Id, V) -> bool): Option<Id>
  {
    FirstFrom(t, p, 0)
  }

  /** A search loop that records the first matching key and breaks. */
  method FindFirst<V>(t: map<Id, V>, p: (Id, V) -> bool) returns (r: Option<Id>)
    ensures r == First(t, p)
  {
    r := None;
    var bound := GenerateId(t);
    for k := 0 to bound
      invariant forall j :: j < k && j in t ==> !p(j, t[j])
    {
      if k in t && p(k, t[k]) {
        r := Some(k);
        FirstUnique(t, p, k);
        return;
      }
    }
    FirstNone(t, p);
  }

  lemma FirstUnique<V>(t: map<Id, V>, p: (Id, V) -> bool, k: Id)
    requires k in t && p(k, t[k])
    requires forall j :: j < k && j in t ==> !p(j, t[j])
    ensures First(t, p) == Some(k)
  {
  }

  lemma FirstNone<V>(t: map<Id, V>, p: (Id, V) -> bool)
    requires forall j :: j < GenerateId(t) && j in t ==> !p(j, t[j])
    ensures First(t, p) == None
  {
  }
}
