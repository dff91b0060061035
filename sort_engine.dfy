/**
 * The multi-field sort configuration of the urgent board's table
 * (`/sort/fields` in the view model and the handlers that edit it).
 *
 * The sort fields are one ordered array. A field is active when it sorts
 * ascending or descending; the active fields are meant to form a prefix of
 * the array, in sort-priority order. Activating a field swaps it into the
 * first inactive slot, deactivating it sinks it by adjacent swaps until it
 * is the first inactive field, and the move buttons swap a field with a
 * neighbour. After every change the move flags, the active count and the
 * sorters applied to the table are recomputed.
 */
module SortEngine {
  import opened Values
  import opened Catalog
  import opened Formatters

  /** One entry of `/sort/fields`. */
  datatype SortField = SortField(
    path: FieldId,
    caption: string,
    sortAscending: bool,
    sortDescending: bool,
    canMoveUp: bool,
    canMoveDown: bool)

  /** The direction handed to `_onPressSortDirection`: "ASC", "DESC" or "" (remove). */
  datatype Direction = Ascending | Descending | Unsorted

  /** A table sorter as `_updateTableSort` builds it. */
  datatype Sorter = Sorter(path: FieldId, descending: bool)

  predicate Active(f: SortField)
  {
    f.sortAscending || f.sortDescending
  }

  /**
   * The active fields form a prefix of `s`: a field is active exactly when
   * its index is below the number of active fields (`NoGap` shows this is
   * "no active field after an inactive one").
   */
  predicate ActivePrefix(s: seq<SortField>)
  {
    forall i :: 0 <= i < |s| ==> (Active(s[i]) <==> i < ActiveCount(s))
  }

  /** No two fields share a path (they are the keys of the catalog). */
  predicate DistinctPaths(s: seq<SortField>)
  {
    forall i, j :: 0 <= i < j < |s| ==> s[i].path != s[j].path
  }

  function Paths(s: seq<SortField>): (r: seq<FieldId>)
    ensures |r| == |s| && forall i :: 0 <= i < |s| ==> r[i] == s[i].path
  {
    seq(|s|, i requires 0 <= i < |s| => s[i].path)
  }

  /** `findIndex` for the first field that sorts neither way; -1 when every field is active. */
  function FirstInactive(s: seq<SortField>): (k: int)
    ensures -1 <= k < |s|
    ensures k == -1 <==> forall i :: 0 <= i < |s| ==> Active(s[i])
    ensures 0 <= k ==> !Active(s[k]) && forall i :: 0 <= i < k ==> Active(s[i])
  {
    if s == [] then -1
    else if !Active(s[0]) then 0
    else
      var k := FirstInactive(s[1..]);
      if k == -1 then -1 else k + 1
  }

  /** `findIndex` for the field with path `p`; -1 when there is none. */
  function IndexOfPath(s: seq<SortField>, p: FieldId): (k: int)
    ensures -1 <= k < |s|
    ensures k == -1 <==> forall i :: 0 <= i < |s| ==> s[i].path != p
    ensures 0 <= k ==> s[k].path == p && forall i :: 0 <= i < k ==> s[i].path != p
  {
    if s == [] then -1
    else if s[0].path == p then 0
    else
      var k := IndexOfPath(s[1..], p);
      if k == -1 then -1 else k + 1
  }

  /** The `reduce` of `_updateSortActiveFieldCount`. */
  function ActiveCount(s: seq<SortField>): (n: nat)
    ensures n <= |s|
  {
    if s == [] then 0
    else ActiveCount(s[..|s| - 1]) + (if Active(s[|s| - 1]) then 1 else 0)
  }

  /** The `filter` and `map` of `_updateTableSort`. */
  function Sorters(s: seq<SortField>): (r: seq<Sorter>)
    ensures |r| == ActiveCount(s)
  {
    if s == [] then []
    else
      var last := s[|s| - 1];
      Sorters(s[..|s| - 1]) + (if Active(last) then [Sorter(last.path, last.sortDescending)] else [])
  }

  /** `_swapArrayElements` on a value. */
  function Swap(s: seq<SortField>, i: nat, j: nat): (r: seq<SortField>)
    requires i < |s| && j < |s|
    ensures |r| == |s| && r[i] == s[j] && r[j] == s[i]
    ensures forall k :: 0 <= k < |s| && k != i && k != j ==> r[k] == s[k]
  {
    s[i := s[j]][j := s[i]]
  }

  /** The sink loop of `_onPressSortDirection`: swap positions x and x+1 for x = from, ..., to - 1. */
  function Sink(s: seq<SortField>, from: nat, to: int): (r: seq<SortField>)
    requires from < |s| && to < |s|
    ensures |r| == |s|
    decreases if to <= from then 0 else to - from
  {
    if to <= from then s else Swap(Sink(s, from, to - 1), to - 1, to)
  }

  /** The flags the `switch` of `_onPressSortDirection` writes on the selected field. */
  function WithDirection(f: SortField, d: Direction): SortField
  {
    f.(sortAscending := d == Ascending, sortDescending := d == Descending)
  }

  /** The reordering `_onPressSortDirection` does before it writes the flags. */
  function Reordered(s: seq<SortField>, sel: nat, d: Direction): seq<SortField>
    requires sel < |s|
  {
    var first := FirstInactive(s);
    if !Active(s[sel]) && d != Unsorted then Swap(s, sel, first)
    else if Active(s[sel]) && d == Unsorted then Sink(s, sel, first - 1)
    else s
  }

  /** The index at which the reordering leaves the selected field. */
  function Destination(s: seq<SortField>, sel: nat, d: Direction): (k: nat)
    requires sel < |s|
    ensures k < |s|
  {
    var first := FirstInactive(s);
    if !Active(s[sel]) && d != Unsorted then first
    else if Active(s[sel]) && d == Unsorted && sel < first - 1 then first - 1
    else sel
  }

  /** `_onPressSortDirection` on the field at `sel`, before the move flags are recomputed. */
  function PressDirection(s: seq<SortField>, sel: nat, d: Direction): seq<SortField>
    requires sel < |s|
  {
    var r := Reordered(s, sel, d);
    var k := Destination(s, sel, d);
    r[k := WithDirection(r[k], d)]
  }

  /** The forEach of `_setSortFieldCanMove` over the whole array. */
  function WithMoveFlags(s: seq<SortField>): (r: seq<SortField>)
    ensures |r| == |s|
  {
    seq(|s|, i requires 0 <= i < |s| =>
      s[i].(canMoveUp := Active(s[i]) && i > 0,
            canMoveDown := Active(s[i]) && i + 1 < |s| && Active(s[i + 1])))
  }

  /** `_onPressSortMovePosition` on a value: swap with the neighbour at `sel + change` when that index exists. */
  function MovePosition(s: seq<SortField>, sel: nat, change: int): seq<SortField>
    requires sel < |s|
  {
    var target := sel + change;
    if -1 < target < |s| then Swap(s, sel, target) else s
  }

  function RemoveAt(s: seq<SortField>, k: nat): seq<SortField>
    requires k < |s|
  {
    s[..k] + s[k + 1..]
  }

  // ---------------------------------------------------------------------
  // Facts about the pieces
  // ---------------------------------------------------------------------

  /**
   * The sink loop carries the field at `from` to `to`, shifts the fields in
   * between one place towards the front and leaves all others in place.
   */
  lemma {:induction false} SinkMoves(s: seq<SortField>, from: nat, to: int)
    requires from <= to < |s|
    ensures var r := Sink(s, from, to);
            && |r| == |s|
            && r[to] == s[from]
            && (forall i :: 0 <= i < from ==> r[i] == s[i])
            && (forall i :: from <= i < to ==> r[i] == s[i + 1])
            && (forall i :: to < i < |s| ==> r[i] == s[i])
    decreases if to <= from then 0 else to - from
  {
    if to > from {
      SinkMoves(s, from, to - 1);
    }
  }

  /** One more pass of the sink loop is one more adjacent swap. */
  lemma SinkStep(s: seq<SortField>, from: nat, to: nat)
    requires from <= to && to + 1 < |s|
    ensures Sink(s, from, to + 1) == Swap(Sink(s, from, to), to, to + 1)
  {
  }

  /** A field keeps its place relative to every other field when one field sinks past it. */
  lemma SinkKeepsOthersInOrder(s: seq<SortField>, from: nat, to: int)
    requires from <= to < |s|
    ensures RemoveAt(Sink(s, from, to), to) == RemoveAt(s, from)
  {
    SinkMoves(s, from, to);
    var r := Sink(s, from, to);
    var a, b := RemoveAt(r, to), RemoveAt(s, from);
    assert |a| == |b|;
    forall i | 0 <= i < |a| ensures a[i] == b[i] {
      if i < from {
      } else if i < to {
      } else {
        assert a[i] == r[i + 1];
        assert b[i] == s[i + 1];
      }
    }
  }

  /** The active fields form a prefix exactly when no active field follows an inactive one. */
  lemma NoGap(s: seq<SortField>)
    ensures ActivePrefix(s) <==> forall i, j :: 0 <= i < j < |s| && Active(s[j]) ==> Active(s[i])
  {
    if forall i, j :: 0 <= i < j < |s| && Active(s[j]) ==> Active(s[i]) {
      NoGapIsPrefix(s);
    }
  }

  lemma {:induction false} NoGapIsPrefix(s: seq<SortField>)
    requires forall i, j :: 0 <= i < j < |s| && Active(s[j]) ==> Active(s[i])
    ensures ActivePrefix(s)
  {
    if s != [] {
      var init := s[..|s| - 1];
      NoGapIsPrefix(init);
      if Active(s[|s| - 1]) {
        assert forall i :: 0 <= i < |s| ==> Active(s[i]);
      }
    }
  }

  /** With the active fields a prefix, the first inactive index is the active count (-1 when every field is active). */
  lemma ActivePrefixCount(s: seq<SortField>)
    requires ActivePrefix(s)
    ensures FirstInactive(s) == if ActiveCount(s) == |s| then -1 else ActiveCount(s)
  {
    var n := ActiveCount(s);
    if n < |s| {
      assert !Active(s[n]);
    }
  }

  /** Conversely, a sequence whose first `n` fields and no others are active has them as a prefix and counts `n`. */
  lemma {:induction false} CountOfPrefix(s: seq<SortField>, n: nat)
    requires n <= |s|
    requires forall i :: 0 <= i < |s| ==> (Active(s[i]) <==> i < n)
    ensures ActivePrefix(s) && ActiveCount(s) == n
  {
    if s != [] {
      var init := s[..|s| - 1];
      if n == |s| {
        CountOfPrefix(init, n - 1);
      } else {
        CountOfPrefix(init, n);
      }
    }
  }

  /**
   * With the active fields a prefix, the sorters are exactly the active
   * fields in array order, each descending when its field sorts descending.
   */
  lemma {:induction false} SortersOfPrefix(s: seq<SortField>)
    requires ActivePrefix(s)
    ensures |Sorters(s)| == ActiveCount(s)
    ensures forall i :: 0 <= i < ActiveCount(s) ==>
      Sorters(s)[i] == Sorter(s[i].path, s[i].sortDescending)
  {
    if s != [] {
      var init := s[..|s| - 1];
      var n := ActiveCount(s);
      if Active(s[|s| - 1]) {
        CountOfPrefix(init, n - 1);
      } else {
        CountOfPrefix(init, n);
      }
      SortersOfPrefix(init);
    }
  }

  /**
   * The move flags: "up" exactly for an active field that is not first,
   * "down" exactly for an active field whose successor is active; with the
   * active fields a prefix, "down" marks every active field but the last.
   * Nothing else about a field changes.
   */
  lemma MoveFlags(s: seq<SortField>)
    ensures var r := WithMoveFlags(s);
      forall i :: 0 <= i < |s| ==>
        && r[i].canMoveUp == (Active(s[i]) && i > 0)
        && r[i].canMoveDown == (Active(s[i]) && i + 1 < |s| && Active(s[i + 1]))
        && r[i].(canMoveUp := s[i].canMoveUp, canMoveDown := s[i].canMoveDown) == s[i]
    ensures ActivePrefix(s) ==>
      forall i :: 0 <= i < |s| ==>
        && WithMoveFlags(s)[i].canMoveUp == (0 < i < ActiveCount(s))
        && WithMoveFlags(s)[i].canMoveDown == (i + 1 < ActiveCount(s))
  {
    if ActivePrefix(s) {
      forall i | 0 <= i < |s|
        ensures WithMoveFlags(s)[i].canMoveUp == (0 < i < ActiveCount(s))
        ensures WithMoveFlags(s)[i].canMoveDown == (i + 1 < ActiveCount(s))
      {
        MoveFlagsOfPrefixAt(s, i);
      }
    }
  }

  lemma MoveFlagsOfPrefixAt(s: seq<SortField>, i: nat)
    requires ActivePrefix(s) && i < |s|
    ensures WithMoveFlags(s)[i].canMoveUp == (0 < i < ActiveCount(s))
    ensures WithMoveFlags(s)[i].canMoveDown == (i + 1 < ActiveCount(s))
  {
    if i + 1 < |s| {
      assert Active(s[i + 1]) <==> i + 1 < ActiveCount(s);
    }
  }

  /** Recomputing the move flags changes neither the order, the active fields, the count nor the sorters. */
  lemma {:induction false} MoveFlagsKeepSort(s: seq<SortField>)
    ensures Paths(WithMoveFlags(s)) == Paths(s)
    ensures ActivePrefix(WithMoveFlags(s)) <==> ActivePrefix(s)
    ensures ActiveCount(WithMoveFlags(s)) == ActiveCount(s)
    ensures Sorters(WithMoveFlags(s)) == Sorters(s)
  {
    var r := WithMoveFlags(s);
    assert forall i :: 0 <= i < |s| ==> Active(r[i]) == Active(s[i]);
    SameSortKeys(r, s);
  }

  /** Two sequences that agree on each field's path and direction flags count and sort alike. */
  lemma {:induction false} SameSortKeys(a: seq<SortField>, b: seq<SortField>)
    requires |a| == |b|
    requires forall i :: 0 <= i < |a| ==>
      a[i].path == b[i].path && a[i].sortAscending == b[i].sortAscending && a[i].sortDescending == b[i].sortDescending
    ensures ActiveCount(a) == ActiveCount(b) && Sorters(a) == Sorters(b)
  {
    if a != [] {
      SameSortKeys(a[..|a| - 1], b[..|b| - 1]);
    }
  }

  lemma {:induction false} SwapPermutes(s: seq<SortField>, i: nat, j: nat)
    requires i < |s| && j < |s|
    ensures multiset(Paths(Swap(s, i, j))) == multiset(Paths(s))
  {
    var p := Paths(s);
    assert Paths(Swap(s, i, j)) == p[i := p[j]][j := p[i]];
  }

  // ---------------------------------------------------------------------
  // _onPressSortDirection
  // ---------------------------------------------------------------------

  /**
   * Activating an inactive field while the active fields form a prefix
   * swaps it with the first inactive field, the one at the active count:
   * the fields before that slot are untouched, the active fields still form
   * a prefix and there is one more of them.
   */
  lemma ActivateAppends(s: seq<SortField>, sel: nat, d: Direction)
    requires ActivePrefix(s) && sel < |s| && !Active(s[sel]) && d != Unsorted
    ensures var n := ActiveCount(s);
      var r := PressDirection(s, sel, d);
      && n < |s|
      && Destination(s, sel, d) == n
      && r == Swap(s, sel, n)[n := WithDirection(s[sel], d)]
      && r[..n] == s[..n]
      && ActivePrefix(r)
      && ActiveCount(r) == n + 1
  {
    ActivePrefixCount(s);
    var n := ActiveCount(s);
    PressActivates(s, sel, d);
    var r := Swap(s, sel, n)[n := WithDirection(s[sel], d)];
    forall i | 0 <= i < |r| ensures (Active(r[i]) <==> i < n + 1) && (i < n ==> r[i] == s[i]) {
      if i < n {
        assert r[i] == s[i];
      } else if i == n {
      } else if i == sel {
        assert r[i] == s[n];
      } else {
        assert r[i] == s[i];
      }
    }
    assert r[..n] == s[..n];
    CountOfPrefix(r, n + 1);
  }

  /** Activating an inactive field swaps it into the first inactive slot and writes its flags there. */
  lemma PressActivates(s: seq<SortField>, sel: nat, d: Direction)
    requires sel < |s| && !Active(s[sel]) && d != Unsorted
    ensures 0 <= FirstInactive(s)
    ensures Destination(s, sel, d) == FirstInactive(s)
    ensures PressDirection(s, sel, d) == Swap(s, sel, FirstInactive(s))[FirstInactive(s) := WithDirection(s[sel], d)]
  {
  }

  /**
   * Deactivating an active field while at least one field is inactive sinks
   * it to the last active index: it becomes the first inactive field, every
   * other field keeps its relative order, the active fields still form a
   * prefix and there is one fewer of them.
   */
  lemma DeactivateSinks(s: seq<SortField>, sel: nat)
    requires ActivePrefix(s) && sel < |s| && Active(s[sel]) && ActiveCount(s) < |s|
    ensures var n := ActiveCount(s);
      var r := PressDirection(s, sel, Unsorted);
      && 0 < n
      && Destination(s, sel, Unsorted) == n - 1
      && r[n - 1] == WithDirection(s[sel], Unsorted)
      && RemoveAt(r, n - 1) == RemoveAt(s, sel)
      && ActivePrefix(r)
      && ActiveCount(r) == n - 1
  {
    ActivePrefixCount(s);
    var n := ActiveCount(s);
    assert sel < n;
    DeactivateBeforeBoundary(s, sel, n);
  }

  /** The removal of the active field at `sel` when exactly the first `n` fields are active and `n` is not the length. */
  lemma DeactivateBeforeBoundary(s: seq<SortField>, sel: nat, n: nat)
    requires sel < n < |s| && FirstInactive(s) == n
    requires forall i :: 0 <= i < |s| ==> (Active(s[i]) <==> i < n)
    ensures var r := PressDirection(s, sel, Unsorted);
      && Destination(s, sel, Unsorted) == n - 1
      && r[n - 1] == WithDirection(s[sel], Unsorted)
      && RemoveAt(r, n - 1) == RemoveAt(s, sel)
      && ActivePrefix(r)
      && ActiveCount(r) == n - 1
  {
    RemovalSinksToBoundary(s, sel, n);
    ClearedAfterSink(s, sel, n);
  }

  /** The removal of the active field at `sel` when the first inactive index is `n`. */
  lemma RemovalSinksToBoundary(s: seq<SortField>, sel: nat, n: nat)
    requires sel < n < |s| && FirstInactive(s) == n && Active(s[sel])
    ensures Destination(s, sel, Unsorted) == n - 1
    ensures PressDirection(s, sel, Unsorted) == Sink(s, sel, n - 1)[n - 1 := WithDirection(s[sel], Unsorted)]
  {
    SinkMoves(s, sel, n - 1);
  }

  /** Sinking the field at `sel` to `n - 1` and clearing it, when exactly the first `n` fields are active. */
  lemma ClearedAfterSink(s: seq<SortField>, sel: nat, n: nat)
    requires sel < n < |s|
    requires forall i :: 0 <= i < |s| ==> (Active(s[i]) <==> i < n)
    ensures var r := Sink(s, sel, n - 1)[n - 1 := WithDirection(s[sel], Unsorted)];
      && RemoveAt(r, n - 1) == RemoveAt(s, sel)
      && ActivePrefix(r)
      && ActiveCount(r) == n - 1
  {
    var t := Sink(s, sel, n - 1);
    SinkKeepsOthersInOrder(s, sel, n - 1);
    RemoveReplaced(t, n - 1, WithDirection(s[sel], Unsorted));
    var r := t[n - 1 := WithDirection(s[sel], Unsorted)];
    SinkActivity(s, sel, n);
    CountOfPrefix(r, n - 1);
  }

  /** Removing a field that was just replaced removes the same field as before. */
  lemma RemoveReplaced(t: seq<SortField>, k: nat, f: SortField)
    requires k < |t|
    ensures RemoveAt(t[k := f], k) == RemoveAt(t, k)
  {
    assert t[k := f][..k] == t[..k] && t[k := f][k + 1..] == t[k + 1..];
  }

  /** After the sink and the clearing, exactly the first `n - 1` fields are active. */
  lemma SinkActivity(s: seq<SortField>, sel: nat, n: nat)
    requires sel < n < |s|
    requires forall i :: 0 <= i < |s| ==> (Active(s[i]) <==> i < n)
    ensures var r := Sink(s, sel, n - 1)[n - 1 := WithDirection(s[sel], Unsorted)];
      forall i :: 0 <= i < |r| ==> (Active(r[i]) <==> i < n - 1)
  {
    var t := Sink(s, sel, n - 1);
    SinkMoves(s, sel, n - 1);
    var r := t[n - 1 := WithDirection(s[sel], Unsorted)];
    forall i | 0 <= i < |r| ensures Active(r[i]) <==> i < n - 1 {
      if i < sel {
        assert r[i] == s[i];
      } else if i < n - 1 {
        assert r[i] == s[i + 1];
      } else if i > n - 1 {
        assert r[i] == s[i];
      }
    }
  }

  /**
   * When every field is active there is no first inactive index (-1), the
   * sink loop does not run and the field is cleared where it stands; the
   * active fields then still form a prefix only if it was the last field.
   */
  lemma DeactivateWhenAllActive(s: seq<SortField>, sel: nat)
    requires sel < |s| && forall i :: 0 <= i < |s| ==> Active(s[i])
    ensures var r := PressDirection(s, sel, Unsorted);
      && r == s[sel := WithDirection(s[sel], Unsorted)]
      && (ActivePrefix(r) <==> sel == |s| - 1)
  {
    var r := PressDirection(s, sel, Unsorted);
    assert FirstInactive(s) == -1;
    if sel < |s| - 1 {
      assert Active(r[sel + 1]) && !Active(r[sel]);
      NoGap(r);
    } else {
      CountOfPrefix(r, |s| - 1);
    }
  }

  /**
   * A direction change on an active field, or a removal on an inactive one,
   * only writes the flags: nothing is reordered, and the active fields and
   * their count stay as they were.
   */
  lemma InPlaceDirectionChange(s: seq<SortField>, sel: nat, d: Direction)
    requires sel < |s| && (Active(s[sel]) <==> d != Unsorted)
    ensures PressDirection(s, sel, d) == s[sel := WithDirection(s[sel], d)]
    ensures Paths(PressDirection(s, sel, d)) == Paths(s)
    ensures ActivePrefix(PressDirection(s, sel, d)) <==> ActivePrefix(s)
    ensures ActiveCount(PressDirection(s, sel, d)) == ActiveCount(s)
  {
    PressInPlace(s, sel, d);
    SameActivity(s, sel, WithDirection(s[sel], d));
  }

  lemma PressInPlace(s: seq<SortField>, sel: nat, d: Direction)
    requires sel < |s| && (Active(s[sel]) <==> d != Unsorted)
    ensures PressDirection(s, sel, d) == s[sel := WithDirection(s[sel], d)]
  {
    assert Reordered(s, sel, d) == s;
  }

  /** Replacing one field by another with the same path and activity keeps the paths, the prefix and the count. */
  lemma SameActivity(s: seq<SortField>, k: nat, f: SortField)
    requires k < |s| && Active(f) == Active(s[k]) && f.path == s[k].path
    ensures Paths(s[k := f]) == Paths(s)
    ensures ActivePrefix(s[k := f]) <==> ActivePrefix(s)
    ensures ActiveCount(s[k := f]) == ActiveCount(s)
  {
    var r := s[k := f];
    assert forall i :: 0 <= i < |s| ==> Active(r[i]) == Active(s[i]);
    CountLocal(s, k, f);
  }

  /** Replacing one field by another with the same activity keeps the count. */
  lemma {:induction false} CountLocal(s: seq<SortField>, k: nat, f: SortField)
    requires k < |s| && Active(f) == Active(s[k])
    ensures ActiveCount(s[k := f]) == ActiveCount(s)
  {
    var t := s[k := f];
    if k < |s| - 1 {
      assert t[..|t| - 1] == s[..|s| - 1][k := f];
      CountLocal(s[..|s| - 1], k, f);
    } else {
      assert t[..|t| - 1] == s[..|s| - 1];
    }
  }

  /**
   * After any press the selected field (found by its path) sorts exactly in
   * the pressed direction: ascending only for "ASC", descending only for
   * "DESC", neither for "". The fields are a permutation of the old ones.
   */
  lemma PressSetsDirection(s: seq<SortField>, sel: nat, d: Direction)
    requires sel < |s|
    ensures var r := PressDirection(s, sel, d);
      var k := Destination(s, sel, d);
      && |r| == |s|
      && r[k].path == s[sel].path
      && r[k].sortAscending == (d == Ascending)
      && r[k].sortDescending == (d == Descending)
      && multiset(Paths(r)) == multiset(Paths(s))
  {
    var t := Reordered(s, sel, d);
    var k := Destination(s, sel, d);
    ReorderedPermutes(s, sel, d);
    ReplaceKeepsPaths(t, k, WithDirection(t[k], d));
  }

  /** The reordering carries the selected field to its destination and permutes the fields. */
  lemma ReorderedPermutes(s: seq<SortField>, sel: nat, d: Direction)
    requires sel < |s|
    ensures var t := Reordered(s, sel, d);
      && |t| == |s|
      && t[Destination(s, sel, d)] == s[sel]
      && multiset(Paths(t)) == multiset(Paths(s))
  {
    var first := FirstInactive(s);
    if !Active(s[sel]) && d != Unsorted {
      SwapPermutes(s, sel, first);
    } else if Active(s[sel]) && d == Unsorted && sel <= first - 1 {
      SinkCarries(s, sel, first - 1);
    } else {
      assert Reordered(s, sel, d) == s;
    }
  }

  /** The sink loop leaves the field it started with at its end, and permutes the fields. */
  lemma SinkCarries(s: seq<SortField>, from: nat, to: int)
    requires from <= to < |s|
    ensures |Sink(s, from, to)| == |s| && Sink(s, from, to)[to] == s[from]
    ensures multiset(Paths(Sink(s, from, to))) == multiset(Paths(s))
  {
    SinkMoves(s, from, to);
    SinkPermutes(s, from, to);
  }

  /** Replacing a field by one with the same path keeps the paths. */
  lemma ReplaceKeepsPaths(s: seq<SortField>, k: nat, f: SortField)
    requires k < |s| && f.path == s[k].path
    ensures Paths(s[k := f]) == Paths(s)
  {
    assert forall i :: 0 <= i < |s| ==> Paths(s[k := f])[i] == Paths(s)[i];
  }

  lemma {:induction false} SinkPermutes(s: seq<SortField>, from: nat, to: int)
    requires from < |s| && to < |s|
    ensures multiset(Paths(Sink(s, from, to))) == multiset(Paths(s))
    decreases if to <= from then 0 else to - from
  {
    if to > from {
      SinkPermutes(s, from, to - 1);
      SwapPermutes(Sink(s, from, to - 1), to - 1, to);
    }
  }

  /** A press never gives two fields the same path. */
  lemma PressKeepsPathsDistinct(s: seq<SortField>, sel: nat, d: Direction)
    requires sel < |s| && DistinctPaths(s)
    ensures DistinctPaths(PressDirection(s, sel, d))
  {
    var first := FirstInactive(s);
    var t := Reordered(s, sel, d);
    if !Active(s[sel]) && d != Unsorted {
      SwapKeepsPathsDistinct(s, sel, first);
    } else if Active(s[sel]) && d == Unsorted && sel <= first - 1 {
      SinkKeepsPathsDistinct(s, sel, first - 1);
    } else {
      assert t == s;
    }
    var k := Destination(s, sel, d);
    ReplaceKeepsPathsDistinct(t, k, WithDirection(t[k], d));
  }

  lemma SwapKeepsPathsDistinct(s: seq<SortField>, i: nat, j: nat)
    requires i < |s| && j < |s| && DistinctPaths(s)
    ensures DistinctPaths(Swap(s, i, j))
  {
    var t := Swap(s, i, j);
    forall a, b | 0 <= a < b < |t| ensures t[a].path != t[b].path {
      var a', b' := SwapSource(a, i, j), SwapSource(b, i, j);
      assert t[a] == s[a'] && t[b] == s[b'] && a' != b';
    }
  }

  /** Where a swap of `i` and `j` takes the field it leaves at index `k`. */
  function SwapSource(k: nat, i: nat, j: nat): nat
  {
    if k == i then j else if k == j then i else k
  }

  lemma ReplaceKeepsPathsDistinct(s: seq<SortField>, k: nat, f: SortField)
    requires k < |s| && f.path == s[k].path && DistinctPaths(s)
    ensures DistinctPaths(s[k := f])
  {
    assert forall i :: 0 <= i < |s| ==> s[k := f][i].path == s[i].path;
  }

  lemma MoveFlagsKeepPathsDistinct(s: seq<SortField>)
    requires DistinctPaths(s)
    ensures DistinctPaths(WithMoveFlags(s))
  {
    assert forall i :: 0 <= i < |s| ==> WithMoveFlags(s)[i].path == s[i].path;
  }

  /** Where the sink loop takes the field it leaves at index `i`. */
  function SinkSource(i: nat, from: nat, to: nat): nat
  {
    if i < from then i else if i < to then i + 1 else if i == to then from else i
  }

  lemma SinkKeepsPathsDistinct(s: seq<SortField>, from: nat, to: int)
    requires from <= to < |s| && DistinctPaths(s)
    ensures DistinctPaths(Sink(s, from, to))
  {
    SinkMoves(s, from, to);
    var t := Sink(s, from, to);
    forall i, j | 0 <= i < j < |t| ensures t[i].path != t[j].path {
      var a, b := SinkSource(i, from, to), SinkSource(j, from, to);
      assert t[i] == s[a] && t[j] == s[b] && a != b;
    }
  }

  // ---------------------------------------------------------------------
  // The intended behaviour of a removal when every field is active
  // ---------------------------------------------------------------------

  /**
   * `_onPressSortDirection` with the last active index taken as the last
   * index of the array when no field is inactive, so that a removal always
   * sinks the field to the end of the active fields.
   */
  function PressDirectionSinkingToEnd(s: seq<SortField>, sel: nat, d: Direction): seq<SortField>
    requires sel < |s|
  {
    var first := FirstInactive(s);
    var lastActive := (if first == -1 then |s| else first) - 1;
    if Active(s[sel]) && d == Unsorted then
      var t := Sink(s, sel, lastActive);
      var k := if sel < lastActive then lastActive else sel;
      t[k := WithDirection(t[k], d)]
    else PressDirection(s, sel, d)
  }

  /** With the corrected last active index every press keeps the active fields a prefix. */
  lemma SinkingToEndKeepsPrefix(s: seq<SortField>, sel: nat, d: Direction)
    requires ActivePrefix(s) && sel < |s|
    ensures ActivePrefix(PressDirectionSinkingToEnd(s, sel, d))
  {
    ActivePrefixCount(s);
    var n := ActiveCount(s);
    if Active(s[sel]) && d == Unsorted {
      if n < |s| {
        DeactivateSinks(s, sel);
      } else {
        SinkMoves(s, sel, |s| - 1);
        var r := PressDirectionSinkingToEnd(s, sel, d);
        assert forall i :: 0 <= i < |r| ==> (Active(r[i]) <==> i < |s| - 1);
        CountOfPrefix(r, |s| - 1);
      }
    } else if !Active(s[sel]) && d != Unsorted {
      ActivateAppends(s, sel, d);
    } else {
      InPlaceDirectionChange(s, sel, d);
    }
  }

  /** Every field of `order` sorting ascending, in that order, with the move flags `_setSortFieldCanMove` gives. */
  function AllAscending(order: seq<FieldId>): seq<SortField>
  {
    seq(|order|, i requires 0 <= i < |order| =>
      SortField(order[i], Label(order[i]), true, false, i > 0, i < |order| - 1))
  }

  /**
   * The removal defect on the fields the board actually has: with all nine
   * sortable fields active, removing any of them but the last leaves an
   * inactive field before active ones; the corrected press does not.
   */
  lemma RemovingFirstOfAllActiveBreaksPrefix(sel: nat)
    requires sel < |SortableFields| - 1
    ensures var s := AllAscending(SortableFields);
      && Paths(s) == SortableFields
      && ActivePrefix(s)
      && !ActivePrefix(PressDirection(s, sel, Unsorted))
      && ActivePrefix(PressDirectionSinkingToEnd(s, sel, Unsorted))
  {
    var s := AllAscending(SortableFields);
    CountOfPrefix(s, |s|);
    DeactivateWhenAllActive(s, sel);
    SinkingToEndKeepsPrefix(s, sel, Unsorted);
  }

  // ---------------------------------------------------------------------
  // _onPressSortMovePosition
  // ---------------------------------------------------------------------

  /**
   * A move swaps the field with its neighbour exactly when the target index
   * lies in [0, length); otherwise nothing changes. Either way the result
   * is a permutation of the input.
   */
  lemma MoveIsBoundedSwap(s: seq<SortField>, sel: nat, change: int)
    requires sel < |s|
    ensures var r := MovePosition(s, sel, change);
      var target := sel + change;
      && |r| == |s|
      && (0 <= target < |s| ==> r[target] == s[sel] && r[sel] == s[target])
      && (0 <= target < |s| ==> forall k :: 0 <= k < |s| && k != sel && k != target ==> r[k] == s[k])
      && (!(0 <= target < |s|) ==> r == s)
      && multiset(Paths(r)) == multiset(Paths(s))
  {
    var target := sel + change;
    if 0 <= target < |s| {
      SwapPermutes(s, sel, target);
    }
  }

  /**
   * A move the flags allow (up when `canMoveUp`, down when `canMoveDown`)
   * keeps the active fields a prefix and their count, and exchanges the two
   * sorters of the swapped fields.
   */
  lemma AllowedMoveKeepsPrefix(s: seq<SortField>, sel: nat, change: int)
    requires ActivePrefix(s) && sel < |s|
    requires (change == -1 && WithMoveFlags(s)[sel].canMoveUp)
          || (change == 1 && WithMoveFlags(s)[sel].canMoveDown)
    ensures var r := MovePosition(s, sel, change);
      && sel < ActiveCount(s)
      && 0 <= sel + change < ActiveCount(s)
      && ActivePrefix(r)
      && ActiveCount(r) == ActiveCount(s)
      && Sorters(r) == Sorters(s)[sel := Sorters(s)[sel + change]][sel + change := Sorters(s)[sel]]
  {
    MoveFlagsOfPrefixAt(s, sel);
    var target: nat := sel + change;
    assert MovePosition(s, sel, change) == Swap(s, sel, target);
    SwapWithinPrefix(s, sel, target);
  }

  /** Swapping two active fields keeps the prefix and the count, and swaps their sorters. */
  lemma SwapWithinPrefix(s: seq<SortField>, i: nat, j: nat)
    requires ActivePrefix(s) && i < ActiveCount(s) && j < ActiveCount(s)
    ensures var r := Swap(s, i, j);
      && ActivePrefix(r)
      && ActiveCount(r) == ActiveCount(s)
      && Sorters(r) == Sorters(s)[i := Sorters(s)[j]][j := Sorters(s)[i]]
  {
    var n := ActiveCount(s);
    var r := Swap(s, i, j);
    forall k | 0 <= k < |r| ensures Active(r[k]) <==> k < n {
      if k == i {
        assert r[k] == s[j];
      } else if k == j {
        assert r[k] == s[i];
      } else {
        assert r[k] == s[k];
      }
    }
    CountOfPrefix(r, n);
    SwapSorters(s, i, j);
  }

  lemma SwapSorters(s: seq<SortField>, i: nat, j: nat)
    requires ActivePrefix(s) && i < ActiveCount(s) && j < ActiveCount(s)
    requires ActivePrefix(Swap(s, i, j)) && ActiveCount(Swap(s, i, j)) == ActiveCount(s)
    ensures Sorters(Swap(s, i, j)) == Sorters(s)[i := Sorters(s)[j]][j := Sorters(s)[i]]
  {
    var r := Swap(s, i, j);
    SortersOfPrefix(s);
    SortersOfPrefix(r);
    var a, b := Sorters(r), Sorters(s)[i := Sorters(s)[j]][j := Sorters(s)[i]];
    forall k | 0 <= k < |a| ensures a[k] == b[k] {
      if k == i {
        assert r[k] == s[j];
      } else if k == j {
        assert r[k] == s[i];
      } else {
        assert r[k] == s[k];
      }
    }
  }

  // ---------------------------------------------------------------------
  // What the sort dialog shows
  // ---------------------------------------------------------------------

  /** There is an active field exactly when the active count is non-zero. */
  lemma {:induction false} CountPositive(s: seq<SortField>)
    ensures ActiveCount(s) > 0 <==> exists i :: 0 <= i < |s| && Active(s[i])
  {
    if s != [] {
      var init := s[..|s| - 1];
      CountPositive(init);
      if exists i :: 0 <= i < |init| && Active(init[i]) {
        var i :| 0 <= i < |init| && Active(init[i]);
        assert Active(s[i]);
      }
      if exists i :: 0 <= i < |s| && Active(s[i]) {
        var i :| 0 <= i < |s| && Active(s[i]);
        if i < |s| - 1 {
          assert Active(init[i]);
        }
      }
    }
  }

  /**
   * The sort dialog's formatters, fed the engine's state, show the
   * "modify" button of a field exactly when the field is active and the
   * "modify" column exactly when some field is active.
   */
  lemma SortDialogVisibility(s: seq<SortField>)
    ensures forall i :: 0 <= i < |s| ==>
      (ModifyActiveSortFieldButtonVisible(Bool(s[i].sortAscending), Bool(s[i].sortDescending)) <==> Active(s[i]))
    ensures ModifyActiveSortColumnVisible(Num(ActiveCount(s))) <==> exists i :: 0 <= i < |s| && Active(s[i])
  {
    CountPositive(s);
  }

  // ---------------------------------------------------------------------
  // The sort settings of one board
  // ---------------------------------------------------------------------

  /** The sort part of the view model and the sort applied to the table. */
  class SortSettings {
    /** `/sort/fields` */
    var fields: array<SortField>
    /** `/sort/activeFieldCount` */
    var activeFieldCount: nat
    /** The sorters this component last applied to the table's item binding. */
    var sorters: seq<Sorter>

    ghost predicate Valid()
      reads this, fields
    {
      DistinctPaths(fields[..])
    }

    /**
     * `_initSortFields` for a given initial order of the nine sortable
     * fields (`Catalog.SortableFields`): every field inactive with both move flags false, no active field.
     */
    constructor (order: seq<FieldId>)
      requires IsSortableOrder(order)
      requires forall i, j :: 0 <= i < j < |order| ==> order[i] != order[j]
      ensures Valid() && fresh(fields)
      ensures fields[..] == seq(|order|, i requires 0 <= i < |order| =>
        SortField(order[i], Label(order[i]), false, false, false, false))
      ensures activeFieldCount == ViewModelData.sortActiveFieldCount
      ensures sorters == []
    {
      fields := new SortField[|order|](i requires 0 <= i < |order| =>
        SortField(order[i], Label(order[i]), false, false, false, false));
      activeFieldCount := ViewModelData.sortActiveFieldCount;
      sorters := [];
      new;
      ghost var s := fields[..];
      SetSortFieldCanMove();
      assert fields[..] == s;
      UpdateSortActiveFieldCount();
      NoneActive(s);
    }

    /** `_swapArrayElements` */
    method SwapArrayElements(i: nat, j: nat)
      requires i < fields.Length && j < fields.Length
      modifies fields
      ensures fields[..] == Swap(old(fields[..]), i, j)
    {
      var temporary := fields[i];
      fields[i] := fields[j];
      fields[j] := temporary;
    }

    /** `_setSortFieldCanMove` applied to every field, in array order. */
    method SetSortFieldCanMove()
      modifies fields
      ensures fields[..] == WithMoveFlags(old(fields[..]))
    {
      ghost var s := fields[..];
      for i := 0 to fields.Length
        invariant forall k :: 0 <= k < i ==> fields[k] == WithMoveFlags(s)[k]
        invariant forall k :: i <= k < fields.Length ==> fields[k] == s[k]
      {
        var field := fields[i];
        if field.sortAscending || field.sortDescending {
          var next := i + 1 < fields.Length && (fields[i + 1].sortAscending || fields[i + 1].sortDescending);
          fields[i] := field.(canMoveUp := i > 0, canMoveDown := next);
        } else {
          fields[i] := field.(canMoveUp := false, canMoveDown := false);
        }
      }
    }

    /** `_updateSortActiveFieldCount` */
    method UpdateSortActiveFieldCount()
      modifies this
      ensures activeFieldCount == ActiveCount(fields[..])
      ensures fields == old(fields) && sorters == old(sorters)
    {
      activeFieldCount := ActiveCount(fields[..]);
    }

    /** `_updateTableSort` */
    method UpdateTableSort()
      modifies this
      ensures sorters == Sorters(fields[..])
      ensures fields == old(fields) && activeFieldCount == old(activeFieldCount)
    {
      sorters := Sorters(fields[..]);
    }

    /**
     * `_onPressSortDirection` for the field shown in row `selected`: the
     * fields become the pressed configuration with recomputed move flags,
     * and the active count and the table's sorters follow the new fields.
     */
    method PressSortDirection(d: Direction, selected: nat)
      requires Valid() && selected < fields.Length
      modifies this, fields
      ensures Valid() && fields == old(fields)
      ensures fields[..] == WithMoveFlags(PressDirection(old(fields[..]), selected, d))
      ensures activeFieldCount == ActiveCount(fields[..])
      ensures sorters == Sorters(fields[..])
    {
      ghost var s := fields[..];
      var at := Reorder(d, selected);
      fields[at] := WithDirection(fields[at], d);
      assert fields[..] == PressDirection(s, selected, d);
      PressKeepsPathsDistinct(s, selected, d);
      MoveFlagsKeepPathsDistinct(fields[..]);
      SetSortFieldCanMove();
      UpdateSortActiveFieldCount();
      UpdateTableSort();
    }

    /**
     * The reordering part of `_onPressSortDirection`: the field is looked up
     * by its path, then an activated field is swapped into the first
     * inactive slot and a deactivated one sinks to the last active index.
     * The result is the index the field ends up at.
     */
    method Reorder(d: Direction, selected: nat) returns (at: nat)
      requires Valid() && selected < fields.Length
      modifies fields
      ensures fields[..] == Reordered(old(fields[..]), selected, d)
      ensures at == Destination(old(fields[..]), selected, d)
    {
      ghost var s := fields[..];
      var first := FirstInactive(fields[..]);
      var lastActive := first - 1;
      var index := IndexOfPath(fields[..], fields[selected].path);
      assert index == selected;
      var oldActive := fields[selected].sortAscending || fields[selected].sortDescending;
      var newActive := d != Unsorted;
      at := index;
      if !oldActive && newActive {
        assert Reordered(s, selected, d) == Swap(s, index, first);
        SwapArrayElements(index, first);
        at := first;
      } else if oldActive && !newActive {
        assert Reordered(s, selected, d) == Sink(s, index, lastActive);
        at := SinkField(index, lastActive);
      } else {
        assert Reordered(s, selected, d) == s;
      }
    }

    /** The sink loop of `_onPressSortDirection`: adjacent swaps carry the field at `index` down to `lastActive`. */
    method SinkField(index: nat, lastActive: int) returns (x: nat)
      requires index < fields.Length && lastActive < fields.Length
      modifies fields
      ensures fields[..] == Sink(old(fields[..]), index, lastActive)
      ensures x == if index < lastActive then lastActive else index
    {
      ghost var s := fields[..];
      x := index;
      while x < lastActive
        invariant index <= x && (x <= lastActive || x == index)
        invariant fields[..] == Sink(s, index, x)
        decreases lastActive - x
      {
        SinkStep(s, index, x);
        SwapArrayElements(x, x + 1);
        x := x + 1;
      }
    }

    /**
     * `_onPressSortMovePosition`: when `selected + change` is an index of
     * the array the two fields are swapped, the move flags recomputed and
     * the sorters re-applied; otherwise nothing happens. The active count
     * is not touched.
     */
    method PressSortMovePosition(change: int, selected: nat)
      requires Valid() && selected < fields.Length
      modifies this, fields
      ensures Valid() && fields == old(fields) && activeFieldCount == old(activeFieldCount)
      ensures var target := selected + change;
        if 0 <= target < fields.Length then
          fields[..] == WithMoveFlags(MovePosition(old(fields[..]), selected, change))
          && sorters == Sorters(fields[..])
        else
          fields[..] == old(fields[..]) && sorters == old(sorters)
    {
      var index := IndexOfPath(fields[..], fields[selected].path);
      assert index == selected;
      var newIndex := index + change;
      if newIndex > -1 && newIndex < fields.Length {
        SwapArrayElements(index, newIndex);
        SwapKeepsPathsDistinct(old(fields[..]), index, newIndex);
        MoveFlagsKeepPathsDistinct(fields[..]);
        SetSortFieldCanMove();
        UpdateTableSort();
      }
    }
  }

  lemma NoneActive(s: seq<SortField>)
    requires forall i :: 0 <= i < |s| ==> !Active(s[i])
    ensures ActiveCount(s) == 0
  {
    CountOfPrefix(s, 0);
  }
}
