/**
 * The table's row-selection state (ZeTable.tsx, lines 40-59): a header
 * "select all" flag and the list of checked row indices, changed only by the
 * two checkbox handlers. Each handler is one atomic transition.
 */
module Selection {
  import opened Seqs

  /** `selectAll` mirrors the header checkbox; `selectedRows` lists checked row indices. */
  datatype SelState = SelState(selectAll: bool, selectedRows: seq<nat>)

  /** Both `useState` hooks start empty: nothing selected, header unchecked. */
  const Initial: SelState := SelState(false, [])

  /** The user-facing events that change the selection. */
  datatype Event =
    | RowClicked(rowIndex: nat)     // a body-row checkbox changed
    | HeaderClicked(rowCount: nat)  // the header checkbox changed while `data` had `rowCount` rows

  /** `rows.filter((row) => row !== i)`. */
  function Without(rows: seq<nat>, i: nat): seq<nat>
  {
    Filter(rows, (row: nat) => row != i)
  }

  /** `data.map((_, index) => index)` for `rowCount` rows: every index, ascending. */
  function AllIndices(rowCount: nat): (r: seq<nat>)
    ensures |r| == rowCount
    ensures forall k :: 0 <= k < rowCount ==> r[k] == k
  {
    if rowCount == 0 then [] else AllIndices(rowCount - 1) + [rowCount - 1]
  }

  /** `handleCheckboxChange(i)`: flips whether `i` is selected. */
  function ToggleRow(st: SelState, i: nat): (r: SelState)
    ensures r.selectAll == st.selectAll
    ensures i in r.selectedRows <==> i !in st.selectedRows
    ensures forall j :: j != i ==> (j in r.selectedRows <==> j in st.selectedRows)
  {
    if i in st.selectedRows then
      var rest := Without(st.selectedRows, i);
      assert forall k :: 0 <= k < |rest| ==> rest[k] != i;
      st.(selectedRows := rest)
    else
      st.(selectedRows := st.selectedRows + [i])
  }

  /** `handleSelectAllChange()` over `rowCount` rows: clear or fill the list, then flip the flag. */
  function ToggleSelectAll(st: SelState, rowCount: nat): (r: SelState)
    ensures r.selectAll == !st.selectAll
    ensures st.selectAll ==> r.selectedRows == []
    ensures !st.selectAll ==> |r.selectedRows| == rowCount
    ensures !st.selectAll ==> forall k :: 0 <= k < rowCount ==> r.selectedRows[k] == k
  {
    SelState(!st.selectAll, if st.selectAll then [] else AllIndices(rowCount))
  }

  /** One event, dispatched to its handler. */
  function Step(st: SelState, e: Event): SelState
  {
    match e
    case RowClicked(i) => ToggleRow(st, i)
    case HeaderClicked(n) => ToggleSelectAll(st, n)
  }

  /** The state after the events `es`, delivered in order. */
  function Run(st: SelState, es: seq<Event>): SelState
    decreases |es|
  {
    if |es| == 0 then st else Run(Step(st, es[0]), es[1..])
  }

  /** Selecting an unselected row appends it at the end and keeps every earlier entry in place. */
  lemma ToggleAbsentAppends(st: SelState, i: nat)
    requires i !in st.selectedRows
    ensures var r := ToggleRow(st, i).selectedRows;
      && |r| == |st.selectedRows| + 1
      && r[..|st.selectedRows|] == st.selectedRows
      && r[|st.selectedRows|] == i
  {
  }

  /**
   * Deselecting a row deletes every occurrence of it and keeps the remaining
   * entries in their order, each as often as before.
   */
  lemma TogglePresentKeepsOrder(st: SelState, i: nat)
    requires i in st.selectedRows
    ensures IsSubsequence(ToggleRow(st, i).selectedRows, st.selectedRows)
    ensures i !in ToggleRow(st, i).selectedRows
    ensures multiset(ToggleRow(st, i).selectedRows) == multiset(st.selectedRows)[i := 0]
  {
    FilterIsSubsequence(st.selectedRows, (row: nat) => row != i);
    WithoutCounts(st.selectedRows, i);
  }

  /** Removing `i` zeroes its count and leaves every other index's count alone. */
  lemma {:induction false} WithoutCounts(rows: seq<nat>, i: nat)
    ensures multiset(Without(rows, i)) == multiset(rows)[i := 0]
    decreases |rows|
  {
    if |rows| > 0 {
      WithoutCounts(rows[1..], i);
      assert rows == [rows[0]] + rows[1..];
      assert multiset(rows) == multiset{rows[0]} + multiset(rows[1..]);
    }
  }

  /** In a duplicate-free list, deselecting the entry at position `k` removes exactly that position. */
  lemma TogglePresentRemovesPosition(st: SelState, k: nat)
    requires NoDuplicates(st.selectedRows)
    requires k < |st.selectedRows|
    ensures var s := st.selectedRows;
      ToggleRow(st, s[k]).selectedRows == s[..k] + s[k+1..]
  {
    var s := st.selectedRows;
    FilterDropsOne(s, (row: nat) => row != s[k], k);
  }

  /** A row toggle never creates a duplicate entry. */
  lemma ToggleRowKeepsNoDuplicates(st: SelState, i: nat)
    requires NoDuplicates(st.selectedRows)
    ensures NoDuplicates(ToggleRow(st, i).selectedRows)
  {
    if i in st.selectedRows {
      FilterKeepsNoDuplicates(st.selectedRows, (row: nat) => row != i);
    } else {
      AppendFreshKeepsNoDuplicates(st.selectedRows, i);
    }
  }

  /**
   * Toggling the same row twice restores the set of selected indices; when the
   * row started unselected it restores the list exactly.
   */
  lemma ToggleRowTwice(st: SelState, i: nat)
    ensures var r := ToggleRow(ToggleRow(st, i), i);
      && r.selectAll == st.selectAll
      && (forall j :: j in r.selectedRows <==> j in st.selectedRows)
      && (i !in st.selectedRows ==> r == st)
  {
    var s := st.selectedRows;
    if i !in s {
      FilterConcat(s, [i], (row: nat) => row != i);
      assert Filter([i], (row: nat) => row != i) == [] by {
        assert [i][1..] == [];
      }
      FilterKeepsAll(s, (row: nat) => row != i);
      assert s + [] == s;
    }
  }

  /** `AllIndices` never repeats an index. */
  lemma AllIndicesNoDuplicates(rowCount: nat)
    ensures NoDuplicates(AllIndices(rowCount))
  {
  }

  /** A header toggle leaves a duplicate-free list, whatever came before. */
  lemma ToggleSelectAllNoDuplicates(st: SelState, rowCount: nat)
    ensures NoDuplicates(ToggleSelectAll(st, rowCount).selectedRows)
  {
    AllIndicesNoDuplicates(rowCount);
  }

  /**
   * Two header toggles bring the flag back; the list ends empty when the flag
   * started false and full when it started true.
   */
  lemma ToggleSelectAllTwice(st: SelState, n: nat, m: nat)
    ensures var r := ToggleSelectAll(ToggleSelectAll(st, n), m);
      && r.selectAll == st.selectAll
      && (!st.selectAll ==> r.selectedRows == [])
      && (st.selectAll ==> r.selectedRows == AllIndices(m))
  {
  }

  /** Every sequence of clicks keeps the selection list duplicate-free. */
  lemma {:induction false} RunKeepsNoDuplicates(st: SelState, es: seq<Event>)
    requires NoDuplicates(st.selectedRows)
    ensures NoDuplicates(Run(st, es).selectedRows)
    decreases |es|
  {
    if |es| > 0 {
      match es[0] {
        case RowClicked(i) => ToggleRowKeepsNoDuplicates(st, i);
        case HeaderClicked(n) => ToggleSelectAllNoDuplicates(st, n);
      }
      RunKeepsNoDuplicates(Step(st, es[0]), es[1..]);
    }
  }

  /** Every state reachable from the initial one is duplicate-free. */
  lemma ReachableNoDuplicates(es: seq<Event>)
    ensures NoDuplicates(Run(Initial, es).selectedRows)
  {
    RunKeepsNoDuplicates(Initial, es);
  }

  /**
   * `selectAll` is not derived from `selectedRows`: after select-all on two
   * rows and one deselect the header stays checked with one row selected, and
   * checking both rows by hand leaves the header unchecked.
   */
  lemma SelectAllIsNotDerived()
    ensures Run(Initial, [HeaderClicked(2), RowClicked(0)]) == SelState(true, [1])
    ensures Run(Initial, [RowClicked(0), RowClicked(1)]) == SelState(false, [0, 1])
  {
    assert AllIndices(2) == [0, 1];
    var after := ToggleSelectAll(Initial, 2);
    assert Without([0, 1], 0) == [1] by {
      assert [0, 1][1..] == [1];
      assert [1][1..] == [];
    }
    assert Run(Initial, [HeaderClicked(2), RowClicked(0)]) == Run(after, [RowClicked(0)]);
  }
}
