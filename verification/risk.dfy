/** Rows whose combination of quasi-identifier values is shared by fewer than k rows
    (assign2.py:131-133). */
module Risk {
  import opened Tables

  /** The values of one row across the grouping columns. */
  type Key = seq<string>

  /** How many rows carry the key `x`. */
  function Count(keys: seq<Key>, x: Key): (n: nat)
    ensures n <= |keys|
  {
    if keys == [] then 0 else (if keys[0] == x then 1 else 0) + Count(keys[1..], x)
  }

  /** The count is the multiplicity of the key in the rows, so it does not depend on
      their order. */
  lemma {:induction false} CountIsMultiplicity(keys: seq<Key>, x: Key)
    ensures Count(keys, x) == multiset(keys)[x]
  {
    if keys != [] {
      CountIsMultiplicity(keys[1..], x);
      assert keys == [keys[0]] + keys[1..];
    }
  }

  /** Every row is in its own group, so a group has at least one row. */
  lemma {:induction false} CountOfPresentKey(keys: seq<Key>, i: int)
    requires 0 <= i < |keys|
    ensures Count(keys, keys[i]) >= 1
  {
    if i > 0 {
      CountOfPresentKey(keys[1..], i - 1);
    }
  }

  /** The `count` column of the merge: `groupby(...).size()` joined back on the key,
      one value per row, in row order. */
  function GroupSizes(keys: seq<Key>): (sizes: seq<nat>)
    ensures |sizes| == |keys|
    ensures forall i :: 0 <= i < |keys| ==> sizes[i] == Count(keys, keys[i])
  {
    seq(|keys|, i requires 0 <= i < |keys| => Count(keys, keys[i]))
  }

  /** `df['count'] < k`. */
  function RiskyRows(keys: seq<Key>, k: int): (risky: seq<bool>)
    ensures |risky| == |keys|
    ensures forall i :: 0 <= i < |keys| ==> (risky[i] <==> Count(keys, keys[i]) < k)
  {
    var sizes := GroupSizes(keys);
    seq(|keys|, i requires 0 <= i < |keys| => sizes[i] < k)
  }

  /** Rows with the same key get the same flag. */
  lemma SameKeySameRisk(keys: seq<Key>, k: int, i: int, j: int)
    requires 0 <= i < |keys| && 0 <= j < |keys| && keys[i] == keys[j]
    ensures RiskyRows(keys, k)[i] == RiskyRows(keys, k)[j]
  {
  }

  /** With k at most 1 no row is risky. */
  lemma NoRiskBelowTwo(keys: seq<Key>, k: int)
    requires k <= 1
    ensures forall i :: 0 <= i < |keys| ==> !RiskyRows(keys, k)[i]
  {
    forall i | 0 <= i < |keys| ensures !RiskyRows(keys, k)[i] {
      CountOfPresentKey(keys, i);
    }
  }

  /** Reordering the rows does not change which keys are risky: a row of the reordered
      table has the flag that any row with the same key had before. */
  lemma RiskIgnoresRowOrder(keys: seq<Key>, reordered: seq<Key>, k: int, i: int, j: int)
    requires multiset(reordered) == multiset(keys)
    requires 0 <= i < |reordered| && 0 <= j < |keys| && reordered[i] == keys[j]
    ensures RiskyRows(reordered, k)[i] == RiskyRows(keys, k)[j]
  {
    CountIsMultiplicity(keys, keys[j]);
    CountIsMultiplicity(reordered, reordered[i]);
  }

  /** Three rows share one key and a fourth is alone: with k = 2 only the lone row is risky. */
  lemma GroupSizeExample()
    ensures var keys := [["X"], ["X"], ["X"], ["Y"]];
      GroupSizes(keys) == [3, 3, 3, 1] && RiskyRows(keys, 2) == [false, false, false, true]
  {
    var keys := [["X"], ["X"], ["X"], ["Y"]];
    assert keys[1..] == [["X"], ["X"], ["Y"]];
    assert keys[1..][1..] == [["X"], ["Y"]];
    assert keys[1..][1..][1..] == [["Y"]];
    assert Count(keys, ["X"]) == 3;
    assert Count(keys, ["Y"]) == 1;
  }

  /** Every grouping column exists and holds text; otherwise the first that does not. */
  function CheckGroupColumns(t: Table, cols: seq<string>): (r: Option<Error>)
    ensures r.None? <==> forall c :: c in cols ==> c in t.cells && t.cells[c].Strings?
    ensures r.Some? ==> exists c :: c in cols && (r.value == ColumnNotFound(c) || r.value == NotText(c))
  {
    if cols == [] then None
    else if cols[0] !in t.cells then Some(ColumnNotFound(cols[0]))
    else if t.cells[cols[0]].Numbers? then Some(NotText(cols[0]))
    else
      assert forall c :: c in cols ==> c == cols[0] || c in cols[1..];
      CheckGroupColumns(t, cols[1..])
  }

  /** The key of each row: its values in the grouping columns, in their order. */
  function RowKeys(t: Table, cols: seq<string>): (keys: seq<Key>)
    requires WellFormed(t)
    requires forall c :: c in cols ==> c in t.cells && t.cells[c].Strings?
    ensures |keys| == t.rows
    ensures forall i :: 0 <= i < t.rows ==> |keys[i]| == |cols|
    ensures forall i, j :: 0 <= i < t.rows && 0 <= j < |cols| ==> keys[i][j] == t.cells[cols[j]].ss[i]
  {
    seq(t.rows, i requires 0 <= i < t.rows =>
      seq(|cols|, j requires 0 <= j < |cols| => t.cells[cols[j]].ss[i]))
  }

  /** Lines 131-133: grouping by no column fails, as does grouping by a missing one,
      and so does a column listed twice, whose second key level `reset_index` cannot
      insert beside the first; otherwise each row is flagged when its group is smaller
      than k. */
  function ClassifyRisk(t: Table, cols: seq<string>, k: int): (r: Result<seq<bool>>)
    requires WellFormed(t)
    ensures r == Failure(NoGroupKeys) <==> cols == []
    ensures r.Success? <==>
      cols != [] && (forall c :: c in cols ==> c in t.cells && t.cells[c].Strings?) && Distinct(cols)
    ensures r == Failure(DuplicateGroupColumn) <==>
      cols != [] && (forall c :: c in cols ==> c in t.cells && t.cells[c].Strings?) && !Distinct(cols)
    ensures r.Success? ==> |r.value| == t.rows && r.value == RiskyRows(RowKeys(t, cols), k)
    ensures r.Success? ==> forall i :: 0 <= i < t.rows ==>
      (r.value[i] <==> |set j | 0 <= j < t.rows && RowKeys(t, cols)[j] == RowKeys(t, cols)[i]| < k)
  {
    if cols == [] then Failure(NoGroupKeys)
    else
      match CheckGroupColumns(t, cols)
      case Some(e) => Failure(e)
      case None =>
        if !Distinct(cols) then Failure(DuplicateGroupColumn)
        else
          var keys := RowKeys(t, cols);
          var risky := RiskyRows(keys, k);
          assert forall i :: 0 <= i < t.rows ==> Count(keys, keys[i]) == |set j | 0 <= j < t.rows && keys[j] == keys[i]| by {
            forall i | 0 <= i < t.rows { CountIsGroupSize(keys, keys[i]); }
          }
          Success(risky)
  }

  /** The count of a key is the size of the set of rows that carry it. */
  lemma {:induction false} CountIsGroupSize(keys: seq<Key>, x: Key)
    ensures Count(keys, x) == |set j | 0 <= j < |keys| && keys[j] == x|
  {
    if keys != [] {
      var n := |keys|;
      var init := keys[..n - 1];
      CountIsGroupSize(init, x);
      CountLast(keys, x);
      var before := set j | 0 <= j < n - 1 && init[j] == x;
      var all := set j | 0 <= j < n && keys[j] == x;
      assert forall j :: 0 <= j < n - 1 ==> init[j] == keys[j];
      if keys[n - 1] == x {
        assert n - 1 !in before;
        assert all == before + {n - 1};
      } else {
        assert all == before;
      }
    }
  }

  lemma {:induction false} CountLast(keys: seq<Key>, x: Key)
    requires keys != []
    ensures Count(keys, x) == Count(keys[..|keys| - 1], x) + if keys[|keys| - 1] == x then 1 else 0
  {
    if |keys| > 1 {
      CountLast(keys[1..], x);
      assert keys[1..][..|keys| - 2] == keys[..|keys| - 1][1..];
    }
  }
}
