/** The alignment algorithm itself: the row-by-row sweep that fills the table in place, the
    ambiguity test on the last cell, and the walk back along the backpointers. */
module AlignTaskInputs {
  import opened Sequences
  import opened Wrappers
  import opened Alignment
  import AlignmentScore

  datatype AlignmentError = AmbiguousAlignment

  // ---------------------------------------------------------------- the sweep

  /** Cells before (i, j) in row order have been processed. */
  predicate Processed(x: int, y: int, i: nat, j: nat) {
    x < i || (x == i && y < j)
  }

  /** What cell (x, y) holds while cell (i, j) is being processed and the three flags say which
      of its successors it has been offered to. */
  ghost function Expected(
    slots: seq<Slot>, inputs: seq<Input>, x: nat, y: nat, i: nat, j: nat,
    matched: bool, gapped: bool, inserted: bool): Cell
    requires x <= |slots| && y <= |inputs|
  {
    Partial(slots, inputs, x, y,
      Processed(x - 1, y - 1, i, j) || (matched && x - 1 == i && y - 1 == j),
      Processed(x - 1, y, i, j) || (gapped && x - 1 == i && y == j),
      Processed(x, y - 1, i, j) || (inserted && x == i && y - 1 == j))
  }

  ghost predicate TableAt(
    table: array2<Cell>, slots: seq<Slot>, inputs: seq<Input>, i: nat, j: nat,
    matched: bool, gapped: bool, inserted: bool)
    reads table
  {
    table.Length0 == |slots| + 1 && table.Length1 == |inputs| + 1 &&
    forall x, y :: 0 <= x <= |slots| && 0 <= y <= |inputs| ==>
      table[x, y] == Expected(slots, inputs, x, y, i, j, matched, gapped, inserted)
  }

  lemma GapExpected(slots: seq<Slot>, inputs: seq<Input>, i: nat, j: nat, x: nat, y: nat)
    requires i <= |slots| && j <= |inputs| && x <= |slots| && y <= |inputs|
    ensures var was := Expected(slots, inputs, x, y, i, j, false, false, false);
            Expected(slots, inputs, x, y, i, j, false, true, false) ==
              if x == i + 1 && y == j
              then Offered(was, Best(slots, inputs, i, j), 0, i, j, ViaGap) else was
  {
  }

  lemma InsertExpected(slots: seq<Slot>, inputs: seq<Input>, i: nat, j: nat, x: nat, y: nat)
    requires i <= |slots| && j <= |inputs| && x <= |slots| && y <= |inputs|
    ensures var was := Expected(slots, inputs, x, y, i, j, false, true, false);
            Expected(slots, inputs, x, y, i, j, false, true, true) ==
              if x == i && y == j + 1
              then Offered(was, Best(slots, inputs, i, j), 0, i, j, ViaInsert) else was
  {
  }

  lemma MatchExpected(slots: seq<Slot>, inputs: seq<Input>, i: nat, j: nat, x: nat, y: nat)
    requires i <= |slots| && j <= |inputs| && x <= |slots| && y <= |inputs|
    ensures var was := Expected(slots, inputs, x, y, i, j, false, true, true);
            Expected(slots, inputs, x, y, i, j, true, true, true) ==
              if x == i + 1 && y == j + 1 && Matches(slots, inputs, i, j)
              then Offered(was, Best(slots, inputs, i, j),
                           MatchScore(slots[i], inputs[j]).value, i, j, ViaMatch)
              else was
  {
  }

  lemma NextCellExpected(slots: seq<Slot>, inputs: seq<Input>, i: nat, j: nat, x: nat, y: nat)
    requires i <= |slots| && j <= |inputs| && x <= |slots| && y <= |inputs|
    ensures Expected(slots, inputs, x, y, i, j, true, true, true) ==
            Expected(slots, inputs, x, y, i, j + 1, false, false, false)
    ensures Expected(slots, inputs, i, j, i, j, false, false, false) == Best(slots, inputs, i, j)
    ensures j == |inputs| ==>
            Expected(slots, inputs, x, y, i, j + 1, false, false, false) ==
            Expected(slots, inputs, x, y, i + 1, 0, false, false, false)
    ensures Expected(slots, inputs, x, y, |slots| + 1, 0, false, false, false) ==
            Best(slots, inputs, x, y)
  {
  }

  /** `update_alignment_cell`, applied to one cell of the table. */
  method UpdateAlignmentCell(
    table: array2<Cell>, i: nat, j: nat, score: int, paths: nat, backpointer: Option<Backpointer>)
    requires i < table.Length0 && j < table.Length1
    modifies table
    ensures table[i, j] == Updated(old(table[i, j]), score, paths, backpointer)
    ensures forall x, y :: 0 <= x < table.Length0 && 0 <= y < table.Length1 && (x != i || y != j) ==>
              table[x, y] == old(table[x, y])
  {
    if paths == 0 { return; }
    var cell := table[i, j];
    if score > cell.score {
      table[i, j] := Cell(score, if paths < 2 then paths else 2,
                          if paths == 1 then backpointer else None);
    } else if score == cell.score {
      table[i, j] := Cell(cell.score, if cell.paths + paths < 2 then cell.paths + paths else 2, None);
    }
  }

  method OfferGap(table: array2<Cell>, slots: seq<Slot>, inputs: seq<Input>, i: nat, j: nat, cell: Cell)
    requires i <= |slots| && j <= |inputs| && cell == Best(slots, inputs, i, j)
    requires TableAt(table, slots, inputs, i, j, false, false, false)
    modifies table
    ensures TableAt(table, slots, inputs, i, j, false, true, false)
  {
    forall x, y | 0 <= x <= |slots| && 0 <= y <= |inputs| { GapExpected(slots, inputs, i, j, x, y); }
    if i < |slots| {
      UpdateAlignmentCell(table, i + 1, j, cell.score, cell.paths,
                          if cell.paths == 1 then Some(Backpointer(i, j, ViaGap)) else None);
    }
  }

  method OfferInsert(table: array2<Cell>, slots: seq<Slot>, inputs: seq<Input>, i: nat, j: nat, cell: Cell)
    requires i <= |slots| && j <= |inputs| && cell == Best(slots, inputs, i, j)
    requires TableAt(table, slots, inputs, i, j, false, true, false)
    modifies table
    ensures TableAt(table, slots, inputs, i, j, false, true, true)
  {
    forall x, y | 0 <= x <= |slots| && 0 <= y <= |inputs| { InsertExpected(slots, inputs, i, j, x, y); }
    if j < |inputs| {
      UpdateAlignmentCell(table, i, j + 1, cell.score, cell.paths,
                          if cell.paths == 1 then Some(Backpointer(i, j, ViaInsert)) else None);
    }
  }

  method OfferMatch(table: array2<Cell>, slots: seq<Slot>, inputs: seq<Input>, i: nat, j: nat, cell: Cell)
    requires i <= |slots| && j <= |inputs| && cell == Best(slots, inputs, i, j)
    requires TableAt(table, slots, inputs, i, j, false, true, true)
    modifies table
    ensures TableAt(table, slots, inputs, i, j, true, true, true)
  {
    forall x, y | 0 <= x <= |slots| && 0 <= y <= |inputs| { MatchExpected(slots, inputs, i, j, x, y); }
    if i < |slots| && j < |inputs| {
      var matchScore := MatchScore(slots[i], inputs[j]);
      if matchScore.Some? {
        UpdateAlignmentCell(table, i + 1, j + 1, cell.score + matchScore.value, cell.paths,
                            if cell.paths == 1 then Some(Backpointer(i, j, ViaMatch)) else None);
      }
    }
  }

  /** One turn of the inner loop: the finished cell (i, j) is offered to its successors. */
  method ProcessCell(table: array2<Cell>, slots: seq<Slot>, inputs: seq<Input>, i: nat, j: nat)
    requires i <= |slots| && j <= |inputs|
    requires TableAt(table, slots, inputs, i, j, false, false, false)
    modifies table
    ensures TableAt(table, slots, inputs, i, j + 1, false, false, false)
  {
    forall x, y | 0 <= x <= |slots| && 0 <= y <= |inputs| { NextCellExpected(slots, inputs, i, j, x, y); }
    var cell := table[i, j];
    CellRange(slots, inputs, i, j);  // no cell is unreachable, so none is skipped
    OfferGap(table, slots, inputs, i, j, cell);
    OfferInsert(table, slots, inputs, i, j, cell);
    OfferMatch(table, slots, inputs, i, j, cell);
  }

  method FillTable(slots: seq<Slot>, inputs: seq<Input>) returns (table: array2<Cell>)
    ensures fresh(table)
    ensures table.Length0 == |slots| + 1 && table.Length1 == |inputs| + 1
    ensures forall x, y :: 0 <= x <= |slots| && 0 <= y <= |inputs| ==>
              table[x, y] == Best(slots, inputs, x, y)
  {
    table := new Cell[|slots| + 1, |inputs| + 1]((_, _) => Unreachable);
    table[0, 0] := Cell(0, 1, None);
    var i := 0;
    while i <= |slots|
      invariant 0 <= i <= |slots| + 1
      invariant TableAt(table, slots, inputs, i, 0, false, false, false)
    {
      var j := 0;
      while j <= |inputs|
        invariant 0 <= j <= |inputs| + 1
        invariant TableAt(table, slots, inputs, i, j, false, false, false)
      {
        ProcessCell(table, slots, inputs, i, j);
        j := j + 1;
      }
      forall x, y | 0 <= x <= |slots| && 0 <= y <= |inputs| {
        NextCellExpected(slots, inputs, i, |inputs|, x, y);
      }
      i := i + 1;
    }
    forall x, y | 0 <= x <= |slots| && 0 <= y <= |inputs| {
      NextCellExpected(slots, inputs, |slots|, |inputs|, x, y);
    }
  }

  // ---------------------------------------------------------------- the walk back

  /** Any optimal alignment of the prefixes (i, j), followed by the steps collected so far, is
      an optimal alignment of everything. */
  ghost predicate Collected(
    slots: seq<Slot>, inputs: seq<Input>, i: nat, j: nat, steps: seq<Step>)
    requires i <= |slots| && j <= |inputs|
  {
    forall p :: Optimal(slots, inputs, p, i, j) ==>
      Optimal(slots, inputs, p + Reversed(steps), |slots|, |inputs|)
  }

  lemma CollectOne(
    slots: seq<Slot>, inputs: seq<Input>, i: nat, j: nat, steps: seq<Step>, t: Transition)
    requires i <= |slots| && j <= |inputs| && Winning(slots, inputs, i, j, t)
    requires Collected(slots, inputs, i, j, steps)
    ensures Collected(slots, inputs, PrevI(i, t), PrevJ(j, t), steps + [StepInto(i, j, t)])
  {
    var last := StepInto(i, j, t);
    var more := steps + [last];
    assert more[..|more| - 1] == steps;
    forall p | Optimal(slots, inputs, p, PrevI(i, t), PrevJ(j, t))
      ensures Optimal(slots, inputs, p + Reversed(more), |slots|, |inputs|)
    {
      OptimalIsCellScore(slots, inputs, p, PrevI(i, t), PrevJ(j, t));
      Extend(slots, inputs, p, i, j, t);
      OptimalIsCellScore(slots, inputs, p + [last], i, j);
      assert p + Reversed(more) == (p + [last]) + Reversed(steps);
    }
  }

  method Backtrace(slots: seq<Slot>, inputs: seq<Input>, table: array2<Cell>)
    returns (steps: seq<Step>)
    requires table.Length0 == |slots| + 1 && table.Length1 == |inputs| + 1
    requires forall x, y :: 0 <= x <= |slots| && 0 <= y <= |inputs| ==>
               table[x, y] == Best(slots, inputs, x, y)
    requires Best(slots, inputs, |slots|, |inputs|).paths == 1
    ensures Optimal(slots, inputs, steps, |slots|, |inputs|)
  {
    var collected := [];
    var i, j := |slots|, |inputs|;
    assert Collected(slots, inputs, i, j, []) by {
      forall p | Optimal(slots, inputs, p, i, j)
        ensures Optimal(slots, inputs, p + Reversed([]), i, j)
      {
        assert p + Reversed([]) == p;
      }
    }
    while i > 0 || j > 0
      invariant 0 <= i <= |slots| && 0 <= j <= |inputs|
      invariant Best(slots, inputs, i, j).paths == 1
      invariant Collected(slots, inputs, i, j, collected)
      decreases i + j
    {
      ghost var t := CellWinners(slots, inputs, i, j);
      CollectOne(slots, inputs, i, j, collected, t);
      // The backpointer is present: the source's panic on a missing one cannot happen.
      var backpointer := table[i, j].backpointer.value;
      match backpointer.transition {
        case ViaMatch => collected := collected + [Match(i - 1, j - 1)];
        case ViaGap => collected := collected + [ExistingGap(i - 1)];
        case ViaInsert => collected := collected + [Insert(j - 1)];
      }
      i, j := backpointer.prevI, backpointer.prevJ;
    }
    steps := Backwards(collected);
    OptimalIsCellScore(slots, inputs, [], 0, 0);
    assert [] + Reversed(collected) == steps;
  }

  /** `align_task_inputs`: fails exactly when two different alignments are optimal, and
      otherwise returns the one optimum, in which no gap stands next to an insert. */
  method Align(slots: seq<Slot>, inputs: seq<Input>)
    returns (result: Result<seq<Step>, AlignmentError>)
    ensures result.Err? <==> Ambiguous(slots, inputs, |slots|, |inputs|)
    ensures result.Ok? ==>
              forall p :: Optimal(slots, inputs, p, |slots|, |inputs|) <==> p == result.value
    ensures |slots| <= 100 || |inputs| <= 100 ==>
              if result.Err? then
                exists p, q :: p != q && AlignmentScore.Unbeaten(slots, inputs, p) &&
                               AlignmentScore.Unbeaten(slots, inputs, q)
              else forall p :: AlignmentScore.Unbeaten(slots, inputs, p) <==> p == result.value
    ensures result.Ok? ==>
              forall k | 0 <= k && k + 1 < |result.value| ::
                !AlignmentScore.GapNextToInsert(result.value, k)
  {
    var table := FillTable(slots, inputs);
    CellIsExact(slots, inputs, |slots|, |inputs|);
    if |slots| <= 100 || |inputs| <= 100 { AlignmentScore.OptimalIffUnbeaten(slots, inputs); }
    var finalCell := table[|slots|, |inputs|];
    if finalCell.paths > 1 {
      return Err(AmbiguousAlignment);
    }
    var steps := Backtrace(slots, inputs, table);
    forall k | 0 <= k && k + 1 < |steps|
      ensures !AlignmentScore.GapNextToInsert(steps, k)
    {
      if AlignmentScore.GapNextToInsert(steps, k) {
        AlignmentScore.GapNextToInsertIsAmbiguous(slots, inputs, steps, k, |slots|, |inputs|);
      }
    }
    return Ok(steps);
  }
}
