/** What an input alignment is, when it is optimal, and the table cell that summarises
    the optimal alignments of two prefixes.

    A task's canonical input slots and one mission's inputs are both ordered lists.  An
    alignment walks both lists from the front: it pairs a slot with an input of the same
    message type, leaves a slot unused (a gap), or inserts an input as a new slot. */
module Alignment {
  import opened Wrappers

  datatype Slot = Slot(msgType: string, orders: set<nat>)

  datatype Input = Input(msgType: string, order: nat)

  datatype Step =
    | Match(slot: nat, input: nat)
    | ExistingGap(slot: nat)
    | Insert(input: nat)

  datatype Transition = ViaMatch | ViaGap | ViaInsert

  datatype Backpointer = Backpointer(prevI: nat, prevJ: nat, transition: Transition)

  datatype Cell = Cell(score: int, paths: nat, backpointer: Option<Backpointer>)

  const INPUT_MATCH_SCORE: int := 100
  const ANCHORED_INPUT_MATCH_BONUS: int := 1
  const I32_MIN: int := -0x8000_0000
  const Unreachable := Cell(I32_MIN, 0, None)

  function MatchScore(slot: Slot, input: Input): Option<int> {
    if slot.msgType != input.msgType then None
    else Some(INPUT_MATCH_SCORE + if input.order in slot.orders then ANCHORED_INPUT_MATCH_BONUS else 0)
  }

  predicate Matches(slots: seq<Slot>, inputs: seq<Input>, i: nat, j: nat)
    requires i < |slots| && j < |inputs|
  {
    slots[i].msgType == inputs[j].msgType
  }

  // ---------------------------------------------------------------- alignments

  /** `steps` walks from the two fronts exactly to slot `i` and input `j`. */
  predicate IsAlignment(slots: seq<Slot>, inputs: seq<Input>, steps: seq<Step>, i: nat, j: nat)
    requires i <= |slots| && j <= |inputs|
  {
    if steps == [] then i == 0 && j == 0
    else
      var init := steps[..|steps| - 1];
      match steps[|steps| - 1]
      case Match(a, b) =>
        i > 0 && j > 0 && a == i - 1 && b == j - 1 && Matches(slots, inputs, a, b) &&
        IsAlignment(slots, inputs, init, i - 1, j - 1)
      case ExistingGap(a) =>
        i > 0 && a == i - 1 && IsAlignment(slots, inputs, init, i - 1, j)
      case Insert(b) =>
        j > 0 && b == j - 1 && IsAlignment(slots, inputs, init, i, j - 1)
  }

  function StepScore(slots: seq<Slot>, inputs: seq<Input>, step: Step): int {
    match step
    case Match(a, b) =>
      if a < |slots| && b < |inputs| && Matches(slots, inputs, a, b)
      then MatchScore(slots[a], inputs[b]).value else 0
    case ExistingGap(_) => 0
    case Insert(_) => 0
  }

  function Score(slots: seq<Slot>, inputs: seq<Input>, steps: seq<Step>): int {
    if steps == [] then 0
    else Score(slots, inputs, steps[..|steps| - 1]) + StepScore(slots, inputs, steps[|steps| - 1])
  }

  /** No alignment of the same two prefixes scores more. */
  ghost predicate Optimal(slots: seq<Slot>, inputs: seq<Input>, steps: seq<Step>, i: nat, j: nat)
    requires i <= |slots| && j <= |inputs|
  {
    IsAlignment(slots, inputs, steps, i, j) &&
    forall other :: IsAlignment(slots, inputs, other, i, j) ==>
      Score(slots, inputs, other) <= Score(slots, inputs, steps)
  }

  /** Two different alignments are both optimal. */
  ghost predicate Ambiguous(slots: seq<Slot>, inputs: seq<Input>, i: nat, j: nat)
    requires i <= |slots| && j <= |inputs|
  {
    exists p, q :: p != q && Optimal(slots, inputs, p, i, j) && Optimal(slots, inputs, q, i, j)
  }

  // ---------------------------------------------------------------- the cell update

  /** `update_alignment_cell`: fold one candidate predecessor into a cell. */
  function Updated(cell: Cell, score: int, paths: nat, backpointer: Option<Backpointer>): Cell {
    if paths == 0 then cell
    else if score > cell.score then
      Cell(score, if paths < 2 then paths else 2, if paths == 1 then backpointer else None)
    else if score == cell.score then
      Cell(cell.score, if cell.paths + paths < 2 then cell.paths + paths else 2, None)
    else cell
  }

  /** The candidate that the finished cell `from` offers over one transition. */
  function Offered(cell: Cell, from: Cell, gain: int, i: nat, j: nat, t: Transition): Cell {
    Updated(cell, from.score + gain, from.paths,
            if from.paths == 1 then Some(Backpointer(i, j, t)) else None)
  }

  // ---------------------------------------------------------------- the finished table

  /** The cell (i, j) after the candidates of a subset of its predecessors.  The row-by-row
      sweep delivers them in the order match, gap, insert. */
  function Partial(slots: seq<Slot>, inputs: seq<Input>, i: nat, j: nat,
                   viaMatch: bool, viaGap: bool, viaInsert: bool): Cell
    requires i <= |slots| && j <= |inputs|
    decreases i + j, 0
  {
    if i == 0 && j == 0 then Cell(0, 1, None)
    else
      var c0 := Unreachable;
      var c1 := if viaMatch && i > 0 && j > 0 && Matches(slots, inputs, i - 1, j - 1)
                then Offered(c0, Best(slots, inputs, i - 1, j - 1),
                             MatchScore(slots[i - 1], inputs[j - 1]).value, i - 1, j - 1, ViaMatch)
                else c0;
      var c2 := if viaGap && i > 0
                then Offered(c1, Best(slots, inputs, i - 1, j), 0, i - 1, j, ViaGap) else c1;
      if viaInsert && j > 0
      then Offered(c2, Best(slots, inputs, i, j - 1), 0, i, j - 1, ViaInsert) else c2
  }

  /** The finished cell (i, j): every predecessor has delivered its candidate. */
  function Best(slots: seq<Slot>, inputs: seq<Input>, i: nat, j: nat): Cell
    requires i <= |slots| && j <= |inputs|
    decreases i + j, 1
  {
    Partial(slots, inputs, i, j, true, true, true)
  }

  // ---------------------------------------------------------------- optimality of the table

  /** Every cell is reached, counts one or two paths, and its score fits the source's i32
      for every list of fewer than 21 million entries. */
  lemma {:induction false} CellRange(slots: seq<Slot>, inputs: seq<Input>, i: nat, j: nat)
    requires i <= |slots| && j <= |inputs|
    ensures var c := Best(slots, inputs, i, j);
            1 <= c.paths <= 2 && 0 <= c.score <= 101 * (if i < j then i else j)
    decreases i + j
  {
    if i > 0 && j > 0 { CellRange(slots, inputs, i - 1, j - 1); }
    if i > 0 { CellRange(slots, inputs, i - 1, j); }
    if j > 0 { CellRange(slots, inputs, i, j - 1); }
  }

  lemma NeighbourRanges(slots: seq<Slot>, inputs: seq<Input>, i: nat, j: nat)
    requires i <= |slots| && j <= |inputs|
    ensures i > 0 && j > 0 ==> Best(slots, inputs, i - 1, j - 1).score >= 0 &&
                               1 <= Best(slots, inputs, i - 1, j - 1).paths <= 2
    ensures i > 0 ==> Best(slots, inputs, i - 1, j).score >= 0 &&
                      1 <= Best(slots, inputs, i - 1, j).paths <= 2
    ensures j > 0 ==> Best(slots, inputs, i, j - 1).score >= 0 &&
                      1 <= Best(slots, inputs, i, j - 1).paths <= 2
  {
    if i > 0 && j > 0 { CellRange(slots, inputs, i - 1, j - 1); }
    if i > 0 { CellRange(slots, inputs, i - 1, j); }
    if j > 0 { CellRange(slots, inputs, i, j - 1); }
  }

  /** The gain of each way into cell (i, j), and the score a way offers. */
  predicate Open(slots: seq<Slot>, inputs: seq<Input>, i: nat, j: nat, t: Transition)
    requires i <= |slots| && j <= |inputs|
  {
    match t
    case ViaMatch => i > 0 && j > 0 && Matches(slots, inputs, i - 1, j - 1)
    case ViaGap => i > 0
    case ViaInsert => j > 0
  }

  function PrevI(i: nat, t: Transition): nat
    requires i > 0 || t.ViaInsert?
  {
    if t.ViaInsert? then i else i - 1
  }

  function PrevJ(j: nat, t: Transition): nat
    requires j > 0 || t.ViaGap?
  {
    if t.ViaGap? then j else j - 1
  }

  function StepInto(i: nat, j: nat, t: Transition): Step
    requires (i > 0 || t.ViaInsert?) && (j > 0 || t.ViaGap?)
  {
    match t
    case ViaMatch => Match(i - 1, j - 1)
    case ViaGap => ExistingGap(i - 1)
    case ViaInsert => Insert(j - 1)
  }

  function OfferedScore(slots: seq<Slot>, inputs: seq<Input>, i: nat, j: nat, t: Transition): int
    requires i <= |slots| && j <= |inputs| && Open(slots, inputs, i, j, t)
  {
    Best(slots, inputs, PrevI(i, t), PrevJ(j, t)).score +
    StepScore(slots, inputs, StepInto(i, j, t))
  }

  /** `t` is one of the ways into (i, j) that offer the cell's score. */
  predicate Winning(slots: seq<Slot>, inputs: seq<Input>, i: nat, j: nat, t: Transition)
    requires i <= |slots| && j <= |inputs|
  {
    Open(slots, inputs, i, j, t) &&
    OfferedScore(slots, inputs, i, j, t) == Best(slots, inputs, i, j).score
  }

  /** A cell scores at least what each of its ways offers. */
  lemma NoWayOffersMore(slots: seq<Slot>, inputs: seq<Input>, i: nat, j: nat, t: Transition)
    requires i <= |slots| && j <= |inputs| && Open(slots, inputs, i, j, t)
    ensures OfferedScore(slots, inputs, i, j, t) <= Best(slots, inputs, i, j).score
  {
    NeighbourRanges(slots, inputs, i, j);
  }

  /** The last step of an alignment is one of the ways into its cell. */
  lemma LastWay(slots: seq<Slot>, inputs: seq<Input>, steps: seq<Step>, i: nat, j: nat) returns (t: Transition)
    requires i <= |slots| && j <= |inputs|
    requires IsAlignment(slots, inputs, steps, i, j) && steps != []
    ensures Open(slots, inputs, i, j, t) && steps[|steps| - 1] == StepInto(i, j, t)
    ensures IsAlignment(slots, inputs, steps[..|steps| - 1], PrevI(i, t), PrevJ(j, t))
  {
    match steps[|steps| - 1]
    case Match(_, _) => t := ViaMatch;
    case ExistingGap(_) => t := ViaGap;
    case Insert(_) => t := ViaInsert;
  }

  /** No alignment of two prefixes scores more than their cell says. */
  lemma {:induction false} CellIsUpperBound(
    slots: seq<Slot>, inputs: seq<Input>, steps: seq<Step>, i: nat, j: nat)
    requires i <= |slots| && j <= |inputs|
    requires IsAlignment(slots, inputs, steps, i, j)
    ensures Score(slots, inputs, steps) <= Best(slots, inputs, i, j).score
    decreases |steps|
  {
    if steps != [] {
      var t := LastWay(slots, inputs, steps, i, j);
      CellIsUpperBound(slots, inputs, steps[..|steps| - 1], PrevI(i, t), PrevJ(j, t));
      NoWayOffersMore(slots, inputs, i, j, t);
    } else {
      CellRange(slots, inputs, i, j);
    }
  }

  /** The fold's outcome in terms of the ways into the cell: some way wins; a single path
      means a single winning way, itself with a single path, which the backpointer names; two
      paths mean two winning ways or one with two paths, and no backpointer. */
  lemma CellWinners(slots: seq<Slot>, inputs: seq<Input>, i: nat, j: nat) returns (t: Transition)
    requires i <= |slots| && j <= |inputs| && i + j > 0
    ensures Winning(slots, inputs, i, j, t) && Decides(slots, inputs, i, j, t)
  {
    if i > 0 && j > 0 {
      t := InnerCellWinners(slots, inputs, i, j);
    } else {
      t := EdgeCellWinners(slots, inputs, i, j);
    }
  }

  ghost predicate Decides(slots: seq<Slot>, inputs: seq<Input>, i: nat, j: nat, t: Transition)
    requires i <= |slots| && j <= |inputs| && Winning(slots, inputs, i, j, t)
  {
    var c := Best(slots, inputs, i, j);
    if c.paths == 1 then
      (forall u :: Winning(slots, inputs, i, j, u) ==> u == t) &&
      Best(slots, inputs, PrevI(i, t), PrevJ(j, t)).paths == 1 &&
      c.backpointer == Some(Backpointer(PrevI(i, t), PrevJ(j, t), t))
    else
      c.backpointer == None &&
      (Best(slots, inputs, PrevI(i, t), PrevJ(j, t)).paths == 2 ||
       exists u :: u != t && Winning(slots, inputs, i, j, u))
  }

  lemma EdgeCellWinners(slots: seq<Slot>, inputs: seq<Input>, i: nat, j: nat) returns (t: Transition)
    requires i <= |slots| && j <= |inputs| && i + j > 0 && (i == 0 || j == 0)
    ensures Winning(slots, inputs, i, j, t) && Decides(slots, inputs, i, j, t)
  {
    NeighbourRanges(slots, inputs, i, j);
    if j == 0 {
      assert Best(slots, inputs, i, j) == Offered(Unreachable, Best(slots, inputs, i - 1, j), 0, i - 1, j, ViaGap);
      t := ViaGap;
    } else {
      assert Best(slots, inputs, i, j) == Offered(Unreachable, Best(slots, inputs, i, j - 1), 0, i, j - 1, ViaInsert);
      t := ViaInsert;
    }
  }

  /** A cell with three neighbours, as a fold of what they offer. */
  function Folded(m: Option<Cell>, gain: int, g: Cell, n: Cell, i: nat, j: nat): Cell
    requires i > 0 && j > 0
  {
    var c1 := if m.Some? then Offered(Unreachable, m.value, gain, i - 1, j - 1, ViaMatch) else Unreachable;
    Offered(Offered(c1, g, 0, i - 1, j, ViaGap), n, 0, i, j - 1, ViaInsert)
  }

  function OfferOf(m: Option<Cell>, gain: int, g: Cell, n: Cell, t: Transition): Option<int> {
    match t
    case ViaMatch => if m.Some? then Some(m.value.score + gain) else None
    case ViaGap => Some(g.score)
    case ViaInsert => Some(n.score)
  }

  predicate Reached(c: Cell) {
    c.score >= 0 && 1 <= c.paths <= 2
  }

  lemma FoldedWinner(m: Option<Cell>, gain: int, g: Cell, n: Cell, i: nat, j: nat) returns (t: Transition)
    requires i > 0 && j > 0 && gain >= 0 && Reached(g) && Reached(n) && (m.Some? ==> Reached(m.value))
    ensures var c := Folded(m, gain, g, n, i, j);
            OfferOf(m, gain, g, n, t) == Some(c.score) &&
            var paths := if t.ViaMatch? then m.value.paths else if t.ViaGap? then g.paths else n.paths;
            if c.paths == 1 then
              (forall u :: OfferOf(m, gain, g, n, u) == Some(c.score) ==> u == t) && paths == 1 &&
              c.backpointer == Some(Backpointer(PrevI(i, t), PrevJ(j, t), t))
            else
              c.backpointer == None &&
              (paths == 2 || exists u :: u != t && OfferOf(m, gain, g, n, u) == Some(c.score))
  {
    var c := Folded(m, gain, g, n, i, j);
    t := if OfferOf(m, gain, g, n, ViaMatch) == Some(c.score) then ViaMatch
         else if OfferOf(m, gain, g, n, ViaGap) == Some(c.score) then ViaGap else ViaInsert;
    assert OfferOf(m, gain, g, n, ViaGap) == Some(g.score) && OfferOf(m, gain, g, n, ViaInsert) == Some(n.score);
  }

  lemma WinningOffers(slots: seq<Slot>, inputs: seq<Input>, i: nat, j: nat, m: Option<Cell>, gain: int, t: Transition)
    requires 0 < i <= |slots| && 0 < j <= |inputs|
    requires m == if Matches(slots, inputs, i - 1, j - 1) then Some(Best(slots, inputs, i - 1, j - 1)) else None
    requires m.Some? ==> Some(gain) == MatchScore(slots[i - 1], inputs[j - 1])
    ensures Winning(slots, inputs, i, j, t) <==>
            OfferOf(m, gain, Best(slots, inputs, i - 1, j), Best(slots, inputs, i, j - 1), t) ==
            Some(Best(slots, inputs, i, j).score)
  {
  }

  lemma InnerCellWinners(slots: seq<Slot>, inputs: seq<Input>, i: nat, j: nat) returns (t: Transition)
    requires 0 < i <= |slots| && 0 < j <= |inputs|
    ensures Winning(slots, inputs, i, j, t) && Decides(slots, inputs, i, j, t)
  {
    NeighbourRanges(slots, inputs, i, j);
    var matching := Matches(slots, inputs, i - 1, j - 1);
    var m := if matching then Some(Best(slots, inputs, i - 1, j - 1)) else None;
    var gain := if matching then MatchScore(slots[i - 1], inputs[j - 1]).value else 0;
    var g, n := Best(slots, inputs, i - 1, j), Best(slots, inputs, i, j - 1);
    t := FoldedWinner(m, gain, g, n, i, j);
    assert Best(slots, inputs, i, j) == Folded(m, gain, g, n, i, j);
    forall u: Transition
      ensures Winning(slots, inputs, i, j, u) <==> OfferOf(m, gain, g, n, u) == Some(Best(slots, inputs, i, j).score)
    {
      WinningOffers(slots, inputs, i, j, m, gain, u);
    }
  }

  lemma Extend(slots: seq<Slot>, inputs: seq<Input>, init: seq<Step>, i: nat, j: nat, t: Transition)
    requires i <= |slots| && j <= |inputs| && Open(slots, inputs, i, j, t)
    requires IsAlignment(slots, inputs, init, PrevI(i, t), PrevJ(j, t))
    ensures var steps := init + [StepInto(i, j, t)];
            IsAlignment(slots, inputs, steps, i, j) &&
            Score(slots, inputs, steps) ==
              Score(slots, inputs, init) + StepScore(slots, inputs, StepInto(i, j, t))
  {
    var steps := init + [StepInto(i, j, t)];
    assert steps[..|steps| - 1] == init;
  }

  /** The cell's score is attained. */
  lemma {:induction false} CellIsAttained(slots: seq<Slot>, inputs: seq<Input>, i: nat, j: nat)
    returns (steps: seq<Step>)
    requires i <= |slots| && j <= |inputs|
    ensures IsAlignment(slots, inputs, steps, i, j)
    ensures Score(slots, inputs, steps) == Best(slots, inputs, i, j).score
    decreases i + j
  {
    if i == 0 && j == 0 {
      steps := [];
    } else {
      var t := CellWinners(slots, inputs, i, j);
      var init := CellIsAttained(slots, inputs, PrevI(i, t), PrevJ(j, t));
      Extend(slots, inputs, init, i, j, t);
      steps := init + [StepInto(i, j, t)];
    }
  }

  /** Optimal means: scores what the cell says. */
  lemma OptimalIsCellScore(slots: seq<Slot>, inputs: seq<Input>, steps: seq<Step>, i: nat, j: nat)
    requires i <= |slots| && j <= |inputs|
    ensures Optimal(slots, inputs, steps, i, j) <==>
            IsAlignment(slots, inputs, steps, i, j) &&
            Score(slots, inputs, steps) == Best(slots, inputs, i, j).score
  {
    forall other | IsAlignment(slots, inputs, other, i, j)
      ensures Score(slots, inputs, other) <= Best(slots, inputs, i, j).score
    {
      CellIsUpperBound(slots, inputs, other, i, j);
    }
    var w := CellIsAttained(slots, inputs, i, j);
  }

  /** An optimal alignment enters its cell by a winning way, from an optimal alignment. */
  lemma OptimalLastStep(slots: seq<Slot>, inputs: seq<Input>, steps: seq<Step>, i: nat, j: nat)
    returns (t: Transition)
    requires i <= |slots| && j <= |inputs| && i + j > 0
    requires IsAlignment(slots, inputs, steps, i, j)
    requires Score(slots, inputs, steps) == Best(slots, inputs, i, j).score
    ensures steps != [] && Winning(slots, inputs, i, j, t)
    ensures steps[|steps| - 1] == StepInto(i, j, t)
    ensures var init := steps[..|steps| - 1];
            IsAlignment(slots, inputs, init, PrevI(i, t), PrevJ(j, t)) &&
            Score(slots, inputs, init) == Best(slots, inputs, PrevI(i, t), PrevJ(j, t)).score
  {
    t := match steps[|steps| - 1]
      case Match(_, _) => ViaMatch
      case ExistingGap(_) => ViaGap
      case Insert(_) => ViaInsert;
    CellIsUpperBound(slots, inputs, steps[..|steps| - 1], PrevI(i, t), PrevJ(j, t));
    OfferIsBound(slots, inputs, i, j, t);
  }

  lemma OfferIsBound(slots: seq<Slot>, inputs: seq<Input>, i: nat, j: nat, t: Transition)
    requires i <= |slots| && j <= |inputs| && Open(slots, inputs, i, j, t)
    ensures OfferedScore(slots, inputs, i, j, t) <= Best(slots, inputs, i, j).score
  {
    var init := CellIsAttained(slots, inputs, PrevI(i, t), PrevJ(j, t));
    Extend(slots, inputs, init, i, j, t);
    CellIsUpperBound(slots, inputs, init + [StepInto(i, j, t)], i, j);
  }

  /** A path count of one is exact: two optimal alignments are then the same. */
  lemma {:induction false} OnePathIsUnique(
    slots: seq<Slot>, inputs: seq<Input>, p: seq<Step>, q: seq<Step>, i: nat, j: nat)
    requires i <= |slots| && j <= |inputs|
    requires Best(slots, inputs, i, j).paths == 1
    requires Optimal(slots, inputs, p, i, j) && Optimal(slots, inputs, q, i, j)
    ensures p == q
    decreases i + j
  {
    OptimalIsCellScore(slots, inputs, p, i, j);
    OptimalIsCellScore(slots, inputs, q, i, j);
    if i + j > 0 {
      var t := CellWinners(slots, inputs, i, j);
      var tp := OptimalLastStep(slots, inputs, p, i, j);
      var tq := OptimalLastStep(slots, inputs, q, i, j);
      OptimalIsCellScore(slots, inputs, p[..|p| - 1], PrevI(i, t), PrevJ(j, t));
      OptimalIsCellScore(slots, inputs, q[..|q| - 1], PrevI(i, t), PrevJ(j, t));
      OnePathIsUnique(slots, inputs, p[..|p| - 1], q[..|q| - 1], PrevI(i, t), PrevJ(j, t));
      assert p == p[..|p| - 1] + [p[|p| - 1]];
      assert q == q[..|q| - 1] + [q[|q| - 1]];
    } else {
      EmptyAlignment(slots, inputs, p);
      EmptyAlignment(slots, inputs, q);
    }
  }

  lemma EmptyAlignment(slots: seq<Slot>, inputs: seq<Input>, p: seq<Step>)
    ensures IsAlignment(slots, inputs, p, 0, 0) ==> p == []
  {
  }

  /** A path count of two is exact as well: there are two different optimal alignments. */
  lemma {:induction false} TwoPathsAreAmbiguous(
    slots: seq<Slot>, inputs: seq<Input>, i: nat, j: nat)
    returns (p: seq<Step>, q: seq<Step>)
    requires i <= |slots| && j <= |inputs|
    requires Best(slots, inputs, i, j).paths == 2
    ensures p != q && Optimal(slots, inputs, p, i, j) && Optimal(slots, inputs, q, i, j)
    decreases i + j
  {
    var t := CellWinners(slots, inputs, i, j);
    var last := StepInto(i, j, t);
    if Best(slots, inputs, PrevI(i, t), PrevJ(j, t)).paths == 2 {
      var p0, q0 := TwoPathsAreAmbiguous(slots, inputs, PrevI(i, t), PrevJ(j, t));
      OptimalIsCellScore(slots, inputs, p0, PrevI(i, t), PrevJ(j, t));
      OptimalIsCellScore(slots, inputs, q0, PrevI(i, t), PrevJ(j, t));
      Extend(slots, inputs, p0, i, j, t);
      Extend(slots, inputs, q0, i, j, t);
      p, q := p0 + [last], q0 + [last];
      assert p[..|p| - 1] == p0 && q[..|q| - 1] == q0;
    } else {
      var u :| u != t && Winning(slots, inputs, i, j, u);
      var p0 := CellIsAttained(slots, inputs, PrevI(i, t), PrevJ(j, t));
      var q0 := CellIsAttained(slots, inputs, PrevI(i, u), PrevJ(j, u));
      Extend(slots, inputs, p0, i, j, t);
      Extend(slots, inputs, q0, i, j, u);
      p, q := p0 + [last], q0 + [StepInto(i, j, u)];
      assert p[|p| - 1] != q[|q| - 1];
    }
    OptimalIsCellScore(slots, inputs, p, i, j);
    OptimalIsCellScore(slots, inputs, q, i, j);
  }

  /** The cell in one statement: its score is the maximum over all alignments of the two
      prefixes, and it counts two paths exactly when the optimum is ambiguous. */
  lemma CellIsExact(slots: seq<Slot>, inputs: seq<Input>, i: nat, j: nat)
    requires i <= |slots| && j <= |inputs|
    ensures var c := Best(slots, inputs, i, j);
            (exists steps :: Optimal(slots, inputs, steps, i, j) &&
                             Score(slots, inputs, steps) == c.score) &&
            (c.paths == 1 || c.paths == 2) &&
            (c.paths == 2 <==> Ambiguous(slots, inputs, i, j))
  {
    CellRange(slots, inputs, i, j);
    var w := CellIsAttained(slots, inputs, i, j);
    OptimalIsCellScore(slots, inputs, w, i, j);
    if Best(slots, inputs, i, j).paths == 2 {
      var p, q := TwoPathsAreAmbiguous(slots, inputs, i, j);
    } else if Ambiguous(slots, inputs, i, j) {
      var p, q :| p != q && Optimal(slots, inputs, p, i, j) && Optimal(slots, inputs, q, i, j);
      OnePathIsUnique(slots, inputs, p, q, i, j);
    }
  }
}
