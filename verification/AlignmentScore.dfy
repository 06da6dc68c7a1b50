/** What the score weights mean: type matches count first and anchors only break ties, up to
    100 matched entries and no further. */
module AlignmentScore {
  import opened Alignment

  function MatchCount(steps: seq<Step>): nat {
    if steps == [] then 0
    else MatchCount(steps[..|steps| - 1]) + if steps[|steps| - 1].Match? then 1 else 0
  }

  function Identity(n: nat): (steps: seq<Step>)
    ensures |steps| == n
  {
    seq(n, k requires 0 <= k => Match(k, k))
  }

  lemma {:induction false} ScoreBetweenWeights(
    slots: seq<Slot>, inputs: seq<Input>, steps: seq<Step>, i: nat, j: nat)
    requires i <= |slots| && j <= |inputs|
    requires IsAlignment(slots, inputs, steps, i, j)
    ensures 100 * MatchCount(steps) <= Score(slots, inputs, steps) <= 101 * MatchCount(steps)
    ensures MatchCount(steps) <= i && MatchCount(steps) <= j
    decreases |steps|
  {
    if steps != [] {
      var init := steps[..|steps| - 1];
      match steps[|steps| - 1]
      case Match(_, _) => ScoreBetweenWeights(slots, inputs, init, i - 1, j - 1);
      case ExistingGap(_) => ScoreBetweenWeights(slots, inputs, init, i - 1, j);
      case Insert(_) => ScoreBetweenWeights(slots, inputs, init, i, j - 1);
    }
  }

  /** With at most 100 slots or at most 100 inputs, an optimal alignment has as many type
      matches as any alignment can have. */
  lemma OptimalHasMostMatches(slots: seq<Slot>, inputs: seq<Input>, best: seq<Step>, other: seq<Step>)
    requires |slots| <= 100 || |inputs| <= 100
    requires Optimal(slots, inputs, best, |slots|, |inputs|)
    requires IsAlignment(slots, inputs, other, |slots|, |inputs|)
    ensures MatchCount(other) <= MatchCount(best)
  {
    ScoreBetweenWeights(slots, inputs, best, |slots|, |inputs|);
    ScoreBetweenWeights(slots, inputs, other, |slots|, |inputs|);
  }

  // ---------------------------------------------------------------- what optimal means

  /** A match is anchored when the slot already carries the input's connection order. */
  predicate Anchored(slots: seq<Slot>, inputs: seq<Input>, step: Step) {
    step.Match? && step.slot < |slots| && step.input < |inputs| &&
    inputs[step.input].order in slots[step.slot].orders
  }

  function AnchorCount(slots: seq<Slot>, inputs: seq<Input>, steps: seq<Step>): nat {
    if steps == [] then 0
    else
      AnchorCount(slots, inputs, steps[..|steps| - 1]) +
      if Anchored(slots, inputs, steps[|steps| - 1]) then 1 else 0
  }

  /** A score counts a hundred per type match and one per anchor. */
  lemma {:induction false} ScoreCounts(slots: seq<Slot>, inputs: seq<Input>, steps: seq<Step>, i: nat, j: nat)
    requires i <= |slots| && j <= |inputs| && IsAlignment(slots, inputs, steps, i, j)
    ensures Score(slots, inputs, steps) == 100 * MatchCount(steps) + AnchorCount(slots, inputs, steps)
    ensures AnchorCount(slots, inputs, steps) <= MatchCount(steps)
    decreases |steps|
  {
    if steps != [] {
      var init := steps[..|steps| - 1];
      match steps[|steps| - 1]
      case Match(_, _) => ScoreCounts(slots, inputs, init, i - 1, j - 1);
      case ExistingGap(_) => ScoreCounts(slots, inputs, init, i - 1, j);
      case Insert(_) => ScoreCounts(slots, inputs, init, i, j - 1);
    }
  }

  /** `other` has more type matches than `steps`, or as many and more anchors. */
  predicate Beats(slots: seq<Slot>, inputs: seq<Input>, other: seq<Step>, steps: seq<Step>) {
    MatchCount(other) > MatchCount(steps) ||
    (MatchCount(other) == MatchCount(steps) &&
     AnchorCount(slots, inputs, other) > AnchorCount(slots, inputs, steps))
  }

  ghost predicate Unbeaten(slots: seq<Slot>, inputs: seq<Input>, steps: seq<Step>) {
    IsAlignment(slots, inputs, steps, |slots|, |inputs|) &&
    forall other :: IsAlignment(slots, inputs, other, |slots|, |inputs|) ==> !Beats(slots, inputs, other, steps)
  }

  lemma BeatsIffScoresMore(slots: seq<Slot>, inputs: seq<Input>, other: seq<Step>, steps: seq<Step>)
    requires |slots| <= 100 || |inputs| <= 100
    requires IsAlignment(slots, inputs, steps, |slots|, |inputs|)
    requires IsAlignment(slots, inputs, other, |slots|, |inputs|)
    ensures Beats(slots, inputs, other, steps) <==> Score(slots, inputs, other) > Score(slots, inputs, steps)
  {
    ScoreCounts(slots, inputs, other, |slots|, |inputs|);
    ScoreCounts(slots, inputs, steps, |slots|, |inputs|);
    ScoreBetweenWeights(slots, inputs, other, |slots|, |inputs|);
    ScoreBetweenWeights(slots, inputs, steps, |slots|, |inputs|);
  }

  /** With at most 100 slots or at most 100 inputs, the optimal alignments are exactly those that no
      other beats in type matches first and anchors second; so alignment is refused exactly if
      there are two of these. */
  lemma OptimalIffUnbeaten(slots: seq<Slot>, inputs: seq<Input>)
    requires |slots| <= 100 || |inputs| <= 100
    ensures forall p :: Optimal(slots, inputs, p, |slots|, |inputs|) <==> Unbeaten(slots, inputs, p)
    ensures Ambiguous(slots, inputs, |slots|, |inputs|) <==>
            exists p, q :: p != q && Unbeaten(slots, inputs, p) && Unbeaten(slots, inputs, q)
  {
    forall p
      ensures Optimal(slots, inputs, p, |slots|, |inputs|) <==> Unbeaten(slots, inputs, p)
    {
      if IsAlignment(slots, inputs, p, |slots|, |inputs|) {
        forall other | IsAlignment(slots, inputs, other, |slots|, |inputs|)
          ensures Beats(slots, inputs, other, p) <==> Score(slots, inputs, other) > Score(slots, inputs, p)
        {
          BeatsIffScoresMore(slots, inputs, other, p);
        }
      }
    }
  }

  // ---------------------------------------------------------------- equal type sequences

  ghost predicate SameTypes(slots: seq<Slot>, inputs: seq<Input>) {
    |slots| == |inputs| && forall k :: 0 <= k < |slots| ==> slots[k].msgType == inputs[k].msgType
  }

  lemma {:induction false} IdentityAligns(slots: seq<Slot>, inputs: seq<Input>, n: nat)
    requires SameTypes(slots, inputs) && n <= |slots|
    ensures IsAlignment(slots, inputs, Identity(n), n, n) && MatchCount(Identity(n)) == n
  {
    if n > 0 {
      IdentityAligns(slots, inputs, n - 1);
      assert Identity(n)[..n - 1] == Identity(n - 1);
    }
  }

  lemma {:induction false} FullyMatchedIsIdentity(
    slots: seq<Slot>, inputs: seq<Input>, steps: seq<Step>, n: nat)
    requires n <= |slots| && n <= |inputs|
    requires IsAlignment(slots, inputs, steps, n, n) && MatchCount(steps) == n
    ensures steps == Identity(n)
    decreases |steps|
  {
    if steps != [] {
      var init := steps[..|steps| - 1];
      match steps[|steps| - 1]
      case Match(_, _) =>
        FullyMatchedIsIdentity(slots, inputs, init, n - 1);
        assert steps == init + [Match(n - 1, n - 1)];
        assert Identity(n) == Identity(n - 1) + [Match(n - 1, n - 1)];
      case ExistingGap(_) => ScoreBetweenWeights(slots, inputs, init, n - 1, n);
      case Insert(_) => ScoreBetweenWeights(slots, inputs, init, n, n - 1);
    }
  }

  /** Equal type sequences of at most 100 entries align to the identity, and to nothing else,
      whatever their connection orders are. */
  lemma SameTypesAlignToIdentity(slots: seq<Slot>, inputs: seq<Input>, steps: seq<Step>)
    requires SameTypes(slots, inputs) && |slots| <= 100
    ensures Optimal(slots, inputs, steps, |slots|, |slots|) <==> steps == Identity(|slots|)
    ensures !Ambiguous(slots, inputs, |slots|, |slots|)
  {
    OnlyIdentityIsOptimal(slots, inputs);
    var w := CellIsAttained(slots, inputs, |slots|, |slots|);
    OptimalIsCellScore(slots, inputs, w, |slots|, |slots|);
    assert w == Identity(|slots|);
  }

  lemma OnlyIdentityIsOptimal(slots: seq<Slot>, inputs: seq<Input>)
    requires SameTypes(slots, inputs) && |slots| <= 100
    ensures forall p :: Optimal(slots, inputs, p, |slots|, |slots|) ==> p == Identity(|slots|)
  {
    var n := |slots|;
    IdentityAligns(slots, inputs, n);
    forall p | Optimal(slots, inputs, p, n, n)
      ensures p == Identity(n)
    {
      OptimalHasMostMatches(slots, inputs, p, Identity(n));
      ScoreBetweenWeights(slots, inputs, p, n, n);
      FullyMatchedIsIdentity(slots, inputs, p, n);
    }
  }

  // ---------------------------------------------------------------- the bound is tight

  /** `c` slots of one type, then others up to `m`; the first `c` inputs are of the same type, with
      orders shifted by one so that every anchor sits off the diagonal, and the others match no
      slot. */
  function ShiftedSlots(c: nat, m: nat): seq<Slot> {
    seq(m, k requires 0 <= k => if k < c then Slot("T", {k}) else Slot("U", {}))
  }

  function ShiftedInputs(c: nat, n: nat): seq<Input> {
    seq(n, k requires 0 <= k =>
      if k < c then Input("T", if k == 0 then c else k - 1) else Input("V", 0))
  }

  /** Insert the first input, then match every slot but the last to its anchor. */
  function Shifted(n: nat): seq<Step>
    requires n > 0
  {
    if n == 1 then [Insert(0)] else Shifted(n - 1) + [Match(n - 2, n - 1)]
  }

  /** Go on from (c, c) to (i, j) without matching anything. */
  function Padded(steps: seq<Step>, c: nat, i: nat, j: nat): seq<Step>
    decreases i + j
  {
    if i > c then Padded(steps, c, i - 1, j) + [ExistingGap(i - 1)]
    else if j > c then Padded(steps, c, i, j - 1) + [Insert(j - 1)]
    else steps
  }

  lemma {:induction false} ShiftedAligns(c: nat, m: nat, n: nat, k: nat)
    requires 0 < k <= c <= m && c <= n
    ensures var s, t := ShiftedSlots(c, m), ShiftedInputs(c, n);
            IsAlignment(s, t, Shifted(k), k - 1, k) &&
            MatchCount(Shifted(k)) == k - 1 &&
            Score(s, t, Shifted(k)) == 101 * (k - 1)
  {
    var s, t := ShiftedSlots(c, m), ShiftedInputs(c, n);
    if k == 1 {
      assert Shifted(1)[..0] == [];
    } else {
      ShiftedAligns(c, m, n, k - 1);
      assert s[k - 2] == Slot("T", {k - 2}) && t[k - 1] == Input("T", k - 2);
      OneMoreStep(s, t, Shifted(k - 1), Match(k - 2, k - 1));
    }
  }

  lemma OneMoreStep(slots: seq<Slot>, inputs: seq<Input>, steps: seq<Step>, step: Step)
    ensures (steps + [step])[..|steps + [step]| - 1] == steps
    ensures Score(slots, inputs, steps + [step]) == Score(slots, inputs, steps) + StepScore(slots, inputs, step)
    ensures MatchCount(steps + [step]) == MatchCount(steps) + if step.Match? then 1 else 0
  {
    assert (steps + [step])[..|steps + [step]| - 1] == steps;
  }

  lemma {:induction false} DiagonalAligns(c: nat, m: nat, n: nat, k: nat)
    requires k <= c <= m && c <= n
    ensures var s, t := ShiftedSlots(c, m), ShiftedInputs(c, n);
            IsAlignment(s, t, Identity(k), k, k) && MatchCount(Identity(k)) == k &&
            Score(s, t, Identity(k)) == 100 * k
  {
    if k > 0 {
      DiagonalAligns(c, m, n, k - 1);
      assert Identity(k)[..k - 1] == Identity(k - 1);
    }
  }

  lemma {:induction false} PaddingKeeps(slots: seq<Slot>, inputs: seq<Input>, steps: seq<Step>, c: nat, i: nat, j: nat)
    requires c <= i <= |slots| && c <= j <= |inputs| && IsAlignment(slots, inputs, steps, c, c)
    ensures var padded := Padded(steps, c, i, j);
            IsAlignment(slots, inputs, padded, i, j) && MatchCount(padded) == MatchCount(steps) &&
            Score(slots, inputs, padded) == Score(slots, inputs, steps)
    decreases i + j
  {
    var padded := Padded(steps, c, i, j);
    if i > c {
      PaddingKeeps(slots, inputs, steps, c, i - 1, j);
      assert padded[..|padded| - 1] == Padded(steps, c, i - 1, j);
    } else if j > c {
      PaddingKeeps(slots, inputs, steps, c, i, j - 1);
      assert padded[..|padded| - 1] == Padded(steps, c, i, j - 1);
    }
  }

  /** With 101 or more shifted entries no alignment scores more than the anchored one. */
  lemma {:induction false} ShiftedIsBest(c: nat, m: nat, n: nat, p: seq<Step>, i: nat, j: nat)
    requires 101 <= c && i <= m && j <= n && c <= m && c <= n
    requires IsAlignment(ShiftedSlots(c, m), ShiftedInputs(c, n), p, i, j)
    ensures Score(ShiftedSlots(c, m), ShiftedInputs(c, n), p) <= 101 * (c - 1)
    decreases |p|
  {
    var s, t := ShiftedSlots(c, m), ShiftedInputs(c, n);
    if i > c || j > c {
      var init := p[..|p| - 1];
      match p[|p| - 1] {
        case ExistingGap(_) => ShiftedIsBest(c, m, n, init, i - 1, j);
        case Insert(_) => ShiftedIsBest(c, m, n, init, i, j - 1);
        case Match(a, b) => assert false;
      }
    } else {
      ScoreBetweenWeights(s, t, p, i, j);
      if MatchCount(p) == c {
        FullyMatchedIsIdentity(s, t, p, c);
        DiagonalAligns(c, m, n, c);
      }
    }
  }

  /** `best` is optimal, yet `other` has more type matches. */
  ghost predicate FewerMatches(
    slots: seq<Slot>, inputs: seq<Input>, best: seq<Step>, other: seq<Step>)
  {
    Optimal(slots, inputs, best, |slots|, |inputs|) &&
    IsAlignment(slots, inputs, other, |slots|, |inputs|) &&
    MatchCount(best) < MatchCount(other)
  }

  /** From 101 entries on both sides the guarantee is gone: 100 anchored matches tie with 101 plain
      ones, and more anchored ones win. */
  lemma MostMatchesCanFail(m: nat, n: nat) returns (
    slots: seq<Slot>, inputs: seq<Input>, best: seq<Step>, other: seq<Step>)
    requires m >= 101 && n >= 101
    ensures |slots| == m && |inputs| == n && FewerMatches(slots, inputs, best, other)
  {
    var c := if m < n then m else n;
    slots, inputs := ShiftedSlots(c, m), ShiftedInputs(c, n);
    var anchored := Shifted(c) + [ExistingGap(c - 1)];
    ShiftedAligns(c, m, n, c);
    assert anchored[..|anchored| - 1] == Shifted(c);
    DiagonalAligns(c, m, n, c);
    PaddingKeeps(slots, inputs, anchored, c, m, n);
    PaddingKeeps(slots, inputs, Identity(c), c, m, n);
    best, other := Padded(anchored, c, m, n), Padded(Identity(c), c, m, n);
    forall p | IsAlignment(slots, inputs, p, m, n)
      ensures Score(slots, inputs, p) <= Score(slots, inputs, best)
    {
      ShiftedIsBest(c, m, n, p, m, n);
    }
  }

  /** The bound is exact: the anchor bonus only ever breaks ties between `m` slots and `n` inputs if
      and only if one of the two is at most 100. */
  lemma AnchorsOnlyBreakTiesIff(m: nat, n: nat)
    ensures (forall slots, inputs, best, other | |slots| == m && |inputs| == n ::
               !FewerMatches(slots, inputs, best, other)) <==> m <= 100 || n <= 100
  {
    if m <= 100 || n <= 100 {
      forall slots, inputs, best, other | |slots| == m && |inputs| == n
        ensures !FewerMatches(slots, inputs, best, other)
      {
        if FewerMatches(slots, inputs, best, other) {
          OptimalHasMostMatches(slots, inputs, best, other);
        }
      }
    } else {
      var slots, inputs, best, other := MostMatchesCanFail(m, n);
    }
  }

  // ---------------------------------------------------------------- gaps next to inserts

  predicate GapNextToInsert(steps: seq<Step>, k: nat)
    requires k + 1 < |steps|
  {
    (steps[k].ExistingGap? && steps[k + 1].Insert?) ||
    (steps[k].Insert? && steps[k + 1].ExistingGap?)
  }

  function Swapped(steps: seq<Step>, k: nat): seq<Step>
    requires k + 1 < |steps|
  {
    steps[k := steps[k + 1]][k + 1 := steps[k]]
  }

  /** A gap next to an insert can be taken in either order. */
  lemma {:induction false} SwapKeepsAlignment(
    slots: seq<Slot>, inputs: seq<Input>, steps: seq<Step>, k: nat, i: nat, j: nat)
    requires i <= |slots| && j <= |inputs|
    requires IsAlignment(slots, inputs, steps, i, j)
    requires k + 1 < |steps| && GapNextToInsert(steps, k)
    ensures IsAlignment(slots, inputs, Swapped(steps, k), i, j)
    ensures Score(slots, inputs, Swapped(steps, k)) == Score(slots, inputs, steps)
    decreases |steps|
  {
    var n := |steps|;
    var init, other := steps[..n - 1], Swapped(steps, k);
    if k + 2 == n {
      var front := steps[..n - 2];
      assert init[..n - 2] == front;
      assert other[..n - 1] == front + [steps[n - 1]];
      assert other[..n - 1][..n - 2] == front;
    } else {
      assert other[..n - 1] == Swapped(init, k);
      match steps[n - 1]
      case Match(_, _) => SwapKeepsAlignment(slots, inputs, init, k, i - 1, j - 1);
      case ExistingGap(_) => SwapKeepsAlignment(slots, inputs, init, k, i - 1, j);
      case Insert(_) => SwapKeepsAlignment(slots, inputs, init, k, i, j - 1);
    }
  }

  /** So a gap next to an insert in an optimal alignment makes the alignment ambiguous. */
  lemma GapNextToInsertIsAmbiguous(
    slots: seq<Slot>, inputs: seq<Input>, steps: seq<Step>, k: nat, i: nat, j: nat)
    requires i <= |slots| && j <= |inputs|
    requires Optimal(slots, inputs, steps, i, j)
    requires k + 1 < |steps| && GapNextToInsert(steps, k)
    ensures Ambiguous(slots, inputs, i, j)
  {
    SwapKeepsAlignment(slots, inputs, steps, k, i, j);
    var other := Swapped(steps, k);
    assert other[k] != steps[k];
    assert Optimal(slots, inputs, other, i, j);
  }

  /** For example, merging a mission that replaces the only input by one of another type. */
  lemma ReplacedInputIsAmbiguous(slot: Slot, input: Input)
    requires slot.msgType != input.msgType
    ensures Ambiguous([slot], [input], 1, 1)
  {
    var slots, inputs, steps := [slot], [input], [ExistingGap(0), Insert(0)];
    assert steps[..1] == [ExistingGap(0)] && steps[..1][..0] == [];
    assert IsAlignment(slots, inputs, steps[..1], 1, 0) && IsAlignment(slots, inputs, steps, 1, 1);
    assert Score(slots, inputs, steps[..1]) == 0 && Score(slots, inputs, steps) == 0;
    assert Best(slots, inputs, 0, 1).score == 0 && Best(slots, inputs, 1, 0).score == 0;
    assert Best(slots, inputs, 1, 1).score == 0;
    forall other | IsAlignment(slots, inputs, other, 1, 1)
      ensures Score(slots, inputs, other) <= 0
    {
      CellIsUpperBound(slots, inputs, other, 1, 1);
    }
    GapNextToInsertIsAmbiguous(slots, inputs, steps, 0, 1, 1);
  }
}
