/** Merging missions into one canonical input layout.  Each merge aligns the canonical slots
    with the mission's inputs and rebuilds the slots along the alignment, remapping every
    mission merged before. */
module InputLayout {
  import opened Wrappers
  import opened Alignment
  import opened AlignTaskInputs

  type Mapping = seq<Option<nat>>

  datatype Layout = Layout(slots: seq<Slot>, mappings: map<string, Mapping>)

  // ---------------------------------------------------------------- what a merge computes

  function SlotAfter(slots: seq<Slot>, inputs: seq<Input>, step: Step): Slot {
    match step
    case Match(a, b) =>
      if a < |slots| && b < |inputs| then slots[a].(orders := slots[a].orders + {inputs[b].order})
      else Slot("", {})
    case ExistingGap(a) => if a < |slots| then slots[a] else Slot("", {})
    case Insert(b) =>
      if b < |inputs| then Slot(inputs[b].msgType, {inputs[b].order}) else Slot("", {})
  }

  function NewSlots(slots: seq<Slot>, inputs: seq<Input>, steps: seq<Step>): seq<Slot> {
    seq(|steps|, k requires 0 <= k < |steps| => SlotAfter(slots, inputs, steps[k]))
  }

  function InputOf(step: Step): Option<nat> {
    match step
    case Match(_, b) => Some(b)
    case ExistingGap(_) => None
    case Insert(b) => Some(b)
  }

  function NewMapping(steps: seq<Step>): Mapping {
    seq(|steps|, k requires 0 <= k < |steps| => InputOf(steps[k]))
  }

  predicate UsesSlot(step: Step, a: nat) {
    match step
    case Match(s, _) => s == a
    case ExistingGap(s) => s == a
    case Insert(_) => false
  }

  function Carried(mapping: Mapping, step: Step): Option<nat> {
    match step
    case Match(a, _) => if a < |mapping| then mapping[a] else None
    case ExistingGap(a) => if a < |mapping| then mapping[a] else None
    case Insert(_) => None
  }

  function Remapped(mapping: Mapping, steps: seq<Step>): Mapping {
    seq(|steps|, k requires 0 <= k < |steps| => Carried(mapping, steps[k]))
  }

  function Merged(layout: Layout, name: string, inputs: seq<Input>, steps: seq<Step>): Layout {
    Layout(NewSlots(layout.slots, inputs, steps),
           (map m | m in layout.mappings :: Remapped(layout.mappings[m], steps))
             [name := NewMapping(steps)])
  }

  // ---------------------------------------------------------------- what makes a layout right

  /** The present entries of a mapping, left to right. */
  function Present(mapping: Mapping): seq<nat> {
    if mapping == [] then []
    else
      var last := mapping[|mapping| - 1];
      Present(mapping[..|mapping| - 1]) + if last.Some? then [last.value] else []
  }

  function UpTo(n: nat): seq<nat> {
    seq(n, k requires 0 <= k => k)
  }

  predicate SlotTakes(slot: Slot, inputs: seq<Input>, entry: Option<nat>) {
    entry.Some? ==>
      entry.value < |inputs| && slot.msgType == inputs[entry.value].msgType &&
      inputs[entry.value].order in slot.orders
  }

  /** A mission's mapping names, per canonical slot, which of its inputs sits there: every
      input once and in order, in a slot of its type that knows its connection order. */
  ghost predicate MappingFits(slots: seq<Slot>, inputs: seq<Input>, mapping: Mapping) {
    |mapping| == |slots| && Present(mapping) == UpTo(|inputs|) &&
    forall k :: 0 <= k < |slots| ==> SlotTakes(slots[k], inputs, mapping[k])
  }

  ghost predicate Fits(layout: Layout, known: map<string, seq<Input>>) {
    layout.mappings.Keys == known.Keys &&
    forall m :: m in known ==> MappingFits(layout.slots, known[m], layout.mappings[m])
  }

  /** Mission `m` feeds slot `k` under connection order `o`. */
  ghost predicate Feeds(layout: Layout, known: map<string, seq<Input>>, m: string, k: nat, o: nat) {
    m in known && m in layout.mappings && k < |layout.mappings[m]| &&
    layout.mappings[m][k].Some? && layout.mappings[m][k].value < |known[m]| &&
    known[m][layout.mappings[m][k].value].order == o
  }

  /** The connection orders of a slot are exactly those under which some mission feeds it. */
  ghost predicate OrdersExact(layout: Layout, known: map<string, seq<Input>>) {
    forall k, o :: 0 <= k < |layout.slots| ==>
      (o in layout.slots[k].orders <==> exists m :: Feeds(layout, known, m, k, o))
  }

  // ---------------------------------------------------------------- alignments cover both lists

  lemma {:induction false} StepsInRange(
    slots: seq<Slot>, inputs: seq<Input>, steps: seq<Step>, i: nat, j: nat)
    requires i <= |slots| && j <= |inputs| && IsAlignment(slots, inputs, steps, i, j)
    ensures forall k :: 0 <= k < |steps| ==>
              match steps[k]
              case Match(a, b) => a < i && b < j && slots[a].msgType == inputs[b].msgType
              case ExistingGap(a) => a < i
              case Insert(b) => b < j
    decreases |steps|
  {
    if steps != [] {
      var init := steps[..|steps| - 1];
      assert forall k :: 0 <= k < |init| ==> init[k] == steps[k];
      match steps[|steps| - 1]
      case Match(_, _) => StepsInRange(slots, inputs, init, i - 1, j - 1);
      case ExistingGap(_) => StepsInRange(slots, inputs, init, i - 1, j);
      case Insert(_) => StepsInRange(slots, inputs, init, i, j - 1);
    }
  }

  lemma {:induction false} EverySlotUsedOnce(
    slots: seq<Slot>, inputs: seq<Input>, steps: seq<Step>, i: nat, j: nat, a: nat) returns (k: nat)
    requires i <= |slots| && j <= |inputs| && IsAlignment(slots, inputs, steps, i, j)
    requires a < i
    ensures k < |steps| && UsesSlot(steps[k], a)
    ensures forall l :: 0 <= l < |steps| && UsesSlot(steps[l], a) ==> l == k
    decreases |steps|
  {
    var n := |steps| - 1;
    var init := steps[..n];
    assert forall l :: 0 <= l < n ==> init[l] == steps[l];
    if UsesSlot(steps[n], a) {
      k := n;
      match steps[n]
      case Match(_, _) => StepsInRange(slots, inputs, init, i - 1, j - 1);
      case ExistingGap(_) => StepsInRange(slots, inputs, init, i - 1, j);
    } else {
      match steps[n]
      case Match(_, _) => k := EverySlotUsedOnce(slots, inputs, init, i - 1, j - 1, a);
      case ExistingGap(_) => k := EverySlotUsedOnce(slots, inputs, init, i - 1, j, a);
      case Insert(_) => k := EverySlotUsedOnce(slots, inputs, init, i, j - 1, a);
    }
  }

  lemma {:induction false} NewMappingIsComplete(
    slots: seq<Slot>, inputs: seq<Input>, steps: seq<Step>, i: nat, j: nat)
    requires i <= |slots| && j <= |inputs| && IsAlignment(slots, inputs, steps, i, j)
    ensures Present(NewMapping(steps)) == UpTo(j)
    decreases |steps|
  {
    if steps != [] {
      var init := steps[..|steps| - 1];
      assert NewMapping(steps)[..|steps| - 1] == NewMapping(init);
      match steps[|steps| - 1]
      case Match(_, _) =>
        NewMappingIsComplete(slots, inputs, init, i - 1, j - 1);
        assert UpTo(j) == UpTo(j - 1) + [j - 1];
      case ExistingGap(_) => NewMappingIsComplete(slots, inputs, init, i - 1, j);
      case Insert(_) =>
        NewMappingIsComplete(slots, inputs, init, i, j - 1);
        assert UpTo(j) == UpTo(j - 1) + [j - 1];
    }
  }

  lemma {:induction false} RemappingKeepsPresent(
    slots: seq<Slot>, inputs: seq<Input>, steps: seq<Step>, i: nat, j: nat, mapping: Mapping)
    requires i <= |slots| && j <= |inputs| && IsAlignment(slots, inputs, steps, i, j)
    requires i <= |mapping|
    ensures Present(Remapped(mapping, steps)) == Present(mapping[..i])
    decreases |steps|
  {
    if steps != [] {
      var init := steps[..|steps| - 1];
      assert Remapped(mapping, steps)[..|steps| - 1] == Remapped(mapping, init);
      if i > 0 { assert mapping[..i][..i - 1] == mapping[..i - 1]; }
      match steps[|steps| - 1]
      case Match(_, _) => RemappingKeepsPresent(slots, inputs, init, i - 1, j - 1, mapping);
      case ExistingGap(_) => RemappingKeepsPresent(slots, inputs, init, i - 1, j, mapping);
      case Insert(_) => RemappingKeepsPresent(slots, inputs, init, i, j - 1, mapping);
    }
  }

  // ---------------------------------------------------------------- merging preserves fitness

  lemma RemappedFits(slots: seq<Slot>, inputs: seq<Input>, steps: seq<Step>,
                     earlier: seq<Input>, mapping: Mapping)
    requires IsAlignment(slots, inputs, steps, |slots|, |inputs|)
    requires MappingFits(slots, earlier, mapping)
    ensures MappingFits(NewSlots(slots, inputs, steps), earlier, Remapped(mapping, steps))
  {
    RemappingKeepsPresent(slots, inputs, steps, |slots|, |inputs|, mapping);
    assert mapping[..|slots|] == mapping;
    StepsInRange(slots, inputs, steps, |slots|, |inputs|);
  }

  lemma NewMappingFits(slots: seq<Slot>, inputs: seq<Input>, steps: seq<Step>)
    requires IsAlignment(slots, inputs, steps, |slots|, |inputs|)
    ensures MappingFits(NewSlots(slots, inputs, steps), inputs, NewMapping(steps))
  {
    NewMappingIsComplete(slots, inputs, steps, |slots|, |inputs|);
    StepsInRange(slots, inputs, steps, |slots|, |inputs|);
  }

  /** A merge keeps the mapping of every mission merged before and adds a fitting one for the
      new mission; a mission merged again replaces its earlier inputs. */
  lemma MergeKeepsFits(layout: Layout, known: map<string, seq<Input>>,
                       name: string, inputs: seq<Input>, steps: seq<Step>)
    requires Fits(layout, known)
    requires IsAlignment(layout.slots, inputs, steps, |layout.slots|, |inputs|)
    ensures Fits(Merged(layout, name, inputs, steps), known[name := inputs])
  {
    NewMappingFits(layout.slots, inputs, steps);
    forall m | m in known && m != name
      ensures MappingFits(NewSlots(layout.slots, inputs, steps), known[m],
                          Remapped(layout.mappings[m], steps))
    {
      RemappedFits(layout.slots, inputs, steps, known[m], layout.mappings[m]);
    }
  }

  /** Slot `a` becomes slot `k`; whoever fed it still does. */
  lemma FeedsCarriesOver(layout: Layout, known: map<string, seq<Input>>, name: string,
                         inputs: seq<Input>, steps: seq<Step>,
                         after: Layout, more: map<string, seq<Input>>, k: nat, a: nat, o: nat)
    requires Fits(layout, known) && OrdersExact(layout, known) && name !in known
    requires after == Merged(layout, name, inputs, steps) && more == known[name := inputs]
    requires k < |steps| && UsesSlot(steps[k], a) && a < |layout.slots|
    ensures o in layout.slots[a].orders <==> exists m :: m != name && Feeds(after, more, m, k, o)
  {
    forall m | m != name
      ensures Feeds(after, more, m, k, o) <==> Feeds(layout, known, m, a, o)
    {
      if m in known {
        assert after.mappings[m][k] == layout.mappings[m][a];
      }
    }
    if o in layout.slots[a].orders {
      var m :| Feeds(layout, known, m, a, o);
      assert Feeds(after, more, m, k, o);
    }
  }

  /** Merging a mission not merged before also keeps the connection orders exact. */
  lemma MergeKeepsOrdersExact(layout: Layout, known: map<string, seq<Input>>,
                              name: string, inputs: seq<Input>, steps: seq<Step>)
    requires Fits(layout, known) && OrdersExact(layout, known) && name !in known
    requires IsAlignment(layout.slots, inputs, steps, |layout.slots|, |inputs|)
    ensures OrdersExact(Merged(layout, name, inputs, steps), known[name := inputs])
  {
    var after, more := Merged(layout, name, inputs, steps), known[name := inputs];
    StepsInRange(layout.slots, inputs, steps, |layout.slots|, |inputs|);
    forall k, o | 0 <= k < |after.slots|
      ensures o in after.slots[k].orders <==> exists m :: Feeds(after, more, m, k, o)
    {
      match steps[k]
      case Match(a, b) =>
        FeedsCarriesOver(layout, known, name, inputs, steps, after, more, k, a, o);
        assert Feeds(after, more, name, k, o) <==> inputs[b].order == o;
      case ExistingGap(a) =>
        FeedsCarriesOver(layout, known, name, inputs, steps, after, more, k, a, o);
        assert !Feeds(after, more, name, k, o);
      case Insert(b) =>
        assert Feeds(after, more, name, k, o) <==> inputs[b].order == o;
        assert forall m :: m != name ==> !Feeds(after, more, m, k, o);
    }
  }

  // ---------------------------------------------------------------- the mutable layout

  /** The one optimal alignment, where there is one. */
  ghost function TheOptimum(slots: seq<Slot>, inputs: seq<Input>): (steps: seq<Step>)
    requires !Ambiguous(slots, inputs, |slots|, |inputs|)
    ensures Optimal(slots, inputs, steps, |slots|, |inputs|)
  {
    CellIsExact(slots, inputs, |slots|, |inputs|);
    var steps :| Optimal(slots, inputs, steps, |slots|, |inputs|);
    steps
  }

  // ---------------------------------------------------------------- merging a sequence of missions

  datatype Mission = Mission(name: string, inputs: seq<Input>)

  /** The inputs each mission was last merged with. */
  function Known(missions: seq<Mission>): map<string, seq<Input>> {
    if missions == [] then map[]
    else
      var last := missions[|missions| - 1];
      Known(missions[..|missions| - 1])[last.name := last.inputs]
  }

  function FirstSteps(n: nat): seq<Step> {
    seq(n, k requires 0 <= k => Insert(k))
  }

  /** The layout after merging the missions in order, if no merge was ambiguous. */
  ghost function MergedAll(missions: seq<Mission>): Option<Layout>
    requires missions != []
  {
    var last := missions[|missions| - 1];
    if |missions| == 1 then
      Some(Merged(Layout([], map[]), last.name, last.inputs, FirstSteps(|last.inputs|)))
    else
      match MergedAll(missions[..|missions| - 1])
      case None => None
      case Some(layout) =>
        if Ambiguous(layout.slots, last.inputs, |layout.slots|, |last.inputs|) then None
        else Some(Merged(layout, last.name, last.inputs, TheOptimum(layout.slots, last.inputs)))
  }

  lemma {:induction false} FirstStepsAlign(inputs: seq<Input>, n: nat)
    requires n <= |inputs|
    ensures IsAlignment([], inputs, FirstSteps(n), 0, n)
  {
    if n > 0 {
      FirstStepsAlign(inputs, n - 1);
      assert FirstSteps(n)[..n - 1] == FirstSteps(n - 1);
    }
  }

  ghost predicate DistinctNames(missions: seq<Mission>) {
    forall a, b :: 0 <= a < b < |missions| ==> missions[a].name != missions[b].name
  }

  lemma {:induction false} KnownNames(missions: seq<Mission>, name: string)
    ensures name in Known(missions) <==> exists k :: 0 <= k < |missions| && missions[k].name == name
  {
    if missions != [] {
      var init := missions[..|missions| - 1];
      KnownNames(init, name);
      if k :| 0 <= k < |missions| && missions[k].name == name && k < |init| {
        assert init[k].name == name;
      }
    }
  }

  /** After merging any sequence of missions, every mission's mapping fits the final slots;
      with distinct names the slots also know exactly the orders under which they are fed. */
  lemma {:induction false} MergedAllFits(missions: seq<Mission>)
    requires missions != [] && MergedAll(missions).Some?
    ensures Fits(MergedAll(missions).value, Known(missions))
    ensures DistinctNames(missions) ==> OrdersExact(MergedAll(missions).value, Known(missions))
  {
    var init, last := missions[..|missions| - 1], missions[|missions| - 1];
    KnownNames(init, last.name);
    if |missions| == 1 {
      FirstStepsAlign(last.inputs, |last.inputs|);
      MergeKeepsFits(Layout([], map[]), map[], last.name, last.inputs, FirstSteps(|last.inputs|));
      MergeKeepsOrdersExact(Layout([], map[]), map[], last.name, last.inputs,
                            FirstSteps(|last.inputs|));
      assert Known(missions) == map[][last.name := last.inputs];
    } else {
      MergedAllFits(init);
      var layout := MergedAll(init).value;
      var steps := TheOptimum(layout.slots, last.inputs);
      MergeKeepsFits(layout, Known(init), last.name, last.inputs, steps);
      if DistinctNames(missions) {
        MergeKeepsOrdersExact(layout, Known(init), last.name, last.inputs, steps);
      }
    }
  }

  class TaskInputLayout {
    var slots: seq<Slot>
    var missionSlotMappings: map<string, Mapping>

    ghost function Value(): Layout
      reads this
    {
      Layout(slots, missionSlotMappings)
    }

    constructor (firstMission: string, firstInputs: seq<Input>)
      ensures Some(Value()) == MergedAll([Mission(firstMission, firstInputs)])
    {
      slots := seq(|firstInputs|, k requires 0 <= k < |firstInputs| =>
        Slot(firstInputs[k].msgType, {firstInputs[k].order}));
      missionSlotMappings := map[firstMission := seq(|firstInputs|, k requires 0 <= k => Some(k))];
      new;
      ghost var steps := FirstSteps(|firstInputs|);
      assert slots == NewSlots([], firstInputs, steps);
      assert missionSlotMappings[firstMission] == NewMapping(steps);
    }

    /** `merge_task_input_layout`: refused, and nothing changed, exactly when the alignment is
        ambiguous. */
    method Merge(missionName: string, missionInputs: seq<Input>)
      returns (result: Result<(), AlignmentError>)
      requires forall m :: m in missionSlotMappings ==> |missionSlotMappings[m]| == |slots|
      modifies this
      ensures result.Err? <==>
              Ambiguous(old(slots), missionInputs, |old(slots)|, |missionInputs|)
      ensures result.Err? ==> Value() == old(Value())
      ensures result.Ok? ==>
              Value() == Merged(old(Value()), missionName, missionInputs,
                                TheOptimum(old(slots), missionInputs))
    {
      var aligned := Align(slots, missionInputs);
      if aligned.Err? { return Err(aligned.error); }
      var steps := aligned.value;
      assert steps == TheOptimum(slots, missionInputs);
      StepsInRange(slots, missionInputs, steps, |slots|, |missionInputs|);
      var newSlots, oldToNew, missionMapping := RebuildSlots(missionInputs, steps);

      var remappedMappings: map<string, Mapping> := map[];
      var remaining := missionSlotMappings.Keys;
      while remaining != {}
        invariant unchanged(this) && remaining <= missionSlotMappings.Keys
        invariant remappedMappings ==
          map m | m in missionSlotMappings && m !in remaining :: Remapped(missionSlotMappings[m], steps)
        decreases |remaining|
      {
        var existing :| existing in remaining;
        var remapped := Remap(missionSlotMappings[existing], missionInputs, steps, oldToNew);
        remappedMappings := remappedMappings[existing := remapped];
        remaining := remaining - {existing};
      }
      assert remappedMappings ==
        map m | m in missionSlotMappings :: Remapped(missionSlotMappings[m], steps);
      slots := newSlots;
      missionSlotMappings := remappedMappings[missionName := missionMapping];
      return Ok(());
    }

    method RebuildSlots(inputs: seq<Input>, steps: seq<Step>)
      returns (newSlots: seq<Slot>, oldToNew: seq<Option<nat>>, missionMapping: Mapping)
      requires IsAlignment(slots, inputs, steps, |slots|, |inputs|)
      ensures newSlots == NewSlots(slots, inputs, steps)
      ensures missionMapping == NewMapping(steps)
      ensures PlacedAt(oldToNew, |slots|, steps, |steps|)
    {
      StepsInRange(slots, inputs, steps, |slots|, |inputs|);
      newSlots, missionMapping := [], [];
      oldToNew := seq(|slots|, _ => None);
      var k := 0;
      while k < |steps|
        invariant 0 <= k <= |steps|
        invariant newSlots == NewSlots(slots, inputs, steps[..k])
        invariant missionMapping == NewMapping(steps[..k])
        invariant PlacedAt(oldToNew, |slots|, steps, k)
      {
        match steps[k] {
          case Match(a, b) =>
            var l := EverySlotUsedOnce(slots, inputs, steps, |slots|, |inputs|, a);
            oldToNew := oldToNew[a := Some(|newSlots|)];
            newSlots := newSlots + [slots[a].(orders := slots[a].orders + {inputs[b].order})];
            missionMapping := missionMapping + [Some(b)];
          case ExistingGap(a) =>
            var l := EverySlotUsedOnce(slots, inputs, steps, |slots|, |inputs|, a);
            oldToNew := oldToNew[a := Some(|newSlots|)];
            newSlots := newSlots + [slots[a]];
            missionMapping := missionMapping + [None];
          case Insert(b) =>
            newSlots := newSlots + [Slot(inputs[b].msgType, {inputs[b].order})];
            missionMapping := missionMapping + [Some(b)];
        }
        k := k + 1;
      }
      assert steps[..|steps|] == steps;
    }

    /** `oldToNew` records, for the slots used by the first `k` steps, which step used them. */
    static ghost predicate PlacedAt(oldToNew: seq<Option<nat>>, n: nat, steps: seq<Step>, k: nat) {
      |oldToNew| == n && k <= |steps| &&
      (forall a :: 0 <= a < n && oldToNew[a].Some? ==>
        oldToNew[a].value < k && UsesSlot(steps[oldToNew[a].value], a)) &&
      (forall p, a :: 0 <= p < k && 0 <= a < n && UsesSlot(steps[p], a) ==> oldToNew[a] == Some(p))
    }

    method Remap(mapping: Mapping, inputs: seq<Input>, steps: seq<Step>, oldToNew: seq<Option<nat>>)
      returns (remapped: Mapping)
      requires |mapping| == |slots|
      requires IsAlignment(slots, inputs, steps, |slots|, |inputs|)
      requires PlacedAt(oldToNew, |slots|, steps, |steps|)
      ensures remapped == Remapped(mapping, steps)
    {
      remapped := seq(|steps|, _ => None);
      var oldIndex := 0;
      while oldIndex < |mapping|
        invariant 0 <= oldIndex <= |mapping| && |remapped| == |steps|
        invariant forall p: nat, a: nat {:trigger UsesSlot(steps[p], a)} ::
                    p < |steps| && a < |slots| && UsesSlot(steps[p], a) ==>
                    remapped[p] == if a < oldIndex then mapping[a] else None
        invariant forall p :: 0 <= p < |steps| && steps[p].Insert? ==> remapped[p] == None
      {
        var p := EverySlotUsedOnce(slots, inputs, steps, |slots|, |inputs|, oldIndex);
        // The source's panic on a missing remap cannot happen.
        var newIndex := oldToNew[oldIndex].value;
        assert newIndex == p;
        remapped := remapped[newIndex := mapping[oldIndex]];
        oldIndex := oldIndex + 1;
      }
      StepsInRange(slots, inputs, steps, |slots|, |inputs|);
      forall p | 0 <= p < |steps|
        ensures remapped[p] == Remapped(mapping, steps)[p]
      {
        match steps[p]
        case Match(a, _) => assert UsesSlot(steps[p], a);
        case ExistingGap(a) => assert UsesSlot(steps[p], a);
        case Insert(_) =>
      }
    }
  }
  /** One turn of the loop below. */
  method MergeNext(layout: TaskInputLayout, missions: seq<Mission>, k: nat)
    returns (merged: Result<(), AlignmentError>)
    requires 0 < k < |missions| && Some(layout.Value()) == MergedAll(missions[..k])
    modifies layout
    ensures merged.Err? <==> MergedAll(missions[..k + 1]).None?
    ensures merged.Ok? ==> Some(layout.Value()) == MergedAll(missions[..k + 1])
  {
    MergedAllFits(missions[..k]);
    assert missions[..k + 1][..k] == missions[..k];
    merged := layout.Merge(missions[k].name, missions[k].inputs);
  }

  /** The per-task loop of `collect_task_input_layouts`. */
  method CollectTaskInputLayout(missions: seq<Mission>)
    returns (result: Result<TaskInputLayout, AlignmentError>)
    requires missions != []
    ensures result.Err? <==> MergedAll(missions).None?
    ensures result.Ok? ==>
              fresh(result.value) && Some(result.value.Value()) == MergedAll(missions)
  {
    var layout := new TaskInputLayout(missions[0].name, missions[0].inputs);
    assert missions[..1] == [Mission(missions[0].name, missions[0].inputs)];
    var k := 1;
    while k < |missions|
      invariant 1 <= k <= |missions| && fresh(layout)
      invariant Some(layout.Value()) == MergedAll(missions[..k])
    {
      var merged := MergeNext(layout, missions, k);
      if merged.Err? {
        AmbiguityIsFinal(missions, k + 1);
        return Err(merged.error);
      }
      k := k + 1;
    }
    assert missions[..k] == missions;
    return Ok(layout);
  }

  lemma {:induction false} AmbiguityIsFinal(missions: seq<Mission>, k: nat)
    requires 0 < k <= |missions| && MergedAll(missions[..k]).None?
    ensures MergedAll(missions).None?
    decreases |missions|
  {
    if k < |missions| {
      assert missions[..|missions| - 1][..k] == missions[..k];
      AmbiguityIsFinal(missions[..|missions| - 1], k);
    } else {
      assert missions[..k] == missions;
    }
  }
}
