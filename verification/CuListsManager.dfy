/** The slot manager of CopperLists: a fixed block of slots with an insertion index that behaves
    as a stack of lists with ever increasing ids. */
module CuListsManager {
  import opened Sequences
  import opened Wrappers

  // The payload tuple of a list.
  type Payload(==, !new)

  datatype ListState = Free | Initialized

  datatype CopperList = CopperList(id: nat, state: ListState, msgs: Payload)

  lemma NextIndex(i: nat, n: nat)
    requires i < n
    ensures (i + 1) % n == if i + 1 == n then 0 else i + 1
  {
  }

  ghost predicate Increasing(lists: seq<CopperList>) {
    forall i, j :: 0 <= i < j < |lists| ==> lists[i].id < lists[j].id
  }

  /** `zeroed` is the payloads' `init_zeroed`, which resets metadata only. */
  class Manager {
    const zeroed: Payload -> Payload
    const data: array<CopperList>
    var length: nat
    var insertionIndex: nat
    var currentClId: nat

    ghost predicate Valid()
      reads this, data
    {
      length <= data.Length &&
      insertionIndex == (if length == data.Length then 0 else length) &&
      Increasing(data[..length]) && forall i :: 0 <= i < length ==> data[i].id < currentClId
    }

    ghost predicate AllSlotsAre(list: CopperList)
      reads data
    {
      forall i :: 0 <= i < data.Length ==> data[i] == list
    }

    /** The insertion index is the number of lists modulo the number of slots. */
    lemma IndexIsLengthModSize()
      requires Valid() && data.Length > 0
      ensures insertionIndex == length % data.Length
    {
    }

    /** The active lists, oldest first. */
    ghost function Contents(): seq<CopperList>
      requires Valid()
      reads this, data
    {
      data[..length]
    }

    constructor (size: nat, blank: Payload, zeroed: Payload -> Payload)
      ensures Valid() && fresh(data) && data.Length == size && Contents() == []
      ensures this.zeroed == zeroed && currentClId == 0
      ensures AllSlotsAre(CopperList(0, Free, zeroed(blank)))
    {
      this.zeroed := zeroed;
      data := new CopperList[size](_ => CopperList(0, Free, blank));
      length, insertionIndex, currentClId := 0, 0, 0;
      new;
      var i := 0;
      while i < size
        invariant 0 <= i <= size && data.Length == size && fresh(data)
        invariant length == insertionIndex == currentClId == 0
        invariant forall k :: 0 <= k < size ==>
                    data[k] == CopperList(0, Free, if k < i then zeroed(blank) else blank)
        modifies data
      {
        data[i] := data[i].(msgs := zeroed(data[i].msgs));
        i := i + 1;
      }
    }

    predicate IsFull()
      reads this
    {
      data.Length == length
    }

    method Clear()
      requires Valid()
      modifies this`length, this`insertionIndex
      ensures Valid() && Contents() == [] && data[..] == old(data[..])
    {
      insertionIndex, length := 0, 0;
    }

    /** The slot for a new list, if there is one left: the list gets the next id and keeps the
        payloads its slot held before. */
    method Create() returns (slot: Option<nat>)
      requires Valid()
      modifies this, data
      ensures Valid() && (slot.None? <==> old(length) == data.Length)
      ensures slot.None? ==> Contents() == old(Contents()) && currentClId == old(currentClId)
      ensures slot.Some? ==>
                slot.value == old(length) && currentClId == old(currentClId) + 1 &&
                Contents() == old(Contents()) +
                  [CopperList(old(currentClId), Initialized, zeroed(old(data[..])[slot.value].msgs))] &&
                data[length..] == old(data[..])[length..]
    {
      if IsFull() { return None; }
      var index := insertionIndex;
      NextIndex(index, data.Length);
      insertionIndex := (insertionIndex + 1) % data.Length;
      length := length + 1;
      data[index] := CopperList(currentClId, Initialized, zeroed(data[index].msgs));
      currentClId := currentClId + 1;
      assert data[..length] == old(data[..length]) + [data[index]];
      return Some(index);
    }

    /** The newest list. */
    method Peek() returns (top: Option<CopperList>)
      requires Valid()
      ensures top == if Contents() == [] then None else Some(Contents()[|Contents()| - 1])
    {
      if length == 0 { return None; }
      var index := if insertionIndex == 0 then data.Length - 1 else insertionIndex - 1;
      return Some(data[index]);
    }

    method DropLast()
      requires Valid()
      modifies this`length, this`insertionIndex
      ensures Valid()
      ensures Contents() == if old(Contents()) == [] then [] else old(Contents())[..old(length) - 1]
    {
      if length == 0 { return; }
      if insertionIndex == 0 { insertionIndex := data.Length - 1; } else { insertionIndex := insertionIndex - 1; }
      length := length - 1;
      assert data[..length] == data[..old(length)][..length];
    }

    /** Removes the newest list and gives its slot. */
    method Pop() returns (slot: Option<nat>)
      requires Valid()
      modifies this`length, this`insertionIndex
      ensures Valid() && (slot.None? <==> old(Contents()) == [])
      ensures slot.None? ==> Contents() == []
      ensures slot.Some? ==>
                slot.value == |Contents()| < data.Length && old(Contents()) == Contents() + [data[slot.value]]
    {
      if length == 0 { return None; }
      if insertionIndex == 0 { insertionIndex := data.Length - 1; } else { insertionIndex := insertionIndex - 1; }
      length := length - 1;
      return Some(insertionIndex);
    }

    /** Newest to oldest. */
    method Iter() returns (lists: seq<CopperList>)
      requires Valid()
      ensures lists == Reversed(Contents())
    {
      var a, b := data[..length][..insertionIndex], data[..length][insertionIndex..];
      ReversedParts(a, b);
      ReversedParts(b, a);
      assert data[..length] == a + b && (a == [] || b == []);
      var newer := Backwards(a);
      var older := Backwards(b);
      return newer + older;
    }

    /** Oldest to newest: the reverse of `Iter`. */
    method AscIter() returns (lists: seq<CopperList>)
      requires Valid()
      ensures lists == Contents() == Reversed(Reversed(Contents())) && Increasing(lists)
    {
      ReversedTwice(Contents());
      var a, b := data[..length][..insertionIndex], data[..length][insertionIndex..];
      assert a == [] || b == [];
      return b + a;
    }
  }

  /** Whatever was created, popped, dropped or cleared before, a list created last is the one
      peeked and popped, and its id is larger than that of every list still there. */
  method CreateThenPop(m: Manager) returns (top: Option<CopperList>, slot: Option<nat>)
    requires m.Valid() && m.length < m.data.Length
    modifies m, m.data
    ensures m.Valid() && m.Contents() == old(m.Contents())
    ensures slot == Some(old(m.length)) && top.Some? && top.value.id == old(m.currentClId)
    ensures forall i :: 0 <= i < |m.Contents()| ==> m.Contents()[i].id < top.value.id
    ensures m.currentClId == old(m.currentClId) + 1
  {
    var created := m.Create();
    top := m.Peek();
    slot := m.Pop();
  }

  // ---------------------------------------------------------------- any mix of operations

  datatype Op = DoCreate | DoPop | DoDropLast | DoClear

  /** The ids of the active lists, oldest first, and the next id to give. */
  datatype Stack = Stack(ids: seq<nat>, next: nat)

  function After(ops: seq<Op>, size: nat): Stack {
    if ops == [] then Stack([], 0)
    else
      var before := After(ops[..|ops| - 1], size);
      match ops[|ops| - 1]
      case DoCreate =>
        if |before.ids| == size then before else Stack(before.ids + [before.next], before.next + 1)
      case DoClear => before.(ids := [])
      case _ => if before.ids == [] then before else before.(ids := before.ids[..|before.ids| - 1])
  }

  /** Over any mix of operations the active ids increase, no id is given twice, and there are never
      more lists than slots. */
  lemma {:induction false} IdsIncreaseOverAnyMix(ops: seq<Op>, size: nat)
    ensures var stack := After(ops, size);
            |stack.ids| <= size &&
            (forall i, j :: 0 <= i < j < |stack.ids| ==> stack.ids[i] < stack.ids[j]) &&
            forall i :: 0 <= i < |stack.ids| ==> stack.ids[i] < stack.next
    ensures ops != [] ==> After(ops[..|ops| - 1], size).next <= After(ops, size).next
  {
    if ops != [] { IdsIncreaseOverAnyMix(ops[..|ops| - 1], size); }
  }

  ghost function Ids(lists: seq<CopperList>): seq<nat> {
    seq(|lists|, i requires 0 <= i < |lists| => lists[i].id)
  }

  /** A new manager behaves as the stack says. */
  method RunOperations(size: nat, blank: Payload, zeroed: Payload -> Payload, ops: seq<Op>) returns (m: Manager)
    ensures m.Valid() && m.data.Length == size
    ensures After(ops, size) == Stack(Ids(m.Contents()), m.currentClId)
  {
    m := new Manager(size, blank, zeroed);
    for k := 0 to |ops|
      invariant m.Valid() && m.data.Length == size && fresh(m) && fresh(m.data)
      invariant After(ops[..k], size) == Stack(Ids(m.Contents()), m.currentClId)
    {
      assert ops[..k + 1][..k] == ops[..k];
      match ops[k] {
        case DoCreate => var slot := m.Create();
        case DoPop => var slot := m.Pop();
        case DoDropLast => m.DropLast();
        case DoClear => m.Clear();
      }
    }
    assert ops[..|ops|] == ops;
  }
}
