/** The generated encoding of a whole CopperList: a slot per task output, a message per port of a
    slot, and one codec per message, found by a running flat index. */
module CopperListCodec {
  import opened Wrappers
  import opened Bincode
  import opened MessageCodec

  /** How far the builders' running index moves for a slot: they treat a slot with one port and
      a slot with none alike. */
  function Advance(size: nat): nat {
    if size > 1 then size else 1
  }

  /** The running index in front of slot `s`. */
  function FlatIndex(packs: seq<nat>, s: nat): nat
    requires s <= |packs|
  {
    if s == 0 then 0 else FlatIndex(packs, s - 1) + Advance(packs[s - 1])
  }

  /** The index of the first codec bound to slot `s`: one binding was made for every port. */
  function BindingIndex(packs: seq<nat>, s: nat): nat
    requires s <= |packs|
  {
    if s == 0 then 0 else BindingIndex(packs, s - 1) + packs[s - 1]
  }

  /** Both counts agree in front of a slot exactly if no slot before it is without ports. */
  lemma {:induction false} IndexesAgreeIff(packs: seq<nat>, s: nat)
    requires s <= |packs|
    ensures FlatIndex(packs, s) >= BindingIndex(packs, s)
    ensures FlatIndex(packs, s) == BindingIndex(packs, s) <==> forall t :: 0 <= t < s ==> packs[t] > 0
  {
    if s > 0 { IndexesAgreeIff(packs, s - 1); }
  }

  // ---------------------------------------------------------------- what the builders generate

  /** One generated encoding statement. */
  datatype Field<H> = Field(slot: nat, port: nat, helper: H)

  function SlotFields<H>(slot: nat, helpers: seq<H>): (fields: seq<Field<H>>)
    ensures |fields| == |helpers|
  {
    if helpers == [] then []
    else
      var n := |helpers| - 1;
      SlotFields(slot, helpers[..n]) + [Field(slot, n, helpers[n])]
  }

  /** The codecs of slot `s`, or nothing if the running index leaves the list of codecs. */
  function SlotHelpers<H>(packs: seq<nat>, helpers: seq<H>, s: nat): Option<seq<H>>
    requires s < |packs|
  {
    if FlatIndex(packs, s + 1) <= |helpers|
    then Some(helpers[FlatIndex(packs, s)..FlatIndex(packs, s + 1)]) else None
  }

  /** The codecs of the first `n` slots, slot by slot. */
  function AllHelpers<H>(packs: seq<nat>, helpers: seq<H>, n: nat): (slots: Option<seq<seq<H>>>)
    requires n <= |packs|
    ensures slots.Some? ==> |slots.value| == n
  {
    if n == 0 then Some([])
    else
      match (AllHelpers(packs, helpers, n - 1), SlotHelpers(packs, helpers, n - 1))
      case (Some(slots), Some(slot)) => Some(slots + [slot])
      case _ => None
  }

  function AllFields<H>(slots: seq<seq<H>>): seq<Field<H>> {
    if slots == [] then []
    else AllFields(slots[..|slots| - 1]) + SlotFields(|slots| - 1, slots[|slots| - 1])
  }

  /** The builders stay inside the list of codecs exactly if every slot has a port. */
  lemma {:induction false} GeneratedIff<H>(packs: seq<nat>, helpers: seq<H>, n: nat)
    requires n <= |packs| && |helpers| == BindingIndex(packs, |packs|)
    ensures AllHelpers(packs, helpers, n).Some? <==> n == 0 || FlatIndex(packs, n) <= |helpers|
    ensures n == |packs| ==> (AllHelpers(packs, helpers, n).Some? <==> forall t :: 0 <= t < n ==> packs[t] > 0)
  {
    IndexesAgreeIff(packs, n);
    if n > 0 { GeneratedIff(packs, helpers, n - 1); }
  }

  /** The codecs generated for slot `s` are the ones bound to its ports, in order. */
  lemma {:induction false} SlotGetsItsBindings<H>(packs: seq<nat>, helpers: seq<H>, n: nat, s: nat)
    requires s < n <= |packs| && AllHelpers(packs, helpers, n).Some?
    requires forall t :: 0 <= t <= s ==> packs[t] > 0
    ensures BindingIndex(packs, s) + packs[s] <= |helpers|
    ensures AllHelpers(packs, helpers, n).value[s] ==
            helpers[BindingIndex(packs, s)..BindingIndex(packs, s) + packs[s]]
  {
    if s < n - 1 {
      SlotGetsItsBindings(packs, helpers, n - 1, s);
    } else {
      IndexesAgreeIff(packs, s);
      assert FlatIndex(packs, n) == FlatIndex(packs, s) + packs[s];
    }
  }

  lemma {:induction false} NoMoreHelpers<H>(packs: seq<nat>, helpers: seq<H>, k: nat, n: nat)
    requires k <= n <= |packs| && AllHelpers(packs, helpers, k).None?
    ensures AllHelpers(packs, helpers, n).None?
  {
    if k < n { NoMoreHelpers(packs, helpers, k, n - 1); }
  }

  /** One slot of the encoding: a statement per port, each taking the next codec. */
  method SlotStatements<H>(slot: nat, size: nat, helpers: seq<H>, flat: nat) returns (fields: seq<Field<H>>)
    requires flat + size <= |helpers|
    ensures fields == SlotFields(slot, helpers[flat..flat + size])
  {
    fields := [];
    for p := 0 to size
      invariant fields == SlotFields(slot, helpers[flat..flat + p])
    {
      assert helpers[flat..flat + p + 1][..p] == helpers[flat..flat + p];
      fields := fields + [Field(slot, p, helpers[flat + p])];
    }
  }

  /** `build_culist_tuple_encode`; nothing if it would index past the codecs. */
  method BuildTupleEncode<H>(packs: seq<nat>, helpers: seq<H>) returns (fields: Option<seq<Field<H>>>)
    ensures fields == match AllHelpers(packs, helpers, |packs|)
                      case None => None
                      case Some(slots) => Some(AllFields(slots))
  {
    var flat, list := 0, [];
    ghost var slots: seq<seq<H>> := [];
    for s := 0 to |packs|
      invariant flat == FlatIndex(packs, s)
      invariant AllHelpers(packs, helpers, s) == Some(slots) && list == AllFields(slots)
    {
      var size := if packs[s] > 1 then packs[s] else 1;
      if flat + size > |helpers| {
        NoMoreHelpers(packs, helpers, s + 1, |packs|);
        return None;
      }
      var statements := SlotStatements(s, size, helpers, flat);
      ghost var more := slots + [helpers[flat..flat + size]];
      assert more[..s] == slots;
      list, slots, flat := list + statements, more, flat + size;
    }
    return Some(list);
  }

  method SlotReaders<H>(size: nat, helpers: seq<H>, flat: nat) returns (slot: seq<H>)
    requires flat + size <= |helpers|
    ensures slot == helpers[flat..flat + size]
  {
    slot := [];
    for p := 0 to size
      invariant slot == helpers[flat..flat + p]
    {
      slot := slot + [helpers[flat + p]];
    }
  }

  /** `build_culist_tuple_decode`: the codecs each slot is read with. */
  method BuildTupleDecode<H>(packs: seq<nat>, helpers: seq<H>) returns (slots: Option<seq<seq<H>>>)
    ensures slots == AllHelpers(packs, helpers, |packs|)
  {
    var flat, list := 0, [];
    for s := 0 to |packs|
      invariant flat == FlatIndex(packs, s) && AllHelpers(packs, helpers, s) == Some(list)
    {
      var size := if packs[s] > 1 then packs[s] else 1;
      if flat + size > |helpers| {
        NoMoreHelpers(packs, helpers, s + 1, |packs|);
        return None;
      }
      var slot := SlotReaders(size, helpers, flat);
      list, flat := list + [slot], flat + size;
    }
    return Some(list);
  }

  // ---------------------------------------------------------------- what the generated code does

  /** A list has a message for every codec of the slots. */
  ghost predicate Fits(slots: seq<seq<Format<CuMsg>>>, culist: seq<seq<CuMsg>>) {
    |slots| <= |culist| && forall s :: 0 <= s < |slots| ==> |culist[s]| == |slots[s]|
  }

  predicate Addressed<H>(field: Field<H>, culist: seq<seq<CuMsg>>) {
    field.slot < |culist| && field.port < |culist[field.slot]|
  }

  ghost predicate Addresses<H>(fields: seq<Field<H>>, culist: seq<seq<CuMsg>>) {
    forall i {:trigger Addressed(fields[i], culist)} :: 0 <= i < |fields| ==> Addressed(fields[i], culist)
  }

  /** The generated `encode`: its statements in order. */
  function Encode(fields: seq<Field<Format<CuMsg>>>, culist: seq<seq<CuMsg>>): Bytes
    requires Addresses(fields, culist)
  {
    if fields == [] then []
    else
      var n := |fields| - 1;
      assert Addressed(fields[n], culist);
      Encode(fields[..n], culist) + fields[n].helper.put(culist[fields[n].slot][fields[n].port])
  }

  function DecodeSlot(slot: seq<Format<CuMsg>>, bytes: Bytes): Decoded<seq<CuMsg>> {
    if slot == [] then Read([], bytes)
    else
      match DecodeSlot(slot[..|slot| - 1], bytes)
      case UnexpectedEnd => UnexpectedEnd
      case Invalid => Invalid
      case Read(msgs, rest) =>
        match slot[|slot| - 1].get(rest)
        case UnexpectedEnd => UnexpectedEnd
        case Invalid => Invalid
        case Read(msg, rest) => Read(msgs + [msg], rest)
  }

  /** The generated `decode`: slot after slot, port after port. */
  function Decode(slots: seq<seq<Format<CuMsg>>>, bytes: Bytes): Decoded<seq<seq<CuMsg>>> {
    if slots == [] then Read([], bytes)
    else
      match Decode(slots[..|slots| - 1], bytes)
      case UnexpectedEnd => UnexpectedEnd
      case Invalid => Invalid
      case Read(culist, rest) =>
        match DecodeSlot(slots[|slots| - 1], rest)
        case UnexpectedEnd => UnexpectedEnd
        case Invalid => Invalid
        case Read(msgs, rest) => Read(culist + [msgs], rest)
  }

  /** The first message that cannot be read decides how reading its slot fails. */
  lemma {:induction false} SlotFailure(slot: seq<Format<CuMsg>>, bytes: Bytes, p: nat)
    requires p < |slot| && DecodeSlot(slot[..p], bytes).Read?
    requires !slot[p].get(DecodeSlot(slot[..p], bytes).rest).Read?
    ensures FailAlike(DecodeSlot(slot, bytes), slot[p].get(DecodeSlot(slot[..p], bytes).rest))
  {
    var n := |slot| - 1;
    if p < n {
      assert slot[..n][..p] == slot[..p];
      SlotFailure(slot[..n], bytes, p);
    }
  }

  /** The first slot that cannot be read decides how reading the list fails. */
  lemma {:induction false} ListFailure(slots: seq<seq<Format<CuMsg>>>, bytes: Bytes, s: nat)
    requires s < |slots| && Decode(slots[..s], bytes).Read?
    requires !DecodeSlot(slots[s], Decode(slots[..s], bytes).rest).Read?
    ensures FailAlike(Decode(slots, bytes), DecodeSlot(slots[s], Decode(slots[..s], bytes).rest))
  {
    var n := |slots| - 1;
    if s < n {
      assert slots[..n][..s] == slots[..s];
      ListFailure(slots[..n], bytes, s);
    }
  }

  // ---------------------------------------------------------------- the round trip

  function SlotBytes(slot: seq<Format<CuMsg>>, msgs: seq<CuMsg>): Bytes
    requires |slot| <= |msgs|
  {
    if slot == [] then []
    else SlotBytes(slot[..|slot| - 1], msgs) + slot[|slot| - 1].put(msgs[|slot| - 1])
  }

  function ListBytes(slots: seq<seq<Format<CuMsg>>>, culist: seq<seq<CuMsg>>): Bytes
    requires Fits(slots, culist)
  {
    if slots == [] then []
    else ListBytes(slots[..|slots| - 1], culist) + SlotBytes(slots[|slots| - 1], culist[|slots| - 1])
  }

  ghost predicate SlotUndone(slot: seq<Format<CuMsg>>, msgs: seq<CuMsg>)
    requires |slot| <= |msgs|
  {
    forall p :: 0 <= p < |slot| ==> Undoes(slot[p], msgs[p])
  }

  ghost predicate AllUndone(slots: seq<seq<Format<CuMsg>>>, culist: seq<seq<CuMsg>>)
    requires Fits(slots, culist)
  {
    forall s :: 0 <= s < |slots| ==> SlotUndone(slots[s], culist[s])
  }

  lemma {:induction false} SlotReadsBack(slot: seq<Format<CuMsg>>, msgs: seq<CuMsg>, rest: Bytes)
    requires |slot| <= |msgs| && SlotUndone(slot, msgs)
    ensures DecodeSlot(slot, SlotBytes(slot, msgs) + rest) == Read(msgs[..|slot|], rest)
  {
    if slot == [] {
      assert SlotBytes(slot, msgs) + rest == rest;
    } else {
      var n := |slot| - 1;
      var last := slot[n].put(msgs[n]);
      assert SlotBytes(slot, msgs) + rest == SlotBytes(slot[..n], msgs) + (last + rest);
      SlotReadsBack(slot[..n], msgs, last + rest);
      assert Undoes(slot[n], msgs[n]) && ReadsBack(slot[n], msgs[n], rest);
      assert msgs[..n + 1] == msgs[..n] + [msgs[n]];
    }
  }

  lemma {:induction false} ListReadsBack(slots: seq<seq<Format<CuMsg>>>, culist: seq<seq<CuMsg>>, rest: Bytes)
    requires Fits(slots, culist) && AllUndone(slots, culist)
    ensures Decode(slots, ListBytes(slots, culist) + rest) == Read(culist[..|slots|], rest)
  {
    if slots == [] {
      assert ListBytes(slots, culist) + rest == rest;
    } else {
      var n := |slots| - 1;
      var last := SlotBytes(slots[n], culist[n]);
      assert ListBytes(slots, culist) + rest == ListBytes(slots[..n], culist) + (last + rest);
      ListReadsBack(slots[..n], culist, last + rest);
      SlotReadsBack(slots[n], culist[n], rest);
      assert culist[n][..|slots[n]|] == culist[n] && culist[..n + 1] == culist[..n] + [culist[n]];
    }
  }

  lemma EncodeOneMore(fields: seq<Field<Format<CuMsg>>>, field: Field<Format<CuMsg>>, culist: seq<seq<CuMsg>>)
    requires Addresses(fields, culist) && Addressed(field, culist)
    ensures Addresses(fields + [field], culist)
    ensures Encode(fields + [field], culist) ==
            Encode(fields, culist) + field.helper.put(culist[field.slot][field.port])
  {
    assert (fields + [field])[..|fields|] == fields;
    forall i | 0 <= i < |fields + [field]|
      ensures Addressed((fields + [field])[i], culist)
    {
      assert i < |fields| ==> Addressed(fields[i], culist);
    }
  }

  lemma FieldsOneMore<H>(before: seq<Field<H>>, slot: nat, helpers: seq<H>)
    requires helpers != []
    ensures var n := |helpers| - 1;
            before + SlotFields(slot, helpers) ==
            before + SlotFields(slot, helpers[..n]) + [Field(slot, n, helpers[n])]
  {
  }

  lemma Associates(a: Bytes, b: Bytes, c: Bytes)
    ensures a + b + c == a + (b + c)
  {
  }

  lemma {:induction false} EncodeSlot(before: seq<Field<Format<CuMsg>>>, slot: nat, helpers: seq<Format<CuMsg>>,
                                      culist: seq<seq<CuMsg>>)
    requires Addresses(before, culist) && slot < |culist| && |helpers| <= |culist[slot]|
    ensures Addresses(before + SlotFields(slot, helpers), culist)
    ensures Encode(before + SlotFields(slot, helpers), culist) ==
            Encode(before, culist) + SlotBytes(helpers, culist[slot])
  {
    if helpers == [] {
      assert before + SlotFields(slot, helpers) == before;
    } else {
      var n := |helpers| - 1;
      EncodeSlot(before, slot, helpers[..n], culist);
      FieldsOneMore(before, slot, helpers);
      EncodeOneMore(before + SlotFields(slot, helpers[..n]), Field(slot, n, helpers[n]), culist);
      Associates(Encode(before, culist), SlotBytes(helpers[..n], culist[slot]), helpers[n].put(culist[slot][n]));
    }
  }

  /** The statements write the messages slot after slot, port after port. */
  lemma {:induction false} EncodeIsInOrder(slots: seq<seq<Format<CuMsg>>>, culist: seq<seq<CuMsg>>)
    requires Fits(slots, culist)
    ensures Addresses(AllFields(slots), culist)
    ensures Encode(AllFields(slots), culist) == ListBytes(slots, culist)
  {
    if slots != [] {
      var n := |slots| - 1;
      EncodeIsInOrder(slots[..n], culist);
      EncodeSlot(AllFields(slots[..n]), n, slots[n], culist);
    }
  }

  ghost predicate BoundUndone(packs: seq<nat>, helpers: seq<Format<CuMsg>>, culist: seq<seq<CuMsg>>, s: nat)
    requires s < |packs| == |culist|
  {
    |culist[s]| == packs[s] && BindingIndex(packs, s) + packs[s] <= |helpers| &&
    forall p :: 0 <= p < packs[s] ==> Undoes(helpers[BindingIndex(packs, s) + p], culist[s][p])
  }

  lemma GeneratedUndo(packs: seq<nat>, helpers: seq<Format<CuMsg>>, culist: seq<seq<CuMsg>>,
                      slots: seq<seq<Format<CuMsg>>>)
    requires |culist| == |packs| && forall t :: 0 <= t < |packs| ==> packs[t] > 0
    requires AllHelpers(packs, helpers, |packs|) == Some(slots)
    requires forall s {:trigger BoundUndone(packs, helpers, culist, s)} :: 0 <= s < |packs| ==>
               BoundUndone(packs, helpers, culist, s)
    ensures Fits(slots, culist) && AllUndone(slots, culist)
  {
    forall s | 0 <= s < |slots|
      ensures |slots[s]| == |culist[s]| && SlotUndone(slots[s], culist[s])
    {
      assert BoundUndone(packs, helpers, culist, s);
      SlotGetsItsBindings(packs, helpers, |packs|, s);
    }
  }

  /** With a port in every slot, code is generated, every message is written and read with the
      codec bound to it, and decoding gives back the list and leaves what follows it, provided
      each codec undoes itself on the message it is given. */
  lemma CopperListRoundTrip(packs: seq<nat>, helpers: seq<Format<CuMsg>>, culist: seq<seq<CuMsg>>, rest: Bytes)
    requires |helpers| == BindingIndex(packs, |packs|) && forall t :: 0 <= t < |packs| ==> packs[t] > 0
    requires |culist| == |packs|
    requires forall s {:trigger BoundUndone(packs, helpers, culist, s)} :: 0 <= s < |packs| ==>
               BoundUndone(packs, helpers, culist, s)
    ensures AllHelpers(packs, helpers, |packs|).Some?
    ensures var slots := AllHelpers(packs, helpers, |packs|).value;
            Addresses(AllFields(slots), culist) &&
            Decode(slots, Encode(AllFields(slots), culist) + rest) == Read(culist, rest)
  {
    GeneratedIff(packs, helpers, |packs|);
    var slots := AllHelpers(packs, helpers, |packs|).value;
    assert culist[..|slots|] == culist;
    GeneratedUndo(packs, helpers, culist, slots);
    EncodeIsInOrder(slots, culist);
    ListReadsBack(slots, culist, rest);
  }
}
