/** One message in a logged CopperList: a presence tag, the payload through its slot's codec, the
    time of validity and the metadata. */
module MessageCodec {
  import opened Wrappers
  import opened Bincode
  import opened MachineInts

  type Payload(==, !new)
  type Tov(==, !new)
  type Metadata(==, !new)

  datatype CuMsg = CuMsg(payload: Option<Payload>, tov: Tov, metadata: Metadata)

  datatype Parts = Parts(tag: Format<U8>, tov: Format<Tov>, metadata: Format<Metadata>)

  ghost predicate Sound(ps: Parts) {
    PrefixCode(ps.tag) && PrefixCode(ps.tov) && PrefixCode(ps.metadata)
  }

  /** Whatever follows, the format reads back `x`. */
  ghost predicate Undoes<T>(f: Format<T>, x: T) {
    forall rest {:trigger ReadsBack(f, x, rest)} :: ReadsBack(f, x, rest)
  }

  function Put(ps: Parts, codec: Format<Payload>, msg: CuMsg): Bytes {
    (match msg.payload
     case None => ps.tag.put(0)
     case Some(payload) => ps.tag.put(1) + codec.put(payload)) +
    (ps.tov.put(msg.tov) + ps.metadata.put(msg.metadata))
  }

  function GetPayload(ps: Parts, codec: Format<Payload>, bytes: Bytes): Decoded<Option<Payload>> {
    match ps.tag.get(bytes)
    case UnexpectedEnd => UnexpectedEnd
    case Invalid => Invalid
    case Read(tag, rest) =>
      if tag == 0 then Read(None, rest)
      else if tag == 1 then
        match codec.get(rest)
        case UnexpectedEnd => UnexpectedEnd
        case Invalid => Invalid
        case Read(payload, rest) => Read(Some(payload), rest)
      else Invalid
  }

  function Get(ps: Parts, codec: Format<Payload>, bytes: Bytes): Decoded<CuMsg> {
    match GetPayload(ps, codec, bytes)
    case UnexpectedEnd => UnexpectedEnd
    case Invalid => Invalid
    case Read(payload, rest) =>
      match ps.tov.get(rest)
      case UnexpectedEnd => UnexpectedEnd
      case Invalid => Invalid
      case Read(tov, rest) =>
        match ps.metadata.get(rest)
        case UnexpectedEnd => UnexpectedEnd
        case Invalid => Invalid
        case Read(metadata, rest) => Read(CuMsg(payload, tov, metadata), rest)
  }

  function MsgFormat(ps: Parts, codec: Format<Payload>): Format<CuMsg> {
    Format((msg: CuMsg) => Put(ps, codec, msg), (bytes: Bytes) => Get(ps, codec, bytes))
  }

  lemma TailReadsBack(ps: Parts, msg: CuMsg, rest: Bytes)
    requires Sound(ps)
    ensures ps.tov.get(ps.tov.put(msg.tov) + (ps.metadata.put(msg.metadata) + rest)) ==
            Read(msg.tov, ps.metadata.put(msg.metadata) + rest)
    ensures ps.metadata.get(ps.metadata.put(msg.metadata) + rest) == Read(msg.metadata, rest)
  {
    assert ReadsBack(ps.tov, msg.tov, ps.metadata.put(msg.metadata) + rest);
    assert ReadsBack(ps.metadata, msg.metadata, rest);
  }

  /** A message is read back, presence tag included, if its codec reads back its payload. */
  lemma MessageReadsBack(ps: Parts, codec: Format<Payload>, msg: CuMsg)
    requires Sound(ps) && (msg.payload.Some? ==> Undoes(codec, msg.payload.value))
    ensures Undoes(MsgFormat(ps, codec), msg)
  {
    forall rest
      ensures ReadsBack(MsgFormat(ps, codec), msg, rest)
    {
      var tail := ps.tov.put(msg.tov) + (ps.metadata.put(msg.metadata) + rest);
      TailReadsBack(ps, msg, rest);
      match msg.payload
      case None =>
        assert Put(ps, codec, msg) + rest == ps.tag.put(0) + tail;
        assert ReadsBack(ps.tag, 0, tail);
      case Some(payload) =>
        assert Put(ps, codec, msg) + rest == ps.tag.put(1) + (codec.put(payload) + tail);
        assert ReadsBack(ps.tag, 1, codec.put(payload) + tail);
        assert ReadsBack(codec, payload, tail);
    }
  }

  /** The first part that cannot be read decides how reading the message fails. */
  lemma FirstFailureDecides(ps: Parts, codec: Format<Payload>, bytes: Bytes)
    ensures var r, tag := Get(ps, codec, bytes), ps.tag.get(bytes);
            if !tag.Read? then FailAlike(r, tag)
            else if tag.value > 1 then r.Invalid?
            else
              var payload := codec.get(tag.rest);
              if tag.value == 1 && !payload.Read? then FailAlike(r, payload)
              else
                var tov := ps.tov.get(if tag.value == 1 then payload.rest else tag.rest);
                if !tov.Read? then FailAlike(r, tov)
                else
                  var metadata := ps.metadata.get(tov.rest);
                  if !metadata.Read? then FailAlike(r, metadata) else r.Read? && r.rest == metadata.rest
  {
  }

  /** Any other presence tag is an error, whatever follows. */
  lemma OtherTagsAreInvalid(ps: Parts, codec: Format<Payload>, tag: U8, rest: Bytes)
    requires Sound(ps) && tag > 1
    ensures Get(ps, codec, ps.tag.put(tag) + rest) == Invalid
  {
    assert ReadsBack(ps.tag, tag, rest);
  }
}
