// The row of the `delivery_tasks` table: how a task is written to it and read
// back.  The lease's owner and attempt have no column; they are re-derived.
module RowCodec {
  import opened Prelude
  import opened DurableTasks
  import DeliveryIds

  // A text column holding JSON: the canonical text of a value, text that parses
  // but is not canonical, or text that does not parse.
  datatype Text<+T> = Canonical(value: T) | NonCanonical(parsed: T, raw: string) | Malformed(raw: string)

  datatype Row = Row(
    contextId: Option<string>,
    sender: Option<string>,
    recipient: string,
    request: Option<Text<Payload>>,
    created: I64,
    deadline: I64,
    state: string,
    version: Version,
    deliveryId: Option<string>,
    leaseExpires: Option<I64>,
    attempt: I64,
    acknowledged: Option<I64>,
    reply: Option<Text<Payload>>,
    terminal: Option<I64>,
    retainUntil: Option<I64>,
    quarantined: bool)

  function EncodeState(s: State): string {
    match s
    case Queued => "queued"
    case Leased => "leased"
    case Acknowledged => "acknowledged"
    case Replied => "replied"
    case Failed => "failed"
    case Rejected => "rejected"
    case Canceled => "canceled"
    case Expired => "expired"
  }

  function DecodeState(s: string): Option<State> {
    if s == "queued" then Some(Queued)
    else if s == "leased" then Some(Leased)
    else if s == "acknowledged" then Some(Acknowledged)
    else if s == "replied" then Some(Replied)
    else if s == "failed" then Some(Failed)
    else if s == "rejected" then Some(Rejected)
    else if s == "canceled" then Some(Canceled)
    else if s == "expired" then Some(Expired)
    else None
  }

  /** The columns an upsert writes; only a version outside 1..i64::MAX is refused. */
  function Encode(t: DurableTask): Option<Row> {
    if 1 <= t.version <= MAX_I64 then
      Some(Row(
        Some(t.contextId), Some(t.sender), t.recipient, Some(Canonical(t.payload)),
        t.created, t.deadline, EncodeState(t.state), t.version,
        if t.lease.Some? then Some(t.lease.value.deliveryId) else None,
        if t.lease.Some? then Some(t.lease.value.leasedUntil) else None,
        t.attempt, t.acknowledged,
        if t.reply.Some? then Some(Canonical(t.reply.value)) else None,
        t.terminal, t.retention, false))
    else None
  }

  function DecodeReply(reply: Option<Text<Payload>>): Option<Option<Payload>> {
    match reply
    case None => Some(None)
    case Some(Canonical(p)) => Some(Some(p))
    case _ => None
  }

  function DecodeLease(row: Row): Option<Option<Lease>>
    requires 0 <= row.attempt <= 0xFFFF_FFFF
  {
    match (row.deliveryId, row.leaseExpires)
    case (None, None) => Some(None)
    case (Some(text), Some(until)) =>
      (match DeliveryIds.Parse(text)
       case None => None
       case Some(id) =>
         DeliveryIds.ParseIsIdempotent(text);
         Some(Some(Lease(id, row.recipient, until, row.attempt))))
    case _ => None
  }

  function Decode(id: string, row: Row): Option<DurableTask> {
    if row.quarantined || row.contextId.None? || row.sender.None? || row.request.None? ||
       !(0 <= row.attempt <= 0xFFFF_FFFF) || !row.request.value.Canonical?
    then None
    else
      match (DecodeReply(row.reply), DecodeState(row.state), DecodeLease(row))
      case (Some(reply), Some(state), Some(lease)) =>
        var t := DurableTask(
          id, row.contextId.value, row.sender.value, row.recipient, row.request.value.value,
          row.created, row.deadline, row.version, state, lease, row.attempt,
          row.acknowledged, reply, row.terminal, row.retainUntil);
        if ValidForStore(t) then Some(t) else None
      case _ => None
  }

  lemma StateRoundTrip(s: State)
    ensures DecodeState(EncodeState(s)) == Some(s)
  {
    var text := EncodeState(s);
    assert text[0] == 'r' && text[2] == 'p' <==> s == Replied;
    assert text[0] in "qlarfce";
  }

  lemma DecodeStateExact(text: string, s: State)
    requires DecodeState(text) == Some(s)
    ensures text == EncodeState(s)
  {
  }

  /** Writing loses nothing: a task in memory comes back from its row exactly when
      the store accepts it, although lease owner and attempt are not stored. */
  lemma DecodeOfEncode(t: DurableTask)
    requires 1 <= t.version <= MAX_I64
    ensures Decode(t.taskId, Encode(t).value) == Some(t) <==> ValidForStore(t)
  {
    StateRoundTrip(t.state);
  }

  /** Reading loses nothing but the spelling of the delivery identifier: a row that
      decodes is written back unchanged if and only if that column is absent or holds
      the lower-case hyphenated spelling. */
  lemma EncodeOfDecode(id: string, row: Row)
    requires Decode(id, row).Some?
    ensures Encode(Decode(id, row).value) == Some(row) <==>
            (row.deliveryId.Some? ==> DeliveryIds.IsSpelled(row.deliveryId.value))
  {
    var t := Decode(id, row).value;
    DecodeStateExact(row.state, t.state);
    if row.deliveryId.Some? {
      DeliveryIds.ParseIsIdempotent(row.deliveryId.value);
      DeliveryIds.CanonicalIffSpelled(row.deliveryId.value);
    }
  }

  // ----- What the columns say -----------------------------------------------

  predicate NamesState(word: string, s: State) {
    || (word == "queued" && s.Queued?) || (word == "leased" && s.Leased?)
    || (word == "acknowledged" && s.Acknowledged?) || (word == "replied" && s.Replied?)
    || (word == "failed" && s.Failed?) || (word == "rejected" && s.Rejected?)
    || (word == "canceled" && s.Canceled?) || (word == "expired" && s.Expired?)
  }

  /** The two lease columns are both there or both absent; the lease is the recipient's and
      of the last attempt, and its identifier may be spelled in any way that parses. */
  predicate HoldsLease(row: Row, lease: Option<Lease>) {
    match lease
    case None => row.deliveryId.None? && row.leaseExpires.None?
    case Some(l) =>
      && row.deliveryId.Some? && DeliveryIds.Parse(row.deliveryId.value) == Some(l.deliveryId)
      && row.leaseExpires == Some(l.leasedUntil) && l.owner == row.recipient && l.attempt == row.attempt
  }

  /** The row holds the task, column by column. */
  predicate HoldsTask(row: Row, t: DurableTask) {
    && !row.quarantined
    && row.contextId == Some(t.contextId) && row.sender == Some(t.sender) && row.recipient == t.recipient
    && row.request == Some(Canonical(t.payload))
    && (match t.reply case None => row.reply.None? case Some(p) => row.reply == Some(Canonical(p)))
    && NamesState(row.state, t.state) && row.version == t.version && row.attempt == t.attempt
    && row.created == t.created && row.deadline == t.deadline && row.acknowledged == t.acknowledged
    && row.terminal == t.terminal && row.retainUntil == t.retention
    && HoldsLease(row, t.lease)
  }

  lemma NamesStateIff(word: string, s: State)
    ensures DecodeState(word) == Some(s) <==> NamesState(word, s)
  {
    StateRoundTrip(s);
  }

  lemma HoldsLeaseIff(row: Row, lease: Option<Lease>)
    requires 0 <= row.attempt <= 0xFFFF_FFFF
    ensures DecodeLease(row) == Some(lease) <==> HoldsLease(row, lease)
  {
    hide DeliveryIds.Parse;
  }

  /** A row is read as a task exactly if it holds that task, column by column, and the
      store accepts it. */
  lemma DecodesIff(id: string, row: Row, t: DurableTask)
    ensures Decode(id, row) == Some(t) <==> t.taskId == id && HoldsTask(row, t) && ValidForStore(t)
  {
    hide ValidForStore; hide DecodeState; hide NamesState; hide DecodeLease; hide HoldsLease;
    NamesStateIff(row.state, t.state);
    if 0 <= row.attempt <= 0xFFFF_FFFF { HoldsLeaseIff(row, t.lease); }
  }

  /** A leased row with the given identifier text, valid in every other column. */
  function LeasedRow(text: string): Row {
    Row(Some("c"), Some("s"), "r", Some(Canonical(Payload("", NullMetadata, []))),
        0, 86_400_000, "leased", 2, Some(text), Some(60_000), 1, None, None, None, None, false)
  }

  lemma LeasedRowDecodes(text: string)
    requires DeliveryIds.Parse(text).Some?
    ensures Decode("t", LeasedRow(text)).Some?
  {
    hide DeliveryIds.Parse;
    StateRoundTrip(Leased);
    var lease := DecodeLease(LeasedRow(text)).value;
    assert ValidForStore(DurableTask("t", "c", "s", "r", Payload("", NullMetadata, []), 0, 86_400_000, 2, Leased,
                                     lease, 1, None, None, None, None));
  }

  /** Two different rows can hold the same task: an upper-case identifier decodes. */
  lemma UpperCaseDeliveryIdIsRespelled()
    ensures exists id, row :: Decode(id, row).Some? && Encode(Decode(id, row).value) != Some(row)
  {
    hide Decode; hide Encode; hide DeliveryIds.Parse;
    var text := DeliveryIds.UpperCaseIsRespelled();
    LeasedRowDecodes(text);
    EncodeOfDecode("t", LeasedRow(text));
    DeliveryIds.CanonicalIffSpelled(text);
  }
}
