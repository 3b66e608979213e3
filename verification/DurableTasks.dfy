// The durable task, the checks a task must pass to be stored, and the wire
// projection every stored task determines.  Rust strings are modelled by their
// UTF-8 bytes, one character per byte, so `len()` is `|s|`.
module DurableTasks {
  import opened Prelude
  import DeliveryIds

  const DELIVERY_TTL_MS: I64 := 86_400_000
  const DELIVERY_LEASE_MS: I64 := 60_000
  const TERMINAL_RETENTION_MS: I64 := 2_592_000_000
  const MAX_TEXT_BYTES: nat := 65_536
  const MAX_METADATA_BYTES: nat := 32_768
  const MAX_TASK_ID_BYTES: nat := 256
  // The largest timestamp the chrono library can represent.
  const MAX_DATE_MS: I64 := 8_210_266_876_799_999

  datatype State =
    Queued | Leased | Acknowledged | Replied | Failed | Rejected | Canceled | Expired

  // A JSON value, known by its kind and its canonical text.
  datatype Metadata =
    | NullMetadata
    | ObjectMetadata(canonical: string)
    | OtherMetadata(canonical: string)

  datatype Payload = Payload(text: string, metadata: Metadata, fileRefs: seq<string>)

  datatype Lease = Lease(deliveryId: DeliveryIds.DeliveryId, owner: string, leasedUntil: I64, attempt: U32)

  datatype DurableTask = DurableTask(
    taskId: string,
    contextId: string,
    sender: string,
    recipient: string,
    payload: Payload,
    created: I64,
    deadline: I64,
    version: U64,
    state: State,
    lease: Option<Lease>,
    attempt: U32,
    acknowledged: Option<I64>,
    reply: Option<Payload>,
    terminal: Option<I64>,
    retention: Option<I64>)

  predicate ValidTaskId(s: string) {
    1 <= |s| <= MAX_TASK_ID_BYTES &&
    forall i :: 0 <= i < |s| ==> IsAlphanumeric(s[i]) || s[i] == '_' || s[i] == '-'
  }

  predicate ValidAgentName(s: string) {
    1 <= |s| <= 32 && IsLower(s[0]) &&
    forall i :: 1 <= i < |s| ==> IsLower(s[i]) || IsDigit(s[i]) || s[i] == '_' || s[i] == '-'
  }

  predicate ValidPayload(p: Payload) {
    && |p.text| <= MAX_TEXT_BYTES
    && (p.metadata.NullMetadata? || |p.metadata.canonical| <= MAX_METADATA_BYTES)
    && p.fileRefs == []
  }

  predicate ValidTimes(t: DurableTask) {
    && 0 <= t.created
    && CheckedAdd(t.created, DELIVERY_TTL_MS) == Some(t.deadline)
    && t.version != 0
    && (t.acknowledged.Some? ==> t.created <= t.acknowledged.value <= t.deadline)
    && match (t.terminal, t.retention)
       case (None, None) => true
       case (Some(terminal), Some(retention)) =>
         terminal >= t.created && CheckedAdd(terminal, TERMINAL_RETENTION_MS) == Some(retention)
       case _ => false
  }

  predicate ValidLease(t: DurableTask) {
    match t.lease
    case None => true
    case Some(lease) =>
      match CheckedSub(lease.leasedUntil, DELIVERY_LEASE_MS)
      case None => false
      case Some(leased) =>
        && t.created <= leased
        && lease.owner == t.recipient
        && lease.attempt == t.attempt
        && (t.acknowledged.Some? ==> leased <= t.acknowledged.value < lease.leasedUntil)
  }

  predicate ValidColumns(t: DurableTask) {
    match t.state
    case Queued =>
      t.lease.None? && t.acknowledged.None? && t.reply.None? && t.terminal.None? && t.retention.None?
    case Leased =>
      t.lease.Some? && t.acknowledged.None? && t.reply.None? && t.terminal.None? && t.retention.None?
    case Acknowledged =>
      t.lease.Some? && t.acknowledged.Some? && t.reply.None? && t.terminal.None? && t.retention.None?
    case Replied | Failed | Rejected =>
      t.lease.None? && t.acknowledged.None? && t.reply.Some? && t.terminal.Some? && t.retention.Some?
    case Canceled | Expired =>
      t.lease.None? && t.acknowledged.None? && t.reply.None? && t.terminal.Some? && t.retention.Some?
  }

  /** The store's own acceptance check. */
  predicate ValidForStore(t: DurableTask) {
    && ValidTaskId(t.taskId)
    && ValidTaskId(t.contextId)
    && ValidAgentName(t.sender)
    && ValidAgentName(t.recipient)
    && ValidPayload(t.payload)
    && (t.reply.Some? ==> ValidPayload(t.reply.value))
    && ValidTimes(t)
    && ValidLease(t)
    && ValidColumns(t)
  }

  // ----- The wire projection ----------------------------------------------

  datatype WireState =
    | Submitted | Working | Completed | WireFailed | WireRejected | WireCanceled
    | OtherState(name: string)

  datatype Role = User | Agent

  datatype Message = Message(
    messageId: string, contextId: string, taskId: string, role: Role, text: string,
    metadata: Option<string>)

  // `extra` stands for the artifacts and metadata members, empty when both are absent.
  datatype WireTask = WireTask(
    id: string,
    contextId: string,
    state: WireState,
    message: Option<Message>,
    timestamp: Option<int>,
    history: seq<Message>,
    extra: string)

  function WireStateOf(s: State): WireState {
    match s
    case Queued => Submitted
    case Leased | Acknowledged => Working
    case Replied => Completed
    case Failed | Expired => WireFailed
    case Rejected => WireRejected
    case Canceled => WireCanceled
  }

  /** The transition time a state is listed under. */
  function TransitionTime(t: DurableTask): Option<I64> {
    match t.state
    case Queued => Some(t.created)
    case Leased => if t.lease.Some? then CheckedSub(t.lease.value.leasedUntil, DELIVERY_LEASE_MS) else None
    case Acknowledged => t.acknowledged
    case _ => t.terminal
  }

  function MessageOf(t: DurableTask, suffix: string, role: Role, p: Payload): Option<Message> {
    match p.metadata
    case NullMetadata =>
      Some(Message(t.taskId + suffix, t.contextId, t.taskId, role, p.text, None))
    case ObjectMetadata(canonical) =>
      Some(Message(t.taskId + suffix, t.contextId, t.taskId, role, p.text, Some(canonical)))
    case OtherMetadata(_) => None
  }

  function Project(t: DurableTask): Option<WireTask> {
    if !ValidForStore(t) then None
    else
      match TransitionTime(t)
      case None => None
      case Some(ms) =>
        var request := MessageOf(t, "-request", User, t.payload);
        var reply := if t.reply.Some? then MessageOf(t, "-reply", Agent, t.reply.value) else None;
        if ms > MAX_DATE_MS || request.None? || (t.reply.Some? && reply.None?) then None
        else
          Some(WireTask(t.taskId, t.contextId, WireStateOf(t.state), reply, Some(ms),
                        [request.value], ""))
  }

  // ----- What a stored task is, and what its projection shows ---------------

  predicate Finished(s: State) { s.Replied? || s.Failed? || s.Rejected? || s.Canceled? || s.Expired? }

  predicate WithinLimits(p: Payload) {
    && |p.text| <= 64 * 1024 && p.fileRefs == []
    && (!p.metadata.NullMetadata? ==> |p.metadata.canonical| <= 32 * 1024)
  }

  /** The columns of a task the store accepts: which of them are there, in which order their
      times lie, and by how much they differ. */
  predicate Shaped(t: DurableTask) {
    && (t.lease.Some? <==> t.state.Leased? || t.state.Acknowledged?)
    && (t.acknowledged.Some? <==> t.state.Acknowledged?)
    && (t.reply.Some? <==> t.state.Replied? || t.state.Failed? || t.state.Rejected?)
    && (t.terminal.Some? <==> Finished(t.state)) && (t.retention.Some? <==> Finished(t.state))
    && 0 <= t.created && t.deadline == t.created + 24 * 60 * 60 * 1000 && t.version >= 1
    && (t.terminal.Some? ==>
          t.created <= t.terminal.value && t.retention.value == t.terminal.value + 30 * 24 * 60 * 60 * 1000)
    && (t.lease.Some? ==>
          && t.created <= t.lease.value.leasedUntil - 60 * 1000
          && t.lease.value.owner == t.recipient && t.lease.value.attempt == t.attempt)
    && (t.acknowledged.Some? ==>
          && t.acknowledged.value <= t.deadline
          && t.lease.value.leasedUntil - 60 * 1000 <= t.acknowledged.value < t.lease.value.leasedUntil)
    && WithinLimits(t.payload) && (t.reply.Some? ==> WithinLimits(t.reply.value))
  }

  predicate WordChar(c: char) { 'a' <= c <= 'z' || 'A' <= c <= 'Z' || '0' <= c <= '9' || c == '_' || c == '-' }

  /** 1 to 256 letters, digits, underscores and hyphens. */
  predicate IdWord(s: string) { 1 <= |s| <= 256 && forall i :: 0 <= i < |s| ==> WordChar(s[i]) }

  /** 1 to 32 of them, all in lower case and the first a letter. */
  predicate NameWord(s: string) {
    1 <= |s| <= 32 && 'a' <= s[0] <= 'z' && forall i :: 0 <= i < |s| ==> WordChar(s[i]) && !('A' <= s[i] <= 'Z')
  }

  lemma WordsIff(s: string)
    ensures ValidTaskId(s) <==> IdWord(s)
    ensures ValidAgentName(s) <==> NameWord(s)
  {
  }

  lemma StoredIffShaped(t: DurableTask)
    ensures ValidForStore(t) <==>
            IdWord(t.taskId) && IdWord(t.contextId) && NameWord(t.sender) && NameWord(t.recipient) && Shaped(t)
  {
    WordsIff(t.taskId);
    WordsIff(t.contextId);
    WordsIff(t.sender);
    WordsIff(t.recipient);
    hide ValidTaskId; hide ValidAgentName; hide IdWord; hide NameWord;
    assert Finished(t.state) || t.state.Queued? || t.state.Leased? || t.state.Acknowledged?;
  }

  predicate MetadataShown(shown: Option<string>, metadata: Metadata) {
    match shown
    case None => metadata.NullMetadata?
    case Some(text) => metadata == ObjectMetadata(text)
  }

  /** A message that says what the payload says, in the task's own context. */
  predicate Says(m: Message, t: DurableTask, role: Role, p: Payload) {
    && m.taskId == t.taskId && m.contextId == t.contextId && m.role == role
    && m.text == p.text && MetadataShown(m.metadata, p.metadata)
  }

  /** The time a client is shown: when the task came to be as it is. */
  predicate ShownAt(t: DurableTask, at: int) {
    if Finished(t.state) then t.terminal == Some(at)
    else if t.state.Acknowledged? then t.acknowledged == Some(at)
    else if t.state.Leased? then t.lease.Some? && at == t.lease.value.leasedUntil - 60 * 1000
    else at == t.created
  }

  /** What a client reads of a task. */
  lemma ProjectionShows(t: DurableTask)
    requires Project(t).Some?
    ensures var w := Project(t).value;
            && w.id == t.taskId && w.contextId == t.contextId && w.extra == ""
            && (w.state == Submitted <==> t.state.Queued?)
            && (w.state == Working <==> t.state.Leased? || t.state.Acknowledged?)
            && (w.state == Completed <==> t.state.Replied?)
            && (w.state == WireFailed <==> t.state.Failed? || t.state.Expired?)
            && (w.state == WireRejected <==> t.state.Rejected?)
            && (w.state == WireCanceled <==> t.state.Canceled?)
            && w.timestamp.Some? && ShownAt(t, w.timestamp.value)
            && (w.message.Some? <==> t.reply.Some?)
            && (t.reply.Some? ==> Says(w.message.value, t, Agent, t.reply.value))
            && |w.history| == 1 && Says(w.history[0], t, User, t.payload)
            && (t.reply.Some? ==> w.message.value.messageId != w.history[0].messageId)
  {
    StoredIffShaped(t);
    var w := Project(t).value;
    if t.reply.Some? {
      assert w.history[0].messageId == t.taskId + "-request" && w.message.value.messageId == t.taskId + "-reply";
      assert |w.history[0].messageId| != |w.message.value.messageId|;
    }
  }

  /** A valid task has a projection exactly when its time is representable and its
      metadata, and its reply's, is an object or absent. */
  lemma ProjectsIff(t: DurableTask)
    ensures Project(t).Some? <==>
            && ValidForStore(t)
            && !t.payload.metadata.OtherMetadata?
            && (t.reply.Some? ==> !t.reply.value.metadata.OtherMetadata?)
            && exists at :: ShownAt(t, at) && at <= 8_210_266_876_799_999
  {
    if ValidForStore(t) {
      StoredIffShaped(t);
      assert TransitionTime(t).Some? && ShownAt(t, TransitionTime(t).value);
      forall at | ShownAt(t, at) ensures at == TransitionTime(t).value {}
    }
  }
}
