/** The receiving half of the stream in the web client: `applyEvent` and the clean-up in `setSnapshot`. */
module ClientRules {
  import opened Wrappers
  import opened Bytes
  import opened StreamWire

  datatype TurnView = TurnView(id: string, active: bool)
  datatype Snapshot = Snapshot(sessionId: Option<string>, turn: Option<TurnView>)

  datatype Key = Key(turnId: string, messageId: string)
  datatype Stream = Stream(bytes: seq<byte>, nextSequence: nat)

  datatype Status = Streaming | Complete | Failed

  /** A displayed message; `text` stands for the bytes it was decoded from. */
  datatype Shown = Shown(key: Key, status: Status, text: seq<byte>)

  datatype Client = Client(snapshot: Option<Snapshot>, streams: map<Key, Stream>, shown: seq<Shown>)

  /** The digest, and whether some bytes are valid UTF-8. */
  datatype Checks = Checks(sha: seq<byte> -> string, utf8: seq<byte> -> bool)

  function UpdateShown(shown: seq<Shown>, key: Key, change: Shown -> Shown): (r: seq<Shown>)
    ensures |r| == |shown|
    ensures forall i | 0 <= i < |r| :: r[i] == if shown[i].key == key then change(shown[i]) else shown[i]
  {
    seq(|shown|, i requires 0 <= i < |shown| => if shown[i].key == key then change(shown[i]) else shown[i])
  }

  function FailMessage(shown: seq<Shown>, key: Key): seq<Shown> {
    UpdateShown(shown, key, (s: Shown) => s.(status := Failed, text := []))
  }

  function ShowText(shown: seq<Shown>, key: Key, text: seq<byte>): seq<Shown> {
    UpdateShown(shown, key, (s: Shown) => s.(text := text))
  }

  function ShowStatus(shown: seq<Shown>, key: Key, status: Status): seq<Shown> {
    UpdateShown(shown, key, (s: Shown) => s.(status := status))
  }

  function VerifyDigest(checks: Checks, bytes: seq<byte>, expected: string): bool {
    checks.utf8(bytes) && checks.sha(bytes) == expected
  }

  /** The event belongs to the session and turn of the current snapshot. */
  predicate Expected(c: Client, e: StreamEvent) {
    c.snapshot.Some? && c.snapshot.value.sessionId == Some(e.sessionId)
    && c.snapshot.value.turn.Some? && c.snapshot.value.turn.value.id == e.turnId
  }

  function KeyOf(e: StreamEvent): Key {
    Key(e.turnId, e.messageId)
  }

  function ApplyChunk(c: Client, key: Key, e: StreamEvent): Client
    requires e.Chunk?
  {
    if key !in c.streams || c.streams[key].nextSequence != e.sequence then c
    else
      var stream := c.streams[key];
      var chunk := DecodeBase64(e.dataBase64);
      if chunk.None? || |chunk.value| != e.rawBytes || |stream.bytes| + |chunk.value| > MAX_MESSAGE_BYTES
      then c.(shown := FailMessage(c.shown, key), streams := c.streams - {key})
      else
        var bytes := stream.bytes + chunk.value;
        c.(streams := c.streams[key := Stream(bytes, stream.nextSequence + 1)], shown := ShowText(c.shown, key, bytes))
  }

  function ApplyCompletion(checks: Checks, c: Client, key: Key, e: StreamEvent): Client
    requires e.Completed?
  {
    if key !in c.streams || |c.streams[key].bytes| != e.totalBytes then c.(shown := FailMessage(c.shown, key))
    else
      var valid := VerifyDigest(checks, c.streams[key].bytes, e.sha256);
      c.(streams := c.streams - {key}, shown := ShowStatus(c.shown, key, if valid then Complete else Failed))
  }

  function ApplyEvent(checks: Checks, c: Client, e: StreamEvent): Client {
    if !Expected(c, e) || !PassesGuard(e) then c
    else
      var key := KeyOf(e);
      match e
      case Started(_, _, _) =>
        if key in c.streams then c
        else c.(streams := c.streams[key := Stream([], 0)], shown := c.shown + [Shown(key, Streaming, [])])
      case Chunk(_, _, _, _, _, _) => ApplyChunk(c, key, e)
      case Completed(_, _, _, _, _) => ApplyCompletion(checks, c, key, e)
  }

  /** Failing every open stream of a turn. */
  function FailTurn(shown: seq<Shown>, streams: map<Key, Stream>, turnId: string): (r: seq<Shown>)
    ensures |r| == |shown|
    ensures forall i | 0 <= i < |r| ::
              r[i] == if shown[i].key in streams && shown[i].key.turnId == turnId
                then shown[i].(status := Failed, text := []) else shown[i]
  {
    seq(|shown|, i requires 0 <= i < |shown| =>
          if shown[i].key in streams && shown[i].key.turnId == turnId then shown[i].(status := Failed, text := [])
          else shown[i])
  }

  function WithoutTurn(streams: map<Key, Stream>, turnId: string): map<Key, Stream> {
    map key | key in streams && key.turnId != turnId :: streams[key]
  }

  function SetSnapshot(c: Client, next: Snapshot): Client {
    if next.turn.Some? && !next.turn.value.active then
      Client(Some(next), WithoutTurn(c.streams, next.turn.value.id), FailTurn(c.shown, c.streams, next.turn.value.id))
    else c.(snapshot := Some(next))
  }

  // ---------------------------------------------------------------- deliveries

  /** What reaches the client: a snapshot, the event at some place of a projector's log, or an event of another turn. */
  datatype Delivery = NewSnapshot(snapshot: Snapshot) | EventAt(i: nat) | OtherTurn(event: StreamEvent)

  /** Any events may be lost, but those that arrive do so in order, and none before place `from`. */
  predicate InOrder(log: seq<StreamEvent>, ds: seq<Delivery>, from: nat)
    decreases |ds|
  {
    ds != [] ==>
      if ds[0].EventAt? then from <= ds[0].i < |log| && InOrder(log, ds[1..], ds[0].i + 1)
      else InOrder(log, ds[1..], from)
  }

  /** The events of other turns do not carry this turn's identifier. */
  predicate OtherTurns(ds: seq<Delivery>, turnId: string) {
    forall i | 0 <= i < |ds| :: ds[i].OtherTurn? ==> ds[i].event.turnId != turnId
  }

  function Receive(checks: Checks, log: seq<StreamEvent>, c: Client, d: Delivery): Client
    requires d.EventAt? ==> d.i < |log|
  {
    match d
    case NewSnapshot(s) => SetSnapshot(c, s)
    case EventAt(i) => ApplyEvent(checks, c, log[i])
    case OtherTurn(event) => ApplyEvent(checks, c, event)
  }

  function ReceiveAll(checks: Checks, log: seq<StreamEvent>, c: Client, ds: seq<Delivery>, from: nat): Client
    requires InOrder(log, ds, from)
    decreases |ds|
  {
    if ds == [] then c
    else ReceiveAll(checks, log, Receive(checks, log, c, ds[0]), ds[1..], if ds[0].EventAt? then ds[0].i + 1 else from)
  }
}
