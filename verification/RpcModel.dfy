/** The gateway client as a step system: many callers, one reader, one socket.

    A step is one region under the client's lock, one channel operation, one socket write or one
    arrival from the socket. Callers are `SendMessage` calls; each makes one `agent` call and then
    waits for its run. */
module RpcModel {
  import opened MeshTypes

  /** Request ids: `req-n` of callers, `connect-n` of the reader, and anything else a frame may carry. */
  datatype ReqId = Req(n: nat) | Connect(n: nat) | Other(text: string)

  /** A payload: whether it is a hello, the run id in it ("" if none), and the rest. */
  datatype Payload = Payload(hello: bool, runId: string, body: string)

  const NO_PAYLOAD := Payload(false, "", "")

  datatype EventKind = AssistantText(text: string) | LifecycleEnd | OtherKind

  datatype AgentEvent = AgentEvent(runId: string, kind: EventKind)

  /** `error` is the message of the frame's error object, if it has one. */
  datatype Frame =
    | Challenge
    | AgentFrame(ev: AgentEvent)
    | Response(id: ReqId, ok: bool, payload: Payload, error: Option<string>)
    | Unknown

  /** What goes through a reply channel. The caller looks at `err` only. */
  datatype Reply = Reply(payload: Payload, err: string)

  const CLOSED := Reply(NO_PAYLOAD, "connection closed")

  function ReplyOf(f: Frame): Reply
    requires f.Response?
  {
    if f.ok then Reply(f.payload, "")
    else Reply(NO_PAYLOAD, match f.error case None => "request failed" case Some(m) => m)
  }

  datatype Owner = ByCaller(k: nat) | ByConnect(n: nat)

  /** A reply channel of capacity one, with its use so far. */
  datatype Chan = Chan(owner: Owner, buf: Option<Reply>, sends: nat)

  datatype Outcome =
    | WriteError
    | ContextError
    | RpcError(err: string)
    | NoRunId
    | RunError(err: string)
    | Answer(text: string)

  datatype Pc =
    | Start | Numbered | Registered | WriteFailed | Waiting | CallCancelled
    | RunKnown | Running | RunDone | RunCancelled
    | Done(out: Outcome)

  /** A caller, with the run object it allocates (`text`, `err`, `done`, and how often `done` was
      closed) and history: `n` its request number, `ch` its channel, `regAt` how many response frames
      had been handled when it registered, `reply` what it received, `runAt` and `readAt` how many
      agent events had been handled when it registered its run and when it read the result, `late` and
      `cutAt` whether a disconnect had been handled by then. */
  datatype Caller = Caller(
    pc: Pc, n: nat, ch: nat, regAt: nat, reply: Option<Reply>,
    runId: string, text: string, err: string, done: bool, closes: nat,
    runAt: nat, late: bool, readAt: nat, cutAt: bool)

  /** How a caller lost its entry in the run table: to whom (a caller with the same run id that registered
      or removed it), after how many handled events, and whether a disconnect had been handled by then. */
  datatype Loss = Loss(taker: nat, at: nat, cut: bool)

  const NEW_CALLER := Caller(Start, 0, 0, 0, None, "", "", "", false, 0, 0, false, 0, false)

  /** The reader. `Disconnecting` holds the lock; `todo` are the pending ids it still has to fail. */
  datatype Reader =
    | Idle
    | Handling(f: Frame)
    | Sending(ch: nat, reply: Reply)
    | Challenged | ChallengedWith(n: nat) | ConnectSent
    | EventSeen(ev: AgentEvent) | EventFor(ev: AgentEvent, k: nat)
    | Disconnecting(todo: set<ReqId>)
    | Exited

  /** `handled` and `events` list the response frames and agent events in the order in which the
      reader looked them up; `cut` are the channels that were pending when the connection broke, `lost`
      the callers whose run entry another caller took. */
  datatype State = State(
    seqNo: nat, pending: map<ReqId, nat>, runs: map<string, nat>,
    chans: seq<Chan>, callers: seq<Caller>, reader: Reader, ready: bool,
    handled: seq<Frame>, events: seq<AgentEvent>, cut: set<nat>, lost: map<nat, Loss>)

  const INIT := State(0, map[], map[], [], [], Idle, false, [], [], {}, map[])

  datatype Action =
    | Spawn
    | TakeNumber(k: nat) | Register(k: nat) | WriteOk(k: nat) | WriteFails(k: nat) | DropAfterWrite(k: nat)
    | Receive(k: nat) | CallTimeout(k: nat) | DropAfterTimeout(k: nat)
    | RegisterRun(k: nat) | SeeDone(k: nat) | RunTimeout(k: nat) | DropRun(k: nat) | Collect(k: nat)
    | Arrive(f: Frame) | LookupResponse | SendReply
    | NumberConnect | RegisterConnect | WriteConnect
    | LookupRun | ApplyEvent
    | ReadError | FailOne(id: ReqId) | FinishDisconnect

  // ---------- steps ----------

  predicate LockFree(s: State) {
    !s.reader.Disconnecting?
  }

  predicate At(s: State, k: nat, pc: Pc) {
    k < |s.callers| && s.callers[k].pc == pc
  }

  /** The channel exists and has room: the send of a reply does not block. */
  predicate HasRoom(s: State, ch: nat) {
    ch < |s.chans| && s.chans[ch].buf.None?
  }

  predicate Enabled(s: State, a: Action) {
    match a
    case Spawn => true
    case TakeNumber(k) => At(s, k, Start)
    case Register(k) => At(s, k, Numbered) && LockFree(s)
    case WriteOk(k) => At(s, k, Registered)
    case WriteFails(k) => At(s, k, Registered)
    case DropAfterWrite(k) => At(s, k, WriteFailed) && LockFree(s)
    case Receive(k) => At(s, k, Waiting) && s.callers[k].ch < |s.chans| && s.chans[s.callers[k].ch].buf.Some?
    case CallTimeout(k) => At(s, k, Waiting)
    case DropAfterTimeout(k) => At(s, k, CallCancelled) && LockFree(s)
    case RegisterRun(k) => At(s, k, RunKnown) && LockFree(s)
    case SeeDone(k) => At(s, k, Running) && s.callers[k].done
    case RunTimeout(k) => At(s, k, Running)
    case DropRun(k) => At(s, k, RunCancelled) && LockFree(s)
    case Collect(k) => At(s, k, RunDone) && LockFree(s)
    case Arrive(_) => s.reader.Idle?
    case LookupResponse => s.reader.Handling? && s.reader.f.Response?
    case SendReply => s.reader.Sending? && HasRoom(s, s.reader.ch)
    case NumberConnect => s.reader.Challenged?
    case RegisterConnect => s.reader.ChallengedWith?
    case WriteConnect => s.reader.ConnectSent?
    case LookupRun => s.reader.EventSeen?
    case ApplyEvent => s.reader.EventFor? && s.reader.k < |s.callers|
    case ReadError => s.reader.Idle?
    case FailOne(id) => s.reader.Disconnecting? && id in s.reader.todo && id in s.pending && HasRoom(s, s.pending[id])
    case FinishDisconnect => s.reader.Disconnecting? && s.reader.todo == {}
  }

  function Put(s: State, k: nat, c: Caller): State
    requires k < |s.callers|
  {
    s.(callers := s.callers[k := c])
  }

  function Open(s: State, id: ReqId, owner: Owner): State {
    s.(pending := s.pending[id := |s.chans|], chans := s.chans + [Chan(owner, None, 0)])
  }

  function Send(s: State, ch: nat, r: Reply): State
    requires ch < |s.chans|
  {
    s.(chans := s.chans[ch := s.chans[ch].(buf := Some(r), sends := s.chans[ch].sends + 1)])
  }

  /** What a caller does with the reply it receives: `call` returns, and `SendMessage` looks for the run id. */
  function AfterReply(r: Reply): Pc {
    if r.err != "" then Done(RpcError(r.err))
    else if r.payload.runId == "" then Done(NoRunId)
    else RunKnown
  }

  function ResultOf(c: Caller): Outcome {
    if c.err != "" then RunError(c.err) else Answer(if c.text == "" then "(no response)" else c.text)
  }

  function Close(c: Caller): Caller {
    if c.done then c else c.(done := true, closes := c.closes + 1)
  }

  function Applied(c: Caller, kind: EventKind): Caller {
    match kind
    case AssistantText(t) => if t != "" then c.(text := t) else c
    case LifecycleEnd => Close(c)
    case OtherKind => c
  }

  /** How many of the events that were looked up have also been applied. */
  function AppliedCount(s: State): nat {
    if s.reader.EventFor? && |s.events| > 0 then |s.events| - 1 else |s.events|
  }

  /** Caller `k` registers or removes the entry of its run id; another caller that is registered under the
      same id loses it. */
  function LostTo(s: State, k: nat): map<nat, Loss>
    requires k < |s.callers|
  {
    var r := s.callers[k].runId;
    if r in s.runs && s.runs[r] != k then s.lost[s.runs[r] := Loss(k, |s.events|, s.reader.Exited?)] else s.lost
  }

  /** The run objects of the registered callers get the error and are closed. */
  function CutOff(callers: seq<Caller>, registered: set<nat>): seq<Caller> {
    seq(|callers|, i requires 0 <= i < |callers| =>
      if i in registered then Close(callers[i].(err := CLOSED.err)) else callers[i])
  }

  /** The reader takes the lock for everyone who is pending. */
  function Broken(s: State): State {
    s.(reader := Disconnecting(s.pending.Keys), cut := s.pending.Values)
  }

  function Disconnected(s: State): State {
    s.(pending := map[], callers := CutOff(s.callers, s.runs.Values), reader := Exited)
  }

  function FrameArrived(s: State, f: Frame): State {
    match f
    case Challenge => s.(reader := Challenged)
    case AgentFrame(ev) => if ev.runId == "" then s else s.(reader := EventSeen(ev))
    case Response(_, ok, payload, _) =>
      s.(reader := Handling(f), ready := s.ready || (ok && payload.hello))
    case Unknown => s
  }

  function Apply(s: State, a: Action): State
    requires Enabled(s, a)
  {
    match a
    case Spawn => s.(callers := s.callers + [NEW_CALLER])
    case TakeNumber(k) => Put(s, k, s.callers[k].(pc := Numbered, n := s.seqNo + 1)).(seqNo := s.seqNo + 1)
    case Register(k) =>
      Put(Open(s, Req(s.callers[k].n), ByCaller(k)), k,
          s.callers[k].(pc := Registered, ch := |s.chans|, regAt := |s.handled|))
    case WriteOk(k) => Put(s, k, s.callers[k].(pc := Waiting))
    case WriteFails(k) => Put(s, k, s.callers[k].(pc := WriteFailed))
    case DropAfterWrite(k) =>
      Put(s, k, s.callers[k].(pc := Done(WriteError))).(pending := s.pending - {Req(s.callers[k].n)})
    case Receive(k) =>
      var c := s.callers[k];
      var r := s.chans[c.ch].buf.value;
      var pc := AfterReply(r);
      Put(s, k, c.(pc := pc, reply := Some(r), runId := if pc == RunKnown then r.payload.runId else ""))
        .(chans := s.chans[c.ch := s.chans[c.ch].(buf := None)])
    case CallTimeout(k) => Put(s, k, s.callers[k].(pc := CallCancelled))
    case DropAfterTimeout(k) =>
      Put(s, k, s.callers[k].(pc := Done(ContextError))).(pending := s.pending - {Req(s.callers[k].n)})
    case RegisterRun(k) =>
      Put(s, k, s.callers[k].(pc := Running, runAt := |s.events|, late := s.reader.Exited?))
        .(runs := s.runs[s.callers[k].runId := k], lost := LostTo(s, k))
    case SeeDone(k) => Put(s, k, s.callers[k].(pc := RunDone))
    case RunTimeout(k) => Put(s, k, s.callers[k].(pc := RunCancelled))
    case DropRun(k) =>
      Put(s, k, s.callers[k].(pc := Done(ContextError))).(runs := s.runs - {s.callers[k].runId}, lost := LostTo(s, k))
    case Collect(k) =>
      var c := s.callers[k];
      Put(s, k, c.(pc := Done(ResultOf(c)), readAt := AppliedCount(s), cutAt := s.reader.Exited?))
        .(runs := s.runs - {c.runId}, lost := LostTo(s, k))
    case Arrive(f) => FrameArrived(s, f)
    case LookupResponse =>
      var f := s.reader.f;
      var t := s.(handled := s.handled + [f]);
      if f.id in s.pending then t.(pending := s.pending - {f.id}, reader := Sending(s.pending[f.id], ReplyOf(f)))
      else t.(reader := Idle)
    case SendReply => Send(s, s.reader.ch, s.reader.reply).(reader := Idle)
    case NumberConnect => s.(seqNo := s.seqNo + 1, reader := ChallengedWith(s.seqNo + 1))
    case RegisterConnect => Open(s, Connect(s.reader.n), ByConnect(s.reader.n)).(reader := ConnectSent)
    case WriteConnect => s.(reader := Idle)
    case LookupRun =>
      var ev := s.reader.ev;
      s.(events := s.events + [ev], reader := if ev.runId in s.runs then EventFor(ev, s.runs[ev.runId]) else Idle)
    case ApplyEvent =>
      var k := s.reader.k;
      Put(s, k, Applied(s.callers[k], s.reader.ev.kind)).(reader := Idle)
    case ReadError => Broken(s)
    case FailOne(id) => Send(s, s.pending[id], CLOSED).(reader := Disconnecting(s.reader.todo - {id}))
    case FinishDisconnect => Disconnected(s)
  }

  /** The state a sequence of actions leads to from `start`; `None` if one of them is not possible. */
  function ExecFrom(start: State, actions: seq<Action>): Option<State> {
    if actions == [] then Some(start)
    else
      match ExecFrom(start, actions[..|actions| - 1])
      case None => None
      case Some(s) =>
        var a := actions[|actions| - 1];
        if Enabled(s, a) then Some(Apply(s, a)) else None
  }

  function Exec(actions: seq<Action>): Option<State> {
    ExecFrom(INIT, actions)
  }

  ghost predicate Reachable(s: State) {
    exists actions :: Exec(actions) == Some(s)
  }
}
