/** Request ids and reply channels of the gateway client, over every interleaving. */
module RpcReplies {
  import opened MeshTypes
  import opened RpcModel

  // ---------- ids and channels ----------

  predicate HasChan(c: Caller) {
    !c.pc.Start? && !c.pc.Numbered?
  }

  /** The id under which a channel is, or was, registered. */
  function KeyOf(s: State, o: Owner): ReqId {
    match o
    case ByCaller(k) => if k < |s.callers| then Req(s.callers[k].n) else Other("")
    case ByConnect(n) => Connect(n)
  }

  ghost predicate NumbersInv(s: State) {
    && (forall k :: 0 <= k < |s.callers| && !s.callers[k].pc.Start? ==> s.callers[k].n <= s.seqNo)
    && (forall j, k :: 0 <= j < k < |s.callers| && !s.callers[j].pc.Start? && !s.callers[k].pc.Start? ==>
          s.callers[j].n != s.callers[k].n)
  }

  ghost predicate CallersInv(s: State) {
    && (forall k :: 0 <= k < |s.callers| && HasChan(s.callers[k]) ==>
          s.callers[k].ch < |s.chans| && s.chans[s.callers[k].ch].owner == ByCaller(k))
  }

  ghost predicate OwnersInv(s: State) {
    && (forall c :: 0 <= c < |s.chans| && s.chans[c].owner.ByCaller? ==>
          var k := s.chans[c].owner.k; k < |s.callers| && HasChan(s.callers[k]) && s.callers[k].ch == c)
    && (forall c :: 0 <= c < |s.chans| && s.chans[c].owner.ByConnect? ==> s.chans[c].owner.n <= s.seqNo)
    && (forall c, d :: 0 <= c < d < |s.chans| && s.chans[c].owner.ByConnect? ==> s.chans[c].owner != s.chans[d].owner)
    && (s.reader.ChallengedWith? ==>
          s.reader.n <= s.seqNo && forall c :: 0 <= c < |s.chans| ==> s.chans[c].owner != ByConnect(s.reader.n))
  }

  ghost predicate PendingInv(s: State) {
    forall id :: id in s.pending ==> s.pending[id] < |s.chans| && KeyOf(s, s.chans[s.pending[id]].owner) == id
  }

  ghost predicate Struct(s: State) {
    NumbersInv(s) && CallersInv(s) && OwnersInv(s) && PendingInv(s)
  }

  /** Steps that allocate no number, channel or caller. */
  predicate Quiet(a: Action) {
    !a.Spawn? && !a.TakeNumber? && !a.Register? && !a.NumberConnect? && !a.RegisterConnect?
  }

  ghost predicate SameShape(s: State, t: State) {
    && t.seqNo == s.seqNo && |t.chans| == |s.chans| && |t.callers| == |s.callers|
    && (forall c :: 0 <= c < |s.chans| ==> t.chans[c].owner == s.chans[c].owner)
    && (forall k :: 0 <= k < |s.callers| ==>
          && t.callers[k].n == s.callers[k].n && t.callers[k].ch == s.callers[k].ch
          && t.callers[k].pc.Start? == s.callers[k].pc.Start? && HasChan(t.callers[k]) == HasChan(s.callers[k])
          && t.callers[k].regAt == s.callers[k].regAt)
    && (t.reader.ChallengedWith? ==> t.reader == s.reader)
  }

  lemma QuietCallers(s: State, a: Action, k: nat)
    requires Enabled(s, a) && Quiet(a) && k < |s.callers|
    ensures |Apply(s, a).callers| == |s.callers|
    ensures var t := Apply(s, a).callers[k];
            var c := s.callers[k];
            && t.n == c.n && t.ch == c.ch && t.regAt == c.regAt
            && t.pc.Start? == c.pc.Start? && HasChan(t) == HasChan(c)
  {
    if Mover(a) == Some(k) {
      OwnQuietStep(s, a, k);
    } else {
      OthersLeaveCall(s, a, k);
    }
  }

  lemma OwnQuietStep(s: State, a: Action, k: nat)
    requires Enabled(s, a) && Quiet(a) && k < |s.callers| && Mover(a) == Some(k)
    ensures |Apply(s, a).callers| == |s.callers|
    ensures var t := Apply(s, a).callers[k];
            var c := s.callers[k];
            && t.n == c.n && t.ch == c.ch && t.regAt == c.regAt && HasChan(t) && HasChan(c)
  {
  }

  lemma QuietNumbers(s: State, a: Action)
    requires Enabled(s, a) && Quiet(a)
    ensures Apply(s, a).seqNo == s.seqNo
    ensures Apply(s, a).reader.ChallengedWith? ==> Apply(s, a).reader == s.reader
  {
  }

  lemma QuietCallerCount(s: State, a: Action)
    requires Enabled(s, a) && Quiet(a)
    ensures |Apply(s, a).callers| == |s.callers|
  {
  }

  lemma QuietChanCount(s: State, a: Action)
    requires Enabled(s, a) && Quiet(a)
    ensures |Apply(s, a).chans| == |s.chans|
  {
  }

  lemma QuietChans(s: State, a: Action)
    requires Enabled(s, a) && Quiet(a)
    ensures var t := Apply(s, a);
            && t.seqNo == s.seqNo && |t.chans| == |s.chans| && |t.callers| == |s.callers|
            && (forall c :: 0 <= c < |s.chans| ==> t.chans[c].owner == s.chans[c].owner)
            && (t.reader.ChallengedWith? ==> t.reader == s.reader)
  {
    QuietNumbers(s, a);
    QuietCallerCount(s, a);
    QuietChanCount(s, a);
    forall c: nat | c < |s.chans|
      ensures c < |Apply(s, a).chans| && Apply(s, a).chans[c].owner == s.chans[c].owner
    {
      ChanStep(s, a, c);
    }
  }

  lemma QuietKeepsShape(s: State, a: Action)
    requires Enabled(s, a) && Quiet(a)
    ensures SameShape(s, Apply(s, a))
  {
    QuietChans(s, a);
    forall k: nat | k < |s.callers|
      ensures var t := Apply(s, a).callers[k];
              var c := s.callers[k];
              && t.n == c.n && t.ch == c.ch && t.regAt == c.regAt
              && t.pc.Start? == c.pc.Start? && HasChan(t) == HasChan(c)
    {
      QuietCallers(s, a, k);
    }
  }

  lemma ShapeKeepsStruct(s: State, t: State)
    requires Struct(s) && SameShape(s, t)
    requires forall id :: id in t.pending ==> id in s.pending && t.pending[id] == s.pending[id]
    ensures Struct(t)
  {
  }

  lemma QuietPending(s: State, a: Action)
    requires Enabled(s, a) && Quiet(a)
    ensures forall id :: id in Apply(s, a).pending ==> id in s.pending && Apply(s, a).pending[id] == s.pending[id]
  {
  }

  lemma RegisterPending(s: State, k: nat)
    requires Struct(s) && Enabled(s, Register(k))
    ensures PendingInv(Apply(s, Register(k)))
  {
    var t := Apply(s, Register(k));
    forall id | id in t.pending
      ensures t.pending[id] < |t.chans| && KeyOf(t, t.chans[t.pending[id]].owner) == id
    {
      if id != Req(s.callers[k].n) {
        assert id in s.pending && t.pending[id] == s.pending[id];
        assert t.chans[s.pending[id]] == s.chans[s.pending[id]];
      }
    }
  }

  lemma RegisterKeepsOthers(s: State, k: nat)
    requires Enabled(s, Register(k))
    ensures var t := Apply(s, Register(k));
            && |t.callers| == |s.callers| && t.seqNo == s.seqNo && t.reader == s.reader
            && t.chans == s.chans + [Chan(ByCaller(k), None, 0)]
            && (forall j :: 0 <= j < |s.callers| && j != k ==> t.callers[j] == s.callers[j])
            && t.callers[k].ch == |s.chans| && t.callers[k].n == s.callers[k].n && t.callers[k].pc == Registered
  {
  }

  lemma RegisterCallers(s: State, k: nat)
    requires Struct(s) && Enabled(s, Register(k))
    ensures CallersInv(Apply(s, Register(k)))
  {
    RegisterKeepsOthers(s, k);
  }

  lemma RegisterOwners(s: State, k: nat)
    requires Struct(s) && Enabled(s, Register(k))
    ensures OwnersInv(Apply(s, Register(k)))
  {
    RegisterKeepsOthers(s, k);
    assert forall c :: 0 <= c < |s.chans| ==> s.chans[c].owner != ByCaller(k);
  }

  lemma RegisterStruct(s: State, k: nat)
    requires Struct(s) && Enabled(s, Register(k))
    ensures Struct(Apply(s, Register(k)))
  {
    var t := Apply(s, Register(k));
    RegisterPending(s, k);
    RegisterCallers(s, k);
    RegisterOwners(s, k);
    assert forall j :: 0 <= j < |s.callers| ==> t.callers[j].n == s.callers[j].n;
  }

  lemma RegisterConnectStruct(s: State)
    requires Struct(s) && Enabled(s, RegisterConnect)
    ensures Struct(Apply(s, RegisterConnect))
  {
    var t := Apply(s, RegisterConnect);
    assert forall c :: 0 <= c < |s.chans| ==> t.chans[c] == s.chans[c];
    assert NumbersInv(t) && CallersInv(t) && OwnersInv(t);
    forall id | id in t.pending
      ensures t.pending[id] < |t.chans| && KeyOf(t, t.chans[t.pending[id]].owner) == id
    {
      if id != Connect(s.reader.n) {
        assert id in s.pending && t.pending[id] == s.pending[id];
      }
    }
  }

  lemma SpawnStruct(s: State)
    requires Struct(s)
    ensures Struct(Apply(s, Spawn))
  {
    var t := Apply(s, Spawn);
    assert forall j :: 0 <= j < |s.callers| ==> t.callers[j] == s.callers[j];
  }

  lemma TakeNumberStruct(s: State, k: nat)
    requires Struct(s) && Enabled(s, TakeNumber(k))
    ensures Struct(Apply(s, TakeNumber(k)))
  {
    var t := Apply(s, TakeNumber(k));
    assert forall j :: 0 <= j < |s.callers| && j != k ==> t.callers[j] == s.callers[j];
  }

  lemma NumberConnectStruct(s: State)
    requires Struct(s) && Enabled(s, NumberConnect)
    ensures Struct(Apply(s, NumberConnect))
  {
  }

  lemma QuietStruct(s: State, a: Action)
    requires Struct(s) && Enabled(s, a) && Quiet(a)
    ensures Struct(Apply(s, a))
  {
    QuietKeepsShape(s, a);
    QuietPending(s, a);
    ShapeKeepsStruct(s, Apply(s, a));
  }

  lemma StructStep(s: State, a: Action)
    requires Struct(s) && Enabled(s, a)
    ensures Struct(Apply(s, a))
  {
    if Quiet(a) {
      QuietStruct(s, a);
    } else {
      match a
      case Spawn => SpawnStruct(s);
      case TakeNumber(k) => TakeNumberStruct(s, k);
      case NumberConnect => NumberConnectStruct(s);
      case Register(k) => RegisterStruct(s, k);
      case RegisterConnect => RegisterConnectStruct(s);
    }
  }

  // ---------- where a reply is ----------

  /** The channel is registered under its key. */
  predicate InTable(s: State, c: nat)
    requires c < |s.chans|
  {
    var id := KeyOf(s, s.chans[c].owner);
    id in s.pending && s.pending[id] == c
  }

  /** The disconnect in progress has already sent its error to the channel. */
  predicate Failed(s: State, c: nat)
    requires c < |s.chans|
  {
    s.reader.Disconnecting? && KeyOf(s, s.chans[c].owner) !in s.reader.todo
  }

  predicate InHand(s: State, c: nat) {
    s.reader.Sending? && s.reader.ch == c
  }

  /** A channel gets at most one send: it has had none while it waits in the table or its reply is in
      the reader's hand. */
  ghost predicate TokenOk(s: State, c: nat)
    requires c < |s.chans|
  {
    && s.chans[c].sends <= 1
    && (s.chans[c].buf.Some? ==> s.chans[c].sends == 1)
    && (InTable(s, c) ==> s.chans[c].sends == if Failed(s, c) then 1 else 0)
    && (InHand(s, c) ==> s.chans[c].sends == 0 && !InTable(s, c))
  }

  ghost predicate TokenInv(s: State) {
    && (forall c :: 0 <= c < |s.chans| ==> TokenOk(s, c))
    && (s.reader.Sending? ==> s.reader.ch < |s.chans|)
    && (s.reader.Disconnecting? ==> s.reader.todo <= s.pending.Keys)
  }

  /** Nobody re-registers a key: it belongs to the one channel of its owner. */
  lemma FreshKey(s: State, a: Action)
    requires Struct(s) && Enabled(s, a) && (a.Register? || a.RegisterConnect?)
    ensures var id := if a.Register? then Req(s.callers[a.k].n) else Connect(s.reader.n);
            && id !in s.pending
            && forall c :: 0 <= c < |s.chans| ==> KeyOf(s, s.chans[c].owner) != id
  {
  }

  /** Channels keep their owner and their key for ever. */
  lemma KeysStay(s: State, a: Action, c: nat)
    requires Struct(s) && Enabled(s, a) && c < |s.chans|
    ensures var t := Apply(s, a);
            && c < |t.chans| && t.chans[c].owner == s.chans[c].owner
            && KeyOf(t, t.chans[c].owner) == KeyOf(s, s.chans[c].owner)
  {
    if Quiet(a) {
      QuietKeepsShape(s, a);
    }
  }

  /** Exactly three steps write a channel. */
  lemma ChanStep(s: State, a: Action, c: nat)
    requires Enabled(s, a) && c < |s.chans|
    ensures c < |Apply(s, a).chans|
    ensures var ch := s.chans[c];
            Apply(s, a).chans[c] ==
              if a.Receive? && s.callers[a.k].ch == c then ch.(buf := None)
              else if a.SendReply? && s.reader.ch == c then ch.(buf := Some(s.reader.reply), sends := ch.sends + 1)
              else if a.FailOne? && s.pending[a.id] == c then ch.(buf := Some(CLOSED), sends := ch.sends + 1)
              else ch
  {
  }

  /** The step takes the id out of the table. */
  predicate Removes(s: State, a: Action, id: ReqId)
    requires Enabled(s, a)
  {
    match a
    case DropAfterWrite(k) => id == Req(s.callers[k].n)
    case DropAfterTimeout(k) => id == Req(s.callers[k].n)
    case LookupResponse => id == s.reader.f.id
    case FinishDisconnect => true
    case _ => false
  }

  /** The id under which the step registers a channel. */
  function Adds(s: State, a: Action): Option<ReqId>
    requires Enabled(s, a)
  {
    match a
    case Register(k) => Some(Req(s.callers[k].n))
    case RegisterConnect => Some(Connect(s.reader.n))
    case _ => None
  }

  lemma PendingStep(s: State, a: Action, id: ReqId)
    requires Enabled(s, a) && Adds(s, a) != Some(id)
    ensures id in Apply(s, a).pending <==> id in s.pending && !Removes(s, a, id)
    ensures id in Apply(s, a).pending ==> Apply(s, a).pending[id] == s.pending[id]
  {
  }

  lemma InTableStep(s: State, a: Action, c: nat)
    requires Struct(s) && Enabled(s, a) && c < |s.chans|
    ensures c < |Apply(s, a).chans|
    ensures InTable(Apply(s, a), c) <==> InTable(s, c) && !Removes(s, a, KeyOf(s, s.chans[c].owner))
  {
    KeysStay(s, a, c);
    if a.Register? || a.RegisterConnect? {
      FreshKey(s, a);
    }
    PendingStep(s, a, KeyOf(s, s.chans[c].owner));
  }

  lemma InHandStep(s: State, a: Action, c: nat)
    requires Enabled(s, a)
    ensures InHand(Apply(s, a), c) <==>
              || (InHand(s, c) && !a.SendReply?)
              || (a.LookupResponse? && s.reader.f.id in s.pending && s.pending[s.reader.f.id] == c)
    ensures InHand(s, c) && InHand(Apply(s, a), c) ==> Apply(s, a).reader == s.reader
  {
  }

  /** While a disconnect goes on, the ids still to fail are removed one by one. */
  lemma DisconnectingStep(s: State, a: Action)
    requires Enabled(s, a)
    ensures Apply(s, a).reader.Disconnecting? <==> a.ReadError? || (s.reader.Disconnecting? && !a.FinishDisconnect?)
    ensures Apply(s, a).reader.Disconnecting? ==>
              && (a.ReadError? || Apply(s, a).pending == s.pending)
              && Apply(s, a).reader.todo ==
                   if a.ReadError? then s.pending.Keys
                   else if a.FailOne? then s.reader.todo - {a.id} else s.reader.todo
  {
  }

  lemma TokenStepOld(s: State, a: Action, c: nat)
    requires Struct(s) && TokenInv(s) && Enabled(s, a) && c < |s.chans|
    ensures c < |Apply(s, a).chans| && TokenOk(Apply(s, a), c)
  {
    KeysStay(s, a, c);
    ChanStep(s, a, c);
    InTableStep(s, a, c);
    InHandStep(s, a, c);
    DisconnectingStep(s, a);
    assert TokenOk(s, c);
  }

  lemma TokenStepNew(s: State, a: Action, c: nat)
    requires Struct(s) && TokenInv(s) && Enabled(s, a) && |s.chans| <= c < |Apply(s, a).chans|
    ensures TokenOk(Apply(s, a), c)
  {
    assert a.Register? || a.RegisterConnect?;
  }

  lemma TokenStep(s: State, a: Action)
    requires Struct(s) && TokenInv(s) && Enabled(s, a)
    ensures TokenInv(Apply(s, a))
  {
    var t := Apply(s, a);
    forall c | 0 <= c < |t.chans|
      ensures TokenOk(t, c)
    {
      if c < |s.chans| {
        TokenStepOld(s, a, c);
      } else {
        TokenStepNew(s, a, c);
      }
    }
    HandAndTodo(s, a);
  }

  lemma HandAndTodo(s: State, a: Action)
    requires Struct(s) && TokenInv(s) && Enabled(s, a)
    ensures var t := Apply(s, a);
            (t.reader.Sending? ==> t.reader.ch < |t.chans|)
              && (t.reader.Disconnecting? ==> t.reader.todo <= t.pending.Keys)
  {
    DisconnectingStep(s, a);
    var t := Apply(s, a);
    if t.reader.Sending? {
      InHandStep(s, a, t.reader.ch);
      ChanStep(s, a, t.reader.ch);
    }
  }

  // ---------- every caller's reply is in exactly one place ----------

  /** The call has registered and not returned. */
  predicate InCall(c: Caller) {
    c.pc.Registered? || c.pc.Waiting? || c.pc.WriteFailed? || c.pc.CallCancelled?
  }

  predicate GaveUp(c: Caller) {
    c.pc == Done(WriteError) || c.pc == Done(ContextError)
  }

  ghost predicate PlaceOk(s: State, k: nat)
    requires k < |s.callers|
  {
    var me := s.callers[k];
    if !HasChan(me) then me.reply.None?
    else
      && me.ch < |s.chans|
      && (InCall(me) ==> me.reply.None?)
      && (InCall(me) && s.chans[me.ch].sends == 0 ==> InTable(s, me.ch) || InHand(s, me.ch))
      && (InCall(me) && s.chans[me.ch].sends == 1 ==> s.chans[me.ch].buf.Some?)
      && (!InCall(me) && me.reply.None? ==> GaveUp(me) && !InTable(s, me.ch))
      && (me.reply.Some? ==> s.chans[me.ch].sends == 1 && s.chans[me.ch].buf.None?)
  }

  /** The caller whose own step this is. */
  function Mover(a: Action): Option<nat> {
    match a
    case TakeNumber(k) => Some(k)
    case Register(k) => Some(k)
    case WriteOk(k) => Some(k)
    case WriteFails(k) => Some(k)
    case DropAfterWrite(k) => Some(k)
    case Receive(k) => Some(k)
    case CallTimeout(k) => Some(k)
    case DropAfterTimeout(k) => Some(k)
    case RegisterRun(k) => Some(k)
    case SeeDone(k) => Some(k)
    case RunTimeout(k) => Some(k)
    case DropRun(k) => Some(k)
    case Collect(k) => Some(k)
    case _ => None
  }

  /** A caller's own step leaves the other callers alone. */
  lemma MoverMovesAlone(s: State, a: Action, j: nat, k: nat)
    requires Enabled(s, a) && Mover(a) == Some(j) && j != k && k < |s.callers|
    ensures k < |Apply(s, a).callers| && Apply(s, a).callers[k] == s.callers[k]
  {
  }

  /** The reader touches run objects only. */
  lemma NoMoverOnCall(s: State, a: Action, k: nat)
    requires Enabled(s, a) && Mover(a) == None && k < |s.callers|
    ensures k < |Apply(s, a).callers|
    ensures var t := Apply(s, a).callers[k];
            var c := s.callers[k];
            t.pc == c.pc && t.n == c.n && t.ch == c.ch && t.regAt == c.regAt && t.reply == c.reply
  {
  }

  /** Other steps leave what a caller knows of its call. */
  lemma OthersLeaveCall(s: State, a: Action, k: nat)
    requires Enabled(s, a) && k < |s.callers| && Mover(a) != Some(k)
    ensures k < |Apply(s, a).callers|
    ensures var t := Apply(s, a).callers[k];
            var c := s.callers[k];
            t.pc == c.pc && t.n == c.n && t.ch == c.ch && t.regAt == c.regAt && t.reply == c.reply
  {
    match Mover(a)
    case None => NoMoverOnCall(s, a, k);
    case Some(j) => MoverMovesAlone(s, a, j, k);
  }

  /** What a step of others can do to a caller's channel. */
  lemma OthersOnChan(s: State, a: Action, k: nat)
    requires Struct(s) && TokenInv(s) && Enabled(s, a) && k < |s.callers| && Mover(a) != Some(k)
             && HasChan(s.callers[k])
    ensures var t := Apply(s, a);
            var c := s.callers[k].ch;
            && c < |t.chans|
            && (|| t.chans[c] == s.chans[c]
                || (s.chans[c].sends == 0 && t.chans[c].sends == 1 && t.chans[c].buf.Some?))
            && (t.chans[c].sends == 0 && (InTable(s, c) || InHand(s, c)) ==> InTable(t, c) || InHand(t, c))
            && (InTable(t, c) ==> InTable(s, c))
  {
    var c := s.callers[k].ch;
    ChanStep(s, a, c);
    InTableStep(s, a, c);
    InHandStep(s, a, c);
    assert TokenOk(s, c);
    NotTheirs(s, a, k);
    if a.FailOne? && s.pending[a.id] == c {
      assert KeyOf(s, s.chans[c].owner) == a.id;
    }
  }

  /** Others neither receive from a caller's channel nor drop its id. */
  lemma NotTheirs(s: State, a: Action, k: nat)
    requires Struct(s) && Enabled(s, a) && k < |s.callers| && Mover(a) != Some(k) && HasChan(s.callers[k])
    ensures a.Receive? ==> s.callers[a.k].ch != s.callers[k].ch
    ensures a.DropAfterWrite? || a.DropAfterTimeout? ==> s.callers[a.k].n != s.callers[k].n
  {
  }

  lemma PlaceStepOther(s: State, a: Action, k: nat)
    requires Struct(s) && TokenInv(s) && Enabled(s, a) && k < |s.callers| && Mover(a) != Some(k) && PlaceOk(s, k)
    ensures k < |Apply(s, a).callers| && PlaceOk(Apply(s, a), k)
  {
    OthersLeaveCall(s, a, k);
    if HasChan(s.callers[k]) {
      OthersOnChan(s, a, k);
      assert TokenOk(s, s.callers[k].ch);
    }
  }

  lemma PlaceAfterRegister(s: State, k: nat)
    requires Struct(s) && TokenInv(s) && Enabled(s, Register(k)) && PlaceOk(s, k)
    ensures PlaceOk(Apply(s, Register(k)), k)
  {
  }

  lemma PlaceAfterReceive(s: State, k: nat)
    requires Struct(s) && TokenInv(s) && Enabled(s, Receive(k)) && PlaceOk(s, k)
    ensures PlaceOk(Apply(s, Receive(k)), k)
  {
    assert TokenOk(s, s.callers[k].ch);
  }

  lemma PlaceStepOwn(s: State, a: Action, k: nat)
    requires Struct(s) && TokenInv(s) && Enabled(s, a) && k < |s.callers| && Mover(a) == Some(k) && PlaceOk(s, k)
    ensures k < |Apply(s, a).callers| && PlaceOk(Apply(s, a), k)
  {
    if a.Register? {
      PlaceAfterRegister(s, k);
    } else if a.Receive? {
      PlaceAfterReceive(s, k);
    } else if HasChan(s.callers[k]) {
      PlaceAfterOwn(s, a, k);
    }
  }

  lemma PlaceAfterOwn(s: State, a: Action, k: nat)
    requires Struct(s) && TokenInv(s) && Enabled(s, a) && k < |s.callers| && Mover(a) == Some(k) && PlaceOk(s, k)
    requires !a.Register? && !a.Receive? && HasChan(s.callers[k])
    ensures k < |Apply(s, a).callers| && PlaceOk(Apply(s, a), k)
  {
    var c := s.callers[k].ch;
    InTableStep(s, a, c);
    InHandStep(s, a, c);
    ChanStep(s, a, c);
    OwnCallStep(s, a, k);
    assert TokenOk(s, c);
  }

  /** What a caller's own steps, other than registering and receiving, leave of its call. */
  lemma OwnCallStep(s: State, a: Action, k: nat)
    requires Enabled(s, a) && k < |s.callers| && Mover(a) == Some(k) && !a.Register? && !a.Receive?
             && HasChan(s.callers[k])
    ensures k < |Apply(s, a).callers|
    ensures var c := s.callers[k];
            var t := Apply(s, a).callers[k];
            && t.n == c.n && t.ch == c.ch && t.reply == c.reply && HasChan(t)
            && (InCall(t) ==> InCall(c)) && (InCall(c) && !InCall(t) ==> GaveUp(t) && Removes(s, a, Req(c.n)))
            && (!InCall(c) && GaveUp(c) ==> GaveUp(t))
  {
  }

  // ---------- which reply ----------

  /** Frame `i` is the first one with this id among those handled from position `from` on. */
  predicate FirstWithId(frames: seq<Frame>, from: nat, id: ReqId, i: nat) {
    && from <= i < |frames| && frames[i].Response? && frames[i].id == id
    && forall j :: from <= j < i ==> !(frames[j].Response? && frames[j].id == id)
  }

  predicate NoneWithId(frames: seq<Frame>, from: nat, id: ReqId) {
    forall j :: from <= j < |frames| ==> !(frames[j].Response? && frames[j].id == id)
  }

  /** `r` is what the first frame with the caller's id, handled after it registered, says. */
  ghost predicate FirstFrameSays(s: State, c: Caller, r: Reply) {
    exists i: nat :: FirstWithId(s.handled, c.regAt, Req(c.n), i) && r == ReplyOf(s.handled[i])
  }

  ghost predicate RightReply(s: State, c: Caller, r: Reply) {
    FirstFrameSays(s, c, r) || (r == CLOSED && c.ch in s.cut)
  }

  ghost predicate ContentOk(s: State, k: nat)
    requires k < |s.callers|
  {
    var me := s.callers[k];
    HasChan(me) ==>
      && me.ch < |s.chans| && me.regAt <= |s.handled|
      && (InTable(s, me.ch) ==> NoneWithId(s.handled, me.regAt, Req(me.n)))
      && (InHand(s, me.ch) ==> FirstFrameSays(s, me, s.reader.reply))
      && (s.chans[me.ch].buf.Some? ==> RightReply(s, me, s.chans[me.ch].buf.value))
      && (me.reply.Some? ==> RightReply(s, me, me.reply.value))
  }

  lemma HandledGrows(s: State, a: Action)
    requires Enabled(s, a)
    ensures Apply(s, a).handled == if a.LookupResponse? then s.handled + [s.reader.f] else s.handled
    ensures Apply(s, a).cut == if a.ReadError? then s.pending.Values else s.cut
  {
  }

  lemma RightReplyStays(s: State, t: State, c: Caller, d: Caller, r: Reply)
    requires s.handled <= t.handled && (c.ch in s.cut ==> c.ch in t.cut)
    requires d.n == c.n && d.ch == c.ch && d.regAt == c.regAt
    ensures FirstFrameSays(s, c, r) ==> FirstFrameSays(t, d, r)
    ensures RightReply(s, c, r) ==> RightReply(t, d, r)
  {
    if FirstFrameSays(s, c, r) {
      var i: nat :| FirstWithId(s.handled, c.regAt, Req(c.n), i) && r == ReplyOf(s.handled[i]);
      assert FirstWithId(t.handled, d.regAt, Req(d.n), i) && t.handled[i] == s.handled[i];
    }
  }

  /** Before a disconnect no channel is cut; from then on the cut channels are those that were
      pending, and each of them has its error, or its caller has it. */
  ghost predicate CutOk(s: State, c: nat) {
    && c < |s.chans|
    && (s.reader.Disconnecting? ==> InTable(s, c))
    && (s.reader.Exited? || Failed(s, c) ==> GotClosed(s, c))
  }

  ghost predicate CutInv(s: State) {
    && (s.cut != {} ==> s.reader.Disconnecting? || s.reader.Exited?)
    && (s.reader.Disconnecting? ==> s.cut == s.pending.Values)
    && forall c | c in s.cut :: CutOk(s, c)
  }

  lemma ContentStepOther(s: State, a: Action, k: nat)
    requires Struct(s) && TokenInv(s) && CutInv(s) && Enabled(s, a)
    requires k < |s.callers| && Mover(a) != Some(k) && ContentOk(s, k)
    ensures k < |Apply(s, a).callers| && ContentOk(Apply(s, a), k)
  {
    OthersLeaveCall(s, a, k);
    HandledGrows(s, a);
    var me, t := s.callers[k], Apply(s, a);
    if HasChan(me) {
      OthersOnChan(s, a, k);
      if InTable(t, me.ch) {
        ContentOfTable(s, a, k);
      }
      if InHand(t, me.ch) {
        ContentOfHand(s, a, k);
      }
      if t.chans[me.ch].buf.Some? {
        ContentOfBuffer(s, a, k);
      }
      if me.reply.Some? {
        assert a.ReadError? ==> s.cut == {};
        RightReplyStays(s, t, me, t.callers[k], me.reply.value);
      }
    }
  }

  lemma ContentOfTable(s: State, a: Action, k: nat)
    requires Struct(s) && TokenInv(s) && Enabled(s, a)
    requires k < |s.callers| && Mover(a) != Some(k) && HasChan(s.callers[k]) && ContentOk(s, k)
    requires s.callers[k].ch < |Apply(s, a).chans| && InTable(Apply(s, a), s.callers[k].ch)
    ensures NoneWithId(Apply(s, a).handled, s.callers[k].regAt, Req(s.callers[k].n))
  {
    OthersOnChan(s, a, k);
    HandledGrows(s, a);
    KeysStay(s, a, s.callers[k].ch);
    if a.LookupResponse? {
      assert s.reader.f.id != Req(s.callers[k].n);
    }
  }

  lemma ContentOfHand(s: State, a: Action, k: nat)
    requires Struct(s) && TokenInv(s) && Enabled(s, a)
    requires k < |s.callers| && Mover(a) != Some(k) && HasChan(s.callers[k]) && ContentOk(s, k)
    requires InHand(Apply(s, a), s.callers[k].ch)
    ensures FirstFrameSays(Apply(s, a), Apply(s, a).callers[k], Apply(s, a).reader.reply)
  {
    var me, t := s.callers[k], Apply(s, a);
    OthersLeaveCall(s, a, k);
    HandledGrows(s, a);
    if a.LookupResponse? {
      var f := s.reader.f;
      assert f.id in s.pending && s.pending[f.id] == me.ch && InTable(s, me.ch);
      assert FirstWithId(t.handled, me.regAt, Req(me.n), |s.handled|);
    } else {
      InHandStep(s, a, me.ch);
      RightReplyStays(s, t, me, t.callers[k], s.reader.reply);
    }
  }

  lemma ContentOfBuffer(s: State, a: Action, k: nat)
    requires Struct(s) && TokenInv(s) && CutInv(s) && Enabled(s, a)
    requires k < |s.callers| && Mover(a) != Some(k) && HasChan(s.callers[k]) && ContentOk(s, k)
    requires s.callers[k].ch < |Apply(s, a).chans| && Apply(s, a).chans[s.callers[k].ch].buf.Some?
    ensures RightReply(Apply(s, a), Apply(s, a).callers[k], Apply(s, a).chans[s.callers[k].ch].buf.value)
  {
    var me, t := s.callers[k], Apply(s, a);
    var r := t.chans[me.ch].buf.value;
    OthersLeaveCall(s, a, k);
    HandledGrows(s, a);
    if a.ReadError? {
      assert s.cut == {};
    }
    if t.chans[me.ch] == s.chans[me.ch] {
      RightReplyStays(s, t, me, t.callers[k], r);
    } else {
      ChanStep(s, a, me.ch);
      if a.SendReply? {
        RightReplyStays(s, t, me, t.callers[k], r);
      } else {
        assert a.id in s.pending && s.pending[a.id] in s.pending.Values;
      }
    }
  }

  lemma ContentStepOwn(s: State, a: Action, k: nat)
    requires Struct(s) && TokenInv(s) && CutInv(s) && Enabled(s, a)
    requires k < |s.callers| && Mover(a) == Some(k) && ContentOk(s, k) && PlaceOk(s, k)
    ensures k < |Apply(s, a).callers| && ContentOk(Apply(s, a), k)
  {
    var me, t := s.callers[k], Apply(s, a);
    HandledGrows(s, a);
    if a.Register? {
      FreshKey(s, a);
    } else if HasChan(me) {
      OwnQuietStep(s, a, k);
      ChanStep(s, a, me.ch);
      InTableStep(s, a, me.ch);
      InHandStep(s, a, me.ch);
      forall r: Reply
        ensures FirstFrameSays(s, me, r) ==> FirstFrameSays(t, t.callers[k], r)
        ensures RightReply(s, me, r) ==> RightReply(t, t.callers[k], r)
      {
        RightReplyStays(s, t, me, t.callers[k], r);
      }
    }
  }

  /** The error of a disconnect stays where it was put until its caller takes it, and then with the
      caller. */
  ghost predicate GotClosed(s: State, c: nat)
    requires c < |s.chans|
  {
    || s.chans[c].buf == Some(CLOSED)
    || (&& s.chans[c].owner.ByCaller? && s.chans[c].owner.k < |s.callers|
        && s.callers[s.chans[c].owner.k].reply == Some(CLOSED))
  }

  lemma GotClosedStays(s: State, a: Action, c: nat)
    requires Struct(s) && TokenInv(s) && Enabled(s, a) && c < |s.chans| && GotClosed(s, c)
    requires forall k :: 0 <= k < |s.callers| ==> PlaceOk(s, k)
    ensures c < |Apply(s, a).chans| && GotClosed(Apply(s, a), c)
  {
    var t := Apply(s, a);
    KeysStay(s, a, c);
    assert TokenOk(s, c);
    var o := s.chans[c].owner;
    if o.ByCaller? {
      assert PlaceOk(s, o.k);
      if Mover(a) != Some(o.k) {
        OthersLeaveCall(s, a, o.k);
        OthersOnChan(s, a, o.k);
      }
    } else {
      ConnectBufferStays(s, a, c);
    }
  }

  /** Nobody receives from the channel of a connect request. */
  lemma ConnectBufferStays(s: State, a: Action, c: nat)
    requires Struct(s) && TokenInv(s) && Enabled(s, a) && c < |s.chans|
    requires s.chans[c].owner.ByConnect? && s.chans[c].buf.Some?
    ensures c < |Apply(s, a).chans| && Apply(s, a).chans[c] == s.chans[c]
  {
    assert TokenOk(s, c);
    match a
    case Receive(k) => assert s.chans[s.callers[k].ch].owner == ByCaller(k);
    case SendReply =>
    case FailOne(id) => assert InTable(s, s.pending[id]);
    case _ =>
  }

  lemma CutStep(s: State, a: Action, c: nat)
    requires Struct(s) && TokenInv(s) && CutInv(s) && Enabled(s, a)
    requires forall k :: 0 <= k < |s.callers| ==> PlaceOk(s, k)
    requires c in Apply(s, a).cut
    ensures CutOk(Apply(s, a), c)
  {
    HandledGrows(s, a);
    var t := Apply(s, a);
    if a.ReadError? {
      var id :| id in s.pending && s.pending[id] == c;
      assert InTable(s, c);
    } else {
      assert CutOk(s, c);
      KeysStay(s, a, c);
      if s.reader.Exited? || Failed(s, c) {
        GotClosedStays(s, a, c);
      }
      if s.reader.Disconnecting? {
        DisconnectStep(s, a, c);
      } else {
        assert s.reader.Exited?;
      }
    }
  }

  lemma DisconnectStep(s: State, a: Action, c: nat)
    requires Struct(s) && TokenInv(s) && CutInv(s) && Enabled(s, a) && s.reader.Disconnecting? && c in s.cut
    ensures var t := Apply(s, a);
            && c < |t.chans| && t.cut == s.cut
            && (t.reader.Exited? <==> a.FinishDisconnect?)
            && (a.FinishDisconnect? ==> Failed(s, c))
            && (t.reader.Disconnecting? ==> InTable(t, c))
            && (t.reader.Disconnecting? && Failed(t, c) && !Failed(s, c) ==> t.chans[c].buf == Some(CLOSED))
  {
    assert CutOk(s, c);
    KeysStay(s, a, c);
    ChanStep(s, a, c);
    DisconnectingStep(s, a);
    HandledGrows(s, a);
  }

  lemma CutInvStep(s: State, a: Action)
    requires Struct(s) && TokenInv(s) && CutInv(s) && Enabled(s, a)
    requires forall k :: 0 <= k < |s.callers| ==> PlaceOk(s, k)
    ensures CutInv(Apply(s, a))
  {
    var t := Apply(s, a);
    forall c | c in t.cut
      ensures CutOk(t, c)
    {
      CutStep(s, a, c);
    }
    CutFrame(s, a);
  }

  lemma CutFrame(s: State, a: Action)
    requires CutInv(s) && Enabled(s, a)
    ensures var t := Apply(s, a);
            && (t.cut != {} ==> t.reader.Disconnecting? || t.reader.Exited?)
            && (t.reader.Disconnecting? ==> t.cut == t.pending.Values)
  {
  }

  // ---------- every run ----------

  ghost predicate ReplyInv(s: State) {
    && Struct(s) && TokenInv(s) && CutInv(s)
    && (forall k :: 0 <= k < |s.callers| ==> PlaceOk(s, k))
    && (forall k :: 0 <= k < |s.callers| ==> ContentOk(s, k))
  }

  lemma CallersStepOk(s: State, a: Action, k: nat)
    requires ReplyInv(s) && Enabled(s, a) && k < |Apply(s, a).callers|
    ensures PlaceOk(Apply(s, a), k) && ContentOk(Apply(s, a), k)
  {
    if k < |s.callers| {
      if Mover(a) == Some(k) {
        PlaceStepOwn(s, a, k);
        ContentStepOwn(s, a, k);
      } else {
        PlaceStepOther(s, a, k);
        ContentStepOther(s, a, k);
      }
    } else {
      assert a.Spawn?;
    }
  }

  lemma ReplyInvStep(s: State, a: Action)
    requires ReplyInv(s) && Enabled(s, a)
    ensures ReplyInv(Apply(s, a))
  {
    StructStep(s, a);
    TokenStep(s, a);
    CutInvStep(s, a);
    forall k | 0 <= k < |Apply(s, a).callers|
      ensures PlaceOk(Apply(s, a), k) && ContentOk(Apply(s, a), k)
    {
      CallersStepOk(s, a, k);
    }
  }

  lemma {:induction false} EveryRunKeepsReplyInv(actions: seq<Action>)
    requires Exec(actions).Some?
    ensures ReplyInv(Exec(actions).value)
  {
    if actions != [] {
      EveryRunKeepsReplyInv(actions[..|actions| - 1]);
      ReplyInvStep(Exec(actions[..|actions| - 1]).value, actions[|actions| - 1]);
    }
  }

  lemma ReachableReplyInv(s: State)
    requires Reachable(s)
    ensures ReplyInv(s)
  {
    var actions :| Exec(actions) == Some(s);
    EveryRunKeepsReplyInv(actions);
  }

  // ---------- the promises ----------

  /** The reader never blocks on a reply channel, not even while it holds the lock. */
  lemma ReaderNeverBlocks(s: State)
    requires Reachable(s)
    ensures s.reader.Sending? ==> Enabled(s, SendReply)
    ensures s.reader.Disconnecting? ==> forall id | id in s.reader.todo :: Enabled(s, FailOne(id))
  {
    ReachableReplyInv(s);
    if s.reader.Sending? {
      assert TokenOk(s, s.reader.ch);
    }
    if s.reader.Disconnecting? {
      forall id | id in s.reader.todo
        ensures Enabled(s, FailOne(id))
      {
        assert InTable(s, s.pending[id]) && TokenOk(s, s.pending[id]);
      }
    }
  }

  /** Every channel gets at most one send. */
  lemma AtMostOneSend(s: State, c: nat)
    requires Reachable(s) && c < |s.chans|
    ensures s.chans[c].sends <= 1
  {
    ReachableReplyInv(s);
    assert TokenOk(s, c);
  }

  /** The reply of a call that has registered and not returned is in exactly one place: still to come
      (its id is in the table and nothing was sent), in the reader's hand, or in the channel. */
  lemma ExactlyOnePlace(s: State, k: nat)
    requires Reachable(s) && k < |s.callers| && InCall(s.callers[k])
    ensures var c := s.callers[k].ch;
            && c < |s.chans|
            && var toCome := InTable(s, c) && !Failed(s, c);
               var inHand := InHand(s, c);
               var inChannel := s.chans[c].buf.Some?;
               (toCome || inHand || inChannel) && !(toCome && inHand) && !(toCome && inChannel)
                 && !(inHand && inChannel)
  {
    ReachableReplyInv(s);
    assert PlaceOk(s, k) && TokenOk(s, s.callers[k].ch);
  }

  lemma DifferentKeys(s: State, c: nat, d: nat)
    requires Struct(s) && c < d < |s.chans|
    ensures KeyOf(s, s.chans[c].owner) != KeyOf(s, s.chans[d].owner)
  {
    match (s.chans[c].owner, s.chans[d].owner)
    case (ByCaller(j), ByCaller(k)) => assert j != k && s.callers[j].n != s.callers[k].n;
    case _ =>
  }

  /** Request ids never repeat over the life of a client. */
  lemma IdsNeverRepeat(s: State, c: nat, d: nat)
    requires Reachable(s) && c < d < |s.chans|
    ensures KeyOf(s, s.chans[c].owner) != KeyOf(s, s.chans[d].owner)
  {
    ReachableReplyInv(s);
    DifferentKeys(s, c, d);
  }

  /** A call returns what the first frame with its own id says, among the frames handled after it
      registered; otherwise the connection broke while it was pending, and it returns that. */
  lemma NoCrossTalk(s: State, k: nat)
    requires Reachable(s) && k < |s.callers| && s.callers[k].reply.Some?
    ensures var me := s.callers[k];
            || FirstFrameSays(s, me, me.reply.value)
            || (me.reply.value == CLOSED && me.ch in s.cut)
  {
    ReachableReplyInv(s);
    assert PlaceOk(s, k) && ContentOk(s, k);
    assert RightReply(s, s.callers[k], s.callers[k].reply.value);
  }

  /** The caller looks at the error text only, so a reply counts as a success exactly when its frame
      is ok or carries an empty error message. */
  lemma CountsAsSuccess(f: Frame)
    requires f.Response?
    ensures ReplyOf(f).err == "" <==> f.ok || f.error == Some("")
  {
    match f.error
    case None => assert "request failed"[0] == 'r';
    case Some(m) =>
  }

  /** If no error frame has an empty message, a call that succeeds returns the payload of the first
      frame with its own id handled after it registered, and that frame is ok. */
  lemma SuccessIsOwnOkFrame(s: State, k: nat) returns (i: nat)
    requires Reachable(s) && k < |s.callers| && s.callers[k].reply.Some? && s.callers[k].reply.value.err == ""
    requires forall f | f in s.handled && f.Response? :: f.ok || f.error != Some("")
    ensures var me := s.callers[k];
            && FirstWithId(s.handled, me.regAt, Req(me.n), i)
            && s.handled[i].ok && me.reply.value.payload == s.handled[i].payload
  {
    NoCrossTalk(s, k);
    var me := s.callers[k];
    assert CLOSED.err[0] == 'c';
    i :| FirstWithId(s.handled, me.regAt, Req(me.n), i) && me.reply.value == ReplyOf(s.handled[i]);
    CountsAsSuccess(s.handled[i]);
  }

  /** Once a disconnect has been handled, everyone who was pending then has its error, in the channel
      or as what the call returned. */
  lemma DisconnectReachesEveryone(s: State, c: nat)
    requires Reachable(s) && s.reader.Exited? && c in s.cut
    ensures c < |s.chans| && GotClosed(s, c)
    ensures s.chans[c].owner.ByCaller? ==>
              var k := s.chans[c].owner.k;
              k < |s.callers| && (s.callers[k].reply.Some? ==> s.callers[k].reply.value == CLOSED)
  {
    ReachableReplyInv(s);
    assert CutOk(s, c);
    if s.chans[c].owner.ByCaller? {
      assert PlaceOk(s, s.chans[c].owner.k);
    }
  }

  /** After a call has returned its id is out of the table, except while a disconnect that failed it
      still holds the lock; so whoever can look at the table does not find it. */
  lemma NoEntryOutlivesItsCall(s: State, k: nat)
    requires Reachable(s) && k < |s.callers| && HasChan(s.callers[k]) && !InCall(s.callers[k])
    ensures LockFree(s) ==> Req(s.callers[k].n) !in s.pending
    ensures Req(s.callers[k].n) in s.pending ==> s.reader.Disconnecting? && s.callers[k].reply == Some(CLOSED)
  {
    ReachableReplyInv(s);
    var me := s.callers[k];
    assert PlaceOk(s, k) && TokenOk(s, me.ch);
    if Req(me.n) in s.pending {
      var c := s.pending[Req(me.n)];
      assert s.chans[c].owner == ByCaller(k);
      assert InTable(s, me.ch);
      assert c in s.cut;
      assert CutOk(s, c);
    }
  }

  // ---------- after the disconnect ----------

  /** The call has received nothing, and nothing is in its channel. */
  predicate Unanswered(s: State, k: nat) {
    && k < |s.callers| && s.callers[k].reply.None?
    && (HasChan(s.callers[k]) ==> HasRoom(s, s.callers[k].ch))
  }

  lemma UnansweredStep(s: State, a: Action, k: nat)
    requires Struct(s) && Enabled(s, a) && s.reader.Exited? && k < |Apply(s, a).callers|
    requires k < |s.callers| ==> Unanswered(s, k)
    ensures Apply(s, a).reader.Exited? && Unanswered(Apply(s, a), k)
  {
    if k >= |s.callers| {
      assert a.Spawn?;
    } else if Mover(a) == Some(k) {
      UnansweredOwn(s, a, k);
    } else {
      OthersLeaveCall(s, a, k);
      if HasChan(s.callers[k]) {
        ChanStep(s, a, s.callers[k].ch);
      }
    }
  }

  lemma UnansweredOwn(s: State, a: Action, k: nat)
    requires Enabled(s, a) && s.reader.Exited? && Unanswered(s, k) && Mover(a) == Some(k)
    ensures Apply(s, a).reader.Exited? && Unanswered(Apply(s, a), k)
  {
    if HasChan(s.callers[k]) {
      ChanStep(s, a, s.callers[k].ch);
    }
  }

  /** The client never connects again. Once a disconnect has been handled, a call that has no reply by
      then, in particular every call that registers later, never gets one: it can only give up. */
  lemma {:induction false} NobodyIsAnsweredAfterwards(s: State, actions: seq<Action>, k: nat)
    requires Reachable(s) && s.reader.Exited? && ExecFrom(s, actions).Some?
    requires k < |ExecFrom(s, actions).value.callers| && (k < |s.callers| ==> Unanswered(s, k))
    ensures var t := ExecFrom(s, actions).value;
            && Reachable(t) && t.reader.Exited? && Unanswered(t, k)
            && (t.callers[k].pc.Done? ==> GaveUp(t.callers[k]))
    decreases |actions|
  {
    if actions == [] {
      ReachableReplyInv(s);
      assert PlaceOk(s, k);
    } else {
      var init, a := actions[..|actions| - 1], actions[|actions| - 1];
      var u := ExecFrom(s, init).value;
      RunAfterExit(s, init);
      if k < |u.callers| {
        NobodyIsAnsweredAfterwards(s, init, k);
      }
      ReachableReplyInv(u);
      UnansweredStep(u, a, k);
      ReachNext(u, a);
      ReachableReplyInv(Apply(u, a));
      assert PlaceOk(Apply(u, a), k);
    }
  }

  lemma {:induction false} RunAfterExit(s: State, actions: seq<Action>)
    requires Reachable(s) && s.reader.Exited? && ExecFrom(s, actions).Some?
    ensures Reachable(ExecFrom(s, actions).value) && ExecFrom(s, actions).value.reader.Exited?
    ensures |s.callers| <= |ExecFrom(s, actions).value.callers|
  {
    if actions != [] {
      var init, a := actions[..|actions| - 1], actions[|actions| - 1];
      RunAfterExit(s, init);
      ReachNext(ExecFrom(s, init).value, a);
    }
  }

  lemma StartIsReachable()
    ensures Reachable(INIT)
  {
    assert Exec([]) == Some(INIT);
  }

  lemma ReachNext(s: State, a: Action)
    requires Reachable(s) && Enabled(s, a)
    ensures Reachable(Apply(s, a))
  {
    var actions :| Exec(actions) == Some(s);
    assert (actions + [a])[..|actions|] == actions;
    assert Exec(actions + [a]) == Some(Apply(s, a));
  }

  lemma NewCallerNumbered(s: State)
    ensures Apply(s, Spawn) == s.(callers := s.callers + [NEW_CALLER])
    ensures var u := Apply(s, Spawn);
            && Enabled(u, TakeNumber(|s.callers|))
            && Apply(u, TakeNumber(|s.callers|)) ==
                 s.(seqNo := s.seqNo + 1, callers := s.callers + [NEW_CALLER.(pc := Numbered, n := s.seqNo + 1)])
  {
    var c := NEW_CALLER.(pc := Numbered, n := s.seqNo + 1);
    assert (s.callers + [NEW_CALLER])[|s.callers| := c] == s.callers + [c];
  }

  /** A new caller takes its number. */
  lemma Begin(s: State) returns (t: State)
    requires Reachable(s)
    ensures Reachable(t)
    ensures t == s.(seqNo := s.seqNo + 1, callers := s.callers + [NEW_CALLER.(pc := Numbered, n := s.seqNo + 1)])
  {
    NewCallerNumbered(s);
    ReachNext(s, Spawn);
    t := Apply(Apply(s, Spawn), TakeNumber(|s.callers|));
    ReachNext(Apply(s, Spawn), TakeNumber(|s.callers|));
  }

  /** It registers, writes its request and waits. */
  lemma Dispatch(s: State, k: nat) returns (t: State)
    requires Reachable(s) && LockFree(s) && At(s, k, Numbered)
    ensures Reachable(t) && t.reader == s.reader && t.runs == s.runs && t.events == s.events
    ensures t.callers == s.callers[k := s.callers[k].(pc := Waiting, ch := |s.chans|, regAt := |s.handled|)]
    ensures t.pending == s.pending[Req(s.callers[k].n) := |s.chans|]
    ensures t.chans == s.chans + [Chan(ByCaller(k), None, 0)]
  {
    ReachNext(s, Register(k));
    t := Apply(s, Register(k));
    ReachNext(t, WriteOk(k));
    t := Apply(t, WriteOk(k));
  }

  lemma HandOverSteps(s: State, k: nat, f: Frame)
    requires s.reader == Idle && At(s, k, Waiting) && f.Response? && f.id in s.pending
    requires s.pending[f.id] == s.callers[k].ch && HasRoom(s, s.callers[k].ch)
    ensures var u := Apply(s, Arrive(f));
            && Enabled(u, LookupResponse)
            && var v := Apply(u, LookupResponse);
               Enabled(v, SendReply) && Apply(v, SendReply) == HandedOver(s, k, f)
  {
  }

  function HandedOver(s: State, k: nat, f: Frame): State
    requires At(s, k, Waiting) && s.callers[k].ch < |s.chans| && f.Response?
  {
    Send(s, s.callers[k].ch, ReplyOf(f)).(
      pending := s.pending - {f.id}, handled := s.handled + [f], ready := s.ready || (f.ok && f.payload.hello))
  }

  /** It returns from its call. */
  lemma Replied(s: State, k: nat, f: Frame) returns (t: State)
    requires Reachable(s) && s.reader == Idle && At(s, k, Waiting) && f.Response? && f.id == Req(s.callers[k].n)
    requires f.id in s.pending && s.pending[f.id] == s.callers[k].ch && HasRoom(s, s.callers[k].ch)
    ensures Reachable(t) && t.reader == Idle && t.runs == s.runs && t.events == s.events
    ensures t.pending == s.pending - {f.id}
    ensures var r := ReplyOf(f);
            t.callers == s.callers[k := s.callers[k].(
              pc := AfterReply(r), reply := Some(r),
              runId := if AfterReply(r) == RunKnown then r.payload.runId else "")]
  {
    HandOverSteps(s, k, f);
    ReachNext(s, Arrive(f));
    t := Apply(s, Arrive(f));
    ReachNext(t, LookupResponse);
    t := Apply(t, LookupResponse);
    ReachNext(t, SendReply);
    t := HandedOver(s, k, f);
    ReachNext(t, Receive(k));
    t := Apply(t, Receive(k));
  }

  /** Without that assumption the promise fails: an error frame with an empty message passes for a
      success, and the caller complains about a missing run id instead. */
  lemma EmptyErrorPassesForSuccess() returns (s: State)
    ensures Reachable(s) && |s.callers| == 1
    ensures s.callers[0].reply.Some? && s.callers[0].reply.value.err == "" && s.callers[0].pc == Done(NoRunId)
  {
    StartIsReachable();
    s := Begin(INIT);
    s := Dispatch(s, 0);
    s := Replied(s, 0, Response(Req(1), false, NO_PAYLOAD, Some("")));
  }
}
