/** A session of several messages on one connection: commands answered one by one, end-of-message
    handlers that may still be pending when the MTA gives a message up, and what of an abandoned
    message is written later. */
module ReplySessions {
  import opened Options
  import opened ReplyPackets
  import opened ReplyCodes
  import opened StatusCode
  import opened ReplyBuffer

  /** A packet and the message it was made for. */
  datatype Packet = Packet(bytes: Bytes, owner: nat)

  /** A packet written while a message was going on. */
  datatype Delivery = Delivery(packet: Packet, during: nat)

  datatype Config = Config(option: Option<set<Action>>, size: nat)

  datatype Session = Session(
    state: State,
    reply: Reply,
    reason: Option<Bytes>,
    current: nat,
    held: seq<Packet>,
    sent: seq<Delivery>
  )

  datatype Event =
    | Command(status: Status)   // a command before end of message, and its reply
    | EndOfMessage              // the end-of-message handler begins
    | Perform(call: Call)
    | Progress
    | Finish(status: Status)    // its reply
    | Aborted                   // the MTA gives the message up

  function Joined(ps: seq<Packet>): Bytes {
    if ps == [] then [] else Joined(ps[..|ps| - 1]) + ps[|ps| - 1].bytes
  }

  function Wire(ds: seq<Delivery>): Bytes {
    if ds == [] then [] else Wire(ds[..|ds| - 1]) + ds[|ds| - 1].packet.bytes
  }

  function Deliver(ps: seq<Packet>, during: nat): seq<Delivery> {
    if ps == [] then [] else Deliver(ps[..|ps| - 1], during) + [Delivery(ps[|ps| - 1], during)]
  }

  // ---------- the steps ----------

  /** Everything that is held goes out. */
  function FlushAll(s: Session): Session {
    s.(held := [], sent := s.sent + Deliver(s.held, s.current))
  }

  /** `write_packet`: the packet goes out, and then everything that is held. */
  function Put(s: Session, bytes: Bytes): Session {
    FlushAll(s.(sent := s.sent + [Delivery(Packet(bytes, s.current), s.current)]))
  }

  /** `write_packet_on_end_of_message` */
  function Add(c: Config, s: Session, bytes: Bytes): Session {
    var t := s.(held := s.held + [Packet(bytes, s.current)]);
    if |Joined(t.held)| > c.size then FlushAll(t) else t
  }

  function AddAll(c: Config, s: Session, contents: seq<Bytes>): Session
    decreases contents
  {
    if contents == [] then s else AddAll(c, Add(c, s, Pack(contents[0])), contents[1..])
  }

  function Answer(s: Session, status: Status): Option<Bytes> {
    StatusPacket(status, TextOf(s.reply))
  }

  ghost function Do(c: Config, s: Session, call: Call): Session {
    match call
    case Modify(m) => if RefusalOf(s.state, c.option, m).None? then AddAll(c, s, ContentsOf(m)) else s
    case Quarantine(reason) => s.(reason := reason)
    case SetReply(code, extendedCode, message) =>
      if Acceptable(code, extendedCode) then s.(reply := Reply(code, extendedCode, message)) else s
  }

  /** The end-of-message reply, behind everything that is held. */
  function Finished(s: Session, status: Status): Session {
    var t := FlushAll(s.(state := OtherState));
    var u := match Answer(s, status)
      case None => t
      case Some(packet) => Put(t, WithQuarantine(packet, s.reason));
    u.(current := s.current + 1)
  }

  /** `cb_decoder_abort` and what it resets: neither the buffer nor its flag. */
  function GivenUp(s: Session): Session {
    s.(state := OtherState, current := s.current + 1)
  }

  ghost function Step(c: Config, s: Session, e: Event): Session {
    match e
    case Command(status) =>
      var t := s.(state := OtherState);
      if Answer(s, status).Some? then Put(t, Answer(s, status).value) else t
    case EndOfMessage => s.(state := State.EndOfMessage, reason := None)
    case Perform(call) => Do(c, s, call)
    case Progress => Put(s, PROGRESS_PACKET)
    case Finish(status) => Finished(s, status)
    case Aborted => GivenUp(s)
  }

  ghost function After(c: Config, s: Session, events: seq<Event>): Session {
    if events == [] then s else Step(c, After(c, s, events[..|events| - 1]), events[|events| - 1])
  }

  // ---------- packets in the wrong message ----------

  /** Something is held that was made for another message. */
  ghost predicate Stale(s: Session) {
    exists i :: 0 <= i < |s.held| && s.held[i].owner != s.current
  }

  /** Something was written during another message than its own. */
  ghost predicate Astray(s: Session) {
    exists i :: 0 <= i < |s.sent| && s.sent[i].packet.owner != s.sent[i].during
  }

  ghost predicate OwnersOk(s: Session) {
    forall i :: 0 <= i < |s.held| ==> s.held[i].owner <= s.current
  }

  lemma {:induction false} DeliverAt(ps: seq<Packet>, during: nat)
    ensures |Deliver(ps, during)| == |ps|
    ensures forall i :: 0 <= i < |ps| ==> Deliver(ps, during)[i] == Delivery(ps[i], during)
  {
    if ps != [] {
      DeliverAt(ps[..|ps| - 1], during);
    }
  }

  /** A flush sends astray exactly what is stale. */
  lemma FlushEffect(s: Session)
    ensures Astray(FlushAll(s)) <==> Astray(s) || Stale(s)
  {
    DeliverAt(s.held, s.current);
    var sent := FlushAll(s).sent;
    assert forall i :: 0 <= i < |s.sent| ==> sent[i] == s.sent[i];
    forall i | 0 <= i < |s.held| ensures sent[|s.sent| + i] == Delivery(s.held[i], s.current) {}
    if Astray(FlushAll(s)) {
      var i :| 0 <= i < |sent| && sent[i].packet.owner != sent[i].during;
      if i >= |s.sent| {
        assert sent[i] == Delivery(s.held[i - |s.sent|], s.current);
      }
    }
  }

  lemma PutEffect(s: Session, bytes: Bytes)
    ensures Astray(Put(s, bytes)) <==> Astray(s) || Stale(s)
    ensures !Stale(Put(s, bytes)) && |Put(s, bytes).sent| > |s.sent|
  {
    var own := Delivery(Packet(bytes, s.current), s.current);
    var t := s.(sent := s.sent + [own]);
    FlushEffect(t);
    DeliverAt(t.held, t.current);
    assert forall i :: 0 <= i < |s.sent| ==> t.sent[i] == s.sent[i];
    assert t.sent[|s.sent|] == own;
  }

  lemma AddEffect(c: Config, s: Session, bytes: Bytes)
    ensures
      var t := Add(c, s, bytes);
      && t.current == s.current && |t.sent| >= |s.sent| && (OwnersOk(s) ==> OwnersOk(t))
      && (Astray(t) ==> Astray(s) || Stale(s))
      && (Stale(t) ==> Stale(s))
      && (Astray(s) ==> Astray(t))
      && (Stale(s) ==> if t.sent == s.sent then Stale(t) else Astray(t))
  {
    var own := Packet(bytes, s.current);
    var t := s.(held := s.held + [own]);
    assert t.held[|s.held|] == own;
    assert forall i :: 0 <= i < |s.held| ==> t.held[i] == s.held[i];
    assert Stale(t) <==> Stale(s);
    FlushEffect(t);
    DeliverAt(t.held, t.current);
  }

  /** What a step does to both, but for an abort. */
  ghost predicate Effect(s: Session, t: Session) {
    && |t.sent| >= |s.sent| && (OwnersOk(s) ==> OwnersOk(t))
    && (Astray(t) ==> Astray(s) || Stale(s))
    && (Stale(t) ==> Stale(s))
    && (Astray(s) ==> Astray(t))
    && (Stale(s) ==> if t.sent == s.sent then Stale(t) else Astray(t))
  }

  lemma SentGrows(c: Config, s: Session, bytes: Bytes)
    ensures s.sent <= Add(c, s, bytes).sent
  {}

  lemma {:induction false} AllSentGrows(c: Config, s: Session, contents: seq<Bytes>)
    ensures s.sent <= AddAll(c, s, contents).sent
    decreases contents
  {
    hide Add;
    if contents != [] {
      SentGrows(c, s, Pack(contents[0]));
      AllSentGrows(c, Add(c, s, Pack(contents[0])), contents[1..]);
    }
  }

  lemma {:induction false} AddAllEffect(c: Config, s: Session, contents: seq<Bytes>)
    ensures Effect(s, AddAll(c, s, contents)) && AddAll(c, s, contents).current == s.current
    decreases contents
  {
    hide Add, Astray, Stale, OwnersOk;
    if contents != [] {
      var t := Add(c, s, Pack(contents[0]));
      AddEffect(c, s, Pack(contents[0]));
      AddAllEffect(c, t, contents[1..]);
      SentGrows(c, s, Pack(contents[0]));
      AllSentGrows(c, t, contents[1..]);
    }
  }

  lemma FinishedEffect(s: Session, status: Status)
    ensures Effect(s, Finished(s, status))
  {
    var t := FlushAll(s.(state := OtherState));
    FlushEffect(s.(state := OtherState));
    DeliverAt(s.held, s.current);
    match Answer(s, status)
    case None => assert Astray(t.(current := s.current + 1)) == Astray(t);
    case Some(packet) =>
      var u := Put(t, WithQuarantine(packet, s.reason));
      PutEffect(t, WithQuarantine(packet, s.reason));
      assert Astray(u.(current := s.current + 1)) == Astray(u);
  }

  lemma PutHolds(s: Session, bytes: Bytes)
    ensures Put(s, bytes).held == []
  {}

  lemma StepEffect(c: Config, s: Session, e: Event)
    requires !e.Aborted?
    ensures Effect(s, Step(c, s, e))
  {
    hide Finished, Put;
    match e
    case Command(status) =>
      var t := s.(state := OtherState);
      if Answer(s, status).Some? {
        PutEffect(t, Answer(s, status).value);
        PutHolds(t, Answer(s, status).value);
      }
    case EndOfMessage =>
    case Perform(call) =>
      if call.Modify? {
        AddAllEffect(c, s, ContentsOf(call.m));
      }
    case Progress =>
      PutEffect(s, PROGRESS_PACKET);
      PutHolds(s, PROGRESS_PACKET);
    case Finish(status) => FinishedEffect(s, status);
  }

  /** Giving a message up makes everything stale that is held. */
  lemma AbortEffect(s: Session)
    requires OwnersOk(s)
    ensures OwnersOk(GivenUp(s)) && (Stale(GivenUp(s)) <==> s.held != [])
    ensures Astray(GivenUp(s)) <==> Astray(s)
  {
    if s.held != [] {
      assert GivenUp(s).held[0].owner != GivenUp(s).current;
    }
  }

  /** The abort at `k` comes while packets are held, and at `j` something is written. */
  ghost predicate Leaks(c: Config, s: Session, events: seq<Event>, k: nat, j: nat) {
    && k < j < |events| && events[k].Aborted? && After(c, s, events[..k]).held != []
    && After(c, s, events[..j + 1]).sent != After(c, s, events[..j]).sent
  }

  ghost predicate AbortHolding(c: Config, s: Session, events: seq<Event>, k: nat) {
    k < |events| && events[k].Aborted? && After(c, s, events[..k]).held != []
  }

  lemma StepOwners(c: Config, s: Session, e: Event)
    requires OwnersOk(s)
    ensures OwnersOk(Step(c, s, e))
  {
    hide OwnersOk, Astray, Stale;
    if e.Aborted? {
      AbortEffect(s);
    } else {
      StepEffect(c, s, e);
    }
  }

  lemma {:induction false} OwnersAfter(c: Config, s: Session, events: seq<Event>)
    requires OwnersOk(s)
    ensures OwnersOk(After(c, s, events))
  {
    hide OwnersOk, Step, Astray, Stale;
    if events != [] {
      var before, e := After(c, s, events[..|events| - 1]), events[|events| - 1];
      OwnersAfter(c, s, events[..|events| - 1]);
      StepOwners(c, before, e);
    }
  }

  lemma AfterNext(c: Config, s: Session, events: seq<Event>, n: nat)
    requires n < |events|
    ensures After(c, s, events[..n + 1]) == Step(c, After(c, s, events[..n]), events[n])
  {
    assert events[..n + 1][..n] == events[..n];
  }

  lemma AbortStep(c: Config, s: Session)
    requires OwnersOk(s)
    ensures var t := Step(c, s, Aborted);
      t == GivenUp(s) && (Stale(t) <==> s.held != []) && (Astray(t) <==> Astray(s)) && t.sent == s.sent
  {
    AbortEffect(s);
  }

  lemma SameSent(s: Session, t: Session)
    requires Astray(t) && !Astray(s)
    ensures t.sent != s.sent
  {}

  /** Only an abort that comes while packets are held leads astray. */
  lemma {:induction false} AstrayFromAbort(c: Config, s: Session, events: seq<Event>, n: nat)
    requires n <= |events| && OwnersOk(s) && s.held == [] && !Astray(s)
    ensures Stale(After(c, s, events[..n])) ==> exists k: nat :: k < n && AbortHolding(c, s, events, k)
    ensures Astray(After(c, s, events[..n])) ==> exists k: nat, j: nat :: j < n && Leaks(c, s, events, k, j)
  {
    hide OwnersOk, Step, Astray;
    if n == 0 {
      assert events[..0] == [];
    } else {
      var before := After(c, s, events[..n - 1]);
      AstrayFromAbort(c, s, events, n - 1);
      AfterNext(c, s, events, n - 1);
      OwnersAfter(c, s, events[..n - 1]);
      hide Stale;
      var t := After(c, s, events[..n]);
      if events[n - 1].Aborted? {
        AbortStep(c, before);
        assert Stale(t) ==> AbortHolding(c, s, events, n - 1);
      } else {
        StepEffect(c, before, events[n - 1]);
        if Astray(t) && !Astray(before) {
          SameSent(before, t);
          var k: nat :| k < n - 1 && AbortHolding(c, s, events, k);
          assert Leaks(c, s, events, k, n - 1);
        }
      }
    }
  }

  lemma StaleHolds(s: Session)
    ensures Stale(s) ==> s.held != []
  {}

  /** What is stale stays so until the next write, which sends it astray. */
  lemma {:induction false} StaysStale(c: Config, s: Session, events: seq<Event>, k: nat, n: nat)
    requires OwnersOk(s) && AbortHolding(c, s, events, k) && k < n <= |events|
    ensures Stale(After(c, s, events[..n])) || Astray(After(c, s, events[..n]))
    ensures
      (exists j: nat :: k < j < n && Leaks(c, s, events, k, j)) ==> Astray(After(c, s, events[..n]))
  {
    hide OwnersOk, Step, Astray, Stale;
    var before := After(c, s, events[..n - 1]);
    AfterNext(c, s, events, n - 1);
    OwnersAfter(c, s, events[..n - 1]);
    if n == k + 1 {
      AbortStep(c, before);
    } else {
      StaysStale(c, s, events, k, n - 1);
      if events[n - 1].Aborted? {
        AbortStep(c, before);
        StaleHolds(before);
      } else {
        StepEffect(c, before, events[n - 1]);
      }
    }
  }

  /** Over any session that begins with nothing held: some packet is written into a message it was
      not made for if and only if an abort comes while packets are held and anything is written
      after it. */
  lemma AstrayIff(c: Config, s: Session, events: seq<Event>)
    requires s.held == [] && s.sent == []
    ensures Astray(After(c, s, events)) <==> exists k: nat, j: nat :: Leaks(c, s, events, k, j)
  {
    hide Step;
    assert events[..|events|] == events;
    AstrayFromAbort(c, s, events, |events|);
    forall k: nat, j: nat | Leaks(c, s, events, k, j) ensures Astray(After(c, s, events)) {
      assert AbortHolding(c, s, events, k);
      StaysStale(c, s, events, k, |events|);
    }
  }

  lemma OneContent(m: Modification) returns (content: Bytes)
    requires !m.ReplaceBody? && PacketOf(m) != []
    ensures ContentsOf(m) == [content] && Pack(content) == PacketOf(m)
  {
    content := PacketOf(m)[4..];
    PackOne(content);
  }

  lemma AddAllOne(c: Config, s: Session, content: Bytes)
    ensures AddAll(c, s, [content]) == Add(c, s, Pack(content))
  {
    hide Add, Pack;
    assert [content][1..] == [];
  }

  lemma AddFits(c: Config, s: Session, bytes: Bytes)
    requires s.held == [] && |bytes| <= c.size
    ensures Add(c, s, bytes) == s.(held := [Packet(bytes, s.current)])
  {
    assert [Packet(bytes, s.current)][..0] == [];
    assert Joined([Packet(bytes, s.current)]) == [] + bytes;
  }

  lemma StaleState(s: Session)
    ensures Stale(s.(state := OtherState)) == Stale(s)
  {}

  lemma AfterFour(c: Config, s: Session, e0: Event, e1: Event, e2: Event, e3: Event)
    ensures After(c, s, [e0, e1, e2, e3]) == Step(c, Step(c, Step(c, Step(c, s, e0), e1), e2), e3)
  {
    hide Step;
    var events := [e0, e1, e2, e3];
    AfterNext(c, s, events, 0);
    AfterNext(c, s, events, 1);
    AfterNext(c, s, events, 2);
    assert events[..3] == [e0, e1, e2] && events[..0] == [];
  }

  lemma OwnOnly(s: Session, bytes: Bytes)
    requires s.held == [Packet(bytes, s.current)]
    ensures OwnersOk(s) && s.held != []
  {}

  /** One accepted call that fits the buffer, an abort, and the reply to the next command. */
  lemma AbandonedCallLeaks(c: Config, s: Session, m: Modification, status: Status)
    requires s.held == [] && s.sent == [] && Answer(s, status).Some?
    requires RefusalOf(State.EndOfMessage, c.option, m).None? && !m.ReplaceBody? && 0 < |PacketOf(m)| <= c.size
    ensures Astray(After(c, s, [Event.EndOfMessage, Perform(Call.Modify(m)), Aborted, Command(status)]))
  {
    hide AddAll, Add, ContentsOf, PacketOf, RefusalOf, Pack, Astray, Stale, Put, StatusPacket, TextOf, After, OwnersOk;
    AfterFour(c, s, Event.EndOfMessage, Perform(Call.Modify(m)), Aborted, Command(status));
    var s1 := Step(c, s, Event.EndOfMessage);
    var s2 := s1.(held := [Packet(PacketOf(m), s1.current)]);
    var content := OneContent(m);
    AddAllOne(c, s1, content);
    AddFits(c, s1, PacketOf(m));
    assert Step(c, s1, Perform(Call.Modify(m))) == s2;
    OwnOnly(s2, PacketOf(m));
    AbortEffect(s2);
    StaleState(GivenUp(s2));
    PutEffect(GivenUp(s2), Answer(s, status).value);
  }

  // ---------- the context does what the session says ----------

  lemma Regroup(a: Bytes, b: Bytes, c: Bytes)
    ensures (a + b) + c == a + (b + c)
  {}

  lemma WireSnoc(ds: seq<Delivery>, d: Delivery)
    ensures Wire(ds + [d]) == Wire(ds) + d.packet.bytes
  {
    assert (ds + [d])[..|ds|] == ds;
  }

  lemma RegroupDeliveries(a: seq<Delivery>, b: seq<Delivery>, c: seq<Delivery>)
    ensures (a + b) + c == a + (b + c)
  {}

  lemma {:induction false} WireDelivers(ds: seq<Delivery>, ps: seq<Packet>, during: nat)
    ensures Wire(ds + Deliver(ps, during)) == Wire(ds) + Joined(ps)
  {
    hide Wire;
    if ps == [] {
      assert ds + [] == ds;
      assert Wire(ds) + [] == Wire(ds);
    } else {
      var most, last := ps[..|ps| - 1], Delivery(ps[|ps| - 1], during);
      WireDelivers(ds, most, during);
      RegroupDeliveries(ds, Deliver(most, during), [last]);
      WireSnoc(ds + Deliver(most, during), last);
      Regroup(Wire(ds), Joined(most), last.packet.bytes);
    }
  }

  lemma PutBytes(s: Session, bytes: Bytes)
    ensures Wire(Put(s, bytes).sent) == Wire(s.sent) + bytes + Joined(s.held) && Put(s, bytes).held == []
  {
    var own := Delivery(Packet(bytes, s.current), s.current);
    assert (s.sent + [own])[..|s.sent|] == s.sent;
    WireDelivers(s.sent + [own], s.held, s.current);
  }

  lemma FlushBytes(s: Session)
    ensures Wire(FlushAll(s).sent) == Wire(s.sent) + Joined(s.held) && FlushAll(s).held == []
  {
    WireDelivers(s.sent, s.held, s.current);
  }

  lemma AddBytes(c: Config, s: Session, bytes: Bytes)
    ensures
      var t := Add(c, s, bytes);
      && Joined(t.held) == HeldNext(c.size, Joined(s.held), bytes)
      && Wire(t.sent) + Joined(t.held) == Wire(s.sent) + Joined(s.held) + bytes
  {
    var t := s.(held := s.held + [Packet(bytes, s.current)]);
    assert t.held[..|s.held|] == s.held;
    assert Joined(t.held) == Joined(s.held) + bytes;
    FlushBytes(t);
    assert Wire(s.sent) + (Joined(s.held) + bytes) == Wire(s.sent) + Joined(s.held) + bytes;
    assert Wire(FlushAll(t).sent) + [] == Wire(FlushAll(t).sent);
  }

  lemma {:induction false} AddAllBytes(c: Config, s: Session, contents: seq<Bytes>)
    ensures
      var t := AddAll(c, s, contents);
      && t == s.(held := t.held, sent := t.sent)
      && Joined(t.held) == HeldAfter(c.size, Joined(s.held), contents)
      && Wire(t.sent) + Joined(t.held) == Wire(s.sent) + Joined(s.held) + PackAll(contents)
    decreases contents
  {
    if contents == [] {
      assert Wire(s.sent) + Joined(s.held) + [] == Wire(s.sent) + Joined(s.held);
    } else {
      hide HeldNext, Wire, Joined;
      var t := Add(c, s, Pack(contents[0]));
      AddBytes(c, s, Pack(contents[0]));
      hide Add, Pack;
      AddAllBytes(c, t, contents[1..]);
      Regroup(Wire(s.sent) + Joined(s.held), Pack(contents[0]), PackAll(contents[1..]));
    }
  }

  lemma Cancel(a: Bytes, b: Bytes, c: Bytes)
    requires a + c == b + c
    ensures a == b
  {
    assert |a| == |b|;
    assert (a + c)[..|a|] == a && (b + c)[..|a|] == b;
  }

  /** The fields of the context, and what it wrote behind `wire0`, are those of the session. */
  ghost predicate Shows(ctx: ClientContext, wire0: Bytes, s: Session)
    reads ctx, ctx.writer
  {
    && ctx.Valid() && ctx.writer != null && !ctx.writer.broken && ctx.writer.lifetime == None
    && ctx.state == s.state && ctx.reply == s.reply && ctx.quarantineReason == s.reason
    && ctx.bufferedPackets == Joined(s.held) && |ctx.bufferedPackets| <= ctx.packetBufferSize
    && ctx.writer.wire == wire0 + Wire(s.sent)
  }

  function ConfigOf(ctx: ClientContext): Config
    reads ctx`option, ctx`packetBufferSize
  {
    Config(ctx.option, ctx.packetBufferSize)
  }

  method PerformCall(ctx: ClientContext, call: Call, ghost wire0: Bytes, ghost s: Session)
    requires Shows(ctx, wire0, s)
    modifies ctx`buffering, ctx`bufferedPackets, ctx`quarantineReason, ctx`reply, ctx.writer
    ensures Shows(ctx, wire0, Do(ConfigOf(ctx), s, call))
  {
    hide HeldAfter, Wire, Joined, AddAll, PackAll, Acceptable;
    ghost var c := ConfigOf(ctx);
    ghost var added := CallBytes(ctx.state, ctx.option, call);
    var _ := ctx.Perform(call);
    NoCalls(s.state, c.option, s.reply, s.reason);
    assert [call][..0] == [];
    if call.Modify? {
      CallIsPacked(call.m);
      AddAllBytes(c, s, ContentsOf(call.m));
    }
    ghost var t := Do(c, s, call);
    assert Wire(t.sent) + Joined(t.held) == Wire(s.sent) + Joined(s.held) + added;
    Regroup(wire0, Wire(s.sent), Joined(s.held) + added);
    Regroup(Wire(s.sent), Joined(s.held), added);
    Regroup(wire0 + Wire(s.sent), Joined(s.held), added);
    Regroup(wire0, Wire(t.sent), Joined(t.held));
    Cancel(ctx.writer.wire, wire0 + Wire(t.sent), Joined(t.held));
  }

  lemma NothingJoined()
    ensures Joined([]) == []
  {}

  lemma FinishedBytes(s: Session, status: Status)
    ensures
      var t := Finished(s, status);
      && t == s.(state := OtherState, current := s.current + 1, held := [], sent := t.sent)
      && Wire(t.sent) == Wire(s.sent) + Joined(s.held) + FinalBytes(status, TextOf(s.reply), s.reason)
  {
    hide Wire, WithQuarantine, StatusPacket, TextOf;
    var t := FlushAll(s.(state := OtherState));
    FlushBytes(s.(state := OtherState));
    NothingJoined();
    match Answer(s, status)
    case None => assert Wire(t.sent) + [] == Wire(t.sent);
    case Some(packet) =>
      var bytes := WithQuarantine(packet, s.reason);
      PutBytes(t, bytes);
      assert Wire(t.sent) + bytes + [] == Wire(t.sent) + bytes;
  }

  method Finishing(ctx: ClientContext, status: Status, ghost wire0: Bytes, ghost s: Session)
    requires Shows(ctx, wire0, s)
    modifies ctx`state, ctx`buffering, ctx`bufferedPackets, ctx.writer
    ensures Shows(ctx, wire0, Finished(s, status))
  {
    hide Wire, Joined, FlushAll, Put, WithQuarantine, StatusPacket, TextOf;
    ghost var final := FinalBytes(status, TextOf(s.reply), s.reason);
    var _ := ctx.FinishMessage(status);
    ghost var r := s.(state := OtherState);
    FlushBytes(r);
    FinishedBytes(s, status);
    Regroup(wire0, Wire(s.sent), Joined(s.held));
    Regroup(wire0, Wire(s.sent) + Joined(s.held), final);
    NothingJoined();
    assert ctx.writer.wire + [] == ctx.writer.wire;
  }

  lemma PutKeeps(s: Session, bytes: Bytes)
    ensures Put(s, bytes) == s.(held := [], sent := Put(s, bytes).sent)
  {}

  method Occur(ctx: ClientContext, e: Event, ghost wire0: Bytes, ghost s: Session)
    requires Shows(ctx, wire0, s)
    modifies ctx`state, ctx`buffering, ctx`bufferedPackets, ctx`quarantineReason, ctx`reply, ctx.writer
    ensures Shows(ctx, wire0, Step(ConfigOf(ctx), s, e))
  {
    hide Wire, Joined, Put, Finished, Do, StatusPacket, TextOf;
    NothingJoined();
    match e
    case Command(status) =>
      var _ := ctx.ReplyToCommand(status);
      if Answer(s, status).Some? {
        ghost var bytes := Answer(s, status).value;
        PutBytes(s.(state := OtherState), bytes);
        PutKeeps(s.(state := OtherState), bytes);
        Regroup(wire0, Wire(s.sent) + bytes, Joined(s.held));
        Regroup(wire0, Wire(s.sent), bytes);
      }
    case EndOfMessage => ctx.StartEndOfMessage();
    case Perform(call) => PerformCall(ctx, call, wire0, s);
    case Progress =>
      var _ := ctx.Progress();
      PutBytes(s, PROGRESS_PACKET);
      PutKeeps(s, PROGRESS_PACKET);
      Regroup(wire0, Wire(s.sent) + PROGRESS_PACKET, Joined(s.held));
      Regroup(wire0, Wire(s.sent), PROGRESS_PACKET);
    case Finish(status) => Finishing(ctx, status, wire0, s);
    case Aborted => ctx.Abort();
  }

  /** Any session on a connection that works: what is written behind `wire0` is what the session
      says, for any size of the buffer. */
  method RunSession(ctx: ClientContext, events: seq<Event>, ghost wire0: Bytes, ghost s: Session)
    requires Shows(ctx, wire0, s)
    modifies ctx`state, ctx`buffering, ctx`bufferedPackets, ctx`quarantineReason, ctx`reply, ctx.writer
    ensures Shows(ctx, wire0, After(ConfigOf(ctx), s, events))
  {
    hide Shows, Step;
    for i := 0 to |events|
      invariant Shows(ctx, wire0, After(ConfigOf(ctx), s, events[..i]))
    {
      AfterNext(ConfigOf(ctx), s, events, i);
      Occur(ctx, events[i], wire0, After(ConfigOf(ctx), s, events[..i]));
    }
    assert events[..|events|] == events;
  }
}
