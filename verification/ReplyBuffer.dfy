/** The end-of-message packet buffer of `milter-client-context.c` and the two methods of
    `milter-agent.c` it recurses through. Writing a packet flushes the agent, and flushing
    the agent writes a packet: `buffering` is what stops the second round. */
module ReplyBuffer {
  import opened Options
  import opened ReplyCodes
  import opened ReplyPackets
  import opened StatusCode

  /** `a` is the beginning of `b`. */
  predicate Begins(a: Bytes, b: Bytes) {
    |a| <= |b| && b[..|a|] == a
  }

  lemma BeginsJoined(a: Bytes, b: Bytes)
    ensures Begins(a, a + b)
  {}

  lemma BeginsTwice(a: Bytes, b: Bytes, c: Bytes)
    requires Begins(a, b) && Begins(b, c)
    ensures Begins(a, c)
  {
    assert c[..|b|][..|a|] == c[..|a|];
  }

  lemma BeginsAfter(head: Bytes, a: Bytes, b: Bytes)
    requires Begins(a, b)
    ensures Begins(head + a, head + b)
  {
    assert b == a + b[|a|..];
    assert (head + a) + b[|a|..] == head + b;
    BeginsJoined(head + a, b[|a|..]);
  }

  /** A connection to the MTA. It accepts `lifetime` operations (any number, when None) and
      then breaks for good; the write that breaks it may leave up to `tear` bytes behind. */
  class Writer {
    const lifetime: Option<nat>
    const tear: nat
    var operations: nat
    var broken: bool
    var wire: Bytes

    constructor (lifetime: Option<nat>, tear: nat)
      ensures wire == [] && !broken && this.lifetime == lifetime
    {
      this.lifetime, this.tear, operations, broken, wire := lifetime, tear, 0, false, [];
    }

    method Write(packet: Bytes) returns (ok: bool)
      modifies this
      ensures ok == !broken && (old(broken) ==> broken && wire == old(wire))
      ensures lifetime == None && !old(broken) ==> ok
      ensures ok ==> wire == old(wire) + packet
      ensures Begins(old(wire), wire) && Begins(wire, old(wire) + packet)
    {
      ok := false;
      if broken {
      } else if lifetime == Some(operations) {
        broken := true;
        wire := wire + packet[..if tear < |packet| then tear else |packet|];
      } else {
        operations := operations + 1;
        wire := wire + packet;
        ok := true;
      }
    }

    method Flush() returns (ok: bool)
      modifies `operations, `broken
      ensures ok == !broken && (old(broken) ==> broken)
      ensures lifetime == None && !old(broken) ==> ok
    {
      ok := false;
      if broken {
      } else if lifetime == Some(operations) {
        broken := true;
      } else {
        operations := operations + 1;
        ok := true;
      }
    }
  }

  // ---------- which calls are refused ----------

  datatype State = EndOfMessage | OtherState

  datatype Action =
    | AddHeaders | ChangeBody | AddEnvelopeRecipient | DeleteEnvelopeRecipient
    | ChangeHeaders | ChangeEnvelopeFrom

  datatype Refusal = NullArgument | EmptyArgument | InvalidState | NoOption | InvalidAction

  function AddressRefusal(s: Option<Bytes>): Option<Refusal> {
    if s.None? then Some(NullArgument) else if s.value == [] then Some(EmptyArgument) else None
  }

  function ArgumentRefusal(m: Modification): Option<Refusal> {
    match m
    case AddHeader(name, value) => if name.None? || value.None? then Some(NullArgument) else None
    case InsertHeader(_, name, value) => if name.None? || value.None? then Some(NullArgument) else None
    case ChangeHeader(name, _, _) => if name.None? then Some(NullArgument) else None
    case DeleteHeader(name, _) => if name.None? then Some(NullArgument) else None
    case ChangeFrom(from, _) => AddressRefusal(from)
    case AddRecipient(recipient, _) => AddressRefusal(recipient)
    case DeleteRecipient(recipient) => AddressRefusal(recipient)
    case ReplaceBody(_) => None
  }

  function NeededAction(m: Modification): Action {
    match m
    case AddHeader(_, _) => AddHeaders
    case InsertHeader(_, _, _) => AddHeaders
    case ChangeHeader(_, _, _) => ChangeHeaders
    case DeleteHeader(_, _) => ChangeHeaders
    case ChangeFrom(_, _) => ChangeEnvelopeFrom
    case AddRecipient(_, _) => AddEnvelopeRecipient
    case DeleteRecipient(_) => DeleteEnvelopeRecipient
    case ReplaceBody(_) => ChangeBody
  }

  /** The arguments are looked at first, then the state, then the negotiated actions. */
  function RefusalOf(state: State, option: Option<set<Action>>, m: Modification): Option<Refusal> {
    if ArgumentRefusal(m).Some? then ArgumentRefusal(m)
    else if state != EndOfMessage then Some(InvalidState)
    else if option.None? then Some(NoOption)
    else if NeededAction(m) !in option.value then Some(InvalidAction)
    else None
  }

  // ---------- what the MTA is promised ----------

  /** A call of a filter while it handles end of message. */
  datatype Call =
    | Modify(m: Modification)
    | Quarantine(reason: Option<Bytes>)
    | SetReply(code: nat, extendedCode: Option<CString>, message: Option<CString>)

  /** The contents of the packets a call adds to the stream. */
  function ContentsOf(m: Modification): seq<Bytes> {
    if m.ReplaceBody? then BodyContents(Chunks(m.body))
    else if PacketOf(m) == [] then []
    else [PacketOf(m)[4..]]
  }

  function CallBytes(state: State, option: Option<set<Action>>, call: Call): Bytes {
    if call.Modify? && RefusalOf(state, option, call.m).None? then BytesOf(call.m) else []
  }

  /** The bytes of every accepted call, in call order: no buffer is mentioned here. */
  function Promised(state: State, option: Option<set<Action>>, calls: seq<Call>): Bytes {
    if calls == [] then []
    else Promised(state, option, calls[..|calls| - 1]) + CallBytes(state, option, calls[|calls| - 1])
  }

  /** The reason in force after the calls: the last one given. */
  function ReasonAfter(reason: Option<Bytes>, calls: seq<Call>): Option<Bytes> {
    if calls == [] then reason
    else if calls[|calls| - 1].Quarantine? then calls[|calls| - 1].reason
    else ReasonAfter(reason, calls[..|calls| - 1])
  }

  /** The reply in force after the calls: the last one that was accepted. */
  ghost function ReplyAfter(reply: Reply, calls: seq<Call>): Reply {
    if calls == [] then reply
    else
      var last := calls[|calls| - 1];
      if last.SetReply? && Acceptable(last.code, last.extendedCode)
      then Reply(last.code, last.extendedCode, last.message)
      else ReplyAfter(reply, calls[..|calls| - 1])
  }

  function WithQuarantine(packet: Bytes, reason: Option<Bytes>): Bytes {
    QuarantinePacket(reason) + packet
  }

  /** The final reply, the quarantine packet directly before it. */
  function FinalBytes(status: Status, formatted: Option<Bytes>, reason: Option<Bytes>): Bytes {
    match StatusPacket(status, formatted)
    case None => []
    case Some(packet) => WithQuarantine(packet, reason)
  }

  /** The text of a reply code that was set, none before the first. */
  function TextOf(reply: Reply): Option<Bytes> {
    Encoded(Formatted(reply))
  }

  ghost function MessageBytes(state: State, option: Option<set<Action>>, calls: seq<Call>, status: Status,
                              reply: Reply, reason: Option<Bytes>): Bytes {
    Promised(state, option, calls)
    + FinalBytes(status, TextOf(ReplyAfter(reply, calls)), ReasonAfter(reason, calls))
  }

  const PROGRESS_PACKET: Bytes := Pack([PROGRESS])

  /** Buffered bytes are whole packets, the first of them no progress packet. */
  ghost predicate StartsPlain(b: Bytes) {
    b == [] || (|b| >= 5 && b[4] != PROGRESS)
  }

  lemma PacketStartsPlain(m: Modification)
    ensures StartsPlain(BytesOf(m))
  {
    if !m.ReplaceBody? && PacketOf(m) != [] {
      var content := PacketOf(m)[4..];
      assert PacketOf(m)[4] == content[0];
    }
  }

  /** A connection with the packets still held back for it. */
  datatype Sending = Sending(wire: Bytes, buffered: Bytes, broken: bool, reliable: bool) {
    function Stream(): Bytes {
      wire + buffered
    }
  }

  /** What every operation that adds `added` to the stream keeps: a connection that still works
      has been promised exactly the old stream and the addition, and one that has broken carries
      no more than a prefix of that. */
  predicate Grew(before: Sending, after: Sending, added: Bytes) {
    && Begins(before.wire, after.wire)
    && (before.broken ==> after.broken && after.wire == before.wire)
    && (after.broken ==> Begins(after.wire, before.Stream() + added))
    && (!after.broken ==> after.Stream() == before.Stream() + added)
    && after.reliable == before.reliable
    && (before.reliable && !before.broken ==> !after.broken)
  }

  lemma GrewBuffered(start: Sending, packet: Bytes)
    ensures Grew(start, start.(buffered := start.buffered + packet), packet)
  {
    assert start.wire + (start.buffered + packet) == start.Stream() + packet;
    BeginsJoined(start.wire, start.buffered + packet);
    assert Begins(start.wire, start.wire);
  }

  lemma GrewTwice(start: Sending, mid: Sending, end: Sending, first: Bytes, second: Bytes)
    requires Grew(start, mid, first) && Grew(mid, end, second)
    ensures Grew(start, end, first + second)
  {
    assert (start.Stream() + first) + second == start.Stream() + (first + second);
  }

  lemma GrewLess(start: Sending, end: Sending, some: Bytes, all: Bytes)
    requires Grew(start, end, some) && end.broken && Begins(some, all)
    ensures Grew(start, end, all)
  {
    BeginsAfter(start.Stream(), some, all);
    BeginsTwice(end.wire, start.Stream() + some, start.Stream() + all);
  }

  lemma PackOne(content: Bytes)
    ensures PackAll([content]) == Pack(content) && Pack(content)[4..] == content
  {
    assert [content][1..] == [];
  }

  /** What is held after one more packet: nothing if that is too much. */
  function HeldNext(size: nat, held: Bytes, packet: Bytes): Bytes {
    if |held + packet| > size then [] else held + packet
  }

  /** ... after the packets of these contents. */
  function HeldAfter(size: nat, held: Bytes, contents: seq<Bytes>): Bytes
    decreases contents
  {
    if contents == [] then held else HeldAfter(size, HeldNext(size, held, Pack(contents[0])), contents[1..])
  }

  /** ... after a call that is not refused. */
  lemma HeldAfterOne(size: nat, held: Bytes, m: Modification)
    requires !m.ReplaceBody? && |held| <= size
    ensures HeldAfter(size, held, ContentsOf(m)) == HeldNext(size, held, PacketOf(m))
  {
    if PacketOf(m) == [] {
      assert held + [] == held;
    } else {
      PackOne(PacketOf(m)[4..]);
      assert PacketOf(m) == Pack(PacketOf(m)[4..]);
      assert ContentsOf(m)[1..] == [];
    }
  }

  function ChunkPacket(chunk: Bytes): Bytes {
    Pack([REPLACE_BODY] + chunk)
  }

  lemma HeldAfterChunk(size: nat, held: Bytes, rest: Bytes)
    requires rest != []
    ensures
      var n := ChunkSize(|rest|);
      HeldAfter(size, held, BodyContents(Chunks(rest)))
      == HeldAfter(size, HeldNext(size, held, ChunkPacket(rest[..n])), BodyContents(Chunks(rest[n..])))
  {
    var n := ChunkSize(|rest|);
    assert Chunks(rest)[1..] == Chunks(rest[n..]);
    assert BodyContents(Chunks(rest))[1..] == BodyContents(Chunks(rest[n..]));
  }

  lemma NextChunk(body: Bytes, offset: nat) returns (packet: Bytes, next: Bytes)
    requires offset < |body|
    ensures
      var n := ChunkSize(|body| - offset);
      && packet == ChunkPacket(body[offset..offset + n])
      && next == ChunkPackets(body[offset + n..])
      && ChunkPackets(body[offset..]) == packet + next
  {
    var n := ChunkSize(|body| - offset);
    packet, next := ChunkPacket(body[offset..offset + n]), ChunkPackets(body[offset + n..]);
    assert body[offset..][..n] == body[offset..offset + n];
    assert body[offset..][n..] == body[offset + n..];
  }

  /** One more packet out of the bytes that are left. */
  lemma GrewStep(start: Sending, mid: Sending, end: Sending, sent: Bytes, packet: Bytes, next: Bytes, all: Bytes)
    requires sent + (packet + next) == all
    requires Grew(start, mid, sent) && Grew(mid, end, packet)
    ensures sent + packet + next == all
    ensures Grew(start, end, sent + packet)
    ensures end.broken ==> Grew(start, end, all)
  {
    GrewTwice(start, mid, end, sent, packet);
    assert sent + (packet + next) == (sent + packet) + next;
    if end.broken {
      GrewLess(start, end, sent + packet, all);
    }
  }

  lemma NothingHeldNext(size: nat, held: Bytes, body: Bytes)
    ensures HeldAfter(size, held, BodyContents(Chunks(body[|body|..]))) == held
  {}

  lemma NoChunks(body: Bytes, sent: Bytes, all: Bytes)
    requires sent + ChunkPackets(body[|body|..]) == all
    ensures sent == all
  {}

  lemma GrewNothing(s: Sending)
    ensures Grew(s, s, [])
  {}

  lemma NoCalls(state: State, option: Option<set<Action>>, reply: Reply, reason: Option<Bytes>)
    ensures ReasonAfter(reason, []) == reason && ReplyAfter(reply, []) == reply
    ensures Promised(state, option, []) == []
  {}

  /** One call further. */
  lemma OneMore(state: State, option: Option<set<Action>>, calls: seq<Call>, i: nat, reply: Reply,
                reason: Option<Bytes>)
    requires i < |calls|
    ensures ReasonAfter(reason, calls[..i + 1]) == ReasonAfter(ReasonAfter(reason, calls[..i]), [calls[i]])
    ensures ReplyAfter(reply, calls[..i + 1]) == ReplyAfter(ReplyAfter(reply, calls[..i]), [calls[i]])
    ensures Promised(state, option, calls[..i + 1])
         == Promised(state, option, calls[..i]) + CallBytes(state, option, calls[i])
  {
    assert calls[..i + 1][..i] == calls[..i];
    assert [calls[i]][..0] == [];
  }

  class ClientContext {
    var state: State
    var option: Option<set<Action>>
    var writer: Writer?
    var buffering: bool
    var bufferedPackets: Bytes
    var packetBufferSize: nat
    var quarantineReason: Option<Bytes>
    var reply: Reply

    ghost predicate Valid()
      reads `buffering, `bufferedPackets
    {
      && (!buffering ==> bufferedPackets == [])
      && StartsPlain(bufferedPackets)
    }

    constructor (state: State, option: Option<set<Action>>, writer: Writer?, packetBufferSize: nat)
      ensures Valid() && bufferedPackets == [] && this.writer == writer && this.state == state
      ensures this.option == option && this.packetBufferSize == packetBufferSize
      ensures quarantineReason == None && reply == NO_REPLY
    {
      this.state, this.option, this.writer, this.packetBufferSize := state, option, writer, packetBufferSize;
      buffering, bufferedPackets, quarantineReason, reply := false, [], None, NO_REPLY;
    }

    /** What flushing would write. */
    function Held(): Bytes
      reads `buffering, `bufferedPackets
    {
      if buffering then bufferedPackets else []
    }

    /** Without a writer nothing ever reaches the MTA, as with a broken one. */
    function Snapshot(): Sending
      reads `writer, writer, `bufferedPackets
    {
      if writer == null then Sending([], bufferedPackets, true, false)
      else Sending(writer.wire, bufferedPackets, writer.broken, writer.lifetime == None)
    }

    method BaseFlush() returns (ok: bool)
      modifies if writer == null then {} else {writer}
      ensures writer == null ==> ok
      ensures writer != null ==> ok == !writer.broken && (old(writer.broken) ==> !ok) && writer.wire == old(writer.wire)
      ensures writer != null && writer.lifetime == None && !old(writer.broken) ==> ok
    {
      if writer == null {
        return true;
      }
      ok := writer.Flush();
    }

    /** `milter_agent_write_packet`. Without a writer the packet is dropped and TRUE returned. */
    method WritePacket(packet: Bytes) returns (ok: bool)
      modifies `buffering, `bufferedPackets, writer
      ensures writer == null ==> ok && buffering == old(buffering) && bufferedPackets == old(bufferedPackets)
      ensures writer != null ==> ok == !writer.broken && (old(writer.broken) ==> !ok && writer.wire == old(writer.wire))
      ensures writer != null && writer.lifetime == None && !old(writer.broken) ==> ok
      ensures writer != null && ok ==> !buffering && writer.wire == old(writer.wire) + packet + old(Held())
      ensures writer != null ==>
        Begins(old(writer.wire), writer.wire) && Begins(writer.wire, old(writer.wire) + packet + old(Held()))
      ensures !buffering ==> bufferedPackets == if old(buffering) then [] else old(bufferedPackets)
      ensures buffering ==> old(buffering) && bufferedPackets == old(bufferedPackets)
      decreases if buffering then 1 else 0, 1
    {
      if writer == null {
        return true;
      }
      ok := writer.Write(packet);
      if ok {
        assert writer.wire + [] == writer.wire;
        ok := AgentFlush();
      }
    }

    /** `flush`: the client context's own part and then `milter-agent.c`'s. The flag goes down
        before the packets are written, so the flush inside that write finds nothing to do. */
    method AgentFlush() returns (ok: bool)
      modifies `buffering, `bufferedPackets, writer
      ensures !buffering && bufferedPackets == if old(buffering) then [] else old(bufferedPackets)
      ensures writer == null ==> ok
      ensures writer != null ==> ok == !writer.broken && (old(writer.broken) ==> !ok && writer.wire == old(writer.wire))
      ensures writer != null && writer.lifetime == None && !old(writer.broken) ==> ok
      ensures writer != null && ok ==> writer.wire == old(writer.wire) + old(Held())
      ensures writer != null ==>
        Begins(old(writer.wire), writer.wire) && Begins(writer.wire, old(writer.wire) + old(Held()))
      ensures old(Valid()) ==> Grew(old(Snapshot()), Snapshot(), [])
      decreases if buffering then 1 else 0, 0
    {
      ok := true;
      if buffering {
        buffering := false;
        ok := WritePacket(bufferedPackets);
        bufferedPackets := [];
      }
      if ok {
        ok := BaseFlush();
      }
    }

    /** `write_packet_on_end_of_message`. The bound holds after the call whatever held before. */
    method WriteOnEndOfMessage(packet: Bytes) returns (ok: bool)
      requires Valid() && StartsPlain(packet)
      modifies `buffering, `bufferedPackets, writer
      ensures Valid() && |bufferedPackets| <= packetBufferSize
      ensures writer == null || !writer.broken ==> ok
      ensures bufferedPackets == HeldNext(packetBufferSize, old(bufferedPackets), packet)
      ensures |old(bufferedPackets) + packet| <= packetBufferSize ==>
        bufferedPackets == old(bufferedPackets) + packet && (writer != null ==> writer.wire == old(writer.wire))
      ensures |old(bufferedPackets) + packet| > packetBufferSize ==>
        && bufferedPackets == []
        && (writer != null && ok ==> writer.wire == old(writer.wire) + (old(bufferedPackets) + packet))
      ensures Grew(old(Snapshot()), Snapshot(), packet)
    {
      ghost var start := Snapshot();
      bufferedPackets := bufferedPackets + packet;
      buffering := true;
      ok := true;
      GrewBuffered(start, packet);
      ghost var mid := Snapshot();
      if |bufferedPackets| > packetBufferSize {
        ok := AgentFlush();
        GrewTwice(start, mid, Snapshot(), packet, []);
        assert packet + [] == packet;
      }
    }

    method WriteChunk(chunk: Bytes) returns (ok: bool)
      requires Valid()
      modifies `buffering, `bufferedPackets, writer
      ensures Valid() && |bufferedPackets| <= packetBufferSize
      ensures writer == null || !writer.broken ==> ok
      ensures bufferedPackets == HeldNext(packetBufferSize, old(bufferedPackets), ChunkPacket(chunk))
      ensures Grew(old(Snapshot()), Snapshot(), ChunkPacket(chunk))
    {
      assert ChunkPacket(chunk)[4] == REPLACE_BODY;
      ok := WriteOnEndOfMessage(ChunkPacket(chunk));
    }

    /** One round of the loop below; `sent` is what the rounds before it have added since `start`. */
    method WriteNextChunk(body: Bytes, offset: nat, ghost start: Sending, ghost sent: Bytes, ghost all: Bytes)
      returns (ok: bool, packedSize: nat, ghost grown: Bytes)
      requires Valid() && offset < |body|
      requires sent + ChunkPackets(body[offset..]) == all && Grew(start, Snapshot(), sent)
      modifies `buffering, `bufferedPackets, writer
      ensures Valid() && |bufferedPackets| <= packetBufferSize
      ensures packedSize == ChunkSize(|body| - offset)
      ensures grown + ChunkPackets(body[offset + packedSize..]) == all
      ensures Grew(start, Snapshot(), grown)
      ensures !ok ==> Grew(start, Snapshot(), all)
      ensures writer == null || !writer.broken ==> ok
      ensures
        HeldAfter(packetBufferSize, bufferedPackets, BodyContents(Chunks(body[offset + packedSize..])))
        == HeldAfter(packetBufferSize, old(bufferedPackets), BodyContents(Chunks(body[offset..])))
    {
      hide HeldAfter, HeldNext, Chunks, BodyContents, Grew, StartsPlain;
      packedSize := ChunkSize(|body| - offset);
      ghost var mid := Snapshot();
      ghost var packet, next := NextChunk(body, offset);
      HeldAfterChunk(packetBufferSize, bufferedPackets, body[offset..]);
      assert body[offset..][..packedSize] == body[offset..offset + packedSize];
      assert body[offset..][packedSize..] == body[offset + packedSize..];
      ok := WriteChunk(body[offset..offset + packedSize]);
      GrewStep(start, mid, Snapshot(), sent, packet, next, all);
      grown := sent + packet;
    }

    /** `milter_client_context_replace_body`'s loop: a chunk that cannot be written ends it. */
    method WriteChunks(body: Bytes) returns (ok: bool)
      requires Valid()
      modifies `buffering, `bufferedPackets, writer
      ensures Valid()
      ensures old(|bufferedPackets|) <= packetBufferSize ==> |bufferedPackets| <= packetBufferSize
      ensures writer == null || !writer.broken ==> ok
      ensures Grew(old(Snapshot()), Snapshot(), ChunkPackets(body))
      ensures writer == null || !writer.broken ==>
        bufferedPackets == HeldAfter(packetBufferSize, old(bufferedPackets), BodyContents(Chunks(body)))
    {
      hide Grew, ChunkPackets, StartsPlain, HeldAfter, BodyContents, Chunks;
      ok := true;
      var rest := |body|;
      GrewNothing(Snapshot());
      ghost var sent, all := [], ChunkPackets(body);
      assert body[|body| - rest..] == body && sent + all == all;
      while rest > 0
        invariant 0 <= rest <= |body| && Valid() && ok
        invariant old(|bufferedPackets|) <= packetBufferSize ==> |bufferedPackets| <= packetBufferSize
        invariant sent + ChunkPackets(body[|body| - rest..]) == all
        invariant Grew(old(Snapshot()), Snapshot(), sent)
        invariant
          HeldAfter(packetBufferSize, bufferedPackets, BodyContents(Chunks(body[|body| - rest..])))
          == HeldAfter(packetBufferSize, old(bufferedPackets), BodyContents(Chunks(body)))
      {
        var more, packedSize, grown := WriteNextChunk(body, |body| - rest, old(Snapshot()), sent, all);
        ok, sent := more, grown;
        if !ok {
          return;
        }
        rest := rest - packedSize;
      }
      NoChunks(body, sent, all);
      NothingHeldNext(packetBufferSize, bufferedPackets, body);
    }

    /** The modification calls: refused with nothing changed, or encoded and written. */
    method Modify(m: Modification) returns (refusal: Option<Refusal>, ok: bool)
      requires Valid()
      modifies `buffering, `bufferedPackets, writer
      ensures Valid() && refusal == RefusalOf(state, option, m)
      ensures refusal.Some? ==> !ok && bufferedPackets == old(bufferedPackets)
      ensures old(|bufferedPackets|) <= packetBufferSize ==> |bufferedPackets| <= packetBufferSize
      ensures Grew(old(Snapshot()), Snapshot(), CallBytes(state, option, Call.Modify(m)))
      ensures refusal == None && (writer == null || !writer.broken) ==> ok
      ensures refusal == None && (writer == null || !writer.broken) && old(|bufferedPackets|) <= packetBufferSize ==>
        bufferedPackets == HeldAfter(packetBufferSize, old(bufferedPackets), ContentsOf(m))
    {
      hide HeldAfter, HeldNext, Grew, StartsPlain;
      refusal := RefusalOf(state, option, m);
      ok := false;
      if refusal.Some? {
        GrewNothing(Snapshot());
        return;
      }
      if m.ReplaceBody? {
        ok := WriteChunks(m.body);
      } else {
        PacketStartsPlain(m);
        if |bufferedPackets| <= packetBufferSize {
          HeldAfterOne(packetBufferSize, bufferedPackets, m);
        }
        ok := WriteOnEndOfMessage(PacketOf(m));
      }
    }

    /** `milter_client_context_quarantine` only remembers the reason. */
    method SetQuarantine(reason: Option<Bytes>)
      modifies `quarantineReason
      ensures quarantineReason == reason
    {
      quarantineReason := reason;
    }

    /** `milter_client_context_set_reply`. */
    method SetReply(code: nat, extendedCode: Option<CString>, message: Option<CString>) returns (ok: bool)
      modifies `reply
      ensures ok <==> Acceptable(code, extendedCode)
      ensures reply == if ok then Reply(code, extendedCode, message) else old(reply)
    {
      ok := false;
      if !(400 <= code < 600) {
        return;
      }
      if extendedCode.Some? {
        var parsed, class_, _ := ParseExtendedCode(extendedCode.value, 0);
        if !parsed {
          return;
        }
        if class_ != code / 100 {
          return;
        }
      }
      reply := Reply(code, extendedCode, message);
      ok := true;
    }

    /** `milter_client_context_progress` writes straight to the connection, in front of whatever
        is buffered, and the flush behind that write empties the buffer. */
    method Progress() returns (ok: bool)
      requires Valid()
      modifies `buffering, `bufferedPackets, writer
      ensures Valid()
      ensures writer != null && ok ==>
        writer.wire == old(writer.wire) + PROGRESS_PACKET + old(bufferedPackets) && bufferedPackets == []
      ensures writer != null ==> ok == !writer.broken
      ensures writer != null && writer.lifetime == None && !old(writer.broken) ==> ok
    {
      ok := WritePacket(PROGRESS_PACKET);
    }

    /** `write_packet` while nothing is buffered. */
    method WriteAlone(packet: Bytes) returns (ok: bool)
      requires !buffering && bufferedPackets == []
      modifies `buffering, `bufferedPackets, writer
      ensures !buffering && bufferedPackets == []
      ensures Grew(old(Snapshot()), Snapshot(), packet)
      ensures writer == null || !writer.broken ==> ok
    {
      ok := WritePacket(packet);
    }

    method WriteFinal(packet: Bytes) returns (ok: bool)
      requires !buffering && bufferedPackets == []
      modifies `buffering, `bufferedPackets, writer
      ensures !buffering && bufferedPackets == []
      ensures Grew(old(Snapshot()), Snapshot(), WithQuarantine(packet, quarantineReason))
      ensures writer == null || !writer.broken ==> ok
    {
      if quarantineReason.Some? {
        ok := WriteAlone(QuarantinePacket(quarantineReason) + packet);
      } else {
        assert QuarantinePacket(quarantineReason) + packet == packet;
        ok := WriteAlone(packet);
      }
    }

    /** `cb_decoder_end_of_message` before it calls the handler. */
    method StartEndOfMessage()
      modifies `state, `quarantineReason
      ensures state == State.EndOfMessage && quarantineReason == None
    {
      state, quarantineReason := State.EndOfMessage, None;
    }

    /** `cb_decoder_abort`: what it resets does not include what is buffered. */
    method Abort()
      modifies `state
      ensures state == OtherState
    {
      state := OtherState;
    }

    /** The reply to a command before end of message: `reply`. */
    method ReplyToCommand(status: Status) returns (ok: bool)
      requires Valid()
      modifies `state, `buffering, `bufferedPackets, writer
      ensures Valid() && state == OtherState
      ensures
        var packet := StatusPacket(status, TextOf(reply));
        if packet == None then ok && Snapshot() == old(Snapshot())
        else writer != null && ok ==>
          writer.wire == old(writer.wire) + packet.value + old(bufferedPackets) && bufferedPackets == []
      ensures writer != null && writer.lifetime == None && !old(writer.broken) ==> ok && !writer.broken
      ensures writer != null ==> Begins(old(writer.wire), writer.wire)
    {
      state := OtherState;
      var text := Format(reply.code, reply.extendedCode, reply.message);
      var packet := StatusPacket(status, Encoded(text));
      if packet == None {
        return true;
      }
      ok := WritePacket(packet.value);
    }

    /** `reply_on_end_of_message`. */
    method ReplyOnEndOfMessage(status: Status) returns (ok: bool)
      requires Valid()
      modifies `buffering, `bufferedPackets, writer
      ensures Valid() && bufferedPackets == []
      ensures Grew(old(Snapshot()), Snapshot(), FinalBytes(status, TextOf(reply), quarantineReason))
      ensures writer == null || !writer.broken ==> ok
    {
      ghost var final := FinalBytes(status, TextOf(reply), quarantineReason);
      ok := AgentFlush();
      if !ok {
        GrewLess(old(Snapshot()), Snapshot(), [], final);
        return;
      }
      ghost var mid := Snapshot();
      var text := Format(reply.code, reply.extendedCode, reply.message);
      var packet := StatusPacket(status, Encoded(text));
      if packet == None {
        return true;
      }
      ok := WriteFinal(packet.value);
      GrewTwice(old(Snapshot()), mid, Snapshot(), [], final);
      assert [] + final == final;
    }

    /** `end_of_message_response` */
    method FinishMessage(status: Status) returns (ok: bool)
      requires Valid()
      modifies `state, `buffering, `bufferedPackets, writer
      ensures Valid() && bufferedPackets == [] && state == OtherState
      ensures Grew(old(Snapshot()), Snapshot(), FinalBytes(status, TextOf(reply), quarantineReason))
      ensures writer == null || !writer.broken ==> ok
    {
      hide Grew, FinalBytes, TextOf;
      state := OtherState;
      ok := ReplyOnEndOfMessage(status);
    }

    method Perform(call: Call) returns (ok: bool)
      requires Valid()
      modifies `buffering, `bufferedPackets, `quarantineReason, `reply, writer
      ensures Valid()
      ensures old(|bufferedPackets|) <= packetBufferSize ==> |bufferedPackets| <= packetBufferSize
      ensures quarantineReason == ReasonAfter(old(quarantineReason), [call])
      ensures reply == ReplyAfter(old(reply), [call])
      ensures (writer == null || !writer.broken) && old(|bufferedPackets|) <= packetBufferSize ==>
        bufferedPackets ==
          if call.Modify? && RefusalOf(state, option, call.m).None?
          then HeldAfter(packetBufferSize, old(bufferedPackets), ContentsOf(call.m)) else old(bufferedPackets)
      ensures Grew(old(Snapshot()), Snapshot(), CallBytes(state, option, call))
    {
      match call {
        case Modify(m) =>
          var _, done := Modify(m);
          ok := done;
        case Quarantine(reason) =>
          SetQuarantine(reason);
          ok := true;
        case SetReply(code, extendedCode, message) =>
          ok := SetReply(code, extendedCode, message);
      }
    }

    method PerformAll(calls: seq<Call>)
      requires Valid()
      modifies `buffering, `bufferedPackets, `quarantineReason, `reply, writer
      ensures Valid()
      ensures old(|bufferedPackets|) <= packetBufferSize ==> |bufferedPackets| <= packetBufferSize
      ensures quarantineReason == ReasonAfter(old(quarantineReason), calls)
      ensures reply == ReplyAfter(old(reply), calls)
      ensures Grew(old(Snapshot()), Snapshot(), Promised(state, option, calls))
    {
      hide Grew, Promised, CallBytes, ReasonAfter, ReplyAfter, Acceptable, StartsPlain;
      NoCalls(state, option, reply, quarantineReason);
      GrewNothing(Snapshot());
      assert calls[..0] == [];
      for i := 0 to |calls|
        invariant Valid()
        invariant old(|bufferedPackets|) <= packetBufferSize ==> |bufferedPackets| <= packetBufferSize
        invariant quarantineReason == ReasonAfter(old(quarantineReason), calls[..i])
        invariant reply == ReplyAfter(old(reply), calls[..i])
        invariant Grew(old(Snapshot()), Snapshot(), Promised(state, option, calls[..i]))
      {
        ghost var before, mid := calls[..i], Snapshot();
        OneMore(state, option, calls, i, old(reply), old(quarantineReason));
        var _ := Perform(calls[i]);
        GrewTwice(old(Snapshot()), mid, Snapshot(),
                  Promised(state, option, before), CallBytes(state, option, calls[i]));
      }
      assert calls[..|calls|] == calls;
    }

    /** One end-of-message handler: any calls in any order, then the reply. What the MTA reads is
        what was held back, the calls in order and the reply, whatever `packetBufferSize` is. */
    method RunMessage(calls: seq<Call>, status: Status) returns (ok: bool)
      requires Valid()
      modifies `buffering, `bufferedPackets, `quarantineReason, `reply, writer
      ensures Valid() && bufferedPackets == []
      ensures writer == null || !writer.broken ==> ok
      ensures quarantineReason == ReasonAfter(old(quarantineReason), calls) && reply == ReplyAfter(old(reply), calls)
      ensures
        Grew(old(Snapshot()), Snapshot(),
             MessageBytes(state, option, calls, status, old(reply), old(quarantineReason)))
      ensures writer != null && !writer.broken ==>
        writer.wire == old(writer.wire) + old(bufferedPackets)
        + MessageBytes(state, option, calls, status, old(reply), old(quarantineReason))
    {
      PerformAll(calls);
      ghost var mid := Snapshot();
      ok := ReplyOnEndOfMessage(status);
      GrewTwice(old(Snapshot()), mid, Snapshot(), Promised(state, option, calls),
                FinalBytes(status, TextOf(reply), quarantineReason));
      assert writer != null ==> writer.wire + [] == writer.wire;
    }
  }

  /** Two contexts that agree in everything but the size of their buffer, on connections that
      work, write the same bytes. */
  method SizesAlike(c0: ClientContext, c1: ClientContext, calls: seq<Call>, status: Status)
    requires c0 != c1 && c0.writer != null && c1.writer != null && c0.writer != c1.writer
    requires c0.Valid() && c0.buffering == c1.buffering && c0.bufferedPackets == c1.bufferedPackets
    requires c0.state == c1.state && c0.option == c1.option
    requires c0.reply == c1.reply && c0.quarantineReason == c1.quarantineReason
    requires !c0.writer.broken && c0.writer.lifetime == None && !c1.writer.broken && c1.writer.lifetime == None
    modifies c0, c1, c0.writer, c1.writer
    ensures c0.writer == old(c0.writer) && c1.writer == old(c1.writer)
    ensures
      var added := old(c0.bufferedPackets)
        + MessageBytes(old(c0.state), old(c0.option), calls, status, old(c0.reply), old(c0.quarantineReason));
      && c0.writer.wire == old(c0.writer.wire) + added
      && c1.writer.wire == old(c1.writer.wire) + added
  {
    hide MessageBytes, Grew, ReasonAfter, ReplyAfter, StartsPlain;
    var _ := c0.RunMessage(calls, status);
    var _ := c1.RunMessage(calls, status);
  }

  /** What `Progress` leaves on the wire is the call order if and only if nothing was buffered. */
  lemma ProgressInOrderIff(wire: Bytes, buffered: Bytes)
    requires StartsPlain(buffered)
    ensures wire + PROGRESS_PACKET + buffered == wire + buffered + PROGRESS_PACKET <==> buffered == []
  {
    if buffered != [] {
      assert (wire + PROGRESS_PACKET + buffered)[|wire| + 4] == PROGRESS_PACKET[4] == PROGRESS;
      assert (wire + buffered + PROGRESS_PACKET)[|wire| + 4] == buffered[4];
    }
  }

  // ---------- what the MTA reads ----------

  function CallContents(state: State, option: Option<set<Action>>, call: Call): seq<Bytes> {
    if call.Modify? && RefusalOf(state, option, call.m).None? then ContentsOf(call.m) else []
  }

  function PromisedContents(state: State, option: Option<set<Action>>, calls: seq<Call>): seq<Bytes> {
    if calls == [] then []
    else PromisedContents(state, option, calls[..|calls| - 1]) + CallContents(state, option, calls[|calls| - 1])
  }

  function FinalContents(status: Status, formatted: Option<Bytes>, reason: Option<Bytes>): seq<Bytes> {
    match StatusPacket(status, formatted)
    case None => []
    case Some(packet) =>
      (if Text(reason) == [] then [] else [[QUARANTINE] + Text(reason) + [0]]) + [packet[4..]]
  }

  lemma {:induction false} PackAllJoins(a: seq<Bytes>, b: seq<Bytes>)
    ensures PackAll(a + b) == PackAll(a) + PackAll(b)
  {
    if a == [] {
      assert a + b == b;
    } else {
      assert (a + b)[1..] == a[1..] + b;
      PackAllJoins(a[1..], b);
    }
  }

  lemma CallIsPacked(m: Modification)
    ensures BytesOf(m) == PackAll(ContentsOf(m))
  {
    if m.ReplaceBody? {
      ChunkPacketsArePacked(m.body);
    } else if PacketOf(m) != [] {
      var content := PacketOf(m)[4..];
      PackOne(content);
      assert PacketOf(m) == Pack(content);
    }
  }

  lemma {:induction false} PromisedIsPacked(state: State, option: Option<set<Action>>, calls: seq<Call>)
    ensures Promised(state, option, calls) == PackAll(PromisedContents(state, option, calls))
  {
    if calls != [] {
      var last := calls[|calls| - 1];
      PromisedIsPacked(state, option, calls[..|calls| - 1]);
      if last.Modify? {
        CallIsPacked(last.m);
      }
      PackAllJoins(PromisedContents(state, option, calls[..|calls| - 1]), CallContents(state, option, last));
    }
  }

  lemma FinalIsPacked(status: Status, formatted: Option<Bytes>, reason: Option<Bytes>)
    ensures FinalBytes(status, formatted, reason) == PackAll(FinalContents(status, formatted, reason))
  {
    if StatusPacket(status, formatted).Some? {
      var packet := StatusPacket(status, formatted).value;
      PackOne(packet[4..]);
      assert packet == Pack(packet[4..]);
      var quarantine := [QUARANTINE] + Text(reason) + [0];
      PackOne(quarantine);
      PackAllJoins([quarantine], [packet[4..]]);
    }
  }

  /** What the MTA reads off the wire is the packets of the accepted calls in call order, then
      the quarantine packet, then the reply. */
  lemma MtaReads(state: State, option: Option<set<Action>>, calls: seq<Call>, status: Status,
                 formatted: Option<Bytes>, reason: Option<Bytes>)
    requires
      forall c <- PromisedContents(state, option, calls) + FinalContents(status, formatted, reason) :: |c| < GUINT32
    ensures
      Unpack(Promised(state, option, calls) + FinalBytes(status, formatted, reason))
      == Some(PromisedContents(state, option, calls) + FinalContents(status, formatted, reason))
  {
    PromisedIsPacked(state, option, calls);
    FinalIsPacked(status, formatted, reason);
    PackAllJoins(PromisedContents(state, option, calls), FinalContents(status, formatted, reason));
    UnpackRoundTrip(PromisedContents(state, option, calls) + FinalContents(status, formatted, reason));
  }

  /** The reply comes last. What the receiving side makes of a reply code: it is refused if and only
      if its message is empty, and read as it was set if and only if it has an extended code and a
      message of one line without a carriage return at its end. */
  lemma ReplyReadIff(status: Status, reply: Reply, reason: Option<Bytes>) returns (content: Bytes)
    requires status == TemporaryFailure || status == Reject
    requires Acceptable(reply.code, reply.extendedCode) && Strings(reply)
    ensures FinalContents(status, TextOf(reply), reason) != []
    ensures var final := FinalContents(status, TextOf(reply), reason); content == final[|final| - 1]
    ensures |content| > 0 && content[0] == REPLY_CODE
    ensures
      var read := Decoded(Characters(content[1..]));
      && (read.Some? <==> reply.message != Some(""))
      && (read.Some? ==> read.value.code == reply.code)
      && (read == Some(reply) <==> reply.extendedCode.Some? && OneLine(reply.message))
  {
    hide Decoded, Formatted, OneLine;
    content := ReplyOnWire(status, reply);
    PackOne(content);
    CodeBackIff(reply);
    ReplyBackIff(reply);
  }
}
