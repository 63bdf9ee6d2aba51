/** From the calls of a filter to what the other side understands: the encoder, the packet buffer and
    the decoder put together. */
module ReplyMeanings {
  import opened Options
  import opened ReplyBuffer
  import opened ReplyCodes
  import opened ReplyPackets
  import opened ReplyReceiver
  import opened StatusCode

  // ---------- what is meant ----------

  function BodyMeant(chunks: seq<Bytes>): seq<Reading> {
    if chunks == [] then [] else [ReplaceBodyRead(chunks[0])] + BodyMeant(chunks[1..])
  }

  predicate Accepted(state: State, option: Option<set<Action>>, call: Call) {
    call.Modify? && RefusalOf(state, option, call.m).None?
  }

  /** What an accepted call is meant to be read as; a header without a name is not sent. */
  function CallMeant(state: State, option: Option<set<Action>>, call: Call): seq<Reading> {
    if !Accepted(state, option, call) then []
    else if call.m.ReplaceBody? then BodyMeant(Chunks(call.m.body))
    else if Subject(call.m) == [] then []
    else [Meant(call.m)]
  }

  function CallsMeant(state: State, option: Option<set<Action>>, calls: seq<Call>): seq<Reading> {
    if calls == [] then []
    else CallsMeant(state, option, calls[..|calls| - 1]) + CallMeant(state, option, calls[|calls| - 1])
  }

  /** No accepted call changes the sender with parameters that are given but empty. */
  predicate Legible(state: State, option: Option<set<Action>>, calls: seq<Call>) {
    forall i :: 0 <= i < |calls| && Accepted(state, option, calls[i]) ==> !EmptyParameters(calls[i].m)
  }

  /** The strings of the calls contain no NUL. */
  predicate PlainCalls(calls: seq<Call>) {
    forall i :: 0 <= i < |calls| ==>
      && (calls[i].Modify? ==> Plain(calls[i].m))
      && (calls[i].Quarantine? ==> NulFree(Text(calls[i].reason)))
  }

  /** The accepted calls in order, then the quarantine, then the reply. */
  ghost predicate Understood(rs: seq<Reading>, state: State, option: Option<set<Action>>, calls: seq<Call>,
                             status: Status, reply: Reply, reason: Option<Bytes>)
  {
    var meant := CallsMeant(state, option, calls);
    if status == OtherStatus then rs == meant
    else
      && rs != []
      && rs[..|rs| - 1] == meant + (if Text(reason) == [] then [] else [QuarantineRead(Text(reason))])
      && FinalMeant(status, reply, rs[|rs| - 1])
  }

  // ---------- it was negotiated ----------

  /** Whether the negotiated actions let the other side do what it reads. */
  predicate Permits(actions: set<Action>, r: Reading) {
    match r
    case AddHeaderRead(_, _) => AddHeaders in actions
    case InsertHeaderRead(_, _, _) => AddHeaders in actions
    case ChangeHeaderRead(_, _, _) => ChangeHeaders in actions
    case DeleteHeaderRead(_, _) => ChangeHeaders in actions
    case ChangeFromRead(_, _) => ChangeEnvelopeFrom in actions
    case AddRecipientRead(_, _) => AddEnvelopeRecipient in actions
    case DeleteRecipientRead(_) => DeleteEnvelopeRecipient in actions
    case ReplaceBodyRead(_) => ChangeBody in actions
    case _ => true
  }

  /** A call with its arguments in order is accepted if and only if it comes at end of message and
      what it is meant to be read as has been negotiated. */
  lemma AcceptedIff(state: State, option: Option<set<Action>>, m: Modification)
    requires ArgumentRefusal(m).None?
    ensures Accepted(state, option, Call.Modify(m))
      <==> state == State.EndOfMessage && option.Some? && Permits(option.value, Meant(m))
  {}

  lemma {:induction false} BodyPermitted(actions: set<Action>, chunks: seq<Bytes>)
    requires ChangeBody in actions
    ensures forall r <- BodyMeant(chunks) :: Permits(actions, r)
  {
    if chunks != [] {
      BodyPermitted(actions, chunks[1..]);
    }
  }

  /** The other side is asked for nothing that was not negotiated. */
  lemma {:induction false} OnlyNegotiated(state: State, option: Option<set<Action>>, calls: seq<Call>)
    ensures forall r <- CallsMeant(state, option, calls) :: option.Some? && Permits(option.value, r)
  {
    hide Permits, Meant, Chunks, ArgumentRefusal;
    if calls != [] {
      OnlyNegotiated(state, option, calls[..|calls| - 1]);
      var last := calls[|calls| - 1];
      if Accepted(state, option, last) {
        AcceptedIff(state, option, last.m);
        if last.m.ReplaceBody? {
          BodyPermitted(option.value, Chunks(last.m.body));
        }
      }
    }
  }

  // ---------- it is understood ----------

  lemma {:induction false} BodyRead(chunks: seq<Bytes>)
    ensures ReadEach(BodyContents(chunks)) == Some(BodyMeant(chunks))
  {
    if chunks != [] {
      var content := [REPLACE_BODY] + chunks[0];
      assert content[1..] == chunks[0];
      assert Received(content) == Some(ReplaceBodyRead(chunks[0]));
      BodyRead(chunks[1..]);
      assert BodyContents(chunks)[1..] == BodyContents(chunks[1..]);
    }
  }

  lemma CallReadIff(state: State, option: Option<set<Action>>, call: Call)
    requires call.Modify? ==> Plain(call.m)
    ensures
      var read := ReadEach(CallContents(state, option, call));
      && (read.Some? <==> Accepted(state, option, call) ==> !EmptyParameters(call.m))
      && (read.Some? ==> read.value == CallMeant(state, option, call))
  {
    hide Received, Meant, Chunks, BodyContents, BodyMeant;
    if Accepted(state, option, call) {
      if call.m.ReplaceBody? {
        BodyRead(Chunks(call.m.body));
      } else if Subject(call.m) != [] {
        hide PacketOf;
        ModificationReadIff(call.m);
        ReadOne(PacketOf(call.m)[4..]);
      }
    }
  }

  /** The packets of the calls are read as those calls, in order, if and only if all are legible. */
  lemma {:induction false} CallsReadIff(state: State, option: Option<set<Action>>, calls: seq<Call>)
    requires PlainCalls(calls)
    ensures
      var read := ReadEach(PromisedContents(state, option, calls));
      && (read.Some? <==> Legible(state, option, calls))
      && (read.Some? ==> read.value == CallsMeant(state, option, calls))
  {
    hide Accepted, CallContents, CallMeant, EmptyParameters, Plain;
    if calls != [] {
      var most, last := calls[..|calls| - 1], calls[|calls| - 1];
      CallsReadIff(state, option, most);
      CallReadIff(state, option, last);
      ReadEachJoins(PromisedContents(state, option, most), CallContents(state, option, last));
      assert forall i :: 0 <= i < |most| ==> most[i] == calls[i];
    }
  }

  lemma QuarantineBack(reason: Bytes)
    requires NulFree(reason) && reason != []
    ensures Received([QUARANTINE] + reason + [0]) == Some(QuarantineRead(reason))
  {
    OneStringOnWire(QUARANTINE, reason);
  }

  lemma FinalReadIff(status: Status, reply: Reply, reason: Option<Bytes>)
    requires ReplyOk(reply) && NulFree(Text(reason))
    ensures
      var read := ReadEach(FinalContents(status, TextOf(reply), reason));
      && (read.Some? <==> !EmptyRefusal(status, reply))
      && (read.Some? ==> Understood(read.value, OtherState, None, [], status, reply, reason))
  {
    hide Received, Formatted, Encoded, FinalMeant, ReplyOk;
    if status == OtherStatus {
      assert FinalContents(status, TextOf(reply), reason) == [];
    } else {
      StatusReadIff(status, reply);
      var content := StatusPacket(status, TextOf(reply)).value[4..];
      ReadOne(content);
      if Text(reason) != [] {
        var first := [QUARANTINE] + Text(reason) + [0];
        QuarantineBack(Text(reason));
        ReadOne(first);
        ReadEachJoins([first], [content]);
      } else {
        assert [] + [content] == [content];
      }
    }
  }

  lemma Joined(rs: seq<Reading>, more: seq<Reading>, state: State, option: Option<set<Action>>, calls: seq<Call>,
               status: Status, reply: Reply, reason: Option<Bytes>)
    requires rs == CallsMeant(state, option, calls)
    requires Understood(more, OtherState, None, [], status, reply, reason)
    ensures Understood(rs + more, state, option, calls, status, reply, reason)
  {
    if status == OtherStatus {
      assert rs + [] == rs;
    } else {
      var all := rs + more;
      assert all[|all| - 1] == more[|more| - 1];
      assert all[..|all| - 1] == rs + more[..|more| - 1];
      assert CallsMeant(OtherState, None, []) == [];
      var quarantine: seq<Reading> := if Text(reason) == [] then [] else [QuarantineRead(Text(reason))];
      assert [] + quarantine == quarantine;
    }
  }

  /** The packets are shorter than 2 GiB, as the decoder's length is signed. */
  ghost predicate Fits(state: State, option: Option<set<Action>>, calls: seq<Call>, status: Status,
                       formatted: Option<Bytes>, reason: Option<Bytes>)
  {
    forall c <- PromisedContents(state, option, calls) + FinalContents(status, formatted, reason) ::
      |c| < 0x8000_0000
  }

  /** A whole message: the other side reads exactly the accepted calls in order, the quarantine and
      the reply, if and only if no call and no reply is one that its decoder does not accept; if one
      is, it reads nothing more. */
  lemma MessageReadIff(state: State, option: Option<set<Action>>, calls: seq<Call>, status: Status,
                       reply: Reply, reason: Option<Bytes>)
    requires ReplyOk(reply) && NulFree(Text(reason)) && PlainCalls(calls)
    requires Fits(state, option, calls, status, TextOf(reply), reason)
    ensures
      var read := Read(Promised(state, option, calls) + FinalBytes(status, TextOf(reply), reason));
      && (read.Some? <==> Legible(state, option, calls) && !EmptyRefusal(status, reply))
      && (read.Some? ==> Understood(read.value, state, option, calls, status, reply, reason))
  {
    hide PromisedContents, FinalContents, Understood, Legible, EmptyRefusal, PlainCalls, Promised, FinalBytes, ReadEach;
    var calling, final := PromisedContents(state, option, calls), FinalContents(status, TextOf(reply), reason);
    MtaReads(state, option, calls, status, TextOf(reply), reason);
    CallsReadIff(state, option, calls);
    FinalReadIff(status, reply, reason);
    ReadEachJoins(calling, final);
    if ReadEach(calling).Some? && ReadEach(final).Some? {
      Joined(ReadEach(calling).value, ReadEach(final).value, state, option, calls, status, reply, reason);
    }
  }

  // ---------- on the wire ----------

  lemma {:induction false} StaysOk(reply: Reply, calls: seq<Call>)
    requires ReplyOk(reply)
    ensures ReplyOk(ReplyAfter(reply, calls))
  {
    hide Acceptable;
    if calls != [] {
      StaysOk(reply, calls[..|calls| - 1]);
    }
  }

  lemma {:induction false} StaysNulFree(reason: Option<Bytes>, calls: seq<Call>)
    requires NulFree(Text(reason)) && PlainCalls(calls)
    ensures NulFree(Text(ReasonAfter(reason, calls)))
  {
    hide Plain;
    if calls != [] {
      StaysNulFree(reason, calls[..|calls| - 1]);
    }
  }

  lemma Behind(wire: Bytes, added: Bytes)
    ensures (wire + added)[|wire|..] == added && (wire + [] + added)[|wire|..] == added
  {
    assert wire + [] == wire;
  }

  /** An end-of-message handler on a connection that carries it all: what the MTA reads. */
  method MessageUnderstood(c: ClientContext, calls: seq<Call>, status: Status) returns (ok: bool)
    requires c.Valid() && c.writer != null && c.bufferedPackets == []
    requires ReplyOk(c.reply) && NulFree(Text(c.quarantineReason)) && PlainCalls(calls)
    requires Fits(c.state, c.option, calls, status, TextOf(ReplyAfter(c.reply, calls)),
                  ReasonAfter(c.quarantineReason, calls))
    modifies c, c.writer
    ensures c.writer == old(c.writer) && |old(c.writer.wire)| <= |c.writer.wire|
    ensures !c.writer.broken ==>
      var (reply, reason) := (ReplyAfter(old(c.reply), calls), ReasonAfter(old(c.quarantineReason), calls));
      var read := Read(c.writer.wire[|old(c.writer.wire)|..]);
      && (read.Some? <==> Legible(old(c.state), old(c.option), calls) && !EmptyRefusal(status, reply))
      && (read.Some? ==> Understood(read.value, old(c.state), old(c.option), calls, status, reply, reason))
  {
    hide Understood, Legible, EmptyRefusal, PlainCalls, Promised, FinalBytes, Read, ReplyAfter, ReasonAfter, ReplyOk;
    hide Fits, NulFree;
    ghost var reply, reason := ReplyAfter(c.reply, calls), ReasonAfter(c.quarantineReason, calls);
    ghost var wire, added := c.writer.wire,
      Promised(c.state, c.option, calls) + FinalBytes(status, TextOf(reply), reason);
    StaysOk(c.reply, calls);
    StaysNulFree(c.quarantineReason, calls);
    MessageReadIff(c.state, c.option, calls, status, reply, reason);
    ok := c.RunMessage(calls, status);
    Behind(wire, added);
  }

  /** The reply to a command, with nothing buffered, on a connection that carries it. */
  method CommandUnderstood(c: ClientContext, status: Status) returns (ok: bool)
    requires c.Valid() && c.writer != null && c.bufferedPackets == [] && ReplyOk(c.reply) && status != OtherStatus
    requires Fits(c.state, c.option, [], status, TextOf(c.reply), None)
    modifies c, c.writer
    ensures c.writer == old(c.writer) && |old(c.writer.wire)| <= |c.writer.wire|
    ensures ok ==>
      var read := Read(c.writer.wire[|old(c.writer.wire)|..]);
      && (read.Some? <==> !EmptyRefusal(status, old(c.reply)))
      && (read.Some? ==> |read.value| == 1 && FinalMeant(status, old(c.reply), read.value[0]))
  {
    hide Read, ReplyOk, Fits, FinalMeant, Formatted, Encoded, EmptyRefusal;
    StatusReadIff(status, c.reply);
    MessageReadIff(c.state, c.option, [], status, c.reply, None);
    ghost var wire, packet := c.writer.wire, StatusPacket(status, TextOf(c.reply)).value;
    ok := c.ReplyToCommand(status);
    assert [] + packet == packet;
    assert wire + packet + [] == wire + packet;
    Behind(wire, packet);
  }
}
