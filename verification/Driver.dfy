/** The MTA's side of a session as `tool/milter-test-server.c` drives it: every reply runs a
    switch over the state of the server context, and the cases fall through until one of them
    sends a command. The reference is a plain list of commands, the script, read from the front. */
module Driver {
  import opened Options

  datatype Header = Header(name: string, value: string)

  datatype Command =
    | Connect | Helo | EnvelopeFrom | Recipient(recipient: string) | Unknown(command: string) | Data
    | HeaderLine(header: Header) | EndOfHeader | Body(chunk: string) | EndOfMessage | Abort | Quit

  datatype Step =
    | NoConnect | NoHelo | NoEnvelopeFrom | NoEnvelopeRecipient | NoUnknown | NoData
    | NoHeaders | NoEndOfHeader | NoBody

  /** What was negotiated, and the command given with `--unknown`. */
  datatype Config = Config(steps: set<Step>, version: int, unknown: Option<string>)

  /** The states of the server context. Sending a command puts it in the state of that name. */
  datatype State =
    | AtNegotiate | AtConnect | AtHelo | AtEnvelopeFrom | AtEnvelopeRecipient | AtUnknown | AtData
    | AtHeader | AtEndOfHeader | AtBody | AtEndOfMessage | AtQuit

  datatype Reply = Continue | SkipReply | TemporaryFailure | Reject | Accept | Discard

  // ---------- the script ----------

  function Recipients(rs: seq<string>): seq<Command> {
    if rs == [] then [] else [Recipient(rs[0])] + Recipients(rs[1..])
  }

  function HeaderLines(hs: seq<Header>): seq<Command> {
    if hs == [] then [] else [HeaderLine(hs[0])] + HeaderLines(hs[1..])
  }

  function Bodies(chunks: seq<string>): seq<Command> {
    if chunks == [] then [] else [Body(chunks[0])] + Bodies(chunks[1..])
  }

  /** `xs` unless the milter asked not to get them. */
  function Unless(c: Config, step: Step, xs: seq<Command>): seq<Command> {
    if step in c.steps then [] else xs
  }

  function BodyPart(c: Config, chunks: seq<string>): seq<Command> {
    Unless(c, NoBody, Bodies(chunks)) + [EndOfMessage, Quit]
  }

  function HeaderPart(c: Config, hs: seq<Header>, chunks: seq<string>): seq<Command> {
    Unless(c, NoHeaders, HeaderLines(hs)) + (Unless(c, NoEndOfHeader, [EndOfHeader]) + BodyPart(c, chunks))
  }

  /** DATA exists from version 4 of the protocol on. */
  function DataPart(c: Config, hs: seq<Header>, chunks: seq<string>): seq<Command> {
    (if c.version < 4 then [] else Unless(c, NoData, [Data])) + HeaderPart(c, hs, chunks)
  }

  /** Unknown commands exist from version 3 on. */
  function UnknownCommands(c: Config): seq<Command> {
    if c.version < 3 || c.unknown.None? then [] else Unless(c, NoUnknown, [Unknown(c.unknown.value)])
  }

  function RecipientPart(c: Config, rs: seq<string>, hs: seq<Header>, chunks: seq<string>): seq<Command> {
    Unless(c, NoEnvelopeRecipient, Recipients(rs)) + (UnknownCommands(c) + DataPart(c, hs, chunks))
  }

  function FromPart(c: Config, rs: seq<string>, hs: seq<Header>, chunks: seq<string>): seq<Command> {
    Unless(c, NoEnvelopeFrom, [EnvelopeFrom]) + RecipientPart(c, rs, hs, chunks)
  }

  function HeloPart(c: Config, rs: seq<string>, hs: seq<Header>, chunks: seq<string>): seq<Command> {
    Unless(c, NoHelo, [Helo]) + FromPart(c, rs, hs, chunks)
  }

  /** connect, helo, mail, rcpt*, unknown, data, header*, end of header, body*, end of message, quit */
  function Script(c: Config, rs: seq<string>, hs: seq<Header>, chunks: seq<string>): seq<Command> {
    Unless(c, NoConnect, [Connect]) + HeloPart(c, rs, hs, chunks)
  }

  /** The end of the script that is still to be sent in a state. */
  function Rest(c: Config, state: State, rs: seq<string>, hs: seq<Header>, chunks: seq<string>): seq<Command> {
    match state
    case AtNegotiate => Script(c, rs, hs, chunks)
    case AtConnect => HeloPart(c, rs, hs, chunks)
    case AtHelo => FromPart(c, rs, hs, chunks)
    case AtEnvelopeFrom => RecipientPart(c, rs, hs, chunks)
    case AtEnvelopeRecipient => RecipientPart(c, rs, hs, chunks)
    case AtUnknown => DataPart(c, hs, chunks)
    case AtData => HeaderPart(c, hs, chunks)
    case AtHeader => HeaderPart(c, hs, chunks)
    case AtEndOfHeader => BodyPart(c, chunks)
    case AtBody => BodyPart(c, chunks)
    case AtEndOfMessage => [Quit]
    case AtQuit => []
  }

  lemma Pop(head: Command, xs: seq<Command>, ys: seq<Command>)
    ensures ([head] + xs) + ys == [head] + (xs + ys)
  {}

  lemma NothingFirst(ys: seq<Command>)
    ensures [] + ys == ys
  {}

  // ---------- the reference ----------

  function WithoutBodies(todo: seq<Command>): (r: seq<Command>)
    ensures |r| <= |todo|
  {
    if todo == [] then []
    else if todo[0].Body? then WithoutBodies(todo[1..])
    else [todo[0]] + WithoutBodies(todo[1..])
  }

  /** `remove_recipient`. */
  function RemoveFirst(rs: seq<string>, r: string): seq<string> {
    if rs == [] then [] else if rs[0] == r then rs[1..] else [rs[0]] + RemoveFirst(rs[1..], r)
  }

  datatype Outcome = GoOn(todo: seq<Command>, alive: seq<string>) | GiveUp

  function AfterRefusal(last: Command, todo: seq<Command>, alive: seq<string>): Outcome {
    if last.Recipient? && RemoveFirst(alive, last.recipient) != []
    then GoOn(todo, RemoveFirst(alive, last.recipient))
    else GiveUp
  }

  /** What a reply to `last` means for the commands to do and the recipients alive. */
  function After(last: Command, todo: seq<Command>, alive: seq<string>, reply: Reply): Outcome {
    match reply
    case Continue => GoOn(todo, alive)
    case SkipReply => GoOn(WithoutBodies(todo), alive)
    case TemporaryFailure => AfterRefusal(last, todo, alive)
    case Reject => AfterRefusal(last, todo, alive)
    case Accept => GiveUp
    case Discard => GiveUp
  }

  /** A session on a plain list: send the first command, wait for a reply, go on with the rest. */
  function Replay(todo: seq<Command>, alive: seq<string>, replies: seq<Reply>): seq<Command>
    decreases |todo|
  {
    if todo == [] then []
    else if todo[0] == Quit || replies == [] then [todo[0]]
    else
      match After(todo[0], todo[1..], alive, replies[0])
      case GoOn(rest, left) =>
        assert |rest| <= |todo[1..]|;
        [todo[0]] + Replay(rest, left, replies[1..])
      case GiveUp => [todo[0], Abort, Quit]
  }

  /** How a session turned out: only one that is given up, and not for an accept, has failed. */
  function Verdict(todo: seq<Command>, alive: seq<string>, replies: seq<Reply>): bool
    decreases |todo|
  {
    if todo == [] || todo[0] == Quit || replies == [] then true
    else
      match After(todo[0], todo[1..], alive, replies[0])
      case GoOn(rest, left) => assert |rest| <= |todo[1..]|; Verdict(rest, left, replies[1..])
      case GiveUp => replies[0] == Accept
  }

  lemma ReplayUnfolds(last: Command, left: seq<Command>, alive: seq<string>, replies: seq<Reply>)
    requires last != Quit && replies != []
    ensures
      Replay([last] + left, alive, replies) ==
        match After(last, left, alive, replies[0])
        case GoOn(todo, kept) => [last] + Replay(todo, kept, replies[1..])
        case GiveUp => [last, Abort, Quit]
  {
    assert ([last] + left)[1..] == left;
  }

  lemma VerdictUnfolds(last: Command, left: seq<Command>, alive: seq<string>, replies: seq<Reply>)
    requires last != Quit && replies != []
    ensures
      Verdict([last] + left, alive, replies) ==
        match After(last, left, alive, replies[0])
        case GoOn(todo, kept) => Verdict(todo, kept, replies[1..])
        case GiveUp => replies[0] == Accept
  {
    assert ([last] + left)[1..] == left;
  }

  lemma Regroup(xs: seq<Command>, x: Command, ys: seq<Command>)
    ensures xs + ([x] + ys) == (xs + [x]) + ys
  {}

  lemma ReplayStep(sent: seq<Command>, last: Command, left: seq<Command>, alive: seq<string>, replies: seq<Reply>)
    requires last != Quit && replies != []
    ensures
      var all := sent + Replay([last] + left, alive, replies);
      match After(last, left, alive, replies[0])
      case GoOn(todo, kept) => all == (sent + [last]) + Replay(todo, kept, replies[1..])
      case GiveUp => all == (sent + [last] + [Abort]) + [Quit]
  {
    ReplayUnfolds(last, left, alive, replies);
    match After(last, left, alive, replies[0])
    case GoOn(todo, kept) => Regroup(sent, last, Replay(todo, kept, replies[1..]));
    case GiveUp =>
      assert [last, Abort, Quit] == [last] + ([Abort] + [Quit]);
      Regroup(sent, last, [Abort] + [Quit]);
      Regroup(sent + [last], Abort, [Quit]);
  }

  /** `sent` and one command more were emitted, and the reference goes on from that command. */
  ghost predicate Tracks(emitted: seq<Command>, left: seq<Command>, alive: seq<string>,
                         sent: seq<Command>, replies: seq<Reply>, all: seq<Command>) {
    && emitted != []
    && var last := emitted[|emitted| - 1];
    && emitted == sent + [last]
    && sent + Replay([last] + left, alive, replies) == all
  }

  lemma TrackStep(sent: seq<Command>, last: Command, left: seq<Command>, alive: seq<string>, replies: seq<Reply>,
                  all: seq<Command>, emitted: seq<Command>, left1: seq<Command>, alive1: seq<string>)
    returns (more: seq<Command>)
    requires last != Quit && replies != [] && Tracks(sent + [last], left, alive, sent, replies, all)
    requires
      match After(last, left, alive, replies[0])
      case GoOn(todo, kept) =>
        todo != [] && emitted == (sent + [last]) + [todo[0]] && left1 == todo[1..] && alive1 == kept
      case GiveUp => emitted == (sent + [last]) + [Abort, Quit] && left1 == []
    ensures Tracks(emitted, left1, alive1, more, replies[1..], all)
  {
    ReplayStep(sent, last, left, alive, replies);
    match After(last, left, alive, replies[0])
    case GoOn(todo, _) =>
      more := sent + [last];
      assert todo == [todo[0]] + todo[1..];
    case GiveUp =>
      more := sent + [last] + [Abort];
      assert emitted == more + [Quit];
  }

  // ---------- what the reference sends ----------

  lemma {:induction false} WithoutBodiesJoins(xs: seq<Command>, ys: seq<Command>)
    ensures WithoutBodies(xs + ys) == WithoutBodies(xs) + WithoutBodies(ys)
  {
    if xs == [] {
      assert xs + ys == ys;
    } else {
      assert (xs + ys)[1..] == xs[1..] + ys;
      WithoutBodiesJoins(xs[1..], ys);
    }
  }

  lemma {:induction false} WithoutBodiesSame(xs: seq<Command>)
    requires forall x <- xs :: !x.Body?
    ensures WithoutBodies(xs) == xs
  {
    if xs != [] {
      WithoutBodiesSame(xs[1..]);
      assert xs == [xs[0]] + xs[1..];
    }
  }

  lemma {:induction false} AllBodies(chunks: seq<string>)
    ensures WithoutBodies(Bodies(chunks)) == []
  {
    if chunks != [] {
      AllBodies(chunks[1..]);
    }
  }

  lemma {:induction false} NoBodies(rs: seq<string>, hs: seq<Header>)
    ensures forall x <- Recipients(rs) :: x.Recipient?
    ensures forall x <- HeaderLines(hs) :: x.HeaderLine?
    decreases |rs| + |hs|
  {
    if rs != [] {
      NoBodies(rs[1..], hs);
    } else if hs != [] {
      NoBodies(rs, hs[1..]);
    }
  }

  lemma JoinWithoutBodies(xs: seq<Command>, ys: seq<Command>)
    requires forall x <- xs :: !x.Body?
    ensures WithoutBodies(xs + ys) == xs + WithoutBodies(ys)
  {
    WithoutBodiesJoins(xs, ys);
    WithoutBodiesSame(xs);
  }

  lemma HeadersWithoutBodies(c: Config, hs: seq<Header>, chunks: seq<string>)
    ensures WithoutBodies(BodyPart(c, chunks)) == BodyPart(c, [])
    ensures WithoutBodies(HeaderPart(c, hs, chunks)) == HeaderPart(c, hs, [])
    ensures WithoutBodies(DataPart(c, hs, chunks)) == DataPart(c, hs, [])
  {
    NoBodies([], hs);
    AllBodies(chunks);
    WithoutBodiesJoins(Unless(c, NoBody, Bodies(chunks)), [EndOfMessage, Quit]);
    WithoutBodiesSame([EndOfMessage, Quit]);
    JoinWithoutBodies(Unless(c, NoEndOfHeader, [EndOfHeader]), BodyPart(c, chunks));
    JoinWithoutBodies(Unless(c, NoHeaders, HeaderLines(hs)),
                      Unless(c, NoEndOfHeader, [EndOfHeader]) + BodyPart(c, chunks));
    JoinWithoutBodies(if c.version < 4 then [] else Unless(c, NoData, [Data]), HeaderPart(c, hs, chunks));
  }

  lemma FromWithoutBodies(c: Config, rs: seq<string>, hs: seq<Header>, chunks: seq<string>)
    ensures WithoutBodies(RecipientPart(c, rs, hs, chunks)) == RecipientPart(c, rs, hs, [])
    ensures WithoutBodies(FromPart(c, rs, hs, chunks)) == FromPart(c, rs, hs, [])
  {
    NoBodies(rs, []);
    HeadersWithoutBodies(c, hs, chunks);
    var data := DataPart(c, hs, chunks);
    JoinWithoutBodies(UnknownCommands(c), data);
    JoinWithoutBodies(Unless(c, NoEnvelopeRecipient, Recipients(rs)), UnknownCommands(c) + data);
    JoinWithoutBodies(Unless(c, NoEnvelopeFrom, [EnvelopeFrom]), RecipientPart(c, rs, hs, chunks));
  }

  lemma HeloWithoutBodies(c: Config, rs: seq<string>, hs: seq<Header>, chunks: seq<string>)
    ensures WithoutBodies(HeloPart(c, rs, hs, chunks)) == HeloPart(c, rs, hs, [])
  {
    FromWithoutBodies(c, rs, hs, chunks);
    JoinWithoutBodies(Unless(c, NoHelo, [Helo]), FromPart(c, rs, hs, chunks));
  }

  /** Dropping the chunks from a script is the script of a message without them. */
  lemma RestWithoutBodies(c: Config, state: State, rs: seq<string>, hs: seq<Header>, chunks: seq<string>)
    ensures WithoutBodies(Rest(c, state, rs, hs, chunks)) == Rest(c, state, rs, hs, [])
  {
    match state
    case AtNegotiate =>
      HeloWithoutBodies(c, rs, hs, chunks);
      JoinWithoutBodies(Unless(c, NoConnect, [Connect]), HeloPart(c, rs, hs, chunks));
    case AtConnect => HeloWithoutBodies(c, rs, hs, chunks);
    case AtHelo => FromWithoutBodies(c, rs, hs, chunks);
    case AtEnvelopeFrom => FromWithoutBodies(c, rs, hs, chunks);
    case AtEnvelopeRecipient => FromWithoutBodies(c, rs, hs, chunks);
    case AtUnknown => HeadersWithoutBodies(c, hs, chunks);
    case AtData => HeadersWithoutBodies(c, hs, chunks);
    case AtHeader => HeadersWithoutBodies(c, hs, chunks);
    case AtEndOfHeader => HeadersWithoutBodies(c, [], chunks);
    case AtBody => HeadersWithoutBodies(c, [], chunks);
    case AtEndOfMessage => WithoutBodiesSame([Quit]);
    case AtQuit =>
  }

  // ---------- the driver ----------

  class Driver {
    const c: Config
    const recipients: seq<string>
    const bodyChunks: seq<string>
    var state: State
    var currentRecipient: nat
    var headers: seq<Header>

    var currentBodyChunk: nat
    /** `message->recipients`: those no milter has refused. */
    var accepted: seq<string>
    var success: bool
    var emitted: seq<Command>

    predicate Valid()
      reads `currentRecipient, `currentBodyChunk
    {
      currentRecipient <= |recipients| && currentBodyChunk <= |bodyChunks|
    }

    ghost function Left(): seq<Command>
      requires Valid()
      reads `state, `currentRecipient, `headers, `currentBodyChunk
    {
      Rest(c, state, recipients[currentRecipient..], headers, bodyChunks[currentBodyChunk..])
    }

    constructor (c: Config, recipients: seq<string>, headers: seq<Header>, bodyChunks: seq<string>)
      ensures Valid() && emitted == [] && success && accepted == recipients
      ensures this.c == c && this.recipients == recipients
      ensures state == AtNegotiate && Left() == Script(c, recipients, headers, bodyChunks)
    {
      this.c, this.recipients, this.headers, this.bodyChunks := c, recipients, headers, bodyChunks;
      state, currentRecipient, currentBodyChunk := AtNegotiate, 0, 0;
      accepted, success, emitted := recipients, true, [];
    }

    method Send(command: Command, next: State)
      modifies `emitted, `state
      ensures emitted == old(emitted) + [command] && state == next
    {
      emitted, state := emitted + [command], next;
    }

    // ---------- the cases of the switch, last to first ----------

    method SendBody() returns (sent: bool)
      requires Valid()
      modifies `emitted, `state, `currentBodyChunk
      ensures Valid() && sent == (NoBody !in c.steps && old(currentBodyChunk) < |bodyChunks|)
      ensures sent ==> emitted == old(emitted) + [Body(bodyChunks[old(currentBodyChunk)])]
      ensures sent ==> state == AtBody && currentBodyChunk == old(currentBodyChunk) + 1
      ensures !sent ==> emitted == old(emitted) && state == old(state) && currentBodyChunk == old(currentBodyChunk)
    {
      sent := false;
      if NoBody in c.steps {
        return;
      }
      if currentBodyChunk == |bodyChunks| {
        return;
      }
      Send(Body(bodyChunks[currentBodyChunk]), AtBody);
      currentBodyChunk := currentBodyChunk + 1;
      sent := true;
    }

    /** The state of the context is that of the command sent last. */
    ghost predicate InStep()
      requires Valid()
      reads `emitted, `state, `currentRecipient, `currentBodyChunk
    {
      && emitted != []
      && (state == AtQuit <==> emitted[|emitted| - 1] == Quit)
      && (state == AtEnvelopeRecipient <==> emitted[|emitted| - 1].Recipient?)
      && (state == AtEnvelopeRecipient ==>
            0 < currentRecipient && emitted[|emitted| - 1] == Recipient(recipients[currentRecipient - 1]))
    }

    /** One command of `script` was sent, the first, and the others are left. */
    ghost predicate Advanced(before: seq<Command>, script: seq<Command>)
      requires Valid()
      reads `emitted, `state, `currentRecipient, `headers, `currentBodyChunk
    {
      script != [] && emitted == before + [script[0]] && Left() == script[1..] && InStep()
    }

    method FromBody()
      requires Valid()
      modifies `emitted, `state, `currentBodyChunk
      ensures Valid() && Advanced(old(emitted), BodyPart(c, bodyChunks[old(currentBodyChunk)..]))
    {
      ghost var chunks := bodyChunks[currentBodyChunk..];
      var sent := SendBody();
      if sent {
        assert chunks[1..] == bodyChunks[currentBodyChunk..];
        Pop(Body(chunks[0]), Bodies(chunks[1..]), [EndOfMessage, Quit]);
      } else {
        NothingFirst([EndOfMessage, Quit]);
        Send(EndOfMessage, AtEndOfMessage);
      }
    }

    method SendEndOfHeader() returns (sent: bool)
      modifies `emitted, `state
      ensures sent == (NoEndOfHeader !in c.steps)
      ensures if sent then emitted == old(emitted) + [EndOfHeader] && state == AtEndOfHeader
              else emitted == old(emitted) && state == old(state)
    {
      sent := false;
      if NoEndOfHeader in c.steps {
        return;
      }
      Send(EndOfHeader, AtEndOfHeader);
      sent := true;
    }

    /** The first header goes out and is taken off the list. */
    method SendHeader() returns (sent: bool)
      modifies `emitted, `state, `headers
      ensures sent == (NoHeaders !in c.steps && old(headers) != [])
      ensures sent ==>
        emitted == old(emitted) + [HeaderLine(old(headers)[0])] && state == AtHeader && headers == old(headers)[1..]
      ensures !sent ==> emitted == old(emitted) && state == old(state) && headers == old(headers)
    {
      sent := false;
      if NoHeaders in c.steps {
        return;
      }
      if |headers| == 0 {
        return;
      }
      Send(HeaderLine(headers[0]), AtHeader);
      headers := headers[1..];
      sent := true;
    }

    /** The case HEADER, which the case DATA falls into after trying the same header. */
    method FromHeader()
      requires Valid()
      modifies `emitted, `state, `headers, `currentBodyChunk
      ensures Valid() && Advanced(old(emitted), HeaderPart(c, old(headers), bodyChunks[old(currentBodyChunk)..]))
    {
      ghost var body := BodyPart(c, bodyChunks[currentBodyChunk..]);
      ghost var rest := Unless(c, NoEndOfHeader, [EndOfHeader]) + body;
      ghost var hs := headers;
      var sent := SendHeader();
      if sent {
        Pop(HeaderLine(hs[0]), HeaderLines(hs[1..]), rest);
        return;
      }
      NothingFirst(rest);
      sent := SendEndOfHeader();
      if sent {
        return;
      }
      NothingFirst(body);
      FromBody();
    }

    method FromData()
      requires Valid()
      modifies `emitted, `state, `headers, `currentBodyChunk
      ensures Valid() && Advanced(old(emitted), HeaderPart(c, old(headers), bodyChunks[old(currentBodyChunk)..]))
    {
      ghost var rest := Unless(c, NoEndOfHeader, [EndOfHeader]) + BodyPart(c, bodyChunks[currentBodyChunk..]);
      ghost var hs := headers;
      var sent := SendHeader();
      if sent {
        Pop(HeaderLine(hs[0]), HeaderLines(hs[1..]), rest);
        return;
      }
      FromHeader();
    }

    method SendData() returns (sent: bool)
      modifies `emitted, `state
      ensures sent == (NoData !in c.steps && c.version >= 4)
      ensures if sent then emitted == old(emitted) + [Data] && state == AtData
              else emitted == old(emitted) && state == old(state)
    {
      sent := false;
      if NoData in c.steps {
        return;
      }
      if c.version < 4 {
        return;
      }
      Send(Data, AtData);
      sent := true;
    }

    method FromUnknown()
      requires Valid()
      modifies `emitted, `state, `headers, `currentBodyChunk
      ensures Valid() && Advanced(old(emitted), DataPart(c, old(headers), bodyChunks[old(currentBodyChunk)..]))
    {
      ghost var rest := HeaderPart(c, headers, bodyChunks[currentBodyChunk..]);
      var sent := SendData();
      if sent {
        return;
      }
      NothingFirst(rest);
      FromData();
    }

    method SendUnknown() returns (sent: bool)
      modifies `emitted, `state
      ensures sent == (UnknownCommands(c) != [])
      ensures if sent then emitted == old(emitted) + UnknownCommands(c) && state == AtUnknown
              else emitted == old(emitted) && state == old(state)
    {
      sent := false;
      if NoUnknown in c.steps {
        return;
      }
      if c.unknown == None {
        return;
      }
      if c.version < 3 {
        return;
      }
      Send(Unknown(c.unknown.value), AtUnknown);
      sent := true;
    }

    method SendEnvelopeRecipient() returns (sent: bool)
      requires Valid()
      modifies `emitted, `state, `currentRecipient
      ensures Valid() && sent == (old(currentRecipient) < |recipients| && NoEnvelopeRecipient !in c.steps)
      ensures sent ==> emitted == old(emitted) + [Recipient(recipients[old(currentRecipient)])]
      ensures sent ==> state == AtEnvelopeRecipient && currentRecipient == old(currentRecipient) + 1
      ensures !sent ==> emitted == old(emitted) && state == old(state) && currentRecipient == old(currentRecipient)
    {
      sent := false;
      if currentRecipient == |recipients| {
        return;
      }
      if NoEnvelopeRecipient in c.steps {
        return;
      }
      Send(Recipient(recipients[currentRecipient]), AtEnvelopeRecipient);
      currentRecipient := currentRecipient + 1;
      sent := true;
    }

    /** The case ENVELOPE_RECIPIENT, which ENVELOPE_FROM falls into after trying the same recipient. */
    method FromRecipient()
      requires Valid()
      modifies `emitted, `state, `currentRecipient, `headers, `currentBodyChunk
      ensures Valid()
      ensures Advanced(old(emitted),
                RecipientPart(c, recipients[old(currentRecipient)..], old(headers),
                              bodyChunks[old(currentBodyChunk)..]))
    {
      ghost var data := DataPart(c, headers, bodyChunks[currentBodyChunk..]);
      ghost var rs := recipients[currentRecipient..];
      var sent := SendEnvelopeRecipient();
      if sent {
        assert rs[1..] == recipients[currentRecipient..];
        Pop(Recipient(rs[0]), Recipients(rs[1..]), UnknownCommands(c) + data);
        return;
      }
      NothingFirst(UnknownCommands(c) + data);
      sent := SendUnknown();
      if sent {
        return;
      }
      NothingFirst(data);
      FromUnknown();
    }

    method FromEnvelopeFrom()
      requires Valid()
      modifies `emitted, `state, `currentRecipient, `headers, `currentBodyChunk
      ensures Valid()
      ensures Advanced(old(emitted),
                RecipientPart(c, recipients[old(currentRecipient)..], old(headers),
                              bodyChunks[old(currentBodyChunk)..]))
    {
      ghost var rs := recipients[currentRecipient..];
      ghost var rest := UnknownCommands(c) + DataPart(c, headers, bodyChunks[currentBodyChunk..]);
      var sent := SendEnvelopeRecipient();
      if sent {
        assert rs[1..] == recipients[currentRecipient..];
        Pop(Recipient(rs[0]), Recipients(rs[1..]), rest);
        return;
      }
      FromRecipient();
    }

    /** `send_envelope_from`, `send_helo` and `send_connect`: one command, unless switched off. */
    method SendUnless(step: Step, command: Command, next: State) returns (sent: bool)
      modifies `emitted, `state
      ensures sent == (step !in c.steps)
      ensures if sent then emitted == old(emitted) + [command] && state == next
              else emitted == old(emitted) && state == old(state)
    {
      sent := false;
      if step in c.steps {
        return;
      }
      Send(command, next);
      sent := true;
    }

    method FromHelo()
      requires Valid()
      modifies `emitted, `state, `currentRecipient, `headers, `currentBodyChunk
      ensures Valid()
      ensures Advanced(old(emitted),
                FromPart(c, recipients[old(currentRecipient)..], old(headers), bodyChunks[old(currentBodyChunk)..]))
    {
      ghost var rest := RecipientPart(c, recipients[currentRecipient..], headers, bodyChunks[currentBodyChunk..]);
      var sent := SendUnless(NoEnvelopeFrom, EnvelopeFrom, AtEnvelopeFrom);
      if !sent {
        NothingFirst(rest);
        FromEnvelopeFrom();
      }
    }

    method FromConnect()
      requires Valid()
      modifies `emitted, `state, `currentRecipient, `headers, `currentBodyChunk
      ensures Valid()
      ensures Advanced(old(emitted),
                HeloPart(c, recipients[old(currentRecipient)..], old(headers), bodyChunks[old(currentBodyChunk)..]))
    {
      ghost var rest := FromPart(c, recipients[currentRecipient..], headers, bodyChunks[currentBodyChunk..]);
      var sent := SendUnless(NoHelo, Helo, AtHelo);
      if !sent {
        NothingFirst(rest);
        FromHelo();
      }
    }

    method FromNegotiate()
      requires Valid()
      modifies `emitted, `state, `currentRecipient, `headers, `currentBodyChunk
      ensures Valid()
      ensures Advanced(old(emitted),
                Script(c, recipients[old(currentRecipient)..], old(headers), bodyChunks[old(currentBodyChunk)..]))
    {
      ghost var rest := HeloPart(c, recipients[currentRecipient..], headers, bodyChunks[currentBodyChunk..]);
      var sent := SendUnless(NoConnect, Connect, AtConnect);
      if !sent {
        NothingFirst(rest);
        FromConnect();
      }
    }

    method FromEndOfHeader()
      requires Valid()
      modifies `emitted, `state, `currentBodyChunk
      ensures Valid() && Advanced(old(emitted), BodyPart(c, bodyChunks[old(currentBodyChunk)..]))
    {
      ghost var chunks := bodyChunks[currentBodyChunk..];
      var sent := SendBody();
      if sent {
        assert chunks[1..] == bodyChunks[currentBodyChunk..];
        Pop(Body(chunks[0]), Bodies(chunks[1..]), [EndOfMessage, Quit]);
        return;
      }
      FromBody();
    }

    /** `cb_continue`: whatever the state, the next command of the script goes out. */
    method CbContinue()
      requires Valid() && state != AtQuit
      modifies `emitted, `state, `currentRecipient, `headers, `currentBodyChunk
      ensures Valid() && Advanced(old(emitted), old(Left()))
    {
      match state {
        case AtNegotiate => FromNegotiate();
        case AtConnect => FromConnect();
        case AtHelo => FromHelo();
        case AtEnvelopeFrom => FromEnvelopeFrom();
        case AtEnvelopeRecipient => FromRecipient();
        case AtUnknown => FromUnknown();
        case AtData => FromData();
        case AtHeader => FromHeader();
        case AtEndOfHeader => FromEndOfHeader();
        case AtBody => FromBody();
        case AtEndOfMessage => Send(Quit, AtQuit);
      }
    }

    /** `cb_skip`: the body chunks not sent yet never are. */
    method CbSkip()
      requires Valid() && state != AtQuit
      modifies `emitted, `state, `currentRecipient, `headers, `currentBodyChunk
      ensures Valid() && Advanced(old(emitted), WithoutBodies(old(Left())))
    {
      RestWithoutBodies(c, state, recipients[currentRecipient..], headers, bodyChunks[currentBodyChunk..]);
      while currentBodyChunk < |bodyChunks|
        invariant Valid() && emitted == old(emitted) && state == old(state)
        invariant currentRecipient == old(currentRecipient) && headers == old(headers)
      {
        currentBodyChunk := currentBodyChunk + 1;
      }
      assert bodyChunks[currentBodyChunk..] == [];
      CbContinue();
    }

    /** `send_abort`, which quits as well. */
    method SendAbort()
      requires Valid()
      modifies `emitted, `state
      ensures Valid() && emitted == old(emitted) + [Abort, Quit] && state == AtQuit && InStep()
    {
      Send(Abort, state);
      Send(Quit, AtQuit);
    }

    /** What one reply did: the script goes on, or the session was given up, successfully or not. */
    ghost predicate Did(before: seq<Command>, was: bool, outcome: Outcome, given: bool)
      requires Valid()
      reads `emitted, `state, `currentRecipient, `headers, `currentBodyChunk, `accepted, `success
    {
      match outcome
      case GoOn(todo, left) => accepted == left && Advanced(before, todo) && success == was
      case GiveUp => emitted == before + [Abort, Quit] && state == AtQuit && InStep() && success == given
    }

    /** `cb_temporary_failure` and `cb_reject`: a refused recipient is dropped, and the message goes
        on while any is left. */
    method CbRefused()
      requires Valid() && InStep() && state != AtQuit
      modifies `emitted, `state, `currentRecipient, `headers, `currentBodyChunk, `accepted, `success
      ensures Valid()
      ensures Did(old(emitted), old(success),
                AfterRefusal(old(emitted)[|old(emitted)| - 1], old(Left()), old(accepted)), false)
    {
      if state == AtEnvelopeRecipient {
        accepted := RemoveFirst(accepted, recipients[currentRecipient - 1]);
        if accepted != [] {
          CbContinue();
          return;
        }
      }
      SendAbort();
      success := false;
    }

    method Receive(reply: Reply)
      requires Valid() && InStep() && state != AtQuit
      modifies `emitted, `state, `currentRecipient, `headers, `currentBodyChunk, `accepted, `success
      ensures Valid()
      ensures Did(old(emitted), old(success),
                After(old(emitted)[|old(emitted)| - 1], old(Left()), old(accepted), reply), reply == Accept)
    {
      match reply {
        case Continue => CbContinue();
        case SkipReply => CbSkip();
        case TemporaryFailure => CbRefused();
        case Reject => CbRefused();
        case Accept =>
          SendAbort();
          success := true;
        case Discard =>
          SendAbort();
          success := false;
      }
    }

    /** The verdict is still open, or `success` holds it. */
    ghost predicate Judged(replies: seq<Reply>, verdict: bool)
      requires Valid()
      reads `emitted, `state, `currentRecipient, `headers, `currentBodyChunk, `accepted, `success
    {
      && emitted != []
      && (state != AtQuit ==> success)
      && verdict == (success && Verdict([emitted[|emitted| - 1]] + Left(), accepted, replies))
    }

    lemma JudgedStep(before: seq<Command>, left: seq<Command>, alive: seq<string>, replies: seq<Reply>, verdict: bool)
      requires Valid() && before != [] && before[|before| - 1] != Quit && replies != []
      requires verdict == Verdict([before[|before| - 1]] + left, alive, replies)
      requires Did(before, true, After(before[|before| - 1], left, alive, replies[0]), replies[0] == Accept)
      ensures Judged(replies[1..], verdict)
    {
      var last := before[|before| - 1];
      VerdictUnfolds(last, left, alive, replies);
      match After(last, left, alive, replies[0])
      case GoOn(todo, _) => assert [todo[0]] + todo[1..] == todo;
      case GiveUp => assert emitted[|emitted| - 1] == Quit;
    }

    ghost predicate OnTrack(sent: seq<Command>, replies: seq<Reply>, all: seq<Command>)
      requires Valid()
      reads `emitted, `state, `currentRecipient, `headers, `currentBodyChunk, `accepted
    {
      Tracks(emitted, Left(), accepted, sent, replies, all)
    }

    method ReceiveNext(reply: Reply, ghost sent: seq<Command>, ghost replies: seq<Reply>, ghost all: seq<Command>,
                       ghost verdict: bool)
      returns (ghost more: seq<Command>)
      requires Valid() && InStep() && state != AtQuit && Judged(replies, verdict)
      requires replies != [] && replies[0] == reply && OnTrack(sent, replies, all)
      modifies `emitted, `state, `currentRecipient, `headers, `currentBodyChunk, `accepted, `success
      ensures Valid() && InStep() && OnTrack(more, replies[1..], all) && Judged(replies[1..], verdict)
    {
      ghost var before, last, left, alive := emitted, emitted[|emitted| - 1], Left(), accepted;
      Receive(reply);
      JudgedStep(before, left, alive, replies, verdict);
      more := TrackStep(sent, last, left, alive, replies, all, emitted, Left(), accepted);
    }

    lemma SessionOver(sent: seq<Command>, replies: seq<Reply>, all: seq<Command>, verdict: bool)
      requires Valid() && InStep() && OnTrack(sent, replies, all) && Judged(replies, verdict)
      requires replies == [] || state == AtQuit
      ensures emitted == all && success == verdict
    {}

    lemma SessionBegins(todo: seq<Command>, replies: seq<Reply>)
      requires Valid() && success && Advanced([], todo)
      ensures OnTrack([], replies, Replay(todo, accepted, replies))
      ensures Judged(replies, Verdict(todo, accepted, replies))
    {
      assert [todo[0]] + todo[1..] == todo;
      NothingFirst(Replay(todo, accepted, replies));
    }

    /** A whole session after the negotiation: the milter's replies, in order, until QUIT. */
    method Run(replies: seq<Reply>)
      requires Valid() && state == AtNegotiate && emitted == [] && accepted == recipients && success
      modifies `emitted, `state, `currentRecipient, `headers, `currentBodyChunk, `accepted, `success
      ensures emitted == Replay(old(Left()), recipients, replies)
      ensures success == Verdict(old(Left()), recipients, replies)
    {
      hide Tracks, Replay, Verdict, Judged, OnTrack, Rest;
      ghost var todo := Left();
      ghost var all, verdict := Replay(todo, recipients, replies), Verdict(todo, recipients, replies);
      CbContinue();
      SessionBegins(todo, replies);
      ghost var sent: seq<Command> := [];
      var i := 0;
      while i < |replies| && state != AtQuit
        invariant i <= |replies| && Valid() && InStep()
        invariant OnTrack(sent, replies[i..], all) && Judged(replies[i..], verdict)
      {
        sent := ReceiveNext(replies[i], sent, replies[i..], all, verdict);
        i := i + 1;
      }
      SessionOver(sent, replies[i..], all, verdict);
    }
  }

  // ---------- whole sessions ----------

  /** A script ends with its only QUIT and aborts nothing. */
  ghost predicate Closed(todo: seq<Command>) {
    && todo != []
    && todo[|todo| - 1] == Quit
    && (forall i :: 0 <= i < |todo| - 1 ==> todo[i] != Quit && todo[i] != Abort)
  }

  lemma ClosedAfter(xs: seq<Command>, ys: seq<Command>)
    requires Closed(ys) && forall x <- xs :: x != Quit && x != Abort
    ensures Closed(xs + ys)
  {
    forall i | 0 <= i < |xs + ys| - 1 ensures (xs + ys)[i] != Quit && (xs + ys)[i] != Abort {
      if i < |xs| {
        assert xs[i] in xs;
      }
    }
  }

  lemma {:induction false} OnlyBodies(chunks: seq<string>)
    ensures forall x <- Bodies(chunks) :: x.Body?
  {
    if chunks != [] {
      OnlyBodies(chunks[1..]);
    }
  }

  lemma HeaderPartClosed(c: Config, hs: seq<Header>, chunks: seq<string>)
    ensures Closed(DataPart(c, hs, chunks))
  {
    OnlyBodies(chunks);
    NoBodies([], hs);
    ClosedAfter(Unless(c, NoBody, Bodies(chunks)), [EndOfMessage, Quit]);
    ClosedAfter(Unless(c, NoEndOfHeader, [EndOfHeader]), BodyPart(c, chunks));
    ClosedAfter(Unless(c, NoHeaders, HeaderLines(hs)), Unless(c, NoEndOfHeader, [EndOfHeader]) + BodyPart(c, chunks));
    ClosedAfter(if c.version < 4 then [] else Unless(c, NoData, [Data]), HeaderPart(c, hs, chunks));
  }

  lemma ScriptClosed(c: Config, rs: seq<string>, hs: seq<Header>, chunks: seq<string>)
    ensures Closed(Script(c, rs, hs, chunks))
  {
    NoBodies(rs, []);
    HeaderPartClosed(c, hs, chunks);
    var data := DataPart(c, hs, chunks);
    ClosedAfter(UnknownCommands(c), data);
    ClosedAfter(Unless(c, NoEnvelopeRecipient, Recipients(rs)), UnknownCommands(c) + data);
    ClosedAfter(Unless(c, NoEnvelopeFrom, [EnvelopeFrom]), RecipientPart(c, rs, hs, chunks));
    ClosedAfter(Unless(c, NoHelo, [Helo]), FromPart(c, rs, hs, chunks));
    ClosedAfter(Unless(c, NoConnect, [Connect]), HeloPart(c, rs, hs, chunks));
  }

  lemma {:induction false} WithoutBodiesClosed(todo: seq<Command>)
    requires Closed(todo)
    ensures Closed(WithoutBodies(todo))
  {
    if |todo| > 1 {
      WithoutBodiesClosed(todo[1..]);
      if !todo[0].Body? {
        ClosedAfter([todo[0]], WithoutBodies(todo[1..]));
      }
    } else {
      assert todo == [Quit];
      WithoutBodiesSame(todo);
    }
  }

  /** When every reply is "continue" the whole script goes out. */
  lemma {:induction false} ContinueSendsAll(todo: seq<Command>, alive: seq<string>, replies: seq<Reply>)
    requires Closed(todo) && |todo| <= |replies| + 1
    requires forall i | 0 <= i < |replies| :: replies[i] == Continue
    ensures Replay(todo, alive, replies) == todo
  {
    if |todo| > 1 {
      ContinueSendsAll(todo[1..], alive, replies[1..]);
      assert todo == [todo[0]] + todo[1..];
    } else {
      assert todo == [Quit];
    }
  }

  lemma {:induction false} WithoutBodiesTwice(todo: seq<Command>)
    ensures forall x <- WithoutBodies(todo) :: !x.Body?
  {
    if todo != [] {
      WithoutBodiesTwice(todo[1..]);
    }
  }

  lemma {:induction false} SkipsSendBodiless(todo: seq<Command>, alive: seq<string>, replies: seq<Reply>)
    requires Closed(todo) && |todo| <= |replies| + 1
    requires forall i | 0 <= i < |replies| :: replies[i] == Continue || replies[i] == SkipReply
    requires forall x <- todo :: !x.Body?
    ensures Replay(todo, alive, replies) == todo
  {
    if |todo| > 1 {
      WithoutBodiesSame(todo[1..]);
      SkipsSendBodiless(todo[1..], alive, replies[1..]);
      assert todo == [todo[0]] + todo[1..];
      assert replies[0] == Continue || replies[0] == SkipReply;
    } else {
      assert todo == [Quit];
    }
  }

  lemma SplitLater(todo: seq<Command>, k: nat)
    requires 0 < k < |todo|
    ensures todo[1..][k..] == todo[k + 1..]
    ensures [todo[0]] + (todo[1..][..k] + WithoutBodies(todo[k + 1..])) == todo[..k + 1] + WithoutBodies(todo[k + 1..])
  {
    assert todo[..k + 1] == [todo[0]] + todo[1..][..k];
    Pop(todo[0], todo[1..][..k], WithoutBodies(todo[k + 1..]));
  }

  /** With skips among the replies, the first of them costs exactly the chunks not sent yet, and
      further ones cost nothing. */
  lemma {:induction false} SkipSendsTheRest(todo: seq<Command>, alive: seq<string>, replies: seq<Reply>, k: nat)
    requires Closed(todo) && |todo| <= |replies| + 1 && k < |todo| - 1
    requires forall i | 0 <= i < |replies| :: replies[i] == Continue || replies[i] == SkipReply
    requires replies[k] == SkipReply && forall i | 0 <= i < k :: replies[i] == Continue
    ensures Replay(todo, alive, replies) == todo[..k + 1] + WithoutBodies(todo[k + 1..])
  {
    var (first, rest) := (todo[0], todo[1..]);
    assert todo == [first] + rest;
    ReplayUnfolds(first, rest, alive, replies);
    if k == 0 {
      WithoutBodiesClosed(rest);
      WithoutBodiesTwice(rest);
      SkipsSendBodiless(WithoutBodies(rest), alive, replies[1..]);
    } else {
      SkipSendsTheRest(rest, alive, replies[1..], k - 1);
      SplitLater(todo, k);
    }
  }

  /** Whatever the replies are, given as many as there are commands the session ends: QUIT is the
      last command and the only QUIT, and nothing but QUIT follows an abort. */
  lemma {:induction false} SessionEnds(todo: seq<Command>, alive: seq<string>, replies: seq<Reply>)
    requires Closed(todo) && |todo| <= |replies| + 1
    ensures
      var sent := Replay(todo, alive, replies);
      && sent != [] && sent[|sent| - 1] == Quit
      && (forall i :: 0 <= i < |sent| - 1 ==> sent[i] != Quit)
      && (forall i :: 0 <= i < |sent| - 2 ==> sent[i] != Abort)
      && |sent| <= |todo| + 1
    decreases |todo|
  {
    if |todo| > 1 {
      match After(todo[0], todo[1..], alive, replies[0])
      case GoOn(rest, left) =>
        WithoutBodiesClosed(todo[1..]);
        SessionEnds(rest, left, replies[1..]);
      case GiveUp =>
    }
  }

  // ---------- refused recipients ----------

  lemma {:induction false} RemoveFirstTakesOne(rs: seq<string>, r: string)
    requires r in rs
    ensures multiset(RemoveFirst(rs, r)) == multiset(rs) - multiset{r}
    ensures |RemoveFirst(rs, r)| == |rs| - 1
  {
    assert rs == [rs[0]] + rs[1..];
    if rs[0] != r {
      RemoveFirstTakesOne(rs[1..], r);
    }
  }

  function Refused(verdicts: seq<Reply>): nat {
    if verdicts == [] then 0 else Refused(verdicts[1..]) + if verdicts[0] == Continue then 0 else 1
  }

  lemma RemoveKeepsOthers(rs: seq<string>, alive: seq<string>)
    requires rs != [] && multiset(rs) <= multiset(alive)
    ensures multiset(rs[1..]) <= multiset(alive)
    ensures multiset(rs[1..]) <= multiset(RemoveFirst(alive, rs[0])) && |RemoveFirst(alive, rs[0])| == |alive| - 1
  {
    assert rs == [rs[0]] + rs[1..];
    assert rs[0] in multiset(rs);
    RemoveFirstTakesOne(alive, rs[0]);
  }

  /** The session from the first of some recipients on. */
  lemma RecipientReplied(rs: seq<string>, alive: seq<string>, verdicts: seq<Reply>, rest: seq<Command>,
                         more: seq<Reply>)
    requires rs != [] && verdicts != []
    ensures
      Replay(Recipients(rs) + rest, alive, verdicts + more) ==
        match After(Recipient(rs[0]), Recipients(rs[1..]) + rest, alive, verdicts[0])
        case GoOn(todo, kept) => [Recipient(rs[0])] + Replay(todo, kept, verdicts[1..] + more)
        case GiveUp => [Recipient(rs[0]), Abort, Quit]
  {
    Pop(Recipient(rs[0]), Recipients(rs[1..]), rest);
    assert (verdicts + more)[1..] == verdicts[1..] + more;
    ReplayUnfolds(Recipient(rs[0]), Recipients(rs[1..]) + rest, alive, verdicts + more);
  }

  /** What follows the recipients when `left` of them are alive. */
  function Onward(left: seq<string>, rest: seq<Command>, more: seq<Reply>): seq<Command> {
    if left == [] then [Abort, Quit] else Replay(rest, left, more)
  }

  lemma NoneLeft(rs: seq<string>, alive: seq<string>)
    requires rs != [] && multiset(rs) <= multiset(alive) && |alive| == 1
    ensures |rs| == 1
  {
    assert multiset(alive) == multiset(rs) + (multiset(alive) - multiset(rs));
    assert |multiset(alive)| == |multiset(rs)| + |multiset(alive) - multiset(rs)|;
    assert |multiset(rs)| == |rs|;
  }

  /** Of the recipients some may be dead already, `alive` holds at least those still to be sent.
      Only when every one is refused does the session end there, and then all were sent. */
  lemma {:induction false} Refusals(rs: seq<string>, alive: seq<string>, verdicts: seq<Reply>,
                                    rest: seq<Command>, more: seq<Reply>)
    returns (left: seq<string>)
    requires |rs| == |verdicts| && multiset(rs) <= multiset(alive) && alive != []
    requires forall i | 0 <= i < |verdicts| :: verdicts[i] in {Continue, TemporaryFailure, Reject}
    ensures |left| == |alive| - Refused(verdicts)
    ensures Replay(Recipients(rs) + rest, alive, verdicts + more) == Recipients(rs) + Onward(left, rest, more)
  {
    if rs == [] {
      NothingFirst(rest);
      NothingFirst(Replay(rest, alive, more));
      assert verdicts + more == more;
      left := alive;
      return;
    }
    RemoveKeepsOthers(rs, alive);
    RecipientReplied(rs, alive, verdicts, rest, more);
    var alive1 := if verdicts[0] == Continue then alive else RemoveFirst(alive, rs[0]);
    if alive1 == [] {
      NoneLeft(rs, alive);
      left := [];
      assert Recipients(rs) == [Recipient(rs[0])] + [];
    } else {
      left := Refusals(rs[1..], alive1, verdicts[1..], rest, more);
    }
    Pop(Recipient(rs[0]), Recipients(rs[1..]), Onward(left, rest, more));
  }

  // ---------- what ends a session ----------

  /** The first command of what is left is sent. */
  lemma StartsWith(todo: seq<Command>, alive: seq<string>, replies: seq<Reply>)
    requires Closed(todo)
    ensures Replay(todo, alive, replies) != [] && Replay(todo, alive, replies)[0] == todo[0] != Abort
  {}

  lemma {:induction false} BodilessStays(todo: seq<Command>, alive: seq<string>, replies: seq<Reply>)
    ensures (forall x <- todo :: !x.Body?) ==> forall x <- Replay(todo, alive, replies) :: !x.Body?
    decreases |todo|
  {
    if todo != [] && todo[0] != Quit && replies != [] && forall x <- todo :: !x.Body? {
      WithoutBodiesSame(todo[1..]);
      match After(todo[0], todo[1..], alive, replies[0])
      case GoOn(rest, left) => BodilessStays(rest, left, replies[1..]);
      case GiveUp =>
    }
  }

  /** What `reply` to the command at `k` makes of the commands sent. */
  ghost predicate Ends(sent: seq<Command>, k: nat, reply: Reply)
    requires k + 1 < |sent|
  {
    match reply
    case Accept => sent[k + 1..] == [Abort, Quit]
    case Discard => sent[k + 1..] == [Abort, Quit]
    case Continue => sent[k + 1] != Abort
    case SkipReply => sent[k + 1] != Abort && forall i :: k < i < |sent| ==> !sent[i].Body?
    case _ => !sent[k].Recipient? ==> sent[k + 1..] == [Abort, Quit]
  }

  lemma EndsLater(first: Command, later: seq<Command>, k: nat, reply: Reply)
    requires k + 1 < |later| && Ends(later, k, reply)
    ensures Ends([first] + later, k + 1, reply)
  {
    var sent := [first] + later;
    assert sent[k + 2..] == later[k + 1..];
    assert forall i :: 0 < i < |sent| ==> sent[i] == later[i - 1];
  }

  lemma FirstEnds(todo: seq<Command>, alive: seq<string>, replies: seq<Reply>)
    requires Closed(todo) && todo[0] != Quit && replies != []
    requires |Replay(todo, alive, replies)| > 1
    ensures Ends(Replay(todo, alive, replies), 0, replies[0])
  {
    var (first, rest) := (todo[0], todo[1..]);
    assert todo == [first] + rest;
    ReplayUnfolds(first, rest, alive, replies);
    match After(first, rest, alive, replies[0])
    case GoOn(next, left) =>
      WithoutBodiesClosed(rest);
      WithoutBodiesTwice(rest);
      BodilessStays(next, left, replies[1..]);
      StartsWith(next, left, replies[1..]);
    case GiveUp => assert [first, Abort, Quit][1..] == [Abort, Quit];
  }

  /** What a reply does to the session, over any run: accept and discard end it, as does a refusal of
      anything but a recipient; continue and skip never do, and after a skip no chunk is sent. */
  lemma {:induction false} EndsSession(todo: seq<Command>, alive: seq<string>, replies: seq<Reply>, k: nat)
    requires Closed(todo) && k < |replies| && k + 1 < |Replay(todo, alive, replies)|
    requires Replay(todo, alive, replies)[k] != Abort
    ensures Ends(Replay(todo, alive, replies), k, replies[k])
    decreases k
  {
    hide Ends;
    if k == 0 {
      FirstEnds(todo, alive, replies);
    } else {
      var (first, rest) := (todo[0], todo[1..]);
      assert todo == [first] + rest;
      ReplayUnfolds(first, rest, alive, replies);
      match After(first, rest, alive, replies[0])
      case GoOn(next, left) =>
        WithoutBodiesClosed(rest);
        EndsSession(next, left, replies[1..], k - 1);
        EndsLater(first, Replay(next, left, replies[1..]), k - 1, replies[k]);
      case GiveUp => assert false;
    }
  }

  /** It shows in what was sent: an abort that no accept has asked for. */
  lemma {:induction false} FailsIff(todo: seq<Command>, alive: seq<string>, replies: seq<Reply>)
    requires Closed(todo)
    ensures
      var sent := Replay(todo, alive, replies);
      !Verdict(todo, alive, replies)
      <==> 3 <= |sent| <= |replies| + 2 && sent[|sent| - 2] == Abort && replies[|sent| - 3] != Accept
    decreases |todo|
  {
    if todo[0] != Quit && replies != [] {
      var (first, rest) := (todo[0], todo[1..]);
      match After(first, rest, alive, replies[0])
      case GoOn(next, left) =>
        WithoutBodiesClosed(rest);
        FailsIff(next, left, replies[1..]);
        StartsWith(next, left, replies[1..]);
        var later := Replay(next, left, replies[1..]);
        assert Replay(todo, alive, replies) == [first] + later;
        if |later| == 2 {
          assert later[0] == next[0];
        }
      case GiveUp =>
    }
  }

  // ---------- who is told what ----------

  datatype Kind =
    | OfConnect | OfHelo | OfEnvelopeFrom | OfRecipients | OfUnknown | OfData | OfHeaders | OfEndOfHeader
    | OfBodies | OfEndOfMessage | OfQuit | OfAbort

  function KindOf(x: Command): Kind {
    match x
    case Connect => OfConnect
    case Helo => OfHelo
    case EnvelopeFrom => OfEnvelopeFrom
    case Recipient(_) => OfRecipients
    case Unknown(_) => OfUnknown
    case Data => OfData
    case HeaderLine(_) => OfHeaders
    case EndOfHeader => OfEndOfHeader
    case Body(_) => OfBodies
    case EndOfMessage => OfEndOfMessage
    case Quit => OfQuit
    case Abort => OfAbort
  }

  /** The commands of a kind, in order. */
  function Only(kind: Kind, xs: seq<Command>): seq<Command> {
    if xs == [] then [] else (if KindOf(xs[0]) == kind then [xs[0]] else []) + Only(kind, xs[1..])
  }

  lemma {:induction false} OnlyJoins(kind: Kind, xs: seq<Command>, ys: seq<Command>)
    ensures Only(kind, xs + ys) == Only(kind, xs) + Only(kind, ys)
  {
    hide KindOf;
    if xs == [] {
      assert xs + ys == ys;
    } else {
      var head := if KindOf(xs[0]) == kind then [xs[0]] else [];
      assert (xs + ys)[1..] == xs[1..] + ys;
      OnlyJoins(kind, xs[1..], ys);
      assert Only(kind, xs + ys) == head + Only(kind, xs[1..] + ys);
      assert head + (Only(kind, xs[1..]) + Only(kind, ys)) == (head + Only(kind, xs[1..])) + Only(kind, ys);
    }
  }

  ghost predicate AllOf(kind: Kind, xs: seq<Command>) {
    forall x <- xs :: KindOf(x) == kind
  }

  lemma {:induction false} OnlyOfKind(kind: Kind, mine: Kind, xs: seq<Command>)
    requires AllOf(mine, xs)
    ensures Only(kind, xs) == if kind == mine then xs else []
  {
    hide KindOf;
    if xs != [] {
      OnlyOfKind(kind, mine, xs[1..]);
      assert xs == [xs[0]] + xs[1..];
    }
  }

  /** Commands of one kind in front of others. */
  lemma OnlyFront(kind: Kind, mine: Kind, xs: seq<Command>, ys: seq<Command>)
    requires AllOf(mine, xs)
    ensures Only(kind, xs + ys) == (if kind == mine then xs else []) + Only(kind, ys)
    ensures kind != mine ==> Only(kind, xs + ys) == Only(kind, ys)
  {
    OnlyJoins(kind, xs, ys);
    OnlyOfKind(kind, mine, xs);
  }

  /** What of each kind the milter is to be told: what it has not declined, DATA from version 4 and an
      unknown command from version 3 of the protocol on. */
  function Wanted(kind: Kind, c: Config, rs: seq<string>, hs: seq<Header>, chunks: seq<string>): seq<Command> {
    match kind
    case OfConnect => if NoConnect in c.steps then [] else [Connect]
    case OfHelo => if NoHelo in c.steps then [] else [Helo]
    case OfEnvelopeFrom => if NoEnvelopeFrom in c.steps then [] else [EnvelopeFrom]
    case OfRecipients => if NoEnvelopeRecipient in c.steps then [] else Recipients(rs)
    case OfUnknown =>
      if c.version >= 3 && NoUnknown !in c.steps && c.unknown.Some? then [Unknown(c.unknown.value)] else []
    case OfData => if c.version >= 4 && NoData !in c.steps then [Data] else []
    case OfHeaders => if NoHeaders in c.steps then [] else HeaderLines(hs)
    case OfEndOfHeader => if NoEndOfHeader in c.steps then [] else [EndOfHeader]
    case OfBodies => if NoBody in c.steps then [] else Bodies(chunks)
    case OfEndOfMessage => [EndOfMessage]
    case OfQuit => [Quit]
    case OfAbort => []
  }

  /** Where a kind comes in a session. */
  function Rank(kind: Kind): nat {
    match kind
    case OfConnect => 0
    case OfHelo => 1
    case OfEnvelopeFrom => 2
    case OfRecipients => 3
    case OfUnknown => 4
    case OfData => 5
    case OfHeaders => 6
    case OfEndOfHeader => 7
    case OfBodies => 8
    case OfEndOfMessage => 9
    case OfQuit => 10
    case OfAbort => 11
  }

  /** `xs` has what is wanted of the kinds from rank `from` on, and nothing else, in that order. */
  ghost predicate Tells(from: nat, xs: seq<Command>, c: Config, rs: seq<string>, hs: seq<Header>,
                        chunks: seq<string>)
  {
    && (forall kind: Kind :: Only(kind, xs) == if Rank(kind) >= from then Wanted(kind, c, rs, hs, chunks) else [])
    && (forall i, j :: 0 <= i < j < |xs| ==> Rank(KindOf(xs[i])) <= Rank(KindOf(xs[j])))
    && (forall x <- xs :: Rank(KindOf(x)) >= from)
  }

  lemma TellsMore(mine: Kind, xs: seq<Command>, ys: seq<Command>, c: Config, rs: seq<string>, hs: seq<Header>,
                  chunks: seq<string>)
    requires AllOf(mine, xs) && xs == Wanted(mine, c, rs, hs, chunks) && Tells(Rank(mine) + 1, ys, c, rs, hs, chunks)
    ensures Tells(Rank(mine), xs + ys, c, rs, hs, chunks)
  {
    hide Wanted, KindOf, Only;
    forall kind: Kind
      ensures Only(kind, xs + ys) == if Rank(kind) >= Rank(mine) then Wanted(kind, c, rs, hs, chunks) else []
    {
      OnlyFront(kind, mine, xs, ys);
      assert Only(kind, ys) == if Rank(kind) >= Rank(mine) + 1 then Wanted(kind, c, rs, hs, chunks) else [];
      assert xs + [] == xs;
    }
    var all := xs + ys;
    forall i, j | 0 <= i < j < |all| ensures Rank(KindOf(all[i])) <= Rank(KindOf(all[j])) {
      assert i < |xs| ==> all[i] in xs;
      assert j < |xs| ==> all[j] in xs;
      assert j >= |xs| ==> all[j] in ys;
    }
  }

  lemma TellsNothing(c: Config, rs: seq<string>, hs: seq<Header>, chunks: seq<string>)
    ensures Tells(11, [], c, rs, hs, chunks)
  {}

  lemma TellsEnd(c: Config, rs: seq<string>, hs: seq<Header>, chunks: seq<string>)
    ensures Tells(9, [EndOfMessage, Quit], c, rs, hs, chunks)
  {
    hide Tells;
    TellsNothing(c, rs, hs, chunks);
    TellsMore(OfQuit, [Quit], [], c, rs, hs, chunks);
    assert [Quit] + [] == [Quit];
    TellsMore(OfEndOfMessage, [EndOfMessage], [Quit], c, rs, hs, chunks);
    assert [EndOfMessage] + [Quit] == [EndOfMessage, Quit];
  }

  lemma ListsOfKind(rs: seq<string>, hs: seq<Header>, chunks: seq<string>)
    ensures AllOf(OfRecipients, Recipients(rs)) && AllOf(OfHeaders, HeaderLines(hs)) && AllOf(OfBodies, Bodies(chunks))
  {
    NoBodies(rs, []);
    NoBodies([], hs);
    OnlyBodies(chunks);
  }

  lemma SinglesOfKind(c: Config)
    ensures AllOf(OfConnect, [Connect]) && AllOf(OfHelo, [Helo]) && AllOf(OfEnvelopeFrom, [EnvelopeFrom])
    ensures AllOf(OfUnknown, UnknownCommands(c)) && AllOf(OfData, [Data]) && AllOf(OfEndOfHeader, [EndOfHeader])
    ensures forall kind: Kind :: AllOf(kind, [])
  {}

  lemma HeaderPartTells(c: Config, rs: seq<string>, hs: seq<Header>, chunks: seq<string>)
    ensures Tells(6, HeaderPart(c, hs, chunks), c, rs, hs, chunks)
  {
    hide Tells, KindOf;
    TellsEnd(c, rs, hs, chunks);
    ListsOfKind(rs, hs, chunks);
    SinglesOfKind(c);
    TellsMore(OfBodies, Unless(c, NoBody, Bodies(chunks)), [EndOfMessage, Quit], c, rs, hs, chunks);
    TellsMore(OfEndOfHeader, Unless(c, NoEndOfHeader, [EndOfHeader]), BodyPart(c, chunks), c, rs, hs, chunks);
    TellsMore(OfHeaders, Unless(c, NoHeaders, HeaderLines(hs)),
              Unless(c, NoEndOfHeader, [EndOfHeader]) + BodyPart(c, chunks), c, rs, hs, chunks);
  }

  lemma RecipientPartTells(c: Config, rs: seq<string>, hs: seq<Header>, chunks: seq<string>)
    ensures Tells(3, RecipientPart(c, rs, hs, chunks), c, rs, hs, chunks)
  {
    hide Tells, KindOf, HeaderPart;
    HeaderPartTells(c, rs, hs, chunks);
    ListsOfKind(rs, hs, chunks);
    SinglesOfKind(c);
    TellsMore(OfData, if c.version < 4 then [] else Unless(c, NoData, [Data]), HeaderPart(c, hs, chunks),
              c, rs, hs, chunks);
    TellsMore(OfUnknown, UnknownCommands(c), DataPart(c, hs, chunks), c, rs, hs, chunks);
    TellsMore(OfRecipients, Unless(c, NoEnvelopeRecipient, Recipients(rs)),
              UnknownCommands(c) + DataPart(c, hs, chunks), c, rs, hs, chunks);
  }

  lemma UnlessWanted(c: Config, rs: seq<string>, hs: seq<Header>, chunks: seq<string>)
    ensures Unless(c, NoConnect, [Connect]) == Wanted(OfConnect, c, rs, hs, chunks)
    ensures Unless(c, NoHelo, [Helo]) == Wanted(OfHelo, c, rs, hs, chunks)
    ensures Unless(c, NoEnvelopeFrom, [EnvelopeFrom]) == Wanted(OfEnvelopeFrom, c, rs, hs, chunks)
  {}

  /** The script tells the milter of every kind what is wanted, once and in order, and nothing else;
      and the kinds come in the order of a session. */
  lemma ScriptTells(c: Config, rs: seq<string>, hs: seq<Header>, chunks: seq<string>)
    ensures
      var script := Script(c, rs, hs, chunks);
      && (forall kind: Kind :: Only(kind, script) == Wanted(kind, c, rs, hs, chunks))
      && (forall i, j :: 0 <= i < j < |script| ==> Rank(KindOf(script[i])) <= Rank(KindOf(script[j])))
  {
    hide KindOf, RecipientPart, Only, Wanted;
    RecipientPartTells(c, rs, hs, chunks);
    SinglesOfKind(c);
    UnlessWanted(c, rs, hs, chunks);
    TellsMore(OfEnvelopeFrom, Unless(c, NoEnvelopeFrom, [EnvelopeFrom]), RecipientPart(c, rs, hs, chunks),
              c, rs, hs, chunks);
    TellsMore(OfHelo, Unless(c, NoHelo, [Helo]), FromPart(c, rs, hs, chunks), c, rs, hs, chunks);
    TellsMore(OfConnect, Unless(c, NoConnect, [Connect]), HeloPart(c, rs, hs, chunks), c, rs, hs, chunks);
  }
}
