/** The receiving side of a milter's replies: what `milter-reply-decoder.c` makes of the content of
    one packet, and of a stream of packets. The letters are those of `milter-protocol.h`. */
module ReplyReceiver {
  import opened Options
  import opened ReplyCodes
  import opened ReplyPackets
  import opened StatusCode

  /** The signal the decoder emits. A value that is NULL in C is None. */
  datatype Reading =
    | ContinueRead | TemporaryFailureRead | RejectRead | AcceptRead | DiscardRead | SkipRead | ProgressRead
    | ConnectionFailureRead | ShutdownRead
    | ReplyCodeRead(reply: Reply)
    | AddHeaderRead(name: Bytes, value: Bytes)
    | InsertHeaderRead(index: int, name: Bytes, inserted: Option<Bytes>)
    | ChangeHeaderRead(name: Bytes, index: int, value: Bytes)
    | DeleteHeaderRead(name: Bytes, index: int)
    | ChangeFromRead(from: Bytes, parameters: Option<Bytes>)
    | AddRecipientRead(recipient: Bytes, parameters: Option<Bytes>)
    | DeleteRecipientRead(recipient: Bytes)
    | ReplaceBodyRead(chunk: Bytes)
    | QuarantineRead(reason: Bytes)

  // ---------- C strings in a packet ----------

  predicate NulFree(s: Bytes) {
    0 !in s
  }

  /** The string in front of the first NUL, and what is behind that. */
  function Cut(s: Bytes): Option<(Bytes, Bytes)> {
    if s == [] then None
    else if s[0] == 0 then Some(([], s[1..]))
    else match Cut(s[1..]) case None => None case Some((t, rest)) => Some(([s[0]] + t, rest))
  }

  lemma {:induction false} CutBack(t: Bytes, rest: Bytes)
    requires NulFree(t)
    ensures Cut(t + [0] + rest) == Some((t, rest))
  {
    var s := t + [0] + rest;
    if t == [] {
      assert s[1..] == rest;
    } else {
      assert s[1..] == t[1..] + [0] + rest && s[0] == t[0] != 0;
      CutBack(t[1..], rest);
      assert [t[0]] + t[1..] == t;
    }
  }

  // ---------- the decoder ----------

  /** The replies that are a letter and nothing else. */
  function Bare(rest: Bytes, reading: Reading): Option<Reading> {
    if rest == [] then Some(reading) else None
  }

  /** A string that must not be empty. */
  function OneString(s: Bytes): Option<Bytes> {
    match Cut(s)
    case None => None
    case Some((first, _)) => if first == [] then None else Some(first)
  }

  /** `decode_two_string`: the second is optional, but neither may be empty. */
  function TwoStrings(s: Bytes): Option<(Bytes, Option<Bytes>)> {
    match Cut(s)
    case None => None
    case Some((first, rest)) =>
      if first == [] then None
      else if rest == [] then Some((first, None))
      else
        match OneString(rest)
        case None => None
        case Some(second) => Some((first, Some(second)))
  }

  /** `milter_decoder_decode_header_content`: the value may be empty. */
  function NameAndValue(s: Bytes): Option<(Bytes, Bytes)> {
    match Cut(s)
    case None => None
    case Some((name, rest)) =>
      if name == [] then None
      else
        match Cut(rest)
        case None => None
        case Some((value, _)) => Some((name, value))
  }

  /** A 32-bit number taken for a `gint`. */
  function Signed(n: nat): int {
    if n < 0x8000_0000 then n else n - GUINT32
  }

  /** `decode_header_content_with_index`: an empty value is none at all. */
  function IndexedHeader(s: Bytes): Option<(int, Bytes, Option<Bytes>)> {
    if |s| < 4 then None
    else
      match NameAndValue(s[4..])
      case None => None
      case Some((name, value)) => Some((Signed(FromBe32(s)), name, if value == [] then None else Some(value)))
  }

  function UpToNul(s: Bytes): Bytes {
    match Cut(s) case None => s case Some((t, _)) => t
  }

  /** `decode`: what the other side takes the content of one packet for. */
  function Received(content: Bytes): Option<Reading> {
    if content == [] then None
    else
      var rest := content[1..];
      match content[0] as char
      case 'c' => Bare(rest, ContinueRead)
      case 'y' => (match Decoded(Characters(rest)) case None => None case Some(reply) => Some(ReplyCodeRead(reply)))
      case 't' => Bare(rest, TemporaryFailureRead)
      case 'r' => Bare(rest, RejectRead)
      case 'a' => Bare(rest, AcceptRead)
      case 'd' => Bare(rest, DiscardRead)
      case 'h' =>
        (match NameAndValue(rest) case None => None case Some((name, value)) => Some(AddHeaderRead(name, value)))
      case 'i' =>
        (match IndexedHeader(rest)
         case None => None
         case Some((index, name, value)) => Some(InsertHeaderRead(index, name, value)))
      case 'm' =>
        (match IndexedHeader(rest)
         case None => None
         case Some((index, name, value)) =>
           if value.Some? then Some(ChangeHeaderRead(name, index, value.value))
           else Some(DeleteHeaderRead(name, index)))
      case 'e' =>
        (match TwoStrings(rest)
         case None => None
         case Some((from, parameters)) => Some(ChangeFromRead(from, parameters)))
      case '+' => Some(AddRecipientRead(UpToNul(rest), None))
      case '2' =>
        (match TwoStrings(rest)
         case None => None
         case Some((recipient, parameters)) => Some(AddRecipientRead(recipient, parameters)))
      case '-' =>
        (match OneString(rest) case None => None case Some(recipient) => Some(DeleteRecipientRead(recipient)))
      case 'b' => Some(ReplaceBodyRead(rest))
      case 'p' => Bare(rest, ProgressRead)
      case 'q' => (match OneString(rest) case None => None case Some(reason) => Some(QuarantineRead(reason)))
      case 'f' => Bare(rest, ConnectionFailureRead)
      case '4' => Bare(rest, ShutdownRead)
      case 's' => Bare(rest, SkipRead)
      case _ => None
  }

  /** The packets are read one after the other; one that cannot be read is the end of it all. */
  function ReadEach(contents: seq<Bytes>): Option<seq<Reading>> {
    if contents == [] then Some([])
    else
      match Received(contents[0])
      case None => None
      case Some(first) =>
        match ReadEach(contents[1..])
        case None => None
        case Some(rest) => Some([first] + rest)
  }

  function Read(wire: Bytes): Option<seq<Reading>> {
    match Unpack(wire) case None => None case Some(contents) => ReadEach(contents)
  }

  lemma {:induction false} ReadEachJoins(a: seq<Bytes>, b: seq<Bytes>)
    ensures ReadEach(a + b).Some? <==> ReadEach(a).Some? && ReadEach(b).Some?
    ensures ReadEach(a + b).Some? ==> ReadEach(a + b).value == ReadEach(a).value + ReadEach(b).value
  {
    hide Received;
    if a == [] {
      assert a + b == b;
    } else {
      assert (a + b)[1..] == a[1..] + b;
      ReadEachJoins(a[1..], b);
    }
  }

  lemma ReadOne(content: Bytes)
    ensures ReadEach([content]) == (match Received(content) case None => None case Some(r) => Some([r]))
  {
    hide Received;
    assert [content][1..] == [];
    if Received(content).Some? {
      assert [Received(content).value] + [] == [Received(content).value];
    }
  }

  // ---------- modifications ----------

  /** What a modification is about: without it nothing is sent. */
  function Subject(m: Modification): Bytes {
    match m
    case AddHeader(name, _) => Text(name)
    case InsertHeader(_, name, _) => Text(name)
    case ChangeHeader(name, _, _) => Text(name)
    case DeleteHeader(name, _) => Text(name)
    case ChangeFrom(from, _) => Text(from)
    case AddRecipient(recipient, _) => Text(recipient)
    case DeleteRecipient(recipient) => Text(recipient)
    case ReplaceBody(body) => body
  }

  /** Its other argument. */
  function Detail(m: Modification): Bytes {
    match m
    case AddHeader(_, value) => Text(value)
    case InsertHeader(_, _, value) => Text(value)
    case ChangeHeader(_, _, value) => Text(value)
    case ChangeFrom(_, parameters) => Text(parameters)
    case AddRecipient(_, parameters) => Text(parameters)
    case _ => []
  }

  /** C strings contain no NUL; a body may. */
  predicate Plain(m: Modification) {
    !m.ReplaceBody? ==> NulFree(Subject(m)) && NulFree(Detail(m))
  }

  function Present(s: Bytes): Option<Bytes> {
    if s == [] then None else Some(s)
  }

  /** What a call is meant to be read as. A header changed to an empty value is deleted; of an index
      the lower 32 bits are left, as a signed number. */
  function Meant(m: Modification): Reading {
    match m
    case AddHeader(name, value) => AddHeaderRead(Text(name), Text(value))
    case InsertHeader(index, name, value) => InsertHeaderRead(Signed(index % GUINT32), Text(name), Present(Text(value)))
    case ChangeHeader(name, index, value) =>
      if Text(value) == [] then DeleteHeaderRead(Text(name), Signed(index % GUINT32))
      else ChangeHeaderRead(Text(name), Signed(index % GUINT32), Text(value))
    case DeleteHeader(name, index) => DeleteHeaderRead(Text(name), Signed(index % GUINT32))
    case ChangeFrom(from, parameters) => ChangeFromRead(Text(from), Present(Text(parameters)))
    case AddRecipient(recipient, parameters) => AddRecipientRead(Text(recipient), Present(Text(parameters)))
    case DeleteRecipient(recipient) => DeleteRecipientRead(Text(recipient))
    case ReplaceBody(body) => ReplaceBodyRead(body)
  }

  /** A sender's parameters that are given but empty: the encoder writes them, the decoder does not
      accept them. */
  predicate EmptyParameters(m: Modification) {
    m.ChangeFrom? && m.parameters == Some([])
  }

  lemma PackedContent(content: Bytes)
    ensures Pack(content)[4..] == content && Pack(content) != []
  {}

  lemma NameAndValueBack(name: Bytes, value: Bytes)
    requires NulFree(name) && NulFree(value) && name != []
    ensures NameAndValue(name + [0] + value + [0]) == Some((name, value))
  {
    hide Cut;
    assert name + [0] + value + [0] == name + [0] + (value + [0]);
    CutBack(name, value + [0]);
    assert value + [0] + [] == value + [0];
    CutBack(value, []);
  }

  lemma IndexedBack(index: nat, name: Bytes, value: Bytes)
    requires NulFree(name) && NulFree(value) && name != []
    ensures IndexedHeader(Be32(index % GUINT32) + name + [0] + value + [0])
      == Some((Signed(index % GUINT32), name, Present(value)))
  {
    hide NameAndValue, Be32, FromBe32;
    var number := Be32(index % GUINT32);
    var s := number + name + [0] + value + [0];
    assert s == number + (name + [0] + value + [0]);
    assert s[4..] == name + [0] + value + [0];
    LengthInFront(number, name + [0] + value + [0]);
    Be32RoundTrip(index % GUINT32);
    NameAndValueBack(name, value);
  }

  lemma OneStringBack(first: Bytes)
    requires NulFree(first) && first != []
    ensures OneString(first + [0]) == Some(first) && UpToNul(first + [0]) == first
    ensures TwoStrings(first + [0]) == Some((first, None))
  {
    hide Cut;
    assert first + [0] + [] == first + [0];
    CutBack(first, []);
  }

  /** Two strings come back if and only if the second is not empty. */
  lemma TwoStringsBackIff(first: Bytes, second: Bytes)
    requires NulFree(first) && NulFree(second) && first != []
    ensures TwoStrings(first + [0] + (second + [0]))
      == if second == [] then None else Some((first, Some(second)))
  {
    hide Cut;
    CutBack(first, second + [0]);
    assert second + [0] + [] == second + [0];
    CutBack(second, []);
  }

  lemma AddHeaderBack(name: Bytes, value: Bytes)
    requires NulFree(name) && NulFree(value) && name != []
    ensures Received(HeaderContent(ADD_HEADER, 0, name, value)) == Some(AddHeaderRead(name, value))
  {
    hide NameAndValue;
    assert HeaderContent(ADD_HEADER, 0, name, value)[1..] == name + [0] + value + [0];
    NameAndValueBack(name, value);
  }

  lemma InsertHeaderBack(index: nat, name: Bytes, value: Bytes)
    requires NulFree(name) && NulFree(value) && name != []
    ensures Received(HeaderContent(INSERT_HEADER, index, name, value))
      == Some(InsertHeaderRead(Signed(index % GUINT32), name, Present(value)))
  {
    hide IndexedHeader, Be32;
    assert HeaderContent(INSERT_HEADER, index, name, value)[1..]
      == Be32(index % GUINT32) + name + [0] + value + [0];
    IndexedBack(index, name, value);
  }

  lemma ChangeHeaderBack(index: nat, name: Bytes, value: Bytes)
    requires NulFree(name) && NulFree(value) && name != []
    ensures Received(HeaderContent(CHANGE_HEADER, index, name, value))
      == Some(if value == [] then DeleteHeaderRead(name, Signed(index % GUINT32))
              else ChangeHeaderRead(name, Signed(index % GUINT32), value))
  {
    hide IndexedHeader, Be32;
    assert HeaderContent(CHANGE_HEADER, index, name, value)[1..]
      == Be32(index % GUINT32) + name + [0] + value + [0];
    IndexedBack(index, name, value);
  }

  lemma HeaderReadBack(m: Modification)
    requires m.AddHeader? || m.InsertHeader? || m.ChangeHeader? || m.DeleteHeader?
    requires Plain(m) && Subject(m) != []
    ensures PacketOf(m) != [] && Received(PacketOf(m)[4..]) == Some(Meant(m))
  {
    hide Received, HeaderContent, Pack, Signed;
    var name, value := Subject(m), Detail(m);
    match m
    case AddHeader(_, _) =>
      PackedContent(HeaderContent(ADD_HEADER, 0, name, value));
      AddHeaderBack(name, value);
    case InsertHeader(index, _, _) =>
      PackedContent(HeaderContent(INSERT_HEADER, index, name, value));
      InsertHeaderBack(index, name, value);
    case ChangeHeader(_, index, _) =>
      PackedContent(HeaderContent(CHANGE_HEADER, index, name, value));
      ChangeHeaderBack(index, name, value);
    case DeleteHeader(_, index) =>
      PackedContent(HeaderContent(CHANGE_HEADER, index, name, value));
      ChangeHeaderBack(index, name, value);
  }

  lemma TwoStringsOnWire(letter: Byte, first: Bytes, second: Bytes)
    requires NulFree(first) && NulFree(second) && first != []
    ensures var content := [letter] + first + [0] + (second + [0]);
      TwoStrings(content[1..]) == if second == [] then None else Some((first, Some(second)))
  {
    hide TwoStrings;
    assert ([letter] + first + [0] + (second + [0]))[1..] == first + [0] + (second + [0]);
    TwoStringsBackIff(first, second);
  }

  lemma OneStringOnWire(letter: Byte, first: Bytes)
    requires NulFree(first) && first != []
    ensures var content := [letter] + first + [0];
      && OneString(content[1..]) == Some(first) && UpToNul(content[1..]) == first
      && TwoStrings(content[1..]) == Some((first, None))
  {
    hide TwoStrings, OneString, UpToNul;
    assert ([letter] + first + [0])[1..] == first + [0];
    OneStringBack(first);
  }

  lemma ChangeFromBackIff(from: Bytes, parameters: Option<Bytes>)
    requires NulFree(from) && NulFree(Text(parameters)) && from != []
    ensures
      Received([CHANGE_FROM] + from + [0] + (if parameters.Some? then parameters.value + [0] else []))
      == if parameters == Some([]) then None else Some(ChangeFromRead(from, parameters))
  {
    hide TwoStrings, OneString, UpToNul;
    OneStringOnWire(CHANGE_FROM, from);
    TwoStringsOnWire(CHANGE_FROM, from, Text(parameters));
    var content := [CHANGE_FROM] + from + [0];
    assert content + [] == content;
  }

  lemma AddRecipientBack(recipient: Bytes, parameters: Bytes)
    requires NulFree(recipient) && NulFree(parameters) && recipient != []
    ensures parameters != [] ==>
      Received([ADD_RECIPIENT_PARAMS] + recipient + [0] + parameters + [0])
      == Some(AddRecipientRead(recipient, Some(parameters)))
    ensures Received([ADD_RECIPIENT] + recipient + [0]) == Some(AddRecipientRead(recipient, None))
    ensures Received([DELETE_RECIPIENT] + recipient + [0]) == Some(DeleteRecipientRead(recipient))
  {
    hide TwoStrings, OneString, UpToNul;
    OneStringOnWire(ADD_RECIPIENT, recipient);
    OneStringOnWire(DELETE_RECIPIENT, recipient);
    TwoStringsOnWire(ADD_RECIPIENT_PARAMS, recipient, parameters);
    var content := [ADD_RECIPIENT_PARAMS] + recipient + [0];
    assert content + parameters + [0] == content + (parameters + [0]);
  }

  lemma AddressReadBackIff(m: Modification)
    requires m.ChangeFrom? || m.AddRecipient? || m.DeleteRecipient?
    requires Plain(m) && Subject(m) != []
    ensures PacketOf(m) != []
    ensures Received(PacketOf(m)[4..]) == if EmptyParameters(m) then None else Some(Meant(m))
  {
    hide Received, Pack;
    var first, second := Subject(m), Detail(m);
    match m
    case ChangeFrom(_, parameters) =>
      PackedContent([CHANGE_FROM] + first + [0] + (if parameters.Some? then parameters.value + [0] else []));
      ChangeFromBackIff(first, parameters);
    case AddRecipient(_, _) =>
      PackedContent([ADD_RECIPIENT_PARAMS] + first + [0] + second + [0]);
      PackedContent([ADD_RECIPIENT] + first + [0]);
      AddRecipientBack(first, second);
    case DeleteRecipient(_) =>
      PackedContent([DELETE_RECIPIENT] + first + [0]);
      AddRecipientBack(first, second);
  }

  /** Each packet is read as the call it was made for, if and only if that is not the change of a
      sender with parameters that are given but empty. */
  lemma ModificationReadIff(m: Modification)
    requires !m.ReplaceBody? && Plain(m) && Subject(m) != []
    ensures PacketOf(m) != []
    ensures Received(PacketOf(m)[4..]) == if EmptyParameters(m) then None else Some(Meant(m))
  {
    hide Received, Meant, PacketOf;
    if m.ChangeFrom? || m.AddRecipient? || m.DeleteRecipient? {
      AddressReadBackIff(m);
    } else {
      HeaderReadBack(m);
    }
  }

  // ---------- replies ----------

  ghost predicate CodeMeant(reply: Reply, r: Reading) {
    && r.ReplyCodeRead? && r.reply.code == reply.code
    && (r.reply == reply <==> reply.extendedCode.Some? && OneLine(reply.message))
  }

  /** What the final reply is meant to be read as: a refusal with a reply code as that code, with the
      whole reply exactly when it has an extended code and a message of one line. */
  ghost predicate FinalMeant(status: Status, reply: Reply, r: Reading) {
    match status
    case Continue => r == ContinueRead
    case Accept => r == AcceptRead
    case Discard => r == DiscardRead
    case Skip => r == SkipRead
    case TemporaryFailure => if reply.code == 0 then r == TemporaryFailureRead else CodeMeant(reply, r)
    case Reject => if reply.code == 0 then r == RejectRead else CodeMeant(reply, r)
    case OtherStatus => false
  }

  /** A reply that was set, or none. */
  ghost predicate ReplyOk(reply: Reply) {
    reply == NO_REPLY || (Acceptable(reply.code, reply.extendedCode) && Strings(reply))
  }

  /** A refusal whose reply code has an empty message, which leaves nothing of the code either. */
  predicate EmptyRefusal(status: Status, reply: Reply) {
    (status == TemporaryFailure || status == Reject) && reply.code != 0 && reply.message == Some("")
  }

  lemma InRange(reply: Reply)
    requires Acceptable(reply.code, reply.extendedCode)
    ensures 400 <= reply.code < 600
  {}

  lemma CodeReadIff(status: Status, reply: Reply) returns (content: Bytes)
    requires (status == TemporaryFailure || status == Reject) && reply.code != 0 && ReplyOk(reply)
    ensures StatusPacket(status, Encoded(Formatted(reply))) == Some(Pack(content))
    ensures Received(content).Some? <==> reply.message != Some("")
    ensures Received(content).Some? ==> CodeMeant(reply, Received(content).value)
  {
    hide Decoded, Formatted, OneLine, Acceptable, StatusPacket, Characters;
    assert Acceptable(reply.code, reply.extendedCode) && Strings(reply);
    InRange(reply);
    content := ReplyOnWire(status, reply);
    CodeBackIff(reply);
    ReplyBackIff(reply);
  }

  /** A reply of one letter. */
  lemma LetterRead(status: Status, reply: Reply)
    requires status != OtherStatus
    requires status == TemporaryFailure || status == Reject ==> reply.code == 0
    ensures
      var packet := StatusPacket(status, Encoded(Formatted(reply)));
      && packet.Some? && |packet.value| >= 4
      && var read := Received(packet.value[4..]);
         read.Some? && FinalMeant(status, reply, read.value)
  {
    hide CodeMeant, Decoded;
    var letter :=
      match status
      case Continue => CONTINUE_REPLY
      case Accept => ACCEPT_REPLY
      case Discard => DISCARD_REPLY
      case Skip => SKIP_REPLY
      case TemporaryFailure => TEMPORARY_FAILURE_REPLY
      case _ => REJECT_REPLY;
    PackedContent([letter]);
  }

  /** The other side reads the reply for what it is, if and only if it is not a refusal whose reply
      code has an empty message. */
  lemma StatusReadIff(status: Status, reply: Reply)
    requires status != OtherStatus && ReplyOk(reply)
    ensures
      var packet := StatusPacket(status, Encoded(Formatted(reply)));
      && packet.Some? && |packet.value| >= 4
      && var read := Received(packet.value[4..]);
         && (read.Some? <==> !EmptyRefusal(status, reply))
         && (read.Some? ==> FinalMeant(status, reply, read.value))
  {
    hide CodeMeant, Received, Formatted, StatusPacket;
    if (status == TemporaryFailure || status == Reject) && reply.code != 0 {
      var content := CodeReadIff(status, reply);
      PackedContent(content);
    } else {
      LetterRead(status, reply);
    }
  }
}
