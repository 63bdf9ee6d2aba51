/** The replies a milter sends at end of message, as bytes: `milter-reply-encoder.c` and the
    length prefix of `milter_encoder_pack`. */
module ReplyPackets {
  import opened Options

  type Byte = b: int | 0 <= b < 256
  type Bytes = seq<Byte>

  const MILTER_CHUNK_SIZE := 65535
  const GUINT32 := 0x1_0000_0000

  /** `g_htonl` of a 32-bit number. */
  function Be32(n: nat): (r: Bytes)
    requires n < GUINT32
    ensures |r| == 4
  {
    [n / 0x100_0000, n / 0x1_0000 % 0x100, n / 0x100 % 0x100, n % 0x100]
  }

  function FromBe32(s: Bytes): nat
    requires |s| >= 4
  {
    var (a, b, c, d) := (s[0] as int, s[1] as int, s[2] as int, s[3] as int);
    a * 0x100_0000 + b * 0x1_0000 + c * 0x100 + d
  }

  lemma Be32RoundTrip(n: nat)
    requires n < GUINT32
    ensures FromBe32(Be32(n)) == n
  {
    var (a, b) := (n / 0x100, n / 0x1_0000);
    assert n == 0x100 * a + n % 0x100;
    assert b == a / 0x100 && a == 0x100 * b + a % 0x100;
    assert n / 0x100_0000 == b / 0x100 && b == 0x100 * (b / 0x100) + b % 0x100;
  }

  /** `milter_encoder_pack`: the content behind its length, which is a 32-bit number. */
  function Pack(content: Bytes): Bytes {
    Be32(|content| % GUINT32) + content
  }

  // ---------- contents ----------

  const ADD_HEADER: Byte := 104          // 'h'
  const INSERT_HEADER: Byte := 105       // 'i'
  const CHANGE_HEADER: Byte := 109       // 'm'
  const CHANGE_FROM: Byte := 101         // 'e'
  const ADD_RECIPIENT: Byte := 43        // '+'
  const ADD_RECIPIENT_PARAMS: Byte := 50 // '2'
  const DELETE_RECIPIENT: Byte := 45     // '-'
  const REPLACE_BODY: Byte := 98         // 'b'
  const PROGRESS: Byte := 112            // 'p'
  const QUARANTINE: Byte := 113          // 'q'
  const CONTINUE_REPLY: Byte := 99       // 'c'
  const TEMPORARY_FAILURE_REPLY: Byte := 116 // 't'
  const REJECT_REPLY: Byte := 114        // 'r'
  const ACCEPT_REPLY: Byte := 97         // 'a'
  const DISCARD_REPLY: Byte := 100       // 'd'
  const SKIP_REPLY: Byte := 115          // 's'
  const REPLY_CODE: Byte := 121          // 'y'

  /** Arguments that may be NULL in C are options. */
  datatype Modification =
    | AddHeader(name: Option<Bytes>, value: Option<Bytes>)
    | InsertHeader(index: nat, name: Option<Bytes>, value: Option<Bytes>)
    | ChangeHeader(name: Option<Bytes>, index: nat, value: Option<Bytes>)
    | DeleteHeader(name: Option<Bytes>, index: nat)
    | ChangeFrom(from: Option<Bytes>, parameters: Option<Bytes>)
    | AddRecipient(recipient: Option<Bytes>, parameters: Option<Bytes>)
    | DeleteRecipient(recipient: Option<Bytes>)
    | ReplaceBody(body: Bytes)

  function Text(s: Option<Bytes>): Bytes {
    match s case None => [] case Some(t) => t
  }

  function HeaderContent(reply: Byte, index: nat, name: Bytes, value: Bytes): Bytes {
    [reply] + (if reply != ADD_HEADER then Be32(index % GUINT32) else []) + name + [0] + value + [0]
  }

  /** The packet of one call; a name or address that is empty encodes to no bytes at all. */
  function PacketOf(m: Modification): Bytes
    requires !m.ReplaceBody?
  {
    match m
    case AddHeader(name, value) =>
      if Text(name) == [] then [] else Pack(HeaderContent(ADD_HEADER, 0, Text(name), Text(value)))
    case InsertHeader(index, name, value) =>
      if Text(name) == [] then [] else Pack(HeaderContent(INSERT_HEADER, index, Text(name), Text(value)))
    case ChangeHeader(name, index, value) =>
      if Text(name) == [] then [] else Pack(HeaderContent(CHANGE_HEADER, index, Text(name), Text(value)))
    case DeleteHeader(name, index) =>
      if Text(name) == [] then [] else Pack(HeaderContent(CHANGE_HEADER, index, Text(name), []))
    case ChangeFrom(from, parameters) =>
      if Text(from) == [] then []
      else Pack([CHANGE_FROM] + Text(from) + [0] + (if parameters.Some? then parameters.value + [0] else []))
    case AddRecipient(recipient, parameters) =>
      if Text(recipient) == [] then []
      else if Text(parameters) != [] then Pack([ADD_RECIPIENT_PARAMS] + Text(recipient) + [0] + Text(parameters) + [0])
      else Pack([ADD_RECIPIENT] + Text(recipient) + [0])
    case DeleteRecipient(recipient) =>
      if Text(recipient) == [] then [] else Pack([DELETE_RECIPIENT] + Text(recipient) + [0])
  }

  /** The size of the next body chunk. */
  function ChunkSize(rest: nat): nat {
    if rest > MILTER_CHUNK_SIZE then MILTER_CHUNK_SIZE else rest
  }

  /** The packets of `replace_body`. */
  function ChunkPackets(body: Bytes): Bytes {
    if body == [] then []
    else
      var n := ChunkSize(|body|);
      Pack([REPLACE_BODY] + body[..n]) + ChunkPackets(body[n..])
  }

  /** Every byte a call hands to the MTA. */
  function BytesOf(m: Modification): Bytes {
    if m.ReplaceBody? then ChunkPackets(m.body) else PacketOf(m)
  }

  datatype Status = Continue | TemporaryFailure | Reject | Accept | Discard | Skip | OtherStatus

  /** `create_reply_packet`; `formatted` is the text of a reply code that was set. */
  function StatusPacket(status: Status, formatted: Option<Bytes>): Option<Bytes> {
    match status
    case Continue => Some(Pack([CONTINUE_REPLY]))
    case TemporaryFailure =>
      if formatted.Some? then Some(Pack([REPLY_CODE] + formatted.value + [0]))
      else Some(Pack([TEMPORARY_FAILURE_REPLY]))
    case Reject =>
      if formatted.Some? then Some(Pack([REPLY_CODE] + formatted.value + [0]))
      else Some(Pack([REJECT_REPLY]))
    case Accept => Some(Pack([ACCEPT_REPLY]))
    case Discard => Some(Pack([DISCARD_REPLY]))
    case Skip => Some(Pack([SKIP_REPLY]))
    case OtherStatus => None
  }

  function QuarantinePacket(reason: Option<Bytes>): Bytes {
    if Text(reason) == [] then [] else Pack([QUARANTINE] + Text(reason) + [0])
  }

  // ---------- reading the stream back ----------

  /** What the MTA does with the stream: length, content, length, content, ... */
  function Unpack(wire: Bytes): Option<seq<Bytes>>
    decreases |wire|
  {
    if wire == [] then Some([])
    else if |wire| < 4 || |wire| - 4 < FromBe32(wire) then None
    else
      var n := FromBe32(wire);
      match Unpack(wire[4 + n..])
      case None => None
      case Some(rest) => Some([wire[4..4 + n]] + rest)
  }

  function PackAll(contents: seq<Bytes>): Bytes {
    if contents == [] then [] else Pack(contents[0]) + PackAll(contents[1..])
  }

  /** The length is in front of what is packed, whatever follows. */
  lemma LengthInFront(head: Bytes, tail: Bytes)
    requires |head| == 4
    ensures FromBe32(head + tail) == FromBe32(head)
  {}

  lemma CutBehind(head: Bytes, c: Bytes, rest: Bytes)
    requires |head| == 4
    ensures (head + (c + rest))[4..4 + |c|] == c && (head + (c + rest))[4 + |c|..] == rest
  {}

  /** The first packet can be cut off, whatever follows it. */
  lemma UnpackFirst(c: Bytes, rest: Bytes)
    requires |c| < GUINT32
    ensures FromBe32(Pack(c) + rest) == |c|
    ensures (Pack(c) + rest)[4..4 + |c|] == c && (Pack(c) + rest)[4 + |c|..] == rest
  {
    hide Be32, FromBe32;
    Be32RoundTrip(|c|);
    var head := Be32(|c|);
    assert Pack(c) + rest == head + (c + rest);
    LengthInFront(head, c + rest);
    CutBehind(head, c, rest);
  }

  /** Framing is unambiguous: the contents come back, in order. */
  lemma {:induction false} UnpackRoundTrip(contents: seq<Bytes>)
    requires forall c <- contents :: |c| < GUINT32
    ensures Unpack(PackAll(contents)) == Some(contents)
  {
    if contents != [] {
      UnpackFirst(contents[0], PackAll(contents[1..]));
      UnpackRoundTrip(contents[1..]);
      assert contents == [contents[0]] + contents[1..];
    }
  }

  // ---------- body chunks ----------

  function Chunks(body: Bytes): seq<Bytes> {
    if body == [] then [] else [body[..ChunkSize(|body|)]] + Chunks(body[ChunkSize(|body|)..])
  }

  function Concat(parts: seq<Bytes>): Bytes {
    if parts == [] then [] else parts[0] + Concat(parts[1..])
  }

  /** The chunks partition the body, none empty and none larger than the protocol allows. */
  lemma {:induction false} ChunksPartition(body: Bytes)
    ensures Concat(Chunks(body)) == body
    ensures forall c <- Chunks(body) :: 0 < |c| <= MILTER_CHUNK_SIZE
  {
    if body != [] {
      ChunksPartition(body[ChunkSize(|body|)..]);
    }
  }

  function BodyContents(chunks: seq<Bytes>): seq<Bytes> {
    if chunks == [] then [] else [[REPLACE_BODY] + chunks[0]] + BodyContents(chunks[1..])
  }

  lemma {:induction false} ChunkPacketsArePacked(body: Bytes)
    ensures ChunkPackets(body) == PackAll(BodyContents(Chunks(body)))
    ensures forall c <- BodyContents(Chunks(body)) :: 0 < |c| <= MILTER_CHUNK_SIZE + 1
  {
    if body != [] {
      var n := ChunkSize(|body|);
      ChunkPacketsArePacked(body[n..]);
      assert Chunks(body)[1..] == Chunks(body[n..]);
      assert BodyContents(Chunks(body))[1..] == BodyContents(Chunks(body[n..]));
    }
  }

  /** The MTA gets the body back from the packets of `replace_body`. */
  lemma BodyRoundTrip(body: Bytes)
    ensures Unpack(ChunkPackets(body)) == Some(BodyContents(Chunks(body)))
    ensures Concat(Chunks(body)) == body
  {
    ChunkPacketsArePacked(body);
    ChunksPartition(body);
    UnpackRoundTrip(BodyContents(Chunks(body)));
  }
}
