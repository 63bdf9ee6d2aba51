/** The text of a reply code on the wire: `milter_utils_format_reply_code` writes it on the
    milter's side and `decode_reply_reply_code` reads it on the other. */
module ReplyCodes {
  import opened Options
  import opened ReplyPackets
  import opened StatusCode

  /** What `milter_client_context_set_reply` stores, and what the decoder reports. */
  datatype Reply = Reply(code: nat, extendedCode: Option<string>, message: Option<string>)

  const NO_REPLY := Reply(0, None, None)

  // ---------- the text ----------

  /** The pieces of `s` between its newlines. */
  function Pieces(s: string): (r: seq<string>)
    ensures |r| >= 1
  {
    if s == "" then [""]
    else
      var rest := Pieces(s[1..]);
      if s[0] == '\n' then [""] + rest else [[s[0]] + rest[0]] + rest[1..]
  }

  /** `g_strsplit` at newlines: the empty string has no pieces at all. */
  function Split(s: string): seq<string> {
    if s == "" then [] else Pieces(s)
  }

  function CutReturn(line: string): string {
    if line != "" && line[|line| - 1] == '\r' then line[..|line| - 1] else line
  }

  /** `%3u` */
  function Padded(code: nat): string {
    var d := Decimal(code);
    (if |d| == 1 then "  " else if |d| == 2 then " " else "") + d
  }

  function Extension(extendedCode: Option<string>): string {
    if extendedCode.Some? then " " + extendedCode.value else ""
  }

  function Prefix(code: nat, extendedCode: Option<string>): string {
    Padded(code) + Extension(extendedCode)
  }

  function LineText(message: string): string {
    if message == "" then "" else " " + CutReturn(message)
  }

  function Line(prefix: string, message: string): string {
    prefix + LineText(message)
  }

  function Lines(prefix: string, messages: seq<string>): string {
    if messages == [] then ""
    else if |messages| == 1 then Line(prefix, messages[0])
    else Line(prefix, messages[0]) + "\r\n" + Lines(prefix, messages[1..])
  }

  function Messages(message: Option<string>): seq<string> {
    Split(if message.Some? then message.value else "\n")
  }

  /** What a reply looks like on the wire, before its bytes are packed. */
  function Formatted(reply: Reply): Option<string> {
    if reply.code == 0 then None
    else Some(Lines(Prefix(reply.code, reply.extendedCode), Messages(reply.message)))
  }

  lemma Associative(a: string, b: string, c: string)
    ensures (a + b) + c == a + (b + c)
  {}

  lemma Unchanged(s: string)
    ensures s + "" == s
  {}

  /** One line of the loop below. */
  method AppendLine(reply: string, code: nat, extendedCode: Option<string>, message: string) returns (more: string)
    ensures more == reply + Line(Prefix(code, extendedCode), message)
  {
    hide Padded, CutReturn;
    ghost var prefix := Prefix(code, extendedCode);
    Associative(reply, Padded(code), Extension(extendedCode));
    Associative(reply, prefix, LineText(message));
    more := reply + Padded(code);
    Unchanged(more);
    if extendedCode.Some? {
      more := more + (" " + extendedCode.value);
    }
    Unchanged(more);
    if message != "" {
      more := more + (" " + CutReturn(message));
    }
  }

  lemma LinesNext(reply: string, prefix: string, messages: seq<string>)
    requires messages != []
    ensures
      reply + Lines(prefix, messages)
      == reply + Line(prefix, messages[0]) + (if |messages| > 1 then "\r\n" else "") + Lines(prefix, messages[1..])
  {
    hide Line;
    var line, rest := Line(prefix, messages[0]), Lines(prefix, messages[1..]);
    if |messages| == 1 {
      assert messages[1..] == [];
      Unchanged(reply + line);
      Unchanged(reply + line + "");
    } else {
      Associative(reply, line, "\r\n");
      Associative(reply, line + "\r\n", rest);
    }
  }

  /** `milter_utils_format_reply_code`. */
  method Format(code: nat, extendedCode: Option<string>, message: Option<string>) returns (text: Option<string>)
    ensures text == Formatted(Reply(code, extendedCode, message))
  {
    if code == 0 {
      return None;
    }
    var messages := Messages(message);
    var reply := "";
    ghost var prefix := Prefix(code, extendedCode);
    ghost var all := Lines(prefix, messages);
    assert messages[0..] == messages;
    for i := 0 to |messages|
      invariant reply + Lines(prefix, messages[i..]) == all
    {
      LinesNext(reply, prefix, messages[i..]);
      reply := AppendLine(reply, code, extendedCode, messages[i]);
      assert messages[i..][1..] == messages[i + 1..];
      if i + 1 < |messages| {
        reply := reply + "\r\n";
      }
    }
    assert reply + "" == reply;
    text := Some(reply);
  }

  // ---------- the decoder ----------

  /** Where `c` first is. */
  function IndexOf(s: string, c: char): (i: Option<nat>)
    ensures i.Some? ==> i.value < |s| && s[i.value] == c && forall j | 0 <= j < i.value :: s[j] != c
    ensures i.None? ==> c !in s
  {
    if s == "" then None
    else if s[0] == c then Some(0)
    else match IndexOf(s[1..], c) case None => None case Some(i) => Some(i + 1)
  }

  /** `find_space_character` and `find_null_character`. */
  method FindCharacter(s: string, c: char) returns (i: Option<nat>)
    ensures i == IndexOf(s, c)
  {
    for k := 0 to |s|
      invariant c !in s[..k]
    {
      if s[k] == c {
        assert forall j | 0 <= j < k :: s[..k][j] == s[j];
        return Some(k);
      }
      assert s[..k + 1] == s[..k] + [s[k]];
    }
    assert s[..|s|] == s;
    i := None;
  }

  /** The string a C pointer to `s` denotes. */
  function UpToNul(s: string): string {
    match IndexOf(s, NUL) case None => s case Some(i) => s[..i]
  }

  predicate StartsWithCode(s: string) {
    |s| >= 3 && (s[0] == '4' || s[0] == '5') && Digit(s[1]) && Digit(s[2])
  }

  function SkipSpace(s: string): string {
    if s != "" && s[0] == ' ' then s[1..] else s
  }

  /** The extended code ends at the first space and the message begins behind it. */
  function Fields(code: nat, rest: string): (r: Reply)
    ensures r.code == code && r.extendedCode.Some?
  {
    match IndexOf(rest, ' ')
    case None => Reply(code, Some(UpToNul(rest)), None)
    case Some(k) => Reply(code, Some(UpToNul(rest[..k])), Some(UpToNul(rest[k + 1..])))
  }

  /** What the decoder makes of the characters behind the reply's letter. */
  function Decoded(s: string): Option<Reply> {
    if !StartsWithCode(s) || NUL !in s then None else Some(Fields(Value(s[..3]), SkipSpace(s[3..])))
  }

  /** `decode_reply_reply_code`. */
  method Decode(s: string) returns (reply: Option<Reply>)
    ensures reply == Decoded(s)
  {
    hide UpToNul, IndexOf, Value;
    if |s| < 3 {
      return None;
    }
    if (s[0] != '4' && s[0] != '5') || !Digit(s[1]) || !Digit(s[2]) {
      return None;
    }
    assert EndsAt(s[..3], 0, 3) && s[..3][0..3] == s[..3];
    var code := Atoi(s[..3], 0);
    var end := FindCharacter(s, NUL);
    if end == None || end.value == 0 {
      return None;
    }
    var rest := s[3..];
    if rest != "" && rest[0] == ' ' {
      rest := rest[1..];
    }
    var space := FindCharacter(rest, ' ');
    if space == None {
      reply := Some(Reply(code, Some(UpToNul(rest)), None));
    } else {
      reply := Some(Reply(code, Some(UpToNul(rest[..space.value])), Some(UpToNul(rest[space.value + 1..]))));
    }
  }

  // ---------- what of a reply can be read back ----------

  /** Some text on the first line. */
  predicate HasFirstLine(message: Option<string>) {
    message.Some? && message.value != "" && message.value[0] != '\n'
  }

  predicate OneLine(message: Option<string>) {
    && message.Some? && message.value != ""
    && '\n' !in message.value && message.value[|message.value| - 1] != '\r'
  }

  predicate Strings(reply: Reply) {
    && (reply.extendedCode.Some? ==> Terminated(reply.extendedCode.value))
    && (reply.message.Some? ==> Terminated(reply.message.value))
  }

  lemma {:induction false} NumberBack(n: nat)
    ensures Value(Decimal(n)) == n
  {
    if n < 10 {
      assert Decimal(n)[..0] == "";
    } else {
      NumberBack(n / 10);
      ValueSnoc(Decimal(n / 10), DigitOf(n % 10));
    }
  }

  lemma CodeDigits(code: nat)
    requires 400 <= code < 600
    ensures |Padded(code)| == 3 && StartsWithCode(Padded(code)) && Terminated(Padded(code))
    ensures Value(Padded(code)) == code
  {
    var d := Decimal(code);
    assert "" + d == d;
    assert d == Decimal(code / 10) + [DigitOf(code % 10)];
    assert Decimal(code / 10) == Decimal(code / 10 / 10) + [DigitOf(code / 10 % 10)];
    assert Decimal(code / 10 / 10) == [DigitOf(code / 100)];
    NumberBack(code);
  }

  predicate AllTerminated(pieces: seq<string>) {
    forall i | 0 <= i < |pieces| :: Terminated(pieces[i])
  }

  /** The characters of the pieces and one more for each. */
  function Total(pieces: seq<string>): nat {
    if pieces == [] then 0 else |pieces[0]| + 1 + Total(pieces[1..])
  }

  lemma {:induction false} PiecesLength(s: string)
    ensures Total(Pieces(s)) == |s| + 1
    ensures |Pieces(s)| == 1 <==> '\n' !in s
    ensures |Pieces(s)| == 1 ==> Pieces(s)[0] == s
    ensures Pieces(s)[0] == "" <==> s == "" || s[0] == '\n'
    ensures Terminated(s) ==> AllTerminated(Pieces(s))
  {
    if s != "" {
      PiecesLength(s[1..]);
      assert s == [s[0]] + s[1..];
      var rest := Pieces(s[1..]);
      if s[0] == '\n' {
        assert ([""] + rest)[1..] == rest;
      } else {
        assert ([[s[0]] + rest[0]] + rest[1..])[1..] == rest[1..];
      }
    }
  }

  lemma {:induction false} LinesLength(prefix: string, messages: seq<string>)
    requires |messages| >= 1 && |prefix| >= 3
    ensures |Lines(prefix, messages)| >= Total(messages) + 2
  {
    if |messages| > 1 {
      LinesLength(prefix, messages[1..]);
    }
  }

  lemma TerminatedJoin(a: string, b: string)
    requires (a == " " || Terminated(a)) && Terminated(b)
    ensures Terminated(a + b)
  {}

  lemma TextTerminated(message: string)
    requires Terminated(message)
    ensures Terminated(LineText(message))
  {}

  lemma ReturnTerminated()
    ensures Terminated("\r\n")
  {}

  lemma {:induction false} LinesTerminated(prefix: string, messages: seq<string>)
    requires Terminated(prefix) && AllTerminated(messages)
    ensures Terminated(Lines(prefix, messages))
  {
    if messages != [] {
      TextTerminated(messages[0]);
      TerminatedJoin(prefix, LineText(messages[0]));
      LinesTerminated(prefix, messages[1..]);
      hide Terminated, LineText;
      if |messages| > 1 {
        ReturnTerminated();
        TerminatedJoin(Line(prefix, messages[0]), "\r\n");
        TerminatedJoin(Line(prefix, messages[0]) + "\r\n", Lines(prefix, messages[1..]));
      }
    }
  }

  lemma NoNul(s: string)
    requires Terminated(s)
    ensures UpToNul(s) == s && UpToNul(s + [NUL]) == s
  {
    assert (s + [NUL])[|s|] == NUL;
    assert forall i | 0 <= i < |s| :: (s + [NUL])[i] == s[i];
  }

  /** Whatever follows the three digits, they are read back as the code. */
  lemma DecodedCode(code: nat, rest: string)
    requires 400 <= code < 600 && Terminated(rest)
    ensures Decoded(Padded(code) + rest + [NUL]) == Some(Fields(code, SkipSpace(rest + [NUL])))
  {
    CodeDigits(code);
    var s := Padded(code) + rest + [NUL];
    assert s[|s| - 1] == NUL;
    assert s[..3] == Padded(code);
    assert s[3..] == rest + [NUL];
  }

  lemma FirstSpace(extendedCode: string, behind: string)
    requires ' ' !in extendedCode
    ensures
      var k := IndexOf(extendedCode + behind + [NUL], ' ');
      && (k.Some? ==> |extendedCode| <= k.value < |extendedCode + behind|)
      && (k == Some(|extendedCode|) <==> behind != "" && behind[0] == ' ')
  {
    var s := extendedCode + behind + [NUL];
    assert forall i | 0 <= i < |extendedCode| :: s[i] == extendedCode[i];
    assert behind != "" ==> s[|extendedCode|] == behind[0];
  }

  /** Cutting at a place behind the extended code. */
  lemma CutAt(extendedCode: string, behind: string, k: nat)
    requires Terminated(extendedCode) && Terminated(behind) && |extendedCode| <= k < |extendedCode + behind|
    ensures
      var rest := extendedCode + behind + [NUL];
      && UpToNul(rest[..k]) == rest[..k]
      && (k == |extendedCode| ==> rest[..k] == extendedCode && UpToNul(rest[k + 1..]) == behind[1..])
  {
    hide UpToNul;
    var rest := extendedCode + behind + [NUL];
    assert rest[..k] == (extendedCode + behind)[..k];
    NoNul(rest[..k]);
    if k == |extendedCode| {
      assert rest[..k] == extendedCode;
      assert rest[k + 1..] == behind[1..] + [NUL];
      NoNul(behind[1..]);
    }
  }

  /** An extended code ends for the decoder at the first space, wherever its line ends. */
  lemma FieldsOf(code: nat, extendedCode: string, behind: string)
    requires Terminated(extendedCode) && Terminated(behind) && ' ' !in extendedCode
    ensures
      var d := Fields(code, extendedCode + behind + [NUL]);
      if behind == "" then d == Reply(code, Some(extendedCode), None)
      else if behind[0] == ' ' then d == Reply(code, Some(extendedCode), Some(behind[1..]))
      else d.code == code && d.extendedCode.Some? && |d.extendedCode.value| > |extendedCode|
  {
    hide UpToNul, Terminated, IndexOf;
    FirstSpace(extendedCode, behind);
    match IndexOf(extendedCode + behind + [NUL], ' ')
    case None =>
      TerminatedJoin(extendedCode, behind);
      NoNul(extendedCode + behind);
      Unchanged(extendedCode);
    case Some(k) => CutAt(extendedCode, behind, k);
  }

  lemma DecodedExtendedCode(code: nat, extendedCode: string, behind: string)
    requires 400 <= code < 600 && Terminated(extendedCode) && Terminated(behind)
    ensures Decoded(Padded(code) + (" " + extendedCode + behind) + [NUL])
         == Some(Fields(code, extendedCode + behind + [NUL]))
  {
    hide Fields, Value, StartsWithCode, Padded, Terminated;
    TerminatedJoin(extendedCode, behind);
    TerminatedJoin(" ", extendedCode + behind);
    var (tail, rest) := (" " + extendedCode + behind, extendedCode + behind + [NUL]);
    assert tail == " " + (extendedCode + behind);
    DecodedCode(code, tail);
    assert tail + [NUL] == " " + rest;
    assert (" " + rest)[1..] == rest;
  }

  /** What comes behind the first line's codes. */
  function Behind(prefix: string, messages: seq<string>): string
    requires messages != []
  {
    LineText(messages[0]) + (if |messages| == 1 then "" else "\r\n" + Lines(prefix, messages[1..]))
  }

  lemma ExtensionTerminated(extendedCode: Option<string>)
    requires extendedCode.Some? ==> Terminated(extendedCode.value)
    ensures Terminated(Extension(extendedCode))
  {}

  lemma MessageParts(message: Option<string>)
    requires message != Some("") && (message.Some? ==> Terminated(message.value))
    ensures Messages(message) != [] && AllTerminated(Messages(message))
    ensures Messages(message)[0] != "" <==> HasFirstLine(message)
    ensures Messages(message)[0] == "" ==> |Messages(message)| > 1
  {
    hide Total;
    PiecesLength(if message.Some? then message.value else "\n");
  }

  lemma BehindTerminated(prefix: string, messages: seq<string>)
    requires Terminated(prefix) && messages != [] && AllTerminated(messages)
    ensures Terminated(Behind(prefix, messages))
    ensures messages[0] == "" && |messages| > 1 ==>
      Behind(prefix, messages) != "" && Behind(prefix, messages)[0] == '\r'
    ensures messages[0] != "" ==> Behind(prefix, messages) != "" && Behind(prefix, messages)[0] == ' '
  {
    TextTerminated(messages[0]);
    LinesTerminated(prefix, messages[1..]);
    ReturnTerminated();
    TerminatedJoin("\r\n", Lines(prefix, messages[1..]));
    Unchanged(LineText(messages[0]));
    hide Terminated, Lines, CutReturn;
    if |messages| > 1 {
      TerminatedJoin(LineText(messages[0]), "\r\n" + Lines(prefix, messages[1..]));
    }
  }

  lemma LinesBehind(prefix: string, messages: seq<string>)
    requires messages != []
    ensures Lines(prefix, messages) == prefix + Behind(prefix, messages)
  {
    hide LineText;
    if |messages| > 1 {
      hide Lines, Line, Behind;
      Associative(prefix, LineText(messages[0]), "\r\n" + Lines(prefix, messages[1..]));
    }
  }

  /** The text behind the digits, when there is any. */
  lemma TextParts(reply: Reply) returns (prefix: string, messages: seq<string>, behind: string)
    requires 400 <= reply.code < 600 && Strings(reply) && reply.message != Some("")
    ensures prefix == Prefix(reply.code, reply.extendedCode) && messages == Messages(reply.message) && messages != []
    ensures behind == Behind(prefix, messages)
    ensures Formatted(reply) == Some(prefix + behind)
    ensures Terminated(prefix) && Terminated(behind)
    ensures if HasFirstLine(reply.message) then behind != "" && behind[0] == ' ' else behind != "" && behind[0] == '\r'
  {
    hide Padded, Extension, Terminated, Lines, Behind, HasFirstLine, AllTerminated, Messages;
    prefix, messages := Prefix(reply.code, reply.extendedCode), Messages(reply.message);
    CodeDigits(reply.code);
    ExtensionTerminated(reply.extendedCode);
    TerminatedJoin(Padded(reply.code), Extension(reply.extendedCode));
    MessageParts(reply.message);
    behind := Behind(prefix, messages);
    BehindTerminated(prefix, messages);
    LinesBehind(prefix, messages);
  }

  lemma NoSpace(s: string)
    requires Grammatical(s)
    ensures ' ' !in s
  {
    var c, u, d :| StatusCodeOf(s, c, u, d);
    assert forall i | 0 <= i < |s| :: Digit(s[i]) || s[i] == '.';
  }

  /** The decoder refuses the text of an accepted reply if and only if its message is empty:
      then there is no text, not even a code. */
  lemma CodeBackIff(reply: Reply)
    requires Acceptable(reply.code, reply.extendedCode) && Strings(reply)
    ensures Formatted(reply).Some?
    ensures
      var d := Decoded(Formatted(reply).value + [NUL]);
      && (d.Some? <==> reply.message != Some(""))
      && (d.Some? ==> d.value.code == reply.code && d.value.extendedCode.Some?)
  {
    hide Padded, Extension, Terminated, Behind, HasFirstLine, MatchesClass, Pieces, Fields;
    if reply.message == Some("") {
      assert Formatted(reply).value == "";
    } else {
      var prefix, messages, behind := TextParts(reply);
      var extension := Extension(reply.extendedCode);
      ExtensionTerminated(reply.extendedCode);
      TerminatedJoin(extension, behind);
      Associative(Padded(reply.code), extension, behind);
      DecodedCode(reply.code, extension + behind);
    }
  }

  lemma ExtendedParts(reply: Reply) returns (behind: string)
    requires Acceptable(reply.code, reply.extendedCode) && Strings(reply)
    requires reply.message != Some("") && reply.extendedCode.Some?
    ensures Messages(reply.message) != []
    ensures behind == Behind(Prefix(reply.code, reply.extendedCode), Messages(reply.message))
    ensures Formatted(reply).Some?
    ensures
      var d := Decoded(Formatted(reply).value + [NUL]);
      if HasFirstLine(reply.message) then
        behind != "" && d == Some(Reply(reply.code, reply.extendedCode, Some(behind[1..])))
      else d.Some? && d.value.extendedCode != reply.extendedCode
  {
    hide Padded, Terminated, Behind, HasFirstLine, Decoded, Fields, Formatted, Messages, StatusCodeOf, Class;
    var prefix, messages, after := TextParts(reply);
    behind := after;
    var e := reply.extendedCode.value;
    NoSpace(e);
    Associative(Padded(reply.code), " " + e, behind);
    DecodedExtendedCode(reply.code, e, behind);
    FieldsOf(reply.code, e, behind);
  }

  /** The extended code is read back if and only if there is one and text follows it on the first
      line; otherwise the decoder takes part of the message for one. */
  lemma ExtendedCodeBackIff(reply: Reply)
    requires Acceptable(reply.code, reply.extendedCode) && Strings(reply)
    ensures Formatted(reply).Some?
    ensures
      var d := Decoded(Formatted(reply).value + [NUL]);
      d.Some? && d.value.extendedCode == reply.extendedCode
      <==> reply.extendedCode.Some? && HasFirstLine(reply.message)
  {
    hide Acceptable, Decoded, Formatted, Behind;
    CodeBackIff(reply);
    if reply.message != Some("") && reply.extendedCode.Some? {
      var _ := ExtendedParts(reply);
    }
  }

  lemma CutLength(line: string)
    ensures |CutReturn(line)| >= |line| - 1
  {}

  lemma LongBehind(prefix: string, messages: seq<string>)
    requires |messages| > 1 && messages[0] != "" && |prefix| >= 3
    ensures |Behind(prefix, messages)| > Total(messages)
  {
    hide Lines, CutReturn;
    CutLength(messages[0]);
    LinesLength(prefix, messages[1..]);
  }

  lemma ShortBehind(prefix: string, messages: seq<string>)
    requires |messages| == 1 && messages[0] != ""
    ensures Behind(prefix, messages) != "" && Behind(prefix, messages)[1..] == CutReturn(messages[0])
  {
    hide CutReturn;
    Unchanged(LineText(messages[0]));
  }

  /** A message of several lines comes back longer. */
  lemma BehindLength(prefix: string, message: string, behind: string)
    requires message != "" && message[0] != '\n'
    requires |prefix| >= 3 && behind == Behind(prefix, Pieces(message))
    ensures behind != ""
    ensures '\n' in message ==> |behind[1..]| > |message|
    ensures '\n' !in message ==> behind[1..] == CutReturn(message)
  {
    hide Pieces, Lines, CutReturn, Behind;
    PiecesLength(message);
    var messages := Pieces(message);
    if |messages| > 1 {
      LongBehind(prefix, messages);
    } else {
      ShortBehind(prefix, messages);
    }
  }

  /** The whole reply comes back if and only if it has an extended code and a message of one line
      that does not end in a carriage return. */
  lemma ReplyBackIff(reply: Reply)
    requires Acceptable(reply.code, reply.extendedCode) && Strings(reply)
    ensures Formatted(reply).Some?
    ensures
      Decoded(Formatted(reply).value + [NUL]) == Some(reply)
      <==> reply.extendedCode.Some? && OneLine(reply.message)
  {
    ExtendedCodeBackIff(reply);
    if reply.extendedCode.Some? && HasFirstLine(reply.message) {
      var behind := ExtendedParts(reply);
      BehindLength(Prefix(reply.code, reply.extendedCode), reply.message.value, behind);
    }
  }

  // ---------- as bytes ----------

  /** The characters of a C string are its bytes. */
  function AsBytes(s: string): Bytes {
    seq(|s|, i requires 0 <= i < |s| => s[i] as int % 256)
  }

  function Characters(bytes: Bytes): string {
    seq(|bytes|, i requires 0 <= i < |bytes| => bytes[i] as char)
  }

  function Encoded(text: Option<string>): Option<Bytes> {
    if text.Some? then Some(AsBytes(text.value)) else None
  }

  lemma BytesBack(s: string)
    requires Terminated(s)
    ensures Characters(AsBytes(s) + [0]) == s + [NUL]
  {
    forall i | 0 <= i < |s| ensures Characters(AsBytes(s) + [0])[i] == s[i] {
      assert (AsBytes(s) + [0])[i] == AsBytes(s)[i] == s[i] as int;
    }
  }

  lemma Empty()
    ensures Terminated("")
  {}

  lemma FormattedTerminated(reply: Reply)
    requires 400 <= reply.code < 600 && Strings(reply)
    ensures Formatted(reply).Some? && Terminated(Formatted(reply).value)
  {
    hide Terminated, Padded, Pieces;
    if reply.message == Some("") {
      assert Terminated("") by { Empty(); }
    } else {
      var prefix, messages, behind := TextParts(reply);
      TerminatedJoin(prefix, behind);
    }
  }

  /** The decoder is handed the formatted text. */
  lemma ReplyOnWire(status: Status, reply: Reply) returns (content: Bytes)
    requires status == TemporaryFailure || status == Reject
    requires 400 <= reply.code < 600 && Strings(reply)
    ensures StatusPacket(status, Encoded(Formatted(reply))) == Some(Pack(content))
    ensures |content| > 0 && content[0] == REPLY_CODE
    ensures Characters(content[1..]) == Formatted(reply).value + [NUL]
  {
    FormattedTerminated(reply);
    BytesBack(Formatted(reply).value);
    content := [REPLY_CODE] + AsBytes(Formatted(reply).value) + [0];
    assert content[1..] == AsBytes(Formatted(reply).value) + [0];
  }
}
