/** `decrypt_message` of decrypt.py: three whitespace-separated binary
    tokens read as a packet under the five-kind code table. The function
    only prints; here it returns what it computes, and each `ValueError`
    it can raise is an error value. */
module TextDecoder {
  import opened Wrappers
  import opened Bits
  import opened Tokens

  datatype MessageType = Connect | SetTempo | Start | Stop | Alert

  datatype ConductorID = C1 | C2 | C3 | C4

  datatype TargetGroupID = All | Woodwinds | Percussion | Brass | Strings | Other1 | Other2 | Other3

  /** The 3-bit code of a message type; codes 5, 6 and 7 are unassigned. */
  function MessageTypeCode(m: MessageType): (code: nat)
    ensures code < 5
  {
    match m
    case Connect => 0
    case SetTempo => 1
    case Start => 2
    case Stop => 3
    case Alert => 4
  }

  /** `MessageType(code)`, `None` where the enum raises `ValueError`. */
  function MessageTypeOf(code: int): (r: Option<MessageType>)
    ensures r.Some? <==> 0 <= code < 5
    ensures r.Some? ==> MessageTypeCode(r.value) == code
  {
    match code
    case 0 => Some(Connect)
    case 1 => Some(SetTempo)
    case 2 => Some(Start)
    case 3 => Some(Stop)
    case 4 => Some(Alert)
    case _ => None
  }

  function ConductorCode(c: ConductorID): (code: nat)
    ensures code < 4
  {
    match c
    case C1 => 0
    case C2 => 1
    case C3 => 2
    case C4 => 3
  }

  function ConductorOf(code: int): (r: Option<ConductorID>)
    ensures r.Some? <==> 0 <= code < 4
    ensures r.Some? ==> ConductorCode(r.value) == code
  {
    match code
    case 0 => Some(C1)
    case 1 => Some(C2)
    case 2 => Some(C3)
    case 3 => Some(C4)
    case _ => None
  }

  function TargetGroupCode(t: TargetGroupID): (code: nat)
    ensures code < 8
  {
    match t
    case All => 0
    case Woodwinds => 1
    case Percussion => 2
    case Brass => 3
    case Strings => 4
    case Other1 => 5
    case Other2 => 6
    case Other3 => 7
  }

  function TargetGroupOf(code: int): (r: Option<TargetGroupID>)
    ensures r.Some? <==> 0 <= code < 8
    ensures r.Some? ==> TargetGroupCode(r.value) == code
  {
    match code
    case 0 => Some(All)
    case 1 => Some(Woodwinds)
    case 2 => Some(Percussion)
    case 3 => Some(Brass)
    case 4 => Some(Strings)
    case 5 => Some(Other1)
    case 6 => Some(Other2)
    case 7 => Some(Other3)
    case _ => None
  }

  /** Each table is a bijection between its variants and its assigned codes. */
  lemma TablesBijective(m: MessageType, c: ConductorID, t: TargetGroupID)
    ensures MessageTypeOf(MessageTypeCode(m)) == Some(m)
    ensures ConductorOf(ConductorCode(c)) == Some(c)
    ensures TargetGroupOf(TargetGroupCode(t)) == Some(t)
  {
  }

  /** The decoded message: `tempo` is set for SET_TEMPO only, `time_ms` for
      START only. */
  datatype Decrypted = Decrypted(kind: MessageType, conductor: ConductorID, target: TargetGroupID,
                                 tempo: Option<nat>, timeMs: Option<nat>)

  /** The causes of the `ValueError`s `decrypt_message` raises. */
  datatype DecryptError =
    | TokenCount(count: nat)          // not exactly 3 tokens
    | InvalidLiteral(token: string)   // `int(token, 2)` fails
    | ByteOutOfRange(value: nat)      // `bytes(...)` refuses a value above 255
    | UnknownMessageType(code: nat)   // `MessageType(code)` fails
    | UnknownConductor(code: nat)
    | UnknownTargetGroup(code: nat)

  /** One token through `int(token, 2)` and the range check of `bytes`. */
  function TokenByte(tok: string): (r: Result<byte, DecryptError>)
    ensures r.Ok? <==> ParseBinary(tok).Some? && ParseBinary(tok).value < 256
    ensures r.Err? ==> r.error.InvalidLiteral? || r.error.ByteOutOfRange?
    ensures r.Ok? ==> ParseBinary(tok) == Some(r.value as nat)
    ensures ParseBinary(tok).None? ==> r == Err(InvalidLiteral(tok))
    ensures ParseBinary(tok).Some? && ParseBinary(tok).value >= 256 ==>
      r == Err(ByteOutOfRange(ParseBinary(tok).value))
  {
    match ParseBinary(tok)
    case None => Err(InvalidLiteral(tok))
    case Some(v) => if v < 256 then Ok(v) else Err(ByteOutOfRange(v))
  }

  /** `bytes(int(b, 2) for b in tokens)`: the tokens are converted in order
      and the first one that fails raises. */
  function ParseBytes(tokens: seq<string>): (r: Result<seq<byte>, DecryptError>)
    ensures r.Ok? <==> forall i :: 0 <= i < |tokens| ==> TokenByte(tokens[i]).Ok?
    ensures r.Ok? ==>
      && |r.value| == |tokens|
      && forall i :: 0 <= i < |tokens| ==> TokenByte(tokens[i]) == Ok(r.value[i])
    ensures r.Err? ==> r.error.InvalidLiteral? || r.error.ByteOutOfRange?
  {
    if tokens == [] then Ok([])
    else
      match TokenByte(tokens[0])
      case Err(e) => Err(e)
      case Ok(b) =>
        match ParseBytes(tokens[1..])
        case Err(e) => Err(e)
        case Ok(rest) =>
          assert forall i :: 1 <= i < |tokens| ==> tokens[i] == tokens[1..][i - 1];
          Ok([b] + rest)
  }

  /** The error of a failed conversion is that of the first token that
      fails. */
  lemma {:induction false} ParseBytesFirstError(tokens: seq<string>)
    requires ParseBytes(tokens).Err?
    ensures exists i ::
      && 0 <= i < |tokens| && TokenByte(tokens[i]) == Err(ParseBytes(tokens).error)
      && forall j :: 0 <= j < i ==> TokenByte(tokens[j]).Ok?
  {
    if TokenByte(tokens[0]).Err? {
      assert TokenByte(tokens[0]) == Err(ParseBytes(tokens).error);
    } else {
      ParseBytesFirstError(tokens[1..]);
      var i :| 0 <= i < |tokens[1..]| && TokenByte(tokens[1..][i]) == Err(ParseBytes(tokens[1..]).error)
        && forall j :: 0 <= j < i ==> TokenByte(tokens[1..][j]).Ok?;
      assert TokenByte(tokens[i + 1]) == Err(ParseBytes(tokens).error);
      assert forall j :: 1 <= j < i + 1 ==> tokens[j] == tokens[1..][j - 1];
    }
  }

  /** The part of `decrypt_message` after the tokens became the bytes of
      `packet`: the header fields resolved through the table, and bytes 1-2
      read as the tempo for SET_TEMPO and as the time for START. */
  function DecodePacket(packet: seq<byte>): (r: Result<Decrypted, DecryptError>)
    requires |packet| == 3
    ensures r.Ok? <==> packet[0] < 160
    ensures r.Err? ==> r.error == UnknownMessageType(packet[0] / 32)
    ensures r.Ok? ==>
      && packet[0] == 32 * MessageTypeCode(r.value.kind) + 8 * ConductorCode(r.value.conductor) + TargetGroupCode(r.value.target)
      && r.value.tempo == (if r.value.kind == SetTempo then Some(256 * (packet[1] as int) + packet[2]) else None)
      && r.value.timeMs == (if r.value.kind == Start then Some(256 * (packet[1] as int) + packet[2]) else None)
  {
    var first := packet[0];
    var msgTypeBits := Mask(Shr(first, 5), 3);
    var conductorBits := Mask(Shr(first, 3), 2);
    var targetBits := Mask(first, 3);
    HeaderFields(first);
    match MessageTypeOf(msgTypeBits)
    case None => Err(UnknownMessageType(msgTypeBits))
    case Some(msgType) =>
      match ConductorOf(conductorBits)
      case None => Err(UnknownConductor(conductorBits))
      case Some(conductor) =>
        match TargetGroupOf(targetBits)
        case None => Err(UnknownTargetGroup(targetBits))
        case Some(target) =>
          var extraValue := JoinWord(packet[1], packet[2]);
          Ok(Decrypted(msgType, conductor, target,
                       if msgType == SetTempo then Some(extraValue) else None,
                       if msgType == Start then Some(extraValue) else None))
  }

  /** `decrypt_message(packet_bits)`: the input split on whitespace (the
      `strip()` before the split changes nothing), exactly three tokens
      converted to bytes, then the packet decoded. */
  function DecryptMessage(packetBits: string): (r: Result<Decrypted, DecryptError>)
    ensures |Split(packetBits)| != 3 ==> r == Err(TokenCount(|Split(packetBits)|))
    ensures |Split(packetBits)| == 3 && ParseBytes(Split(packetBits)).Err? ==>
      r == Err(ParseBytes(Split(packetBits)).error)
    ensures |Split(packetBits)| == 3 && ParseBytes(Split(packetBits)).Ok? ==>
      r == DecodePacket(ParseBytes(Split(packetBits)).value)
  {
    var parts := Split(Strip(packetBits));
    SplitIgnoresStrip(packetBits);
    if |parts| != 3 then Err(TokenCount(|parts|))
    else
      match ParseBytes(parts)
      case Err(e) => Err(e)
      case Ok(packet) => DecodePacket(packet)
  }

  /** Of the enum lookups only the message type can fail, for the codes 5,
      6 and 7; the conductor and the target group always resolve. */
  lemma DecryptMessageErrors(packetBits: string)
    ensures var r := DecryptMessage(packetBits);
      && (r.Err? && r.error.UnknownMessageType? ==> 5 <= r.error.code < 8)
      && (r.Err? ==> !r.error.UnknownConductor? && !r.error.UnknownTargetGroup?)
  {
    var r := DecryptMessage(packetBits);
    var parts := Split(packetBits);
    if |parts| != 3 {
      assert r == Err(TokenCount(|parts|));
    } else if ParseBytes(parts).Err? {
      var e := ParseBytes(parts).error;
      assert r == Err(e);
      assert e.InvalidLiteral? || e.ByteOutOfRange?;
    } else {
      var p := ParseBytes(parts).value;
      assert |p| == 3 && r == DecodePacket(p);
      assert r.Err? ==> r.error == UnknownMessageType(p[0] / 32);
    }
  }

  /** A packet written as three 8-digit binary numbers separated by single
      spaces: the `{b:08b} {b:08b} {b:08b}` line main1.py:78 prints. */
  function PacketLine(p: seq<byte>): (line: string)
    requires |p| == 3
    ensures |line| == 26 && line[8] == ' ' && line[17] == ' '
    ensures line[..8] == ToBinary(p[0], 8) && line[9..17] == ToBinary(p[1], 8) && line[18..] == ToBinary(p[2], 8)
  {
    var a, b, c := ToBinary(p[0], 8), ToBinary(p[1], 8), ToBinary(p[2], 8);
    var ws := [a, b, c];
    assert ws[1..] == [b, c] && [b, c][1..] == [c];
    assert JoinSpaced([c]) == c;
    assert JoinSpaced([b, c]) == b + " " + c;
    assert JoinSpaced(ws) == a + " " + (b + " " + c);
    JoinSpaced(ws)
  }

  lemma ByteToken(b: byte)
    ensures TokenByte(ToBinary(b, 8)) == Ok(b)
  {
    Pow2Byte();
    TokenOfDigits(b, 8);
  }

  lemma TokenOfDigits(b: byte, n: nat)
    requires 0 < n && Pow2(n) == 256
    ensures TokenByte(ToBinary(b, n)) == Ok(b)
  {
    ParseToBinary(b, n);
    var w := ToBinary(b, n);
    assert ParseBinary(w) == Some(b as nat);
  }

  lemma Pow2Byte()
    ensures Pow2(8) == 256
  {
  }

  /** The printed line of a packet splits into three tokens that convert back
      to the packet's bytes. */
  lemma PacketLineTokens(p: seq<byte>)
    requires |p| == 3
    ensures |Split(PacketLine(p))| == 3 && ParseBytes(Split(PacketLine(p))) == Ok(p)
  {
    var ws := [ToBinary(p[0], 8), ToBinary(p[1], 8), ToBinary(p[2], 8)];
    forall k | 0 <= k < 3 ensures IsToken(ws[k]) && TokenByte(ws[k]) == Ok(p[k]) {
      DigitsAreToken(ws[k]);
      ByteToken(p[k]);
    }
    SplitJoinSpaced(ws);
    var r := ParseBytes(ws);
    assert r.Ok? && |r.value| == 3;
    assert r.value == p;
  }

  lemma DigitsAreToken(w: string)
    requires |w| > 0 && IsBinaryDigits(w)
    ensures IsToken(w)
  {
    forall i | 0 <= i < |w| ensures !IsSpace(w[i]) {
    }
  }

  /** Reading the printed line of a packet decodes the packet itself. */
  lemma DecryptPacketLine(p: seq<byte>)
    requires |p| == 3
    ensures DecryptMessage(PacketLine(p)) == DecodePacket(p)
  {
    PacketLineTokens(p);
  }

  /** The example of the prompt, the line of the packet 29 03 20, is SET_TEMPO
      from C2 to WOODWINDS at tempo 800. */
  lemma ExamplePrompt()
    ensures DecryptMessage("00101001 00000011 00100000") == Ok(Decrypted(SetTempo, C2, Woodwinds, Some(800), None))
  {
    var p: seq<byte> := [0x29, 0x03, 0x20];
    ExampleLine(p);
    DecryptPacketLine(p);
    ExampleDecodePacket(p);
  }

  lemma ExampleLine(p: seq<byte>)
    requires p == [0x29, 0x03, 0x20]
    ensures PacketLine(p) == "00101001 00000011 00100000"
  {
    var line := PacketLine(p);
    ExampleDigits();
    assert line == line[..8] + " " + line[9..17] + " " + line[18..];
  }

  lemma ExampleDigits()
    ensures ToBinary(0x29, 8) == "00101001"
    ensures ToBinary(0x03, 8) == "00000011"
    ensures ToBinary(0x20, 8) == "00100000"
  {
    Digits29();
    Digits03();
    Digits20();
  }

  lemma Digits29()
    ensures ToBinary(0x29, 8) == "00101001"
  {
    assert ToBinary(0, 1) == "0";
    assert ToBinary(0, 2) == "00";
    assert ToBinary(1, 3) == "001";
    assert ToBinary(2, 4) == "0010";
    assert ToBinary(5, 5) == "00101";
    assert ToBinary(10, 6) == "001010";
    assert ToBinary(20, 7) == "0010100";
    assert ToBinary(41, 8) == "00101001";
  }

  lemma Digits03()
    ensures ToBinary(0x03, 8) == "00000011"
  {
    assert ToBinary(0, 1) == "0";
    assert ToBinary(0, 2) == "00";
    assert ToBinary(0, 3) == "000";
    assert ToBinary(0, 4) == "0000";
    assert ToBinary(0, 5) == "00000";
    assert ToBinary(0, 6) == "000000";
    assert ToBinary(1, 7) == "0000001";
    assert ToBinary(3, 8) == "00000011";
  }

  lemma Digits20()
    ensures ToBinary(0x20, 8) == "00100000"
  {
    assert ToBinary(0, 1) == "0";
    assert ToBinary(0, 2) == "00";
    assert ToBinary(1, 3) == "001";
    assert ToBinary(2, 4) == "0010";
    assert ToBinary(4, 5) == "00100";
    assert ToBinary(8, 6) == "001000";
    assert ToBinary(16, 7) == "0010000";
    assert ToBinary(32, 8) == "00100000";
  }

  lemma ExampleDecodePacket(p: seq<byte>)
    requires p == [0x29, 0x03, 0x20]
    ensures DecodePacket(p) == Ok(Decrypted(SetTempo, C2, Woodwinds, Some(800), None))
  {
    var r := DecodePacket(p);
    FieldsOf(41, r.value.kind, r.value.conductor, r.value.target);
  }

  lemma FieldsOf(b: nat, m: MessageType, c: ConductorID, t: TargetGroupID)
    requires b == 32 * MessageTypeCode(m) + 8 * ConductorCode(c) + TargetGroupCode(t)
    ensures MessageTypeCode(m) == b / 32 && ConductorCode(c) == (b / 8) % 4 && TargetGroupCode(t) == b % 8
  {
    var k, c', t' := MessageTypeCode(m), ConductorCode(c), TargetGroupCode(t);
    DivModUnique(b, 32, k, 8 * c' + t');
    DivModUnique(b, 8, 4 * k + c', t');
    DivModUnique(4 * k + c', 4, k, c');
  }
}
