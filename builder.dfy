/** The packing part of `build_message` in main1.py, under its own
    five-kind code table, with the values the function prompts for taken as
    parameters: the message type, the conductor and target numbers as
    typed, and the tempo (already truncated to an integer) and the time. */
module Builder {
  import opened Wrappers
  import opened Bits
  import TextDecoder

  datatype MessageType = Connect | SetTempo | Start | Stop | Alert

  datatype ConductorID = Conductor1 | Conductor2 | Conductor3 | Conductor4

  datatype TargetGroupID = All | Woodwinds | Percussion | Brass | Strings | Choir | Soloist | Other

  function MessageTypeCode(m: MessageType): (code: nat)
    ensures code < 5
  {
    match m
    case Connect => 0
    case SetTempo => 1
    case Start => 2
    case Stop => 3
    case Alert => 4
  }

  function ConductorCode(c: ConductorID): (code: nat)
    ensures code < 4
  {
    match c
    case Conductor1 => 0
    case Conductor2 => 1
    case Conductor3 => 2
    case Conductor4 => 3
  }

  /** `ConductorID(value)`, `None` where it raises `ValueError`. */
  function ConductorOf(value: int): (r: Option<ConductorID>)
    ensures r.Some? <==> 0 <= value < 4
    ensures r.Some? ==> ConductorCode(r.value) == value
  {
    match value
    case 0 => Some(Conductor1)
    case 1 => Some(Conductor2)
    case 2 => Some(Conductor3)
    case 3 => Some(Conductor4)
    case _ => None
  }

  function TargetGroupCode(t: TargetGroupID): (code: nat)
    ensures code < 8
  {
    match t
    case All => 0
    case Woodwinds => 1
    case Percussion => 2
    case Brass => 3
    case Strings => 4
    case Choir => 5
    case Soloist => 6
    case Other => 7
  }

  /** `TargetGroupID(value)`, `None` where it raises `ValueError`. */
  function TargetGroupOf(value: int): (r: Option<TargetGroupID>)
    ensures r.Some? <==> 0 <= value < 8
    ensures r.Some? ==> TargetGroupCode(r.value) == value
  {
    match value
    case 0 => Some(All)
    case 1 => Some(Woodwinds)
    case 2 => Some(Percussion)
    case 3 => Some(Brass)
    case 4 => Some(Strings)
    case 5 => Some(Choir)
    case 6 => Some(Soloist)
    case 7 => Some(Other)
    case _ => None
  }

  /** The `ValueError`s of the enum lookups, with the number that was typed. */
  datatype BuildError = InvalidConductor(value: int) | InvalidTargetGroup(value: int)

  /** The packet `build_message` returns: the conductor is looked up first,
      then the target group; the payload bytes stay 0 unless the type is
      SET_TEMPO (the tempo) or START (the time). Each of `tempo` and
      `timeMs` is read only for its own message type. */
  function BuildMessage(m: MessageType, conductorValue: int, targetValue: int, tempo: int, timeMs: int)
    : (r: Result<seq<byte>, BuildError>)
    ensures r.Ok? <==> 0 <= conductorValue < 4 && 0 <= targetValue < 8
    ensures !(0 <= conductorValue < 4) ==> r == Err(InvalidConductor(conductorValue))
    ensures 0 <= conductorValue < 4 && !(0 <= targetValue < 8) ==> r == Err(InvalidTargetGroup(targetValue))
    ensures r.Ok? ==>
      && |r.value| == 3
      && r.value[0] == 32 * MessageTypeCode(m) + 8 * conductorValue + targetValue
      && r.value[0] < 160
    ensures r.Ok? && m == SetTempo ==> 256 * (r.value[1] as int) + r.value[2] == tempo % 65536
    ensures r.Ok? && m == Start ==> 256 * (r.value[1] as int) + r.value[2] == timeMs % 65536
    ensures r.Ok? && m in {Connect, Stop, Alert} ==> r.value[1] == 0 && r.value[2] == 0
  {
    match ConductorOf(conductorValue)
    case None => Err(InvalidConductor(conductorValue))
    case Some(conductor) =>
      match TargetGroupOf(targetValue)
      case None => Err(InvalidTargetGroup(targetValue))
      case Some(target) => Ok(Pack(m, conductor, target, tempo, timeMs))
  }

  /** Lines 57-74 of `build_message`, once the enums are resolved. */
  function Pack(m: MessageType, conductor: ConductorID, target: TargetGroupID, tempo: int, timeMs: int)
    : (p: seq<byte>)
    ensures |p| == 3
    ensures p[0] == 32 * MessageTypeCode(m) + 8 * ConductorCode(conductor) + TargetGroupCode(target)
    ensures m == SetTempo ==> 256 * (p[1] as int) + p[2] == tempo % 65536
    ensures m == Start ==> 256 * (p[1] as int) + p[2] == timeMs % 65536
    ensures m in {Connect, Stop, Alert} ==> p[1] == 0 && p[2] == 0
  {
    var firstByte := PackHeader(MessageTypeCode(m), ConductorCode(conductor), TargetGroupCode(target));
    var secondByte, thirdByte :=
      if m == SetTempo then HighByte(tempo) else if m == Start then HighByte(timeMs) else 0,
      if m == SetTempo then LowByte(tempo) else if m == Start then LowByte(timeMs) else 0;
    [firstByte, secondByte, thirdByte]
  }

  /** The tempo is asked for only for SET_TEMPO and the time only for
      START: the value of the other one never reaches the packet. */
  lemma UnpromptedValuesIgnored(m: MessageType, c: int, t: int, tempo: int, timeMs: int, tempo': int, timeMs': int)
    requires m != SetTempo || tempo == tempo'
    requires m != Start || timeMs == timeMs'
    ensures BuildMessage(m, c, t, tempo, timeMs) == BuildMessage(m, c, t, tempo', timeMs')
  {
  }

  /** Each table is a bijection between its variants and its values. */
  lemma TablesBijective(c: ConductorID, t: TargetGroupID)
    ensures ConductorOf(ConductorCode(c)) == Some(c)
    ensures TargetGroupOf(TargetGroupCode(t)) == Some(t)
  {
  }

  /** The line main1.py prints for the packet, read back by decrypt.py's
      `decrypt_message` (which uses the same code table), gives back the
      message type, the conductor and target numbers, and the tempo or the
      time modulo 2^16. */
  lemma BuildThenDecrypt(m: MessageType, conductorValue: int, targetValue: int, tempo: int, timeMs: int)
    requires 0 <= conductorValue < 4 && 0 <= targetValue < 8
    ensures var p := BuildMessage(m, conductorValue, targetValue, tempo, timeMs).value;
      var r := TextDecoder.DecryptMessage(TextDecoder.PacketLine(p));
      && r.Ok?
      && TextDecoder.MessageTypeCode(r.value.kind) == MessageTypeCode(m)
      && TextDecoder.ConductorCode(r.value.conductor) == conductorValue
      && TextDecoder.TargetGroupCode(r.value.target) == targetValue
      && r.value.tempo == (if m == SetTempo then Some(tempo % 65536) else None)
      && r.value.timeMs == (if m == Start then Some(timeMs % 65536) else None)
  {
    var p := BuildMessage(m, conductorValue, targetValue, tempo, timeMs).value;
    TextDecoder.DecryptPacketLine(p);
    DecodeBuilt(p, m, conductorValue, targetValue, tempo, timeMs);
  }

  lemma DecodeBuilt(p: seq<byte>, m: MessageType, c: nat, t: nat, tempo: int, timeMs: int)
    requires |p| == 3 && c < 4 && t < 8
    requires p[0] == 32 * MessageTypeCode(m) + 8 * c + t
    requires m == SetTempo ==> 256 * (p[1] as int) + p[2] == tempo % 65536
    requires m == Start ==> 256 * (p[1] as int) + p[2] == timeMs % 65536
    ensures var r := TextDecoder.DecodePacket(p);
      && r.Ok?
      && TextDecoder.MessageTypeCode(r.value.kind) == MessageTypeCode(m)
      && TextDecoder.ConductorCode(r.value.conductor) == c
      && TextDecoder.TargetGroupCode(r.value.target) == t
      && r.value.tempo == (if m == SetTempo then Some(tempo % 65536) else None)
      && r.value.timeMs == (if m == Start then Some(timeMs % 65536) else None)
  {
    var d := TextDecoder.DecodePacket(p).value;
    HeaderUnique(MessageTypeCode(m), c, t,
                 TextDecoder.MessageTypeCode(d.kind), TextDecoder.ConductorCode(d.conductor),
                 TextDecoder.TargetGroupCode(d.target));
    SameKind(m, d.kind);
  }

  /** The two five-kind tables of main1.py and decrypt.py agree on codes. */
  lemma SameKind(m: MessageType, k: TextDecoder.MessageType)
    requires TextDecoder.MessageTypeCode(k) == MessageTypeCode(m)
    ensures (k == TextDecoder.SetTempo) == (m == SetTempo)
    ensures (k == TextDecoder.Start) == (m == Start)
  {
  }
}
