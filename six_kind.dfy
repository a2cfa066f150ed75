/** The six-kind code table and the packet encoder `encrypt_message`, which
    main.py and encrypt.py declare line for line alike. */
module SixKind {
  import opened Wrappers
  import opened Bits

  datatype MessageType = DirectPairing | GroupPairing | SetTempo | Start | Stop | Alert

  datatype ConductorID = C1 | C2 | C3 | C4

  datatype TargetGroupID = All | Woodwinds | Percussion | Brass | Strings | Other1 | Other2 | Other3

  /** The 3-bit code of a message type; codes 6 and 7 are unassigned. */
  function MessageTypeCode(m: MessageType): (code: nat)
    ensures code < 6
  {
    match m
    case DirectPairing => 0
    case GroupPairing => 1
    case SetTempo => 2
    case Start => 3
    case Stop => 4
    case Alert => 5
  }

  /** `MessageType(code)` when `code` is among the table's values, `None`
      otherwise. */
  function MessageTypeOf(code: int): (r: Option<MessageType>)
    ensures r.Some? <==> 0 <= code < 6
    ensures r.Some? ==> MessageTypeCode(r.value) == code
  {
    match code
    case 0 => Some(DirectPairing)
    case 1 => Some(GroupPairing)
    case 2 => Some(SetTempo)
    case 3 => Some(Start)
    case 4 => Some(Stop)
    case 5 => Some(Alert)
    case _ => None
  }

  function ConductorCode(c: ConductorID): (code: nat)
    ensures code < 4
  {
    match c
    case C1 => 0
    case C2 => 1
    case C3 => 2
    case C4 => 3
  }

  function ConductorOf(code: int): (r: Option<ConductorID>)
    ensures r.Some? <==> 0 <= code < 4
    ensures r.Some? ==> ConductorCode(r.value) == code
  {
    match code
    case 0 => Some(C1)
    case 1 => Some(C2)
    case 2 => Some(C3)
    case 3 => Some(C4)
    case _ => None
  }

  function TargetGroupCode(t: TargetGroupID): (code: nat)
    ensures code < 8
  {
    match t
    case All => 0
    case Woodwinds => 1
    case Percussion => 2
    case Brass => 3
    case Strings => 4
    case Other1 => 5
    case Other2 => 6
    case Other3 => 7
  }

  function TargetGroupOf(code: int): (r: Option<TargetGroupID>)
    ensures r.Some? <==> 0 <= code < 8
    ensures r.Some? ==> TargetGroupCode(r.value) == code
  {
    match code
    case 0 => Some(All)
    case 1 => Some(Woodwinds)
    case 2 => Some(Percussion)
    case 3 => Some(Brass)
    case 4 => Some(Strings)
    case 5 => Some(Other1)
    case 6 => Some(Other2)
    case 7 => Some(Other3)
    case _ => None
  }

  /** Each table is a bijection between its variants and its assigned codes. */
  lemma TablesBijective(m: MessageType, c: ConductorID, t: TargetGroupID)
    ensures MessageTypeOf(MessageTypeCode(m)) == Some(m)
    ensures ConductorOf(ConductorCode(c)) == Some(c)
    ensures TargetGroupOf(TargetGroupCode(t)) == Some(t)
  {
    match m
    case DirectPairing =>
    case GroupPairing =>
    case SetTempo =>
    case Start =>
    case Stop =>
    case Alert =>
  }

  /** Python's `x or 0` on an optional integer: a truthy `x` (a non-zero
      integer) is the result, a falsy one (`None` or 0) gives 0. */
  function OrZero(x: Option<int>): (r: int)
    ensures x.Some? && x.value != 0 ==> r == x.value
    ensures !(x.Some? && x.value != 0) ==> r == 0
  {
    if x.Some? then x.value else 0
  }

  /** Whether the kind carries a payload in bytes 1-2 (a tempo or a time). */
  predicate HasPayload(m: MessageType)
  {
    m == SetTempo || m == Start
  }

  /** `encrypt_message(msg_type, conductor, target, tempo, time_ms)`, without
      its printed summary: the header byte, then the tempo (SET_TEMPO) or
      the time (START) as two big-endian bytes, zero for the other kinds. */
  function EncryptMessage(m: MessageType, c: ConductorID, t: TargetGroupID,
                          tempo: Option<int>, timeMs: Option<int>): (packet: seq<byte>)
    ensures |packet| == 3
    ensures packet[0] == 32 * MessageTypeCode(m) + 8 * ConductorCode(c) + TargetGroupCode(t)
    ensures m == SetTempo ==> 256 * (packet[1] as int) + packet[2] == OrZero(tempo) % 65536
    ensures m == Start ==> 256 * (packet[1] as int) + packet[2] == OrZero(timeMs) % 65536
    ensures !HasPayload(m) ==> packet[1] == 0 && packet[2] == 0
  {
    var first := PackHeader(MessageTypeCode(m), ConductorCode(c), TargetGroupCode(t));
    var value := PayloadValue(m, tempo, timeMs);
    var w := value % 65536;
    assert 256 * HighByte(value) + LowByte(value) == w by {
      assert HighByte(value) == w / 256 && LowByte(value) == w % 256;
    }
    assert !HasPayload(m) ==> value == 0;
    [first, HighByte(value), LowByte(value)]
  }

  /** The value `encrypt_message` puts in bytes 1-2: `tempo or 0` for
      SET_TEMPO, `time_ms or 0` for START, 0 otherwise. */
  function PayloadValue(m: MessageType, tempo: Option<int>, timeMs: Option<int>): (r: int)
    ensures m == SetTempo && tempo.Some? ==> r == tempo.value
    ensures m == Start && timeMs.Some? ==> r == timeMs.value
    ensures (m == SetTempo && tempo.None?) || (m == Start && timeMs.None?) || !HasPayload(m) ==> r == 0
  {
    if m == SetTempo then OrZero(tempo)
    else if m == Start then OrZero(timeMs)
    else 0
  }

  /** The header byte never exceeds 0b101_11_111: it always fits a byte,
      so `bytes([...])` cannot raise. */
  lemma HeaderBound(m: MessageType, c: ConductorID, t: TargetGroupID, tempo: Option<int>, timeMs: Option<int>)
    ensures EncryptMessage(m, c, t, tempo, timeMs)[0] <= 191
  {
  }

  /** The payload of a kind without one is zeroed whatever the caller passed,
      so the encoder's output depends on the kind, conductor and target
      alone. */
  lemma PayloadIgnoredWithoutPayloadKind(m: MessageType, c: ConductorID, t: TargetGroupID,
                                         tempo: Option<int>, timeMs: Option<int>,
                                         tempo': Option<int>, timeMs': Option<int>)
    requires !HasPayload(m)
    ensures EncryptMessage(m, c, t, tempo, timeMs) == EncryptMessage(m, c, t, tempo', timeMs')
  {
  }

  /** The value for SET_TEMPO is the tempo alone, for START the time alone. */
  lemma PayloadSelection(c: ConductorID, t: TargetGroupID,
                         tempo: Option<int>, timeMs: Option<int>, other: Option<int>)
    ensures EncryptMessage(SetTempo, c, t, tempo, timeMs) == EncryptMessage(SetTempo, c, t, tempo, other)
    ensures EncryptMessage(Start, c, t, tempo, timeMs) == EncryptMessage(Start, c, t, other, timeMs)
    ensures EncryptMessage(SetTempo, c, t, None, timeMs) == EncryptMessage(SetTempo, c, t, Some(0), timeMs)
  {
    SamePayloadSamePacket(SetTempo, c, t, tempo, timeMs, tempo, other);
    SamePayloadSamePacket(Start, c, t, tempo, timeMs, other, timeMs);
    SamePayloadSamePacket(SetTempo, c, t, None, timeMs, Some(0), timeMs);
  }

  /** The packet depends on the tempo and the time only through the value
      sent. */
  lemma SamePayloadSamePacket(m: MessageType, c: ConductorID, t: TargetGroupID,
                              tempo: Option<int>, timeMs: Option<int>, tempo': Option<int>, timeMs': Option<int>)
    requires PayloadValue(m, tempo, timeMs) == PayloadValue(m, tempo', timeMs')
    ensures EncryptMessage(m, c, t, tempo, timeMs) == EncryptMessage(m, c, t, tempo', timeMs')
  {
  }

  /** A tempo (SET_TEMPO) or a time (START) of 256 * hi + lo, which is one
      that fits 16 bits, is sent as the bytes hi, lo. */
  lemma PayloadBytes(m: MessageType, c: ConductorID, t: TargetGroupID, tempo: Option<int>, timeMs: Option<int>,
                     hi: byte, lo: byte)
    requires (m == SetTempo && OrZero(tempo) == 256 * hi + lo) || (m == Start && OrZero(timeMs) == 256 * hi + lo)
    ensures EncryptMessage(m, c, t, tempo, timeMs)[1] == hi && EncryptMessage(m, c, t, tempo, timeMs)[2] == lo
  {
    var v := PayloadValue(m, tempo, timeMs);
    var e := EncryptMessage(m, c, t, tempo, timeMs);
    assert e[1] == HighByte(v) && e[2] == LowByte(v);
    JoinSplit(v, hi, lo);
    assert JoinWord(hi, lo) == v;
  }

  /** (SET_TEMPO, C2, PERCUSSION, tempo 120) is the packet 4A 00 78. */
  lemma ExampleSetTempo(c: ConductorID, t: TargetGroupID, tempo: Option<int>)
    requires c == C2 && t == Percussion && tempo == Some(120)
    ensures EncryptMessage(SetTempo, c, t, tempo, None) == [0x4A, 0x00, 0x78]
  {
    var p := EncryptMessage(SetTempo, c, t, tempo, None);
    PayloadBytes(SetTempo, c, t, tempo, None, 0x00, 0x78);
    SameBytes(p, [0x4A, 0x00, 0x78]);
  }

  /** (STOP, C4, ALL, tempo 999) is the packet 98 00 00: the tempo is dropped. */
  lemma ExampleStop()
    ensures EncryptMessage(Stop, C4, All, Some(999), None) == [0x98, 0x00, 0x00]
  {
  }

  lemma SameBytes(p: seq<byte>, q: seq<byte>)
    requires |p| == 3 && |q| == 3
    requires p[0] == q[0] && p[1] == q[1] && p[2] == q[2]
    ensures p == q
  {
  }
}
