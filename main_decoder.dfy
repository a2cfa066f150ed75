/** `decrypt_message` of main.py: a 3-byte packet split into its fields,
    each field code resolved through the six-kind table. The function only
    prints; here it returns what it computes. */
module MainDecoder {
  import opened Wrappers
  import opened Bits
  import opened SixKind

  /** The codes read from the header, each code's variant (`None` where the
      code is not in the table) and the 16-bit `value` of bytes 1-2. */
  datatype Decoded = Decoded(kindCode: nat, conductorCode: nat, targetCode: nat,
                             kind: Option<MessageType>, conductor: Option<ConductorID>,
                             target: Option<TargetGroupID>, value: nat)

  /** The `ValueError` raised for a packet that is not 3 bytes long. */
  datatype DecodeError = WrongLength(length: nat)

  function DecryptMessage(packet: seq<byte>): (r: Result<Decoded, DecodeError>)
    ensures r.Err? <==> |packet| != 3
    ensures r.Err? ==> r.error == WrongLength(|packet|)
    ensures r.Ok? ==>
      && r.value.kindCode < 8 && r.value.conductorCode < 4 && r.value.targetCode < 8
      && packet[0] == 32 * r.value.kindCode + 8 * r.value.conductorCode + r.value.targetCode
      && r.value.value == 256 * (packet[1] as int) + packet[2] && r.value.value < 65536
    ensures r.Ok? ==>
      && (r.value.kind.None? <==> r.value.kindCode >= 6)
      && (r.value.kind.Some? ==> MessageTypeCode(r.value.kind.value) == r.value.kindCode)
      && r.value.conductor.Some? && ConductorCode(r.value.conductor.value) == r.value.conductorCode
      && r.value.target.Some? && TargetGroupCode(r.value.target.value) == r.value.targetCode
  {
    if |packet| != 3 then Err(WrongLength(|packet|))
    else
      var first, second, third := packet[0], packet[1], packet[2];
      var msgVal := Mask(Shr(first, 5), 3);
      var conductorVal := Mask(Shr(first, 3), 2);
      var targetVal := Mask(first, 3);
      var value := JoinWord(second, third);
      HeaderFields(first);
      Ok(Decoded(msgVal, conductorVal, targetVal,
                 MessageTypeOf(msgVal), ConductorOf(conductorVal), TargetGroupOf(targetVal), value))
  }

  /** The payload `encrypt_message` puts on the wire, as decoded. */
  function WirePayload(m: MessageType, tempo: Option<int>, timeMs: Option<int>): nat
  {
    if m == SetTempo then OrZero(tempo) % 65536
    else if m == Start then OrZero(timeMs) % 65536
    else 0
  }

  /** Decoding an encoded packet recovers the kind, the conductor and the
      target exactly, and the payload modulo 2^16 (0 for kinds without one). */
  lemma RoundTrip(m: MessageType, c: ConductorID, t: TargetGroupID, tempo: Option<int>, timeMs: Option<int>)
    ensures var r := DecryptMessage(EncryptMessage(m, c, t, tempo, timeMs));
      && r.Ok? && r.value.kind == Some(m) && r.value.conductor == Some(c) && r.value.target == Some(t)
      && r.value.value == WirePayload(m, tempo, timeMs)
  {
    var p := EncryptMessage(m, c, t, tempo, timeMs);
    var d := DecryptMessage(p).value;
    HeaderUnique(MessageTypeCode(m), ConductorCode(c), TargetGroupCode(t),
                 d.kindCode, d.conductorCode, d.targetCode);
    TablesBijective(m, c, t);
  }

  /** A tempo or a time in 0..65535 comes back unchanged, passed as the
      program passes it: the tempo alone for SET_TEMPO, the time alone for
      START. */
  lemma RoundTripInRange(m: MessageType, c: ConductorID, t: TargetGroupID, v: int)
    requires HasPayload(m) && 0 <= v < 65536
    ensures var r := DecryptMessage(EncryptMessage(m, c, t, if m == SetTempo then Some(v) else None,
                                                   if m == Start then Some(v) else None));
      r.Ok? && r.value.value == v
  {
    var tempo, timeMs := if m == SetTempo then Some(v) else None, if m == Start then Some(v) else None;
    assert v % 65536 == v;
    assert WirePayload(m, tempo, timeMs) == v;
    RoundTrip(m, c, t, tempo, timeMs);
  }

  /** A packet of a kind in the table, whose payload is zero unless its kind
      carries one, is what `encrypt_message` makes of its decoded fields,
      the value passed as the tempo for SET_TEMPO and as the time for START:
      the encoder reaches every canonical packet. */
  lemma EncodeDecoded(packet: seq<byte>)
    requires |packet| == 3 && packet[0] < 192
    requires !(64 <= packet[0] < 128) ==> packet[1] == 0 && packet[2] == 0
    ensures var r := DecryptMessage(packet);
      && r.Ok? && r.value.kind.Some?
      && var m := r.value.kind.value;
         EncryptMessage(m, r.value.conductor.value, r.value.target.value,
                        if m == SetTempo then Some(r.value.value) else None,
                        if m == Start then Some(r.value.value) else None) == packet
  {
    var d := DecryptMessage(packet).value;
    assert d.kindCode < 6;
    EncodeFields(d.kind.value, d.conductor.value, d.target.value, d.value, packet);
  }

  lemma EncodeFields(m: MessageType, c: ConductorID, t: TargetGroupID, v: nat, packet: seq<byte>)
    requires |packet| == 3
    requires packet[0] == 32 * MessageTypeCode(m) + 8 * ConductorCode(c) + TargetGroupCode(t)
    requires v == 256 * (packet[1] as int) + packet[2]
    requires !HasPayload(m) ==> packet[1] == 0 && packet[2] == 0
    ensures EncryptMessage(m, c, t, if m == SetTempo then Some(v) else None,
                           if m == Start then Some(v) else None) == packet
  {
    var tempo, timeMs := if m == SetTempo then Some(v) else None, if m == Start then Some(v) else None;
    var e := EncryptMessage(m, c, t, tempo, timeMs);
    if HasPayload(m) {
      assert OrZero(Some(v)) == v;
      PayloadBytes(m, c, t, tempo, timeMs, packet[1], packet[2]);
    }
    SameBytes(e, packet);
  }

  /** Kind codes 6 and 7 are reported as unknown, not as an error. */
  lemma ReservedKindIsUnknown(packet: seq<byte>)
    requires |packet| == 3 && packet[0] >= 192
    ensures DecryptMessage(packet).Ok? && DecryptMessage(packet).value.kind == None
  {
  }

  /** E3 00 3C: kind 7 (unknown), conductor C1, target BRASS, value 60. */
  lemma ExampleReservedKind()
    ensures DecryptMessage([0xE3, 0x00, 0x3C])
      == Ok(Decoded(7, 0, 3, None, Some(C1), Some(Brass), 60))
  {
  }
}
