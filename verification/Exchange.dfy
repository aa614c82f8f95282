/**
 Encoder and decoder together: what one end packs with the default limit, the other end unpacks.
 */
module Exchange {
  import opened Bytes
  import opened Buffers
  import opened Codec
  import opened Decoders
  import opened Decoding
  import opened Encoders
  import opened Encoding
  import opened Normal
  import opened Terms
  import opened WireForms

  /** One message with the default limit. */
  method PackMessage(value: Data, grants: nat -> bool) returns (sent: PackResult, message: seq<byte>)
    ensures (forall i: nat :: grants(i)) ==> (sent.Done? <==> Height(value) <= 256 && CountsFit(value))
    ensures sent.Done? ==> Height(value) <= 256 && CountsFit(value) && message == Message(value)
  {
    var encoder := new Encoder(grants);
    ghost var before := encoder.pk.State();
    sent := encoder.Pack(value, DEFAULT_RECURSE_LIMIT);
    CompletesIffLowEnough(value, DEFAULT_RECURSE_LIMIT);
    assert (forall i: nat :: grants(i)) ==> AllGranted(grants, before, encoder.pk.State());
    var buf, length := encoder.Release();
    message := buf[..length];
  }

  method UnpackMessage(bytes: seq<byte>, scanFloat: FloatScan)
      returns (received: Data, isInvalid: bool, consumed: nat)
    ensures var src := Source(bytes, scanFloat);
            var r := Unpack(src, Start(src, false));
            received == r.value && isInvalid == r.next.invalid && consumed == r.next.offset
  {
    var packet := new byte[|bytes|];
    CopyInto(packet, 0, bytes);
    assert packet[..packet.Length] == bytes;
    var decoder := new Decoder(packet, packet.Length, false, scanFloat);
    received := decoder.Unpack();
    isInvalid := decoder.isInvalid;
    consumed := decoder.offset;
  }

  /**
   Packs `value`, puts its message before `trailing` bytes, and unpacks. If no memory is refused, packing
   succeeds exactly on the values of height at most 256 with list and map sizes that fit; and whenever it
   succeeds on a value whose strings fit too, the receiver gets its normal form, consumes the message and
   nothing else, and sees no error. Whenever packing succeeds, the receiver gets the value itself exactly if
   that is in normal form and its strings fit.
   */
  method PackThenUnpack(value: Data, grants: nat -> bool, scanFloat: FloatScan, trailing: seq<byte>)
      returns (sent: PackResult, received: Data, isInvalid: bool, consumed: nat)
    ensures (forall i: nat :: grants(i)) ==> (sent.Done? <==> Height(value) <= 256 && CountsFit(value))
    ensures sent.Done? ==> Height(value) <= 256 && CountsFit(value)
    ensures sent.Done? && StringsFit(value) ==>
              received == Norm(value) && !isInvalid && consumed == 1 + |Enc(value)|
    ensures sent.Done? ==> (received == value <==> Canonical(value) && WellFormed(value) && StringsFit(value))
  {
    received, isInvalid, consumed := Undefined, true, 0;
    var message;
    sent, message := PackMessage(value, grants);
    if sent.Done? {
      if StringsFit(value) {
        MessageRoundTrip(scanFloat, value, trailing);
      }
      MessageSurvivesIff(scanFloat, value, trailing);
      assert Start(Source(message + trailing, scanFloat), false) == Good(1);
      received, isInvalid, consumed := UnpackMessage(message + trailing, scanFloat);
    }
  }
}
