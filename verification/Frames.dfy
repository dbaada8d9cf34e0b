/**
 The frames exchanged between nodes (comms/comms.go, io/io.go): length-prefixed fields, encoded and
 decoded. A length is written and compared in 16 bits, whatever the length of the data.
 */
module Frames {
  import opened Wrappers

  type Byte = x: int | 0 <= x < 256
  type Bytes = seq<Byte>

  /** Raw data with its signature. */
  datatype Signed = Signed(data: Bytes, sigType: Byte, signature: Bytes)

  /** The fields of a first request. */
  datatype Opening = Opening(currencyID: Byte, fromAddr: Bytes, toAddr: Bytes, body: Signed)

  /** What a response says. */
  datatype Answer = Answer(succeed: bool, data: Bytes, sigType: Byte, signature: Bytes)

  // ---------------------------------------------------------------- one field

  /** The conversion uint16(n). */
  function Short(n: nat): (s: nat)
    ensures s < 0x1_0000
    ensures n < 0x1_0000 ==> s == n
  {
    n % 0x1_0000
  }

  /** binary.BigEndian.PutUint16 of uint16(n). */
  function Size(n: nat): (b: Bytes)
    ensures |b| == 2
  {
    [Short(n) / 256, Short(n) % 256]
  }

  function SizeOf(b: Bytes): nat
    requires |b| >= 2
  {
    b[0] as int * 256 + b[1] as int
  }

  /** The conversion drops whole multiples of 2^16. */
  lemma ShortWraps(n: nat, k: nat)
    requires n < 0x1_0000
    ensures Short(n + k * 0x1_0000) == n
  {
  }

  /** Sizes are ordered as the two bytes read from left to right. */
  lemma SizeOrder(n: nat, m: nat)
    requires n < 0x1_0000 && m < 0x1_0000
    ensures n < m <==> Size(n)[0] < Size(m)[0] || (Size(n)[0] == Size(m)[0] && Size(n)[1] < Size(m)[1])
    ensures SizeOf(Size(n)) == n
  {
  }

  function Sized(field: Bytes): Bytes {
    Size(|field|) + field
  }

  /** Takes one field off the front; the length test is made in 16 bits. */
  function Take(data: Bytes): Option<(Bytes, Bytes)> {
    if |data| < 2 then None
    else
      var size, rest := SizeOf(data), data[2..];
      if Short(|rest|) < size then None else Some((rest[..size], rest[size..]))
  }

  /** The field comes back if its length fits, and so does the truncated length of what follows. */
  predicate Fits(field: nat, rest: nat) {
    field < 0x1_0000 && Short(field + rest) >= field
  }

  lemma TakeSized(field: Bytes, rest: Bytes)
    ensures Take(Sized(field) + rest) == Some((field, rest)) <==> Fits(|field|, |rest|)
    ensures Take(Sized(field) + rest).Some? && Take(Sized(field) + rest).value.0 == field ==> Fits(|field|, |rest|)
  {
    var data := Sized(field) + rest;
    assert SizeOf(data) == Short(|field|);
    assert data[2..] == field + rest;
    if Take(data).Some? {
      assert |Take(data).value.0| == Short(|field|);
    }
    if Fits(|field|, |rest|) {
      assert (field + rest)[..|field|] == field && (field + rest)[|field|..] == rest;
    }
  }

  /** Whatever is taken off can be put back. */
  lemma PutBack(data: Bytes)
    requires Take(data).Some?
    ensures var (field, rest) := Take(data).value;
            Sized(field) + rest == data && |field| < 0x1_0000
  {
  }

  // ---------------------------------------------------------------- follow-up messages

  function Encode(s: Signed): Bytes {
    Sized(s.data) + ([s.sigType] + Sized(s.signature))
  }

  /** The signature type, the signature, and nothing after them. */
  function DecodeSignature(data: Bytes): Option<(Byte, Bytes)> {
    if |data| < 1 then None
    else
      match Take(data[1..])
      case None => None
      case Some((signature, rest)) => if rest != [] then None else Some((data[0], signature))
  }

  function Decode(data: Bytes): Option<Signed> {
    match Take(data)
    case None => None
    case Some((field, rest)) =>
      match DecodeSignature(rest)
      case None => None
      case Some((sigType, signature)) => Some(Signed(field, sigType, signature))
  }

  predicate FitsSigned(data: nat, signature: nat) {
    Fits(data, 3 + signature) && signature < 0x1_0000
  }

  lemma SignatureRoundTrip(sigType: Byte, signature: Bytes)
    ensures DecodeSignature([sigType] + Sized(signature)) == Some((sigType, signature)) <==> |signature| < 0x1_0000
  {
    var data := [sigType] + Sized(signature);
    assert data[1..] == Sized(signature) == Sized(signature) + [];
    TakeSized(signature, []);
  }

  /** Decoding undoes encoding exactly for the frames whose lengths survive 16 bits. */
  lemma RoundTripIff(s: Signed)
    ensures Decode(Encode(s)) == Some(s) <==> FitsSigned(|s.data|, |s.signature|)
  {
    TakeSized(s.data, [s.sigType] + Sized(s.signature));
    SignatureRoundTrip(s.sigType, s.signature);
  }

  lemma SignatureReencodes(data: Bytes)
    requires DecodeSignature(data).Some?
    ensures var (sigType, signature) := DecodeSignature(data).value;
            [sigType] + Sized(signature) == data
  {
  }

  /** Every input that decodes re-encodes to the same bytes: no frame has two encodings. */
  lemma DecodedReencodes(data: Bytes)
    requires Decode(data).Some?
    ensures Encode(Decode(data).value) == data
  {
    PutBack(data);
    SignatureReencodes(Take(data).value.1);
  }

  // ---------------------------------------------------------------- first requests

  function EncodeOpening(o: Opening): Bytes {
    [o.currencyID] + (Sized(o.fromAddr) + (Sized(o.toAddr) + Encode(o.body)))
  }

  function DecodeAddressed(data: Bytes): Option<(Bytes, Signed)> {
    match Take(data)
    case None => None
    case Some((toAddr, rest)) =>
      match Decode(rest)
      case None => None
      case Some(body) => Some((toAddr, body))
  }

  function DecodeOpening(data: Bytes): Option<Opening> {
    if |data| < 1 then None
    else
      match Take(data[1..])
      case None => None
      case Some((fromAddr, rest)) =>
        match DecodeAddressed(rest)
        case None => None
        case Some((toAddr, body)) => Some(Opening(data[0], fromAddr, toAddr, body))
  }

  function EncodedLength(s: Signed): nat {
    5 + |s.data| + |s.signature|
  }

  predicate FitsOpening(o: Opening) {
    && Fits(|o.fromAddr|, 2 + |o.toAddr| + EncodedLength(o.body))
    && Fits(|o.toAddr|, EncodedLength(o.body))
    && FitsSigned(|o.body.data|, |o.body.signature|)
  }

  lemma AddressedRoundTrip(toAddr: Bytes, body: Signed)
    ensures DecodeAddressed(Sized(toAddr) + Encode(body)) == Some((toAddr, body)) <==>
      Fits(|toAddr|, |Encode(body)|) && FitsSigned(|body.data|, |body.signature|)
  {
    TakeSized(toAddr, Encode(body));
    RoundTripIff(body);
  }

  lemma OpeningParts(data: Bytes, o: Opening)
    requires data != []
    ensures DecodeOpening(data) == Some(o) <==>
      && data[0] == o.currencyID && Take(data[1..]).Some? && Take(data[1..]).value.0 == o.fromAddr
      && DecodeAddressed(Take(data[1..]).value.1) == Some((o.toAddr, o.body))
  {
  }

  /** The same for first requests. */
  lemma OpeningRoundTripIff(o: Opening)
    ensures DecodeOpening(EncodeOpening(o)) == Some(o) <==> FitsOpening(o)
  {
    var data, inner := EncodeOpening(o), Sized(o.toAddr) + Encode(o.body);
    assert data[0] == o.currencyID && data[1..] == Sized(o.fromAddr) + inner;
    OpeningParts(data, o);
    TakeSized(o.fromAddr, inner);
    AddressedRoundTrip(o.toAddr, o.body);
    assert |inner| == 2 + |o.toAddr| + EncodedLength(o.body) && |Encode(o.body)| == EncodedLength(o.body);
  }

  lemma AddressedReencodes(data: Bytes)
    requires DecodeAddressed(data).Some?
    ensures var (toAddr, body) := DecodeAddressed(data).value;
            Sized(toAddr) + Encode(body) == data
  {
    PutBack(data);
    DecodedReencodes(Take(data).value.1);
  }

  lemma OpeningReencodes(data: Bytes)
    requires DecodeOpening(data).Some?
    ensures EncodeOpening(DecodeOpening(data).value) == data
  {
    PutBack(data[1..]);
    AddressedReencodes(Take(data[1..]).value.1);
  }

  // ---------------------------------------------------------------- responses

  /** A response is signed data whose first byte is the status. */
  function Statused(a: Answer): Signed {
    Signed([if a.succeed then 1 else 0] + a.data, a.sigType, a.signature)
  }

  function EncodeAnswer(a: Answer): Bytes {
    Encode(Statused(a))
  }

  /** GetResponse before it verifies the signature. */
  function DecodeAnswer(resp: Bytes): Option<Answer> {
    match Take(resp)
    case None => None
    case Some((field, rest)) =>
      if field == [] then None
      else
        match DecodeSignature(rest)
        case None => None
        case Some((sigType, signature)) => Some(Answer(field[0] == 1, field[1..], sigType, signature))
  }

  lemma AnswerIsSigned(resp: Bytes)
    ensures DecodeAnswer(resp) ==
      match Decode(resp)
      case None => None
      case Some(s) => if s.data == [] then None else Some(Answer(s.data[0] == 1, s.data[1..], s.sigType, s.signature))
  {
  }

  /** Even when its length is cut to 16 bits, what is decoded as the data is a prefix of the data. */
  lemma DecodedIsPrefix(s: Signed)
    ensures Decode(Encode(s)).Some? ==> Decode(Encode(s)).value.data <= s.data
  {
    TakenIsPrefix(s.data, [s.sigType] + Sized(s.signature));
  }

  lemma TakenIsPrefix(field: Bytes, rest: Bytes)
    ensures Take(Sized(field) + rest).Some? ==> Take(Sized(field) + rest).value.0 <= field
  {
  }

  lemma AnswerRoundTripIff(a: Answer)
    ensures DecodeAnswer(EncodeAnswer(a)) == Some(a) <==> FitsSigned(1 + |a.data|, |a.signature|)
  {
    var s := Statused(a);
    AnswerIsSigned(Encode(s));
    DecodedIsPrefix(s);
    RoundTripIff(s);
    assert s.data[1..] == a.data;
    if DecodeAnswer(Encode(s)) == Some(a) {
      var got := Decode(Encode(s)).value;
      assert |got.data| == |s.data|;
      assert got.data == s.data;
    }
  }

  lemma StatusDecides(s: Signed, a: Answer)
    requires s.data != [] && a == Answer(s.data[0] == 1, s.data[1..], s.sigType, s.signature)
    ensures EncodeAnswer(a) == Encode(s) <==> s.data[0] <= 1
  {
    EncodedStatus(s);
    EncodedStatus(Statused(a));
    assert s.data == [s.data[0]] + a.data;
    if s.data[0] <= 1 {
      assert Statused(a) == s;
    }
  }

  /** A response re-encodes to the same bytes exactly if its status byte is one that is sent: any
      other is read as a failure. */
  lemma AnswerReencodesIff(resp: Bytes)
    requires DecodeAnswer(resp).Some?
    ensures |resp| >= 3
    ensures EncodeAnswer(DecodeAnswer(resp).value) == resp <==> resp[2] <= 1
  {
    AnswerIsSigned(resp);
    DecodedReencodes(resp);
    EncodedStatus(Decode(resp).value);
    StatusDecides(Decode(resp).value, DecodeAnswer(resp).value);
  }

  lemma EncodedStatus(s: Signed)
    requires s.data != []
    ensures |Encode(s)| >= 3 && Encode(s)[2] == s.data[0]
  {
  }

  /** A field and signed data, byte by byte. */
  lemma SignedOnTheWire()
    ensures Size(258) == [1, 2] && Sized([5]) == [0, 1, 5] && Sized([66, 67]) == [0, 2, 66, 67]
    ensures Encode(Signed([7, 8, 9], 2, [5])) == [0, 3, 7, 8, 9, 2, 0, 1, 5]
  {
  }

  /** A first request. */
  lemma OpeningOnTheWire()
    ensures EncodeOpening(Opening(1, [5], [66, 67], Signed([7, 8, 9], 2, [5])))
         == [1, 0, 1, 5, 0, 2, 66, 67, 0, 3, 7, 8, 9, 2, 0, 1, 5]
  {
  }

  /** A response: the status byte counts as data. */
  lemma AnswerOnTheWire()
    ensures EncodeAnswer(Answer(true, [8, 9], 2, [5])) == [0, 3, 1, 8, 9, 2, 0, 1, 5]
    ensures EncodeAnswer(Answer(false, [8, 9], 2, [5])) == [0, 3, 0, 8, 9, 2, 0, 1, 5]
  {
  }

  // ---------------------------------------------------------------- on the wire

  const MAX_DATA_LENGTH: nat := 40960

  /** io.Write. */
  function Written(data: Bytes): Option<Bytes> {
    if |data| > MAX_DATA_LENGTH then None else Some(Sized(data))
  }

  /** io.Read of a stream that holds one message. */
  function ReadOff(stream: Bytes): Option<Bytes> {
    if |stream| < 2 || SizeOf(stream) > MAX_DATA_LENGTH || |stream| - 2 < SizeOf(stream) then None
    else Some(stream[2..2 + SizeOf(stream)])
  }

  lemma ReadWritten(data: Bytes)
    requires Written(data).Some?
    ensures ReadOff(Written(data).value) == Some(data)
  {
    assert SizeOf(Sized(data)) == |data|;
    assert Sized(data)[2..2 + |data|] == data;
  }

  /** Up to 40 KiB can be written; and whatever is read off could have been written. */
  lemma WrittenIff(data: Bytes)
    ensures Written(data).Some? <==> |data| <= 40 * 1024
    ensures ReadOff(data).Some? ==> Written(ReadOff(data).value).Some? && Written(ReadOff(data).value).value <= data
  {
  }

  /** Whatever can be written to the stream arrives with the same fields. */
  lemma MessageArrives(s: Signed)
    requires Written(Encode(s)).Some?
    ensures ReadOff(Written(Encode(s)).value) == Some(Encode(s))
    ensures Decode(Encode(s)) == Some(s)
  {
    ReadWritten(Encode(s));
    RoundTripIff(s);
  }

  lemma OpeningFits(o: Opening)
    requires |EncodeOpening(o)| < 0x1_0000
    ensures FitsOpening(o)
  {
  }

  /** The first message carries the requester's secret in front of the request. */
  lemma OpeningArrives(secret: Bytes, o: Opening)
    requires |secret| == 32 && Written(secret + EncodeOpening(o)).Some?
    ensures var raw := ReadOff(Written(secret + EncodeOpening(o)).value);
            raw.Some? && |raw.value| > 32 && raw.value[..32] == secret && DecodeOpening(raw.value[32..]) == Some(o)
  {
    ReadWritten(secret + EncodeOpening(o));
    assert (secret + EncodeOpening(o))[..32] == secret && (secret + EncodeOpening(o))[32..] == EncodeOpening(o);
    OpeningFits(o);
    OpeningRoundTripIff(o);
  }

  lemma AnswerArrives(a: Answer)
    requires Written(EncodeAnswer(a)).Some?
    ensures ReadOff(Written(EncodeAnswer(a)).value) == Some(EncodeAnswer(a))
    ensures DecodeAnswer(EncodeAnswer(a)) == Some(a)
  {
    ReadWritten(EncodeAnswer(a));
    AnswerRoundTripIff(a);
  }

  // ---------------------------------------------------------------- consuming a cursor

  /** Reads one length-prefixed field and moves past it. */
  method TakeField(input: Bytes) returns (taken: Option<(Bytes, Bytes)>)
    ensures taken == Take(input)
  {
    var data := input;
    if |data| < 2 {
      return None;
    }
    var length := data[0..2];
    data := data[2..];
    var size := SizeOf(length);
    if Short(|data|) < size {
      return None;
    }
    return Some((data[0..size], data[size..]));
  }

  /** The package's decode, which moves through its input field by field. */
  method DecodeMessage(input: Bytes) returns (decoded: Option<Signed>)
    ensures decoded == Decode(input)
  {
    var data := input;
    var field := TakeField(data);
    if field.None? {
      return None;
    }
    var resData := field.value.0;
    data := field.value.1;
    if |data| < 1 {
      return None;
    }
    var sigType := data[0];
    data := data[1..];
    field := TakeField(data);
    if field.None? {
      return None;
    }
    var signature := field.value.0;
    data := field.value.1;
    if |data| != 0 {
      return None;
    }
    return Some(Signed(resData, sigType, signature));
  }

  class Request {
    var currencyID: Byte
    var fromAddr: Bytes
    var toAddr: Bytes

    constructor (currencyID: Byte, fromAddr: Bytes, toAddr: Bytes)
      ensures this.currencyID == currencyID && this.fromAddr == fromAddr && this.toAddr == toAddr
    {
      this.currencyID, this.fromAddr, this.toAddr := currencyID, fromAddr, toAddr;
    }

    method Encode(data: Bytes, sigType: Byte, signature: Bytes) returns (res: Bytes)
      ensures res == EncodeOpening(Opening(currencyID, fromAddr, toAddr, Signed(data, sigType, signature)))
    {
      res := [];
      res := res + [currencyID];
      res := res + (Size(|fromAddr|) + fromAddr);
      res := res + (Size(|toAddr|) + toAddr);
      res := res + (Size(|data|) + data);
      res := res + [sigType];
      res := res + (Size(|signature|) + signature);
      assert res == [currencyID] + (Sized(fromAddr) + (Sized(toAddr) + (Sized(data) + ([sigType] + Sized(signature)))));
    }

    /** Sets the fields it has read, also when a later one cannot be decoded. */
    method Decode(input: Bytes) returns (body: Option<Signed>)
      modifies this
      ensures match DecodeOpening(input)
              case None => body == None
              case Some(o) => body == Some(o.body) && o == Opening(currencyID, fromAddr, toAddr, o.body)
      ensures currencyID == if input != [] then input[0] else old(currencyID)
      ensures fromAddr == if input != [] && Take(input[1..]).Some? then Take(input[1..]).value.0 else old(fromAddr)
    {
      var data := input;
      if |data| < 1 {
        return None;
      }
      currencyID := data[0];
      data := data[1..];
      var from := TakeField(data);
      if from.None? {
        return None;
      }
      fromAddr := from.value.0;
      data := from.value.1;
      var to := TakeField(data);
      if to.None? {
        return None;
      }
      toAddr := to.value.0;
      data := to.value.1;
      body := DecodeMessage(data);
    }
  }
}
