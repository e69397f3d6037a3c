/**
  The request the game contract queues and the response the worker sends back, as fixed-width
  little-endian bytes. Contract and worker list the fields in the same order.
 */
module GuessMessages {
  import opened Wrappers
  import opened ByteCodec
  import opened AccessControl

  datatype Clue = More | Less | Found

  datatype Request = Request(
    gameNumber: U128, minNumber: U16, maxNumber: U16, player: Address, attempt: U32, guess: U16)

  datatype Response = Response(
    gameNumber: U128, player: Address, attempt: U32, guess: U16, clue: Clue, maxAttempts: U32, target: Option<U16>)

  /** A little-endian field of a byte string. */
  function Field(b: Bytes, at: nat, w: nat): (n: nat)
    requires at + w <= |b|
    ensures n < Pow256(w)
  {
    DecodeLEBound(b[at..at + w]);
    DecodeLE(b[at..at + w])
  }

  function FieldU16(b: Bytes, at: nat): U16
    requires at + 2 <= |b|
  {
    Widths();
    Field(b, at, 2)
  }

  function FieldU32(b: Bytes, at: nat): U32
    requires at + 4 <= |b|
  {
    Widths();
    Field(b, at, 4)
  }

  function FieldU128(b: Bytes, at: nat): U128
    requires at + 16 <= |b|
  {
    Widths();
    Field(b, at, 16)
  }

  /** Bytes are the encoding of the number they decode to. */
  lemma FieldOut(b: Bytes, at: nat, w: nat)
    requires at + w <= |b|
    ensures b[at..at + w] == EncodeLE(Field(b, at, w), w)
  {
    EncodeDecodeLE(b[at..at + w]);
  }

  lemma FieldBack(b: Bytes, at: nat, w: nat, n: nat)
    requires at + w <= |b| && b[at..at + w] == EncodeLE(n, w) && n < Pow256(w)
    ensures Field(b, at, w) == n
  {
    RoundTripLE(n, w);
  }

  function EncodeRequest(r: Request): (b: Bytes)
    ensures |b| == 46
  {
    EncodeLE(r.gameNumber, 16) + EncodeLE(r.minNumber, 2) + EncodeLE(r.maxNumber, 2) + r.player
      + EncodeLE(r.attempt, 4) + EncodeLE(r.guess, 2)
  }

  function DecodeRequest(b: Bytes): Option<Request> {
    if |b| < 46 then None
    else Some(Request(FieldU128(b, 0), FieldU16(b, 16), FieldU16(b, 18), b[20..40], FieldU32(b, 40), FieldU16(b, 44)))
  }

  predicate IsRequest(b: Bytes) {
    DecodeRequest(b).Some?
  }

  /** Where each field of a request stands. */
  lemma RequestFields(r: Request)
    ensures var b := EncodeRequest(r);
            && b[0..16] == EncodeLE(r.gameNumber, 16) && b[16..18] == EncodeLE(r.minNumber, 2)
            && b[18..20] == EncodeLE(r.maxNumber, 2) && b[20..40] == r.player
            && b[40..44] == EncodeLE(r.attempt, 4) && b[44..46] == EncodeLE(r.guess, 2)
  {
    hide EncodeLE;
    var a1, a2, a3 := EncodeLE(r.gameNumber, 16), EncodeLE(r.minNumber, 2), EncodeLE(r.maxNumber, 2);
    var a4, a5, a6 := r.player, EncodeLE(r.attempt, 4), EncodeLE(r.guess, 2);
    SixParts(a1, a2, a3, a4, a5, a6);
  }

  /** Six parts of the widths of a request are cut out again where they were put. */
  lemma SixParts(a1: Bytes, a2: Bytes, a3: Bytes, a4: Bytes, a5: Bytes, a6: Bytes)
    requires |a1| == 16 && |a2| == 2 && |a3| == 2 && |a4| == 20 && |a5| == 4 && |a6| == 2
    ensures var b := a1 + a2 + a3 + a4 + a5 + a6;
            && |b| == 46
            && b[0..16] == a1 && b[16..18] == a2 && b[18..20] == a3
            && b[20..40] == a4 && b[40..44] == a5 && b[44..46] == a6
  {
  }

  lemma RequestRoundTrip(r: Request)
    ensures DecodeRequest(EncodeRequest(r)) == Some(r)
  {
    hide EncodeLE, Field, EncodeRequest;
    var b := EncodeRequest(r);
    Widths();
    RequestFields(r);
    FieldBack(b, 0, 16, r.gameNumber);
    FieldBack(b, 16, 2, r.minNumber);
    FieldBack(b, 18, 2, r.maxNumber);
    FieldBack(b, 40, 4, r.attempt);
    FieldBack(b, 44, 2, r.guess);
  }

  /** The bytes that decode to a request are those that begin with its encoding: what follows is ignored. */
  lemma RequestDecodesExactly(b: Bytes, r: Request)
    ensures DecodeRequest(b) == Some(r) <==> EncodeRequest(r) <= b
  {
    hide EncodeLE, Field, EncodeRequest;
    RequestFields(r);
    if DecodeRequest(b) == Some(r) {
      RequestBytes(b, r);
    }
    if EncodeRequest(r) <= b {
      RequestRoundTrip(r);
      RequestPrefix(b, EncodeRequest(r));
    }
  }

  lemma RequestBytes(b: Bytes, r: Request)
    requires DecodeRequest(b) == Some(r)
    ensures EncodeRequest(r) <= b
  {
    hide EncodeLE, Field;
    FieldOut(b, 0, 16);
    FieldOut(b, 16, 2);
    FieldOut(b, 18, 2);
    FieldOut(b, 40, 4);
    FieldOut(b, 44, 2);
    assert b[..46] == b[0..16] + b[16..18] + b[18..20] + b[20..40] + b[40..44] + b[44..46];
  }

  /** Decoding reads the first 46 bytes alone. */
  lemma RequestPrefix(b: Bytes, front: Bytes)
    requires |front| == 46 && front <= b
    ensures DecodeRequest(b) == DecodeRequest(front)
  {
    assert b[0..16] == front[0..16] && b[16..18] == front[16..18] && b[18..20] == front[18..20];
    assert b[20..40] == front[20..40] && b[40..44] == front[40..44] && b[44..46] == front[44..46];
  }

  function ClueByte(c: Clue): Byte {
    match c
    case More => 0
    case Less => 1
    case Found => 2
  }

  function ClueOf(b: Byte): Option<Clue> {
    if b == 0 then Some(More) else if b == 1 then Some(Less) else if b == 2 then Some(Found) else None
  }

  function EncodeTarget(target: Option<U16>): (b: Bytes)
    ensures |b| >= 1
  {
    match target
    case None => [0]
    case Some(t) => [1] + EncodeLE(t, 2)
  }

  function EncodeResponse(r: Response): Bytes {
    EncodeLE(r.gameNumber, 16) + r.player + EncodeLE(r.attempt, 4) + EncodeLE(r.guess, 2)
      + [ClueByte(r.clue)] + EncodeLE(r.maxAttempts, 4)
      + EncodeTarget(r.target)
  }

  function DecodeTarget(b: Bytes): Option<Option<U16>>
    requires |b| >= 48
  {
    if b[47] == 0 then Some(None)
    else if b[47] == 1 && |b| >= 50 then Some(Some(FieldU16(b, 48)))
    else None
  }

  function DecodeResponse(b: Bytes): Option<Response> {
    if |b| < 48 then None else
    match (ClueOf(b[42]), DecodeTarget(b))
    case (Some(clue), Some(target)) =>
      Some(Response(FieldU128(b, 0), b[16..36], FieldU32(b, 36), FieldU16(b, 40), clue, FieldU32(b, 43), target))
    case _ => None
  }

  /** Where each field of a response stands, and how clue and target are numbered. */
  lemma ResponseFields(r: Response)
    ensures var b := EncodeResponse(r);
            && |b| >= 48
            && b[0..16] == EncodeLE(r.gameNumber, 16) && b[16..36] == r.player
            && b[36..40] == EncodeLE(r.attempt, 4) && b[40..42] == EncodeLE(r.guess, 2)
            && b[42] == (match r.clue case More => 0 case Less => 1 case Found => 2)
            && b[43..47] == EncodeLE(r.maxAttempts, 4)
            && b[47..] == (match r.target case None => [0] case Some(t) => [1] + EncodeLE(t, 2))
  {
    hide EncodeLE;
    var a1, a2, a3, a4 := EncodeLE(r.gameNumber, 16), r.player, EncodeLE(r.attempt, 4), EncodeLE(r.guess, 2);
    var a5, a6 := [ClueByte(r.clue)], EncodeLE(r.maxAttempts, 4);
    var a7 := EncodeTarget(r.target);
    SevenParts(a1, a2, a3, a4, a5, a6, a7);
  }

  /** Seven parts, six of them of the widths of a response, are cut out again where they were put. */
  lemma SevenParts(a1: Bytes, a2: Bytes, a3: Bytes, a4: Bytes, a5: Bytes, a6: Bytes, a7: Bytes)
    requires |a1| == 16 && |a2| == 20 && |a3| == 4 && |a4| == 2 && |a5| == 1 && |a6| == 4
    ensures var b := a1 + a2 + a3 + a4 + a5 + a6 + a7;
            && |b| == 47 + |a7|
            && b[0..16] == a1 && b[16..36] == a2 && b[36..40] == a3 && b[40..42] == a4
            && b[42] == a5[0] && b[43..47] == a6 && b[47..] == a7
  {
  }

  lemma ResponseRoundTrip(r: Response)
    ensures DecodeResponse(EncodeResponse(r)) == Some(r)
  {
    hide EncodeLE, Field, EncodeResponse, DecodeTarget;
    var b := EncodeResponse(r);
    Widths();
    ResponseFields(r);
    FieldBack(b, 0, 16, r.gameNumber);
    FieldBack(b, 36, 4, r.attempt);
    FieldBack(b, 40, 2, r.guess);
    FieldBack(b, 43, 4, r.maxAttempts);
    TargetRoundTrip(r);
  }

  lemma TargetRoundTrip(r: Response)
    ensures |EncodeResponse(r)| >= 48 && DecodeTarget(EncodeResponse(r)) == Some(r.target)
  {
    hide EncodeLE, Field;
    var front := EncodeLE(r.gameNumber, 16) + r.player + EncodeLE(r.attempt, 4) + EncodeLE(r.guess, 2)
      + [ClueByte(r.clue)] + EncodeLE(r.maxAttempts, 4);
    var b := EncodeResponse(r);
    assert |front| == 47 && b == front + EncodeTarget(r.target);
    match r.target
    case None =>
    case Some(t) =>
      assert b[48..50] == EncodeLE(t, 2);
      Widths();
      FieldBack(b, 48, 2, t);
  }

  /** The same of responses. */
  lemma ResponseDecodesExactly(b: Bytes, r: Response)
    ensures DecodeResponse(b) == Some(r) <==> EncodeResponse(r) <= b
  {
    hide EncodeResponse, DecodeResponse;
    if DecodeResponse(b) == Some(r) {
      ResponseBytes(b, r);
    }
    if EncodeResponse(r) <= b {
      ResponseRoundTrip(r);
      ResponsePrefix(b, EncodeResponse(r));
    }
  }

  lemma ResponseBytes(b: Bytes, r: Response)
    requires DecodeResponse(b) == Some(r)
    ensures EncodeResponse(r) <= b
  {
    hide EncodeLE, Field;
    FieldOut(b, 0, 16);
    FieldOut(b, 36, 4);
    FieldOut(b, 40, 2);
    FieldOut(b, 43, 4);
    assert b[..47] == b[0..16] + b[16..36] + b[36..40] + b[40..42] + [b[42]] + b[43..47];
    if r.target.None? {
      assert b[..48] == b[..47] + [0];
    } else {
      FieldOut(b, 48, 2);
      assert b[..50] == b[..47] + ([1] + b[48..50]);
    }
  }

  /** What decodes still decodes to the same with more bytes behind it. */
  lemma ResponsePrefix(b: Bytes, front: Bytes)
    requires front <= b && DecodeResponse(front).Some?
    ensures DecodeResponse(b) == DecodeResponse(front)
  {
    assert b[0..16] == front[0..16] && b[16..36] == front[16..36] && b[36..40] == front[36..40];
    assert b[40..42] == front[40..42] && b[43..47] == front[43..47];
    if front[47] == 1 {
      assert b[48..50] == front[48..50];
    }
  }
}
