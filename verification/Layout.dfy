/** The messages of the feed as they are packed, field by field. */
module Layout {
  import opened Framing
  import opened Answers

  // ------------------------------------------------------------------ fields

  /** An unsigned field of so many bytes, least significant first. */
  function Unsigned(x: nat, width: nat): (field: bytes)
    ensures |field| == width
  {
    if width == 0 then [] else [(x % 256) as byte] + Unsigned(x / 256, width - 1)
  }

  function Value(field: bytes): nat {
    if field == [] then 0 else field[0] as nat + 256 * Value(field[1..])
  }

  function Limit(width: nat): nat {
    if width == 0 then 1 else 256 * Limit(width - 1)
  }

  lemma {:induction false} UnsignedIsRead(x: nat, width: nat)
    requires x < Limit(width)
    ensures Value(Unsigned(x, width)) == x
  {
    if width > 0 {
      UnsignedIsRead(x / 256, width - 1);
      assert Unsigned(x, width)[1..] == Unsigned(x / 256, width - 1);
    }
  }

  /** A signed field in two's complement. */
  predicate Fits(x: int, width: nat) {
    width > 0 && -(Limit(width) as int) <= 2 * x < Limit(width)
  }

  function Signed(x: int, width: nat): (field: bytes)
    requires Fits(x, width)
    ensures |field| == width
  {
    Unsigned(if x < 0 then x + Limit(width) else x, width)
  }

  function SignedValue(field: bytes): int {
    var raw := Value(field);
    if 2 * raw < Limit(|field|) then raw else raw - Limit(|field|)
  }

  lemma SignedIsRead(x: int, width: nat)
    requires Fits(x, width)
    ensures SignedValue(Signed(x, width)) == x
  {
    UnsignedIsRead(if x < 0 then x + Limit(width) else x, width);
  }

  // ------------------------------------------------------------------ messages

  /** Message length, stream and sequence number. */
  datatype Header = Header(length: int, streamId: int, seqNo: int)

  datatype OrderKind = NewOrder | Modification | Cancellation | SpreadNewOrder | SpreadModification | SpreadCancellation

  /** What follows the header and the type. Order ids are doubles, and texts are not looked into: both stay bytes. */
  datatype Body =
    | MasterBegin(tokenCount: int)
    | Contract(stream: int, token: int, instrument: bytes, symbol: bytes, expiry: int, strike: int, option: bytes)
    | Spread(stream: int, token1: int, token2: int)
    | MasterEnd(tokenCount: int)
    | Order(kind: OrderKind, time: int, id: bytes, token: int, side: byte, price: int, qty: int)
    | Trade(spread: bool, time: int, buyId: bytes, sellId: bytes, token: int, price: int, qty: int)

  predicate Sound(h: Header, b: Body) {
    && Fits(h.length, 2) && Fits(h.streamId, 2) && Fits(h.seqNo, 4)
    && match b
       case MasterBegin(count) => Fits(count, 4)
       case Contract(stream, token, instrument, symbol, expiry, strike, option) =>
         Fits(stream, 2) && Fits(token, 4) && |instrument| == 6 && |symbol| == 10
         && Fits(expiry, 4) && Fits(strike, 4) && |option| == 2
       case Spread(stream, token1, token2) => Fits(stream, 2) && Fits(token1, 4) && Fits(token2, 4)
       case MasterEnd(count) => Fits(count, 4)
       case Order(_, time, id, token, _, price, qty) =>
         Fits(time, 8) && |id| == 8 && Fits(token, 4) && Fits(price, 4) && Fits(qty, 4)
       case Trade(_, time, buyId, sellId, token, price, qty) =>
         Fits(time, 8) && |buyId| == 8 && |sellId| == 8 && Fits(token, 4) && Fits(price, 4) && Fits(qty, 4)
  }

  /** The letter of the type. */
  function Letter(b: Body): char {
    match b
    case MasterBegin(_) => 'B'
    case Contract(_, _, _, _, _, _, _) => 'C'
    case Spread(_, _, _) => 'P'
    case MasterEnd(_) => 'E'
    case Order(kind, _, _, _, _, _, _) =>
      (match kind
       case NewOrder => 'N'
       case Modification => 'M'
       case Cancellation => 'X'
       case SpreadNewOrder => 'G'
       case SpreadModification => 'H'
       case SpreadCancellation => 'J')
    case Trade(spread, _, _, _, _, _, _) => if spread then 'K' else 'T'
  }

  function Code(b: Body): byte {
    Letter(b) as int as byte
  }

  function EncodeBody(h: Header, b: Body): bytes
    requires Sound(h, b)
  {
    match b
    case MasterBegin(count) => Signed(count, 4)
    case Contract(stream, token, instrument, symbol, expiry, strike, option) =>
      Signed(stream, 2) + Signed(token, 4) + instrument + symbol + Signed(expiry, 4) + Signed(strike, 4) + option
    case Spread(stream, token1, token2) => Signed(stream, 2) + Signed(token1, 4) + Signed(token2, 4)
    case MasterEnd(count) => Signed(count, 4)
    case Order(_, time, id, token, side, price, qty) =>
      Signed(time, 8) + id + Signed(token, 4) + [side] + Signed(price, 4) + Signed(qty, 4)
    case Trade(_, time, buyId, sellId, token, price, qty) =>
      Signed(time, 8) + buyId + sellId + Signed(token, 4) + Signed(price, 4) + Signed(qty, 4)
  }

  /** A packed message: the header, the type and the body. */
  function Encode(h: Header, b: Body): bytes
    requires Sound(h, b)
  {
    Signed(h.length, 2) + Signed(h.streamId, 2) + Signed(h.seqNo, 4) + [Code(b)] + EncodeBody(h, b)
  }

  /** The parser's table of sizes is that of the packed structures: the widths of their fields added up. */
  lemma SizesAdd(h: Header, b: Body)
    requires Sound(h, b)
    ensures |Encode(h, b)| == FrameSize(Code(b))
    ensures |Encode(h, b)| == 2 + 2 + 4 + 1 + match b
            case MasterBegin(_) => 4
            case Contract(_, _, _, _, _, _, _) => 2 + 4 + 6 + 10 + 4 + 4 + 2
            case Spread(_, _, _) => 2 + 4 + 4
            case MasterEnd(_) => 4
            case Order(_, _, _, _, _, _, _) => 8 + 8 + 4 + 1 + 4 + 4
            case Trade(_, _, _, _, _, _, _) => 8 + 8 + 8 + 4 + 4 + 4
  {
  }

  /** An encoded message is a whole message for the parser, and the number read from it is the number encoded. */
  lemma EncodedIsWhole(h: Header, b: Body)
    requires Sound(h, b)
    ensures WholeFrame(Encode(h, b)) && Encode(h, b)[8] == Code(b) && SeqNoOf(Encode(h, b)) == h.seqNo
  {
    SizesAdd(h, b);
    var frame := Encode(h, b);
    assert frame[4..8] == Signed(h.seqNo, 4);
    assert frame[8] == Code(b);
    NumberIsRead(frame, Signed(h.seqNo, 4));
    SignedIsRead(h.seqNo, 4);
  }

  lemma FourBytes(field: bytes)
    requires |field| == 4
    ensures Value(field) == field[0] as int + 256 * field[1] as int + 65536 * field[2] as int + 16777216 * field[3] as int
  {
    var a, b, c := field[1..], field[2..], field[3..];
    assert a[1..] == b && b[1..] == c && c[1..] == [];
    assert Value(c) == field[3] as int && Value(b) == field[2] as int + 256 * Value(c);
    assert Value(a) == field[1] as int + 256 * Value(b);
  }

  lemma NumberIsRead(frame: bytes, field: bytes)
    requires |frame| >= HEADER_SIZE && field == frame[4..8]
    ensures SeqNoOf(frame) == SignedValue(field)
  {
    FourBytes(field);
    assert Limit(4) == 4294967296;
  }

  // ------------------------------------------------------------------ streams

  datatype Message = Message(header: Header, body: Body)

  predicate AllSound(ms: seq<Message>) {
    forall i :: 0 <= i < |ms| ==> Sound(ms[i].header, ms[i].body)
  }

  function EncodeAll(ms: seq<Message>): (frames: seq<bytes>)
    requires AllSound(ms)
    ensures |frames| == |ms| && forall i :: 0 <= i < |ms| ==> frames[i] == Encode(ms[i].header, ms[i].body)
  {
    seq(|ms|, i requires 0 <= i < |ms| => Encode(ms[i].header, ms[i].body))
  }

  /** Parsing the packed messages of a stream gives back exactly those messages, to the last byte. */
  lemma StreamRoundTrip(ms: seq<Message>)
    requires AllSound(ms)
    ensures Parse(Front(EncodeAll(ms))) == Parsed(EncodeAll(ms), |Front(EncodeAll(ms))|, Open)
  {
    var frames := EncodeAll(ms);
    forall f | f in frames ensures WholeFrame(f) {
      var i :| 0 <= i < |ms| && frames[i] == f;
      EncodedIsWhole(ms[i].header, ms[i].body);
    }
    ParseRecords(frames, []);
    OnlyFrames(frames);
    assert Front(frames) + [] == Front(frames) && frames + [] == frames;
  }
}
