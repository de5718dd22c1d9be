/** Reading a packed message as the engine sees it. */
module Reader {
  import Market
  import opened Framing
  import opened Layout
  import Engine
  import Wire

  const NO_TRADE := Market.Trade(0, 0, 0, 0, 0, 0, 0)

  /** The trade in a packed trade message. How a double order id is cast to an integer is left open. */
  function ReadTrade(toInt: bytes -> int, frame: bytes): Market.Trade
    requires |frame| == 45
  {
    Market.Trade(SeqNoOf(frame), SignedValue(frame[9..17]), toInt(frame[17..25]), toInt(frame[25..33]),
                 SignedValue(frame[33..37]), SignedValue(frame[37..41]), SignedValue(frame[41..45]))
  }

  function ReadMessage(toInt: bytes -> int, frame: bytes): Engine.Message
    requires WholeFrame(frame)
  {
    Engine.Message(frame[8] as int as char, SeqNoOf(frame), SignedValue(frame[2..4]),
                   if frame[8] == 84 then ReadTrade(toInt, frame) else NO_TRADE)
  }

  function Total(toInt: bytes -> int): bytes -> Engine.Message {
    frame => if WholeFrame(frame) then ReadMessage(toInt, frame) else Engine.Message('E', 0, 0, NO_TRADE)
  }

  /** It is a reading that keeps number and type. */
  lemma ReadingReads(toInt: bytes -> int)
    ensures Wire.Reads(Total(toInt))
  {
  }

  /** The six fields of a trade, between what is before and after each. */
  lemma TradeFields(head: bytes, time: bytes, buyId: bytes, sellId: bytes, token: bytes, price: bytes, qty: bytes, frame: bytes)
    requires |head| == 9 && |time| == |buyId| == |sellId| == 8 && |token| == |price| == |qty| == 4
    requires frame == head + (time + buyId + sellId + token + price + qty)
    ensures frame[9..17] == time && frame[17..25] == buyId && frame[25..33] == sellId
    ensures frame[33..37] == token && frame[37..41] == price && frame[41..45] == qty
  {
  }

  /** A packed trade is read as the trade that was packed. */
  lemma TradeIsRead(toInt: bytes -> int, h: Header, b: Body)
    requires Sound(h, b) && b.Trade?
    ensures WholeFrame(Encode(h, b)) && |Encode(h, b)| == 45
    ensures ReadTrade(toInt, Encode(h, b)) ==
            Market.Trade(h.seqNo, b.time, toInt(b.buyId), toInt(b.sellId), b.token, b.price, b.qty)
  {
    EncodedIsWhole(h, b);
    SizesAdd(h, b);
    var frame := Encode(h, b);
    var head := Signed(h.length, 2) + Signed(h.streamId, 2) + Signed(h.seqNo, 4) + [Code(b)];
    TradeFields(head, Signed(b.time, 8), b.buyId, b.sellId, Signed(b.token, 4), Signed(b.price, 4), Signed(b.qty, 4), frame);
    SignedIsRead(b.time, 8);
    SignedIsRead(b.token, 4);
    SignedIsRead(b.price, 4);
    SignedIsRead(b.qty, 4);
  }

  lemma HeaderIsRead(toInt: bytes -> int, h: Header, b: Body)
    requires Sound(h, b)
    ensures WholeFrame(Encode(h, b))
    ensures var m := ReadMessage(toInt, Encode(h, b));
            m.kind == Letter(b) && m.seqNo == h.seqNo && m.streamId == h.streamId
  {
    EncodedIsWhole(h, b);
    assert Encode(h, b)[2..4] == Signed(h.streamId, 2);
    SignedIsRead(h.streamId, 2);
  }

  /** The engine closes its buffer on orders and on spread trades, buffers plain trades, and nothing else; recovery
      hands on every message but the end of the master data. */
  lemma KindsMean(toInt: bytes -> int, h: Header, b: Body)
    requires Sound(h, b)
    ensures WholeFrame(Encode(h, b))
    ensures var m := ReadMessage(toInt, Encode(h, b));
            && (Engine.Closes(m) <==> b.Order? || (b.Trade? && b.spread))
            && (m.kind == 'T' <==> b.Trade? && !b.spread)
    ensures HandedOn([Encode(h, b)]) == if b.MasterEnd? then [] else [Encode(h, b)]
  {
    HeaderIsRead(toInt, h, b);
    EncodedIsWhole(h, b);
    LetterOf(b);
    assert [Encode(h, b)][..0] == [];
  }

  lemma LetterOf(b: Body)
    ensures Letter(b) in {'N', 'M', 'X', 'G', 'H', 'J'} <==> b.Order?
    ensures Letter(b) == 'K' <==> b.Trade? && b.spread
    ensures Letter(b) == 'T' <==> b.Trade? && !b.spread
    ensures Code(b) == END_OF_MASTER <==> b.MasterEnd?
  {
  }
}
