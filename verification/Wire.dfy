/** From the bytes of the server's answer to the engine's records. */
module Wire {
  import opened Market
  import opened Framing
  import opened Answers
  import Engine
  import Recovery

  type Message = Engine.Message

  /** Reading a message keeps its number and its type; of the rest nothing is asked. */
  ghost predicate Reads(read: bytes -> Message) {
    forall f :: WholeFrame(f) ==> read(f).seqNo == SeqNoOf(f) && read(f).kind as int == f[8] as int
  }

  function ReadAll(read: bytes -> Message, frames: seq<bytes>): seq<Message> {
    if frames == [] then [] else ReadAll(read, frames[..|frames| - 1]) + [read(frames[|frames| - 1])]
  }

  /** The frames are whole messages, and read they are the feed's from the given number on. */
  predicate Carry(read: bytes -> Message, frames: seq<bytes>, feed: seq<Message>, from: int) {
    && 1 <= from && from - 1 + |frames| <= |feed|
    && forall i :: 0 <= i < |frames| ==> WholeFrame(frames[i]) && read(frames[i]) == feed[from - 1 + i]
  }

  lemma {:induction false} ReadCarried(read: bytes -> Message, frames: seq<bytes>, feed: seq<Message>, from: int, k: nat)
    requires Carry(read, frames, feed, from) && k <= |frames|
    ensures ReadAll(read, frames[..k]) == feed[from - 1..from - 1 + k]
  {
    if k > 0 {
      ReadCarried(read, frames, feed, from, k - 1);
      assert frames[..k][..k - 1] == frames[..k - 1];
    }
  }

  lemma TrailerByKind(kind: char, code: byte)
    requires kind as int == code as int
    ensures kind == 'E' <==> code == END_OF_MASTER
  {
    assert 'E' as int == END_OF_MASTER as int;
  }

  /** What is handed on is read as the messages without the trailers. */
  lemma {:induction false} ReadHanded(read: bytes -> Message, frames: seq<bytes>)
    requires Reads(read) && forall f :: f in frames ==> WholeFrame(f)
    ensures ReadAll(read, HandedOn(frames)) == Recovery.WithoutTrailers(ReadAll(read, frames))
  {
    if frames != [] {
      var n := |frames| - 1;
      var f := frames[n];
      assert frames == frames[..n] + [f] && f in frames;
      ReadHanded(read, frames[..n]);
      TrailerByKind(read(f).kind, f[8]);
      assert HandedOn(frames[..n]) + [] == HandedOn(frames[..n]);
      Recovery.TrailersPush(ReadAll(read, frames[..n]), read(f));
      ReadPush(read, HandedOn(frames[..n]), f);
    }
  }

  lemma ReadPush(read: bytes -> Message, frames: seq<bytes>, f: bytes)
    ensures ReadAll(read, frames + [f]) == ReadAll(read, frames) + [read(f)]
  {
    assert (frames + [f])[..|frames|] == frames;
  }

  lemma {:induction false} HandedIsAdmissible(read: bytes -> Message, book: Book, frames: seq<bytes>)
    requires forall f :: f in frames ==> Engine.Admissible(book, read(f))
    ensures forall f :: f in HandedOn(frames) ==> Engine.Admissible(book, read(f))
  {
    if frames != [] {
      var n := |frames| - 1;
      assert frames == frames[..n] + [frames[n]];
      HandedIsAdmissible(read, book, frames[..n]);
    }
  }

  /** An attempt's return value, given how the loop ended and the last number. */
  predicate Returned(status: Status, to: int, last': int, ret: int) {
    && (status == Open ==> ret == if to == last' then 0 else -1)
    && (status != Open ==> ret == -1)
  }

  /** The outcome of the byte-level receive loop, whatever the server sent of the range and however it was cut, is
      one that recovery's attempt allows; and what was handed on takes the engine, from any state, where the feed's
      messages of that range take it. */
  lemma AnswerMeetsAttempt(book: Book, s: Engine.Snapshot, read: bytes -> Message, feed: seq<Message>,
                           response: bytes, frames: seq<bytes>, closing: seq<bytes>, pieces: seq<bytes>,
                           from: int, to: int, last: int, count: int,
                           ret: int, last': int, count': int, handed: seq<bytes>)
    requires Recovery.Numbered(book, feed) && Reads(read) && Carry(read, frames, feed, from)
    requires |frames| <= to - from + 1
    requires IsSent(response, frames, closing) && CutFrom(pieces, Front(Sent(response, frames, closing)))
    requires Counted(Feed(pieces), last, count, last', count', handed)
    requires Returned(Feed(pieces).status, to, last', ret)
    ensures Recovery.Attempted(from, to, count, last, ret, count', last')
    ensures from - 1 + (count' - count) <= |feed|
    ensures forall f :: f in handed ==> Engine.Admissible(book, read(f))
    ensures ReadAll(read, handed) == Recovery.WithoutTrailers(feed[from - 1..from - 1 + (count' - count)])
    ensures Engine.RunFrom(book, s, ReadAll(read, handed)) ==
            Engine.RunFrom(book, s, feed[from - 1..from - 1 + (count' - count)])
  {
    forall i | 0 <= i < |frames| ensures SeqNoOf(frames[i]) == from + i {
      assert read(frames[i]) == feed[from - 1 + i];
    }
    var k := AnswerIsAnAttempt(response, frames, closing, from, pieces, last, count, last', count', handed);
    assert forall f :: f in frames[..k] ==> f in frames;
    HandedIsAdmissible(read, book, frames[..k]);
    ReadHanded(read, frames[..k]);
    ReadCarried(read, frames, feed, from, k);
    Recovery.TrailersAreIdle(book, s, feed[from - 1..from - 1 + k]);
  }

  /** One attempt over the wire: the answer is received and decoded, and its messages are processed in order. */
  method ReceiveRange(engine: Engine.TradeEngine, read: bytes -> Message, wire: bytes, to: int, last: int, count: int,
                      ghost from: int, ghost feed: seq<Message>,
                      ghost response: bytes, ghost frames: seq<bytes>, ghost closing: seq<bytes>)
    returns (status: Status, ret: int, last': int, count': int, ghost pieces: seq<bytes>)
    requires engine.Valid() && Recovery.Numbered(engine.book, feed) && Reads(read) && Carry(read, frames, feed, from)
    requires |frames| <= to - from + 1 && IsSent(response, frames, closing)
    requires wire == Front(Sent(response, frames, closing))
    modifies engine
    ensures engine.Valid() && CutFrom(pieces, wire)
    ensures status == Stuck <==> CutAtNine(Sent(response, frames, closing), pieces)
    ensures Recovery.Attempted(from, to, count, last, ret, count', last')
    ensures from - 1 + (count' - count) <= |feed|
    ensures engine.State() ==
            Engine.RunFrom(engine.book, old(engine.State()), feed[from - 1..from - 1 + (count' - count)])
  {
    var handed;
    status, ret, last', count', handed, pieces := ReceiveAnswer(wire, to, last, count);
    SentAreRecords(response, frames, closing);
    AnswerOutcome(Sent(response, frames, closing), pieces);
    AnswerMeetsAttempt(engine.book, engine.State(), read, feed, response, frames, closing, pieces,
                       from, to, last, count, ret, last', count', handed);
    Process(engine, read, handed);
  }

  method Process(engine: Engine.TradeEngine, read: bytes -> Message, handed: seq<bytes>)
    requires engine.Valid() && forall f :: f in handed ==> Engine.Admissible(engine.book, read(f))
    modifies engine
    ensures engine.Valid()
    ensures engine.State() == Engine.RunFrom(engine.book, old(engine.State()), ReadAll(read, handed))
  {
    for i := 0 to |handed|
      invariant engine.Valid()
      invariant engine.State() == Engine.RunFrom(engine.book, old(engine.State()), ReadAll(read, handed[..i]))
    {
      assert handed[..i + 1] == handed[..i] + [handed[i]];
      ReadPush(read, handed[..i], handed[i]);
      Engine.RunOne(engine.book, old(engine.State()), ReadAll(read, handed[..i]), read(handed[i]));
      engine.WriteDataInFile(read(handed[i]));
    }
    assert handed[..|handed|] == handed;
  }
}
