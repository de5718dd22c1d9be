/** What comes of the recovery server's answers: where they may be broken off and cut, and what reaches the engine. */
module Answers {
  import opened Framing

  // ------------------------------------------------------------------ any sequence of whole records

  predicate AreRecords(records: seq<bytes>) {
    forall r :: r in records ==> WholeFrame(r) || IsResponse(r)
  }

  predicate AllPass(records: seq<bytes>) {
    forall r :: r in records ==> Passes(r)
  }

  /** So many bytes end nine bytes into a response, with no refusal before it. */
  predicate NineInto(records: seq<bytes>, k: nat, n: nat) {
    k < |records| && AllPass(records[..k]) && IsResponse(records[k]) && n == |Front(records[..k])| + HEADER_SIZE
  }

  ghost predicate HalfAt(records: seq<bytes>, n: nat) {
    exists k :: NineInto(records, k, n)
  }

  /** So many bytes hold a whole refusal, the first. */
  predicate RefusedAt(records: seq<bytes>, k: nat, n: nat) {
    k < |records| && AllPass(records[..k]) && IsRefusal(records[k]) && n >= |Front(records[..k])| + RESPONSE_SIZE
  }

  ghost predicate RefusedBy(records: seq<bytes>, n: nat) {
    exists k :: RefusedAt(records, k, n)
  }

  lemma {:induction false} FrontConcat(a: seq<bytes>, c: seq<bytes>)
    ensures Front(a + c) == Front(a) + Front(c)
  {
    if a == [] {
      assert a + c == c;
    } else {
      assert (a + c)[1..] == a[1..] + c;
      FrontConcat(a[1..], c);
      assert a[0] + (Front(a[1..]) + Front(c)) == a[0] + Front(a[1..]) + Front(c);
    }
  }

  lemma {:induction false} FramesConcat(a: seq<bytes>, c: seq<bytes>)
    ensures FramesOf(a + c) == FramesOf(a) + FramesOf(c)
  {
    if a == [] {
      assert a + c == c;
    } else {
      assert (a + c)[1..] == a[1..] + c;
      FramesConcat(a[1..], c);
      Associates(if WholeFrame(a[0]) then [a[0]] else [], FramesOf(a[1..]), FramesOf(c));
    }
  }

  /** The bytes after the first k records are a start of the records after them. */
  lemma AfterRecords(records: seq<bytes>, k: nat, got: bytes)
    requires k <= |records| && IsStart(got, Front(records)) && |Front(records[..k])| <= |got|
    ensures IsStart(Front(records[..k]), got) && IsStart(got[|Front(records[..k])|..], Front(records[k..]))
  {
    assert records == records[..k] + records[k..];
    FrontConcat(records[..k], records[k..]);
  }

  /** How many records come through whole, up to the first refusal. */
  lemma {:induction false} WholeRecords(records: seq<bytes>, got: bytes) returns (k: nat)
    requires AreRecords(records) && IsStart(got, Front(records))
    ensures k <= |records| && AllPass(records[..k]) && |Front(records[..k])| <= |got|
    ensures k < |records| ==> IsRefusal(records[k]) || |got| < |Front(records[..k])| + |records[k]|
    decreases |records|
  {
    k := 0;
    if records != [] && Passes(records[0]) && |got| >= |records[0]| {
      var r, later := records[0], records[1..];
      assert Front(records) == r + Front(later);
      var j := WholeRecords(later, got[|r|..]);
      k := j + 1;
      assert records[..k][1..] == later[..j];
    }
  }

  /** What can stand after the records that came through whole. */
  lemma TailOfRecord(r: bytes, later: bytes, tail: bytes)
    requires WholeFrame(r) || IsResponse(r)
    requires IsStart(tail, r + later) && (IsRefusal(r) || |tail| < |r|)
    ensures Parse(tail).frames == [] && Parse(tail).used == 0
    ensures Parse(tail).status == if IsResponse(r) && |tail| == HEADER_SIZE then Stuck
                                  else if IsRefusal(r) && |tail| >= RESPONSE_SIZE then Failed else Open
  {
    assert forall i :: 0 <= i < |tail| && i < |r| ==> tail[i] == r[i];
  }

  /** Records broken off at any byte decode to the messages among those that came through whole. */
  lemma BrokenOffRun(records: seq<bytes>, got: bytes) returns (k: nat)
    requires AreRecords(records) && IsStart(got, Front(records))
    ensures k <= |records| && AllPass(records[..k]) && |Front(records[..k])| <= |got|
    ensures k < |records| ==> IsRefusal(records[k]) || |got| < |Front(records[..k])| + |records[k]|
    ensures Parse(got) == Parsed(FramesOf(records[..k]), |Front(records[..k])|,
                                 if NineInto(records, k, |got|) then Stuck
                                 else if RefusedAt(records, k, |got|) then Failed else Open)
  {
    k := WholeRecords(records, got);
    var whole := Front(records[..k]);
    AfterRecords(records, k, got);
    var tail := got[|whole|..];
    assert got == whole + tail;
    ParseRecords(records[..k], tail);
    assert FramesOf(records[..k]) + [] == FramesOf(records[..k]);
    if k < |records| {
      assert records[k..][1..] == records[k + 1..];
      TailOfRecord(records[k], Front(records[k + 1..]), tail);
    } else {
      assert tail == [];
    }
  }

  lemma TailStart(records: seq<bytes>, j: nat, tail: bytes)
    requires j < |records| && IsStart(tail, Front(records[j..]))
    ensures forall i :: 0 <= i < |tail| && i < |records[j]| ==> tail[i] == records[j][i]
  {
    assert Front(records[j..]) == records[j] + Front(records[j..][1..]);
  }

  lemma NineJams(records: seq<bytes>, j: nat, got: bytes)
    requires IsStart(got, Front(records)) && NineInto(records, j, |got|)
    ensures Jams(got)
  {
    AfterRecords(records, j, got);
    var tail := got[|Front(records[..j])|..];
    TailStart(records, j, tail);
    assert Begins(got, records[..j]) && Jammed(tail);
  }

  lemma RefusalFails(records: seq<bytes>, j: nat, got: bytes)
    requires IsStart(got, Front(records)) && RefusedAt(records, j, |got|)
    ensures IsRefused(got)
  {
    AfterRecords(records, j, got);
    var tail := got[|Front(records[..j])|..];
    TailStart(records, j, tail);
    assert Begins(got, records[..j]) && Refusing(tail);
  }

  /** Where decoding hangs or fails, by the number of bytes that came through. */
  lemma AnswerStatus(records: seq<bytes>, got: bytes)
    requires AreRecords(records) && IsStart(got, Front(records))
    ensures Jams(got) <==> HalfAt(records, |got|)
    ensures IsRefused(got) <==> RefusedBy(records, |got|)
  {
    var k := BrokenOffRun(records, got);
    StatusIsExact(got);
    if j: nat :| NineInto(records, j, |got|) {
      NineJams(records, j, got);
    }
    if j: nat :| RefusedAt(records, j, |got|) {
      RefusalFails(records, j, got);
    }
  }

  lemma PiecesBefore(pieces: seq<bytes>, wire: bytes, j: nat)
    requires CutFrom(pieces, wire) && j <= |pieces|
    ensures IsStart(Join(pieces[..j]), wire) && |Join(pieces[..j])| <= |Join(pieces)|
    ensures j < |pieces| ==> |Join(pieces[..j])| < |Join(pieces)|
  {
    if j < |pieces| {
      JoinFrom(pieces, j);
    } else {
      assert pieces[..j] == pieces;
    }
  }

  /** Some piece ends nine bytes into a response. */
  ghost predicate CutAtNine(records: seq<bytes>, pieces: seq<bytes>) {
    exists j :: 0 <= j <= |pieces| && HalfAt(records, |Join(pieces[..j])|)
  }

  /** Of an answer made of any records, broken off at any byte and cut into any pieces: the loop hangs if and only
      if some piece ends nine bytes into a response, and otherwise fails if and only if a whole refusal arrived. */
  lemma AnswerOutcome(records: seq<bytes>, pieces: seq<bytes>)
    requires AreRecords(records) && CutFrom(pieces, Front(records))
    ensures Feed(pieces).status == Stuck <==> CutAtNine(records, pieces)
    ensures Feed(pieces).status == Failed <==> !CutAtNine(records, pieces) && RefusedBy(records, |Join(pieces)|)
  {
    LoopStatusIsExact(pieces);
    AnswerStatus(records, Join(pieces));
    forall j: int ensures JamsAt(pieces, j) <==> 0 <= j <= |pieces| && HalfAt(records, |Join(pieces[..j])|) {
      if 0 <= j <= |pieces| {
        PiecesBefore(pieces, Front(records), j);
        AnswerStatus(records, Join(pieces[..j]));
      }
    }
  }

  // ------------------------------------------------------------------ an answer to a request

  lemma {:induction false} OnlyFrames(frames: seq<bytes>)
    requires forall f :: f in frames ==> WholeFrame(f)
    ensures FramesOf(frames) == frames
  {
    if frames != [] {
      assert frames[0] in frames && frames == [frames[0]] + frames[1..];
      OnlyFrames(frames[1..]);
    }
  }

  lemma {:induction false} NoFrames(responses: seq<bytes>)
    requires forall r :: r in responses ==> IsResponse(r)
    ensures FramesOf(responses) == []
  {
    if responses != [] {
      assert responses[0] in responses;
      NoFrames(responses[1..]);
    }
  }

  lemma FramesPrefix(records: seq<bytes>, k: nat)
    requires k <= |records|
    ensures FramesOf(records[..k]) <= FramesOf(records)
  {
    assert records == records[..k] + records[k..];
    FramesConcat(records[..k], records[k..]);
  }

  predicate Consecutive(frames: seq<bytes>, from: int) {
    forall i :: 0 <= i < |frames| ==> |frames[i]| >= HEADER_SIZE && SeqNoOf(frames[i]) == from + i
  }

  /** No piece, nor the last one, ends just before the tenth byte. */
  predicate NeverNine(pieces: seq<bytes>) {
    forall j :: 0 <= j <= |pieces| ==> |Join(pieces[..j])| != HEADER_SIZE
  }

  predicate PlainAnswer(response: bytes, frames: seq<bytes>) {
    IsResponse(response) && forall f :: f in frames ==> WholeFrame(f)
  }

  /** The only response of a plain answer is its first record. */
  lemma OneResponse(response: bytes, frames: seq<bytes>, k: nat, n: nat)
    requires PlainAnswer(response, frames)
    ensures var records := [response] + frames;
            && (NineInto(records, k, n) <==> k == 0 && n == HEADER_SIZE)
            && (RefusedAt(records, k, n) <==> k == 0 && n >= RESPONSE_SIZE && IsRefusal(response))
  {
    var records := [response] + frames;
    if k == 0 {
      assert records[..k] == [] && records[k] == response;
    } else if k < |records| {
      assert records[k] == frames[k - 1] && frames[k - 1] in frames;
    }
  }

  lemma PlainPositions(response: bytes, frames: seq<bytes>, n: nat)
    requires PlainAnswer(response, frames)
    ensures HalfAt([response] + frames, n) <==> n == HEADER_SIZE
    ensures RefusedBy([response] + frames, n) <==> IsRefusal(response) && n >= RESPONSE_SIZE
  {
    OneResponse(response, frames, 0, n);
    if k: nat :| NineInto([response] + frames, k, n) {
      OneResponse(response, frames, k, n);
    }
    if k: nat :| RefusedAt([response] + frames, k, n) {
      OneResponse(response, frames, k, n);
    }
  }

  lemma PlainCuts(response: bytes, frames: seq<bytes>, pieces: seq<bytes>)
    requires PlainAnswer(response, frames)
    ensures CutAtNine([response] + frames, pieces) <==> !NeverNine(pieces)
  {
    forall n: nat ensures HalfAt([response] + frames, n) <==> n == HEADER_SIZE {
      PlainPositions(response, frames, n);
    }
  }

  lemma PlainOutcome(response: bytes, frames: seq<bytes>, pieces: seq<bytes>)
    requires PlainAnswer(response, frames) && CutFrom(pieces, Front([response] + frames))
    ensures Feed(pieces).status == Stuck <==> !NeverNine(pieces)
    ensures Feed(pieces).status == Failed <==>
            NeverNine(pieces) && IsRefusal(response) && |Join(pieces)| >= RESPONSE_SIZE
  {
    AnswerOutcome([response] + frames, pieces);
    PlainCuts(response, frames, pieces);
    PlainPositions(response, frames, |Join(pieces)|);
  }

  /** The messages among the first k records of a plain answer. */
  lemma PlainFrames(response: bytes, frames: seq<bytes>, k: nat)
    requires PlainAnswer(response, frames) && k <= |frames|
    ensures ([response] + frames)[..k + 1] == [response] + frames[..k]
    ensures FramesOf([response] + frames[..k]) == frames[..k]
    ensures |Front([response] + frames[..k])| == RESPONSE_SIZE + |Front(frames[..k])|
  {
    assert ([response] + frames[..k])[1..] == frames[..k];
    OnlyFrames(frames[..k]);
  }

  lemma PlainDelivery(response: bytes, frames: seq<bytes>, got: bytes) returns (k: nat)
    requires PlainAnswer(response, frames) && IsStart(got, Front([response] + frames))
    ensures k <= |frames| && Parse(got).frames == frames[..k]
    ensures Parse(got).status != Open ==> k == 0
    ensures Parse(got).status == Open && |got| >= RESPONSE_SIZE ==>
              && RESPONSE_SIZE + |Front(frames[..k])| <= |got|
              && (k < |frames| ==> |got| < RESPONSE_SIZE + |Front(frames[..k])| + |frames[k]|)
  {
    var records := [response] + frames;
    var n := BrokenOffRun(records, got);
    OneResponse(response, frames, n, |got|);
    k := 0;
    if n > 0 {
      k := n - 1;
      PlainFrames(response, frames, k);
    }
  }

  /** A response and messages asked for, broken off after any byte and cut anywhere: what is delivered is a prefix
      of the messages, numbered on from the first one. The loop hangs if and only if a piece ends after the ninth
      byte; it fails if and only if none does and a refusal came whole; else every whole message is delivered. */
  lemma AnswerDeliversPrefix(response: bytes, frames: seq<bytes>, from: int, pieces: seq<bytes>) returns (k: nat)
    requires PlainAnswer(response, frames) && Consecutive(frames, from)
    requires CutFrom(pieces, Front([response] + frames))
    ensures k <= |frames| && Feed(pieces).frames == frames[..k] && Consecutive(Feed(pieces).frames, from)
    ensures Feed(pieces).status == Stuck <==> !NeverNine(pieces)
    ensures Feed(pieces).status == Failed <==>
            NeverNine(pieces) && IsRefusal(response) && |Join(pieces)| >= RESPONSE_SIZE
    ensures Feed(pieces).status != Open ==> k == 0
    ensures Feed(pieces).status == Open && |Join(pieces)| >= RESPONSE_SIZE ==>
              && RESPONSE_SIZE + |Front(frames[..k])| <= |Join(pieces)|
              && (k < |frames| ==> |Join(pieces)| < RESPONSE_SIZE + |Front(frames[..k])| + |frames[k]|)
  {
    var records := [response] + frames;
    PlainOutcome(response, frames, pieces);
    var j := SessionIsOfSome(pieces);
    assert pieces[..|pieces|] == pieces;
    PiecesBefore(pieces, Front(records), j);
    k := PlainDelivery(response, frames, Join(pieces[..j]));
  }

  // ------------------------------------------------------------------ an answer as recovery sees it

  /** A response of any status, messages asked for, and perhaps a further response when the server breaks off. */
  function Sent(response: bytes, frames: seq<bytes>, closing: seq<bytes>): seq<bytes> {
    [response] + frames + closing
  }

  predicate IsSent(response: bytes, frames: seq<bytes>, closing: seq<bytes>) {
    PlainAnswer(response, frames) && forall r :: r in closing ==> IsResponse(r)
  }

  lemma SentAreRecords(response: bytes, frames: seq<bytes>, closing: seq<bytes>)
    requires IsSent(response, frames, closing)
    ensures AreRecords(Sent(response, frames, closing)) && FramesOf(Sent(response, frames, closing)) == frames
  {
    FramesConcat([response] + frames, closing);
    FramesConcat([response], frames);
    OnlyFrames(frames);
    NoFrames(closing);
    assert FramesOf([response]) == [];
  }

  lemma SentDelivers(response: bytes, frames: seq<bytes>, closing: seq<bytes>, got: bytes) returns (k: nat)
    requires IsSent(response, frames, closing) && IsStart(got, Front(Sent(response, frames, closing)))
    ensures k <= |frames| && Parse(got).frames == frames[..k]
  {
    var records := Sent(response, frames, closing);
    SentAreRecords(response, frames, closing);
    var n := BrokenOffRun(records, got);
    FramesPrefix(records, n);
    k := |FramesOf(records[..n])|;
  }

  lemma CountsOfPrefix(s: Session, frames: seq<bytes>, k: nat, from: int,
                       last: int, count: int, last': int, count': int, handed: seq<bytes>)
    requires Consecutive(frames, from) && k <= |frames| && s.frames == frames[..k]
    requires Counted(s, last, count, last', count', handed)
    ensures count' == count + k && last' == if k == 0 then last else from + k - 1
    ensures handed == HandedOn(frames[..k])
  {
    if k > 0 {
      assert frames[..k][k - 1] == frames[k - 1];
    }
  }

  /** However such an answer is cut and broken off, count, last number and messages handed on are those of some
      first k of the messages asked for. */
  lemma AnswerIsAnAttempt(response: bytes, frames: seq<bytes>, closing: seq<bytes>, from: int, pieces: seq<bytes>,
                          last: int, count: int, last': int, count': int, handed: seq<bytes>) returns (k: nat)
    requires IsSent(response, frames, closing) && Consecutive(frames, from)
    requires CutFrom(pieces, Front(Sent(response, frames, closing)))
    requires Counted(Feed(pieces), last, count, last', count', handed)
    ensures k <= |frames| && count' == count + k && last' == if k == 0 then last else from + k - 1
    ensures handed == HandedOn(frames[..k])
  {
    var s := Feed(pieces);
    var j := SessionIsOfSome(pieces);
    PiecesBefore(pieces, Front(Sent(response, frames, closing)), j);
    k := SentDelivers(response, frames, closing, Join(pieces[..j]));
    assert s.frames == frames[..k];
    CountsOfPrefix(s, frames, k, from, last, count, last', count', handed);
  }

  // ------------------------------------------------------------------ answers that show it

  const GRANTED: bytes := [10, 0, 0, 0, 0, 0, 0, 0, 89, 83]     // status 'S'
  const TURNED_DOWN: bytes := [10, 0, 0, 0, 0, 0, 0, 0, 89, 69]  // status 'E'
  const HEARTBEAT: bytes := [13, 0, 0, 0, 1, 0, 0, 0, 90, 0, 0, 0, 0]

  lemma JoinOne(a: bytes)
    ensures Join([a]) == a
  {
    assert [a][..0] == [] && [] + a == a;
  }

  lemma JoinTwo(a: bytes, c: bytes)
    ensures Join([a, c]) == a + c && [a, c][..1] == [a] && Join([a, c][..1]) == a
  {
    JoinOne(a);
    assert [a, c][..1] == [a];
  }

  lemma AtOnceItIsOpen(response: bytes)
    requires IsResponse(response) && !IsRefusal(response)
    ensures Feed([response]).status == Open
  {
    JoinOne(response);
    FrontOne(response);
    PlainOutcome(response, [], [response]);
    assert [response][..0] == [] && [response][..1] == [response];
  }

  lemma FrontOne(response: bytes)
    ensures Front([response] + []) == response
  {
    assert ([response] + [])[1..] == [];
  }

  lemma NineHangs(response: bytes, a: bytes, c: bytes)
    requires IsResponse(response) && a + c == response && |a| == HEADER_SIZE
    ensures Feed([a, c]).status == Stuck
  {
    JoinTwo(a, c);
    FrontOne(response);
    assert |Join([a, c][..1])| == HEADER_SIZE;
    PlainOutcome(response, [], [a, c]);
  }

  /** The ten bytes of a response that grants the request, received as nine and one, hang the loop; received at
      once they do not. */
  lemma NineAndOneHang()
    ensures IsResponse(GRANTED) && GRANTED == GRANTED[..9] + GRANTED[9..]
    ensures Feed([GRANTED[..9], GRANTED[9..]]).status == Stuck && Feed([GRANTED]).status == Open
  {
    NineHangs(GRANTED, GRANTED[..9], GRANTED[9..]);
    AtOnceItIsOpen(GRANTED);
  }

  lemma UnknownHangs(tail: bytes, kind: byte)
    requires |tail| >= HEADER_SIZE && tail[8] == kind && kind != RECOVERY_RESPONSE && FrameSize(kind) == 0
    ensures Parse(tail) == Parsed([], 0, Stuck)
  {
  }

  /** A heartbeat, a message of the feed that the parser does not know, hangs it wherever it stands. */
  lemma HeartbeatHangs(records: seq<bytes>, later: bytes)
    requires AllPass(records)
    ensures Parse(Front(records) + HEARTBEAT + later).status == Stuck
  {
    UnknownHangs(HEARTBEAT + later, HEARTBEAT[8]);
    ParseRecords(records, HEARTBEAT + later);
    assert Front(records) + HEARTBEAT + later == Front(records) + (HEARTBEAT + later);
  }

  /** The error status passes for a success: nothing fails, and parsing goes on behind it. */
  lemma ErrorStatusPasses(later: bytes)
    ensures Passes(TURNED_DOWN) && Parse(TURNED_DOWN).status == Open
    ensures Parse(TURNED_DOWN + later).frames == Parse(later).frames
    ensures Parse(TURNED_DOWN + later).status == Parse(later).status
  {
    ParseRecord(TURNED_DOWN, later);
    ParseRecord(TURNED_DOWN, []);
    assert TURNED_DOWN + [] == TURNED_DOWN;
  }
}
