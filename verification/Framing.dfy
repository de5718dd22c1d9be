/** Cutting the recovery server's byte stream back into messages, out of whatever pieces recv returns. */
module Framing {

  newtype byte = x: int | 0 <= x < 256
  type bytes = seq<byte>

  const HEADER_SIZE := 9
  const RESPONSE_SIZE := 10
  const BUFFER_SIZE := 8192

  const RECOVERY_RESPONSE: byte := 89  // 'Y'
  const END_OF_MASTER: byte := 69      // 'E'

  /** Size of a whole message of each type, 0 for a type the parser does not know. */
  function FrameSize(kind: byte): nat {
    if kind == 78 || kind == 77 || kind == 88 || kind == 71 || kind == 72 || kind == 74 then 38  // N M X G H J
    else if kind == 84 || kind == 75 then 45                                                     // T K
    else if kind == 66 then 13                                                                   // B
    else if kind == 67 then 41                                                                   // C
    else if kind == 80 then 19                                                                   // P
    else if kind == END_OF_MASTER then 13
    else 0
  }

  /** The sequence number in a message header: bytes 4 to 7, little-endian, signed. */
  function SeqNoOf(frame: bytes): int
    requires |frame| >= HEADER_SIZE
  {
    var raw := frame[4] as int + 256 * frame[5] as int + 65536 * frame[6] as int + 16777216 * frame[7] as int;
    if raw < 2147483648 then raw else raw - 4294967296
  }

  // ------------------------------------------------------------------ decoding a whole stream

  /** Open: more bytes may come. Failed: a response refused the request. Stuck: a record on which the parser
      goes round without consuming anything. */
  datatype Status = Open | Failed | Stuck

  datatype Parsed = Parsed(frames: seq<bytes>, used: nat, status: Status)

  /** The parser's choice at the head of a buffer. */
  datatype Head = Short | Refused | Hang | Skip(n: nat) | Frame(n: nat)

  function HeadOf(buf: bytes): (h: Head)
    ensures h.Skip? || h.Frame? ==> 0 < h.n <= |buf|
    ensures h.Frame? ==> h.n >= HEADER_SIZE
  {
    if |buf| < HEADER_SIZE then Short
    else if buf[8] == RECOVERY_RESPONSE then
      if |buf| < RESPONSE_SIZE then Hang
      else if buf[9] == RECOVERY_RESPONSE then Refused
      else Skip(RESPONSE_SIZE)
    else if FrameSize(buf[8]) == 0 then Hang
    else if |buf| < FrameSize(buf[8]) then Short
    else Frame(FrameSize(buf[8]))
  }

  function Parse(buf: bytes): (p: Parsed)
    ensures p.used <= |buf|
    decreases |buf|
  {
    match HeadOf(buf)
    case Short => Parsed([], 0, Open)
    case Refused => Parsed([], 0, Failed)
    case Hang => Parsed([], 0, Stuck)
    case Skip(n) =>
      var p := Parse(buf[n..]);
      p.(used := n + p.used)
    case Frame(n) =>
      var p := Parse(buf[n..]);
      Parsed([buf[..n]] + p.frames, n + p.used, p.status)
  }

  /** What is carried over is a single incomplete record, so there is always room to receive more. */
  lemma {:induction false} CarryIsShort(buf: bytes)
    ensures Parse(buf).status == Open ==> |buf| - Parse(buf).used <= 44
    decreases |buf|
  {
    match HeadOf(buf)
    case Short =>
    case Refused =>
    case Hang =>
    case Skip(n) => CarryIsShort(buf[n..]);
    case Frame(n) => CarryIsShort(buf[n..]);
  }

  /** Parsing goes on where it stopped: what was decoded stays decoded, the rest joins what comes next. */
  lemma {:induction false} ParseGoesOn(a: bytes, c: bytes)
    requires Parse(a).status == Open
    ensures var p, q := Parse(a), Parse(a[Parse(a).used..] + c);
            Parse(a + c) == Parsed(p.frames + q.frames, p.used + q.used, q.status)
    decreases |a|
  {
    match HeadOf(a)
    case Short =>
      assert a[0..] == a;
    case Skip(n) => Continue(a, c, n);
    case Frame(n) => Continue(a, c, n);
  }

  /** More bytes at the end leave a complete first record as it was. */
  lemma HeadStays(a: bytes, c: bytes, n: nat)
    requires HeadOf(a) == Skip(n) || HeadOf(a) == Frame(n)
    ensures HeadOf(a + c) == HeadOf(a)
    ensures (a + c)[n..] == a[n..] + c && (a + c)[..n] == a[..n]
  {
  }

  lemma ParseSkip(a: bytes, n: nat)
    requires HeadOf(a) == Skip(n)
    ensures var p := Parse(a[n..]); Parse(a) == Parsed(p.frames, n + p.used, p.status)
  {
  }

  lemma ParseFrame(a: bytes, n: nat)
    requires HeadOf(a) == Frame(n)
    ensures var p := Parse(a[n..]); Parse(a) == Parsed([a[..n]] + p.frames, n + p.used, p.status)
  {
  }

  lemma {:induction false} Continue(a: bytes, c: bytes, n: nat)
    requires Parse(a).status == Open
    requires HeadOf(a) == Skip(n) || HeadOf(a) == Frame(n)
    ensures var p, q := Parse(a), Parse(a[Parse(a).used..] + c);
            Parse(a + c) == Parsed(p.frames + q.frames, p.used + q.used, q.status)
    decreases |a|, 0
  {
    var rest := a[n..];
    HeadStays(a, c, n);
    if HeadOf(a).Skip? {
      ParseSkip(a, n);
      ParseSkip(a + c, n);
    } else {
      ParseFrame(a, n);
      ParseFrame(a + c, n);
    }
    ParseGoesOn(rest, c);
    assert rest[Parse(rest).used..] == a[n + Parse(rest).used..];
    Associates([a[..n]], Parse(rest).frames, Parse(a[Parse(a).used..] + c).frames);
  }

  lemma Associates(a: seq<bytes>, b: seq<bytes>, c: seq<bytes>)
    ensures a + (b + c) == a + b + c
  {
  }

  /** A refusal, or a record of unknown type, is final whatever follows. Only the first nine bytes of a
      response hang the parser although the tenth would have released it. */
  predicate HalfResponse(buf: bytes) {
    |buf| == HEADER_SIZE && buf[8] == RECOVERY_RESPONSE
  }

  predicate StopsOnHalf(buf: bytes) {
    Parse(buf).status == Stuck && HalfResponse(buf[Parse(buf).used..])
  }

  lemma CutLater(a: bytes, n: nat)
    requires HeadOf(a) == Skip(n) || HeadOf(a) == Frame(n)
    ensures StopsOnHalf(a) <==> StopsOnHalf(a[n..])
  {
    assert a[n..][Parse(a[n..]).used..] == a[n + Parse(a[n..]).used..];
  }

  lemma {:induction false} ParseStops(a: bytes, c: bytes)
    requires Parse(a).status != Open && !StopsOnHalf(a)
    ensures Parse(a + c) == Parse(a)
    decreases |a|
  {
    match HeadOf(a)
    case Refused =>
    case Hang => assert a[0..] == a;
    case Skip(n) => StopLater(a, c, n);
    case Frame(n) => StopLater(a, c, n);
  }

  lemma {:induction false} StopLater(a: bytes, c: bytes, n: nat)
    requires Parse(a).status != Open && !StopsOnHalf(a)
    requires HeadOf(a) == Skip(n) || HeadOf(a) == Frame(n)
    ensures Parse(a + c) == Parse(a)
    decreases |a|, 0
  {
    CutLater(a, n);
    ParseStops(a[n..], c);
    HeadStays(a, c, n);
    if HeadOf(a).Skip? {
      ParseSkip(a, n);
      ParseSkip(a + c, n);
    } else {
      ParseFrame(a, n);
      ParseFrame(a + c, n);
    }
  }

  lemma {:induction false} HalfResponseReleased(a: bytes, c: bytes)
    requires StopsOnHalf(a) && c != []
    ensures Parse(a + c) != Parse(a)
    decreases |a|
  {
    match HeadOf(a)
    case Hang => assert a[0..] == a; assert (a + c)[9] == c[0];
    case Skip(n) => ReleaseLater(a, c, n);
    case Frame(n) => ReleaseLater(a, c, n);
  }

  lemma {:induction false} ReleaseLater(a: bytes, c: bytes, n: nat)
    requires StopsOnHalf(a) && c != []
    requires HeadOf(a) == Skip(n) || HeadOf(a) == Frame(n)
    ensures Parse(a + c) != Parse(a)
    decreases |a|, 0
  {
    CutLater(a, n);
    HalfResponseReleased(a[n..], c);
    SameHead(a, c, n);
  }

  /** Two buffers with the same first record decode alike only if they do after it. */
  lemma SameHead(a: bytes, c: bytes, n: nat)
    requires HeadOf(a) == Skip(n) || HeadOf(a) == Frame(n)
    ensures Parse(a + c) == Parse(a) ==> Parse(a[n..] + c) == Parse(a[n..])
  {
    assert (a + c)[n..] == a[n..] + c;
    assert (a + c)[..n] == a[..n];
    SameTail(a[..n], Parse(a[n..] + c).frames, Parse(a[n..]).frames);
  }

  lemma SameTail(f: bytes, p: seq<bytes>, q: seq<bytes>)
    ensures [f] + p == [f] + q ==> p == q
  {
    assert ([f] + p)[1..] == p && ([f] + q)[1..] == q;
  }

  // ------------------------------------------------------------------ what a stream consists of

  /** A whole message. */
  predicate WholeFrame(f: bytes) {
    |f| >= HEADER_SIZE && f[8] != RECOVERY_RESPONSE && FrameSize(f[8]) == |f|
  }

  predicate IsResponse(r: bytes) {
    |r| == RESPONSE_SIZE && r[8] == RECOVERY_RESPONSE
  }

  /** The one status taken as a refusal is the code of the message type itself. */
  predicate IsRefusal(r: bytes) {
    IsResponse(r) && r[9] == RECOVERY_RESPONSE
  }

  predicate Passes(r: bytes) {
    WholeFrame(r) || (IsResponse(r) && !IsRefusal(r))
  }

  /** Joining from the front. */
  function Front(records: seq<bytes>): bytes {
    if records == [] then [] else records[0] + Front(records[1..])
  }

  /** The messages among some records. */
  function FramesOf(records: seq<bytes>): seq<bytes> {
    if records == [] then []
    else (if WholeFrame(records[0]) then [records[0]] else []) + FramesOf(records[1..])
  }

  predicate IsStart(got: bytes, wire: bytes) {
    |got| <= |wire| && got == wire[..|got|]
  }

  /** The buffer starts with these records, each of them a whole message or a response that does not refuse. */
  predicate Begins(buf: bytes, records: seq<bytes>) {
    (forall r :: r in records ==> Passes(r)) && IsStart(Front(records), buf)
  }

  /** What can follow them: a record of unknown type or nine bytes of a response, a refusal, or too few bytes. */
  predicate Jammed(tail: bytes) {
    && |tail| >= HEADER_SIZE
    && if tail[8] == RECOVERY_RESPONSE then |tail| == HEADER_SIZE else FrameSize(tail[8]) == 0
  }

  predicate Refusing(tail: bytes) {
    |tail| >= RESPONSE_SIZE && tail[8] == RECOVERY_RESPONSE && tail[9] == RECOVERY_RESPONSE
  }

  predicate TooFew(tail: bytes) {
    || |tail| < HEADER_SIZE
    || (tail[8] != RECOVERY_RESPONSE && |tail| < FrameSize(tail[8]))
  }

  ghost predicate Jams(buf: bytes) {
    exists records :: Begins(buf, records) && Jammed(buf[|Front(records)|..])
  }

  ghost predicate IsRefused(buf: bytes) {
    exists records :: Begins(buf, records) && Refusing(buf[|Front(records)|..])
  }

  ghost predicate RunsShort(buf: bytes) {
    exists records :: Begins(buf, records) && TooFew(buf[|Front(records)|..])
  }

  /** The bytes so far end in exactly the first nine bytes of a response. */
  ghost predicate CutsResponse(buf: bytes) {
    exists records :: Begins(buf, records) && HalfResponse(buf[|Front(records)|..])
  }

  lemma ParseRecord(r: bytes, rest: bytes)
    requires Passes(r)
    ensures var q := Parse(rest);
            Parse(r + rest) == Parsed((if WholeFrame(r) then [r] else []) + q.frames, |r| + q.used, q.status)
  {
    assert (r + rest)[8] == r[8] && (r + rest)[|r|..] == rest && (r + rest)[..|r|] == r;
    if WholeFrame(r) {
      ParseFrame(r + rest, |r|);
    } else {
      assert (r + rest)[9] == r[9];
      ParseSkip(r + rest, |r|);
      assert [] + Parse(rest).frames == Parse(rest).frames;
    }
  }

  /** Records that pass are decoded to their messages, and then what follows them is decoded. */
  lemma {:induction false} ParseRecords(records: seq<bytes>, tail: bytes)
    requires forall r :: r in records ==> Passes(r)
    ensures var q := Parse(tail);
            Parse(Front(records) + tail) == Parsed(FramesOf(records) + q.frames, |Front(records)| + q.used, q.status)
  {
    if records == [] {
      assert Front(records) + tail == tail;
      assert [] + Parse(tail).frames == Parse(tail).frames;
    } else {
      var r, later := records[0], records[1..];
      var rest, first, q := Front(later) + tail, if WholeFrame(r) then [r] else [], Parse(tail);
      ParseRecords(later, tail);
      ParseRecord(r, rest);
      FrontNext(records, Front(records), Front(later), tail);
      Associates(first, FramesOf(later), q.frames);
      assert Parse(r + rest).frames == FramesOf(records) + q.frames;
    }
  }

  lemma FrontNext(records: seq<bytes>, front: bytes, later: bytes, tail: bytes)
    requires records != [] && front == Front(records) && later == Front(records[1..])
    ensures front + tail == records[0] + (later + tail) && |front| == |records[0]| + |later|
  {
  }

  /** Neither a whole message nor a response that passes stands here. */
  predicate StopsAt(tail: bytes) {
    var h := HeadOf(tail);
    !h.Skip? && !h.Frame?
  }

  /** Every buffer starts with the records that are decoded from it, and stops at something else. */
  lemma {:induction false} LeadingRecords(buf: bytes) returns (records: seq<bytes>)
    ensures Begins(buf, records) && StopsAt(buf[|Front(records)|..])
    decreases |buf|
  {
    match HeadOf(buf)
    case Skip(n) => records := LeadingAfter(buf, n);
    case Frame(n) => records := LeadingAfter(buf, n);
    case _ =>
      records := [];
      assert buf[0..] == buf;
  }

  lemma {:induction false} LeadingAfter(buf: bytes, n: nat) returns (records: seq<bytes>)
    requires HeadOf(buf) == Skip(n) || HeadOf(buf) == Frame(n)
    ensures Begins(buf, records) && StopsAt(buf[|Front(records)|..])
    decreases |buf|, 0
  {
    var later := LeadingRecords(buf[n..]);
    records := [buf[..n]] + later;
    FirstPasses(buf, n);
    BeginsWith(buf, n, later);
  }

  /** A first record that passes, and the records behind it. */
  lemma BeginsWith(buf: bytes, n: nat, later: seq<bytes>)
    requires n <= |buf| && Passes(buf[..n]) && Begins(buf[n..], later)
    ensures Begins(buf, [buf[..n]] + later)
    ensures buf[|Front([buf[..n]] + later)|..] == buf[n..][|Front(later)|..]
  {
    var records, front := [buf[..n]] + later, Front(later);
    assert records[1..] == later;
    assert Front(records) == buf[..n] + front;
    assert buf[..n + |front|] == buf[..n] + buf[n..][..|front|];
    assert forall r :: r in records ==> r == buf[..n] || r in later;
  }

  lemma FirstPasses(buf: bytes, n: nat)
    requires HeadOf(buf) == Skip(n) || HeadOf(buf) == Frame(n)
    ensures Passes(buf[..n])
  {
    assert buf[..n][8] == buf[8];
    if HeadOf(buf).Skip? {
      assert buf[..n][9] == buf[9];
    }
  }

  lemma StatusOfTail(buf: bytes, records: seq<bytes>)
    requires Begins(buf, records)
    ensures Parse(buf).status == Parse(buf[|Front(records)|..]).status
  {
    ParseRecords(records, buf[|Front(records)|..]);
    assert buf == Front(records) + buf[|Front(records)|..];
  }

  /** How decoding ends, without the decoder: it hangs if and only if records that pass are followed by one of
      unknown type or by just nine bytes of a response, and fails if and only if they are followed by a refusal. */
  lemma StatusIsExact(buf: bytes)
    ensures Parse(buf).status == Stuck <==> Jams(buf)
    ensures Parse(buf).status == Failed <==> IsRefused(buf)
    ensures Parse(buf).status == Open <==> RunsShort(buf)
  {
    var records := LeadingRecords(buf);
    StatusOfTail(buf, records);
    var tail := buf[|Front(records)|..];
    assert Jammed(tail) || Refusing(tail) || TooFew(tail);
    forall rs | Begins(buf, rs) ensures Parse(buf).status == Parse(buf[|Front(rs)|..]).status {
      StatusOfTail(buf, rs);
    }
  }

  lemma HalfOfTail(buf: bytes, records: seq<bytes>, tail: bytes)
    requires Begins(buf, records) && tail == buf[|Front(records)|..]
    ensures StopsOnHalf(buf) <==> StopsOnHalf(tail)
  {
    var front := Front(records);
    assert buf == front + tail;
    ParseRecords(records, tail);
    HalfBehind(buf, tail, |front|);
  }

  lemma HalfBehind(buf: bytes, tail: bytes, n: nat)
    requires n <= |buf| && tail == buf[n..]
    requires Parse(buf).status == Parse(tail).status && Parse(buf).used == n + Parse(tail).used
    ensures StopsOnHalf(buf) <==> StopsOnHalf(tail)
  {
    RestOfRest(buf, n, tail, Parse(tail).used);
  }

  lemma HalfStops(tail: bytes)
    requires StopsAt(tail)
    ensures StopsOnHalf(tail) <==> HalfResponse(tail)
  {
    assert tail[0..] == tail;
  }

  lemma HalfIsExact(buf: bytes)
    ensures StopsOnHalf(buf) <==> CutsResponse(buf)
  {
    var records := LeadingRecords(buf);
    HalfOfTail(buf, records, buf[|Front(records)|..]);
    HalfStops(buf[|Front(records)|..]);
    forall rs | Begins(buf, rs) && HalfResponse(buf[|Front(rs)|..]) ensures StopsOnHalf(buf) {
      HalfOfTail(buf, rs, buf[|Front(rs)|..]);
      HalfStops(buf[|Front(rs)|..]);
    }
  }

  // ------------------------------------------------------------------ decoding piece by piece

  function Join(pieces: seq<bytes>): bytes {
    if pieces == [] then [] else Join(pieces[..|pieces| - 1]) + pieces[|pieces| - 1]
  }

  /** What the receive loop has after some pieces; once it has failed or hangs it takes no more. */
  datatype Session = Session(frames: seq<bytes>, carry: bytes, used: nat, status: Status)

  function Feed(pieces: seq<bytes>): Session {
    if pieces == [] then Session([], [], 0, Open)
    else
      var s := Feed(pieces[..|pieces| - 1]);
      if s.status != Open then s else Take(s, pieces[|pieces| - 1])
  }

  function Take(s: Session, piece: bytes): Session {
    var p := Parse(s.carry + piece);
    Session(s.frames + p.frames, (s.carry + piece)[p.used..], s.used + p.used, p.status)
  }

  /** The session has decoded just what the whole stream decodes to. */
  predicate Agrees(s: Session, whole: bytes) {
    && Parse(whole) == Parsed(s.frames, s.used, s.status)
    && s.carry == whole[s.used..]
  }

  ghost predicate NoBadCut(pieces: seq<bytes>) {
    forall j :: 0 < j < |pieces| ==> !CutsResponse(Join(pieces[..j]))
  }

  lemma NoBadCutBefore(pieces: seq<bytes>, n: nat)
    requires NoBadCut(pieces) && n <= |pieces|
    ensures NoBadCut(pieces[..n])
  {
    forall j | 0 < j < n ensures !CutsResponse(Join(pieces[..n][..j])) {
      assert pieces[..n][..j] == pieces[..j];
    }
  }

  lemma TakeAgrees(s: Session, whole: bytes, piece: bytes)
    requires s.status == Open && Agrees(s, whole)
    ensures Agrees(Take(s, piece), whole + piece)
  {
    var joined := s.carry + piece;
    GoesOn(whole, piece, Parsed(s.frames, s.used, s.status), joined);
    RestOfRest(whole + piece, s.used, joined, Parse(joined).used);
  }

  lemma GoesOn(a: bytes, c: bytes, p: Parsed, joined: bytes)
    requires p == Parse(a) && p.status == Open && joined == a[p.used..] + c
    ensures var q := Parse(joined); Parse(a + c) == Parsed(p.frames + q.frames, p.used + q.used, q.status)
    ensures (a + c)[p.used..] == joined
  {
    ParseGoesOn(a, c);
  }

  lemma RestOfRest(a: bytes, n: nat, rest: bytes, m: nat)
    requires n <= |a| && rest == a[n..] && m <= |rest|
    ensures rest[m..] == a[n + m..]
  {
  }

  lemma {:induction false} GoodCutsAgree(pieces: seq<bytes>)
    requires NoBadCut(pieces)
    ensures Feed(pieces).status == Open ==> Agrees(Feed(pieces), Join(pieces))
    ensures Parse(Join(pieces)) == Parsed(Feed(pieces).frames, Feed(pieces).used, Feed(pieces).status)
  {
    if pieces != [] {
      var n := |pieces| - 1;
      NoBadCutBefore(pieces, n);
      GoodCutsAgree(pieces[..n]);
      var s, whole := Feed(pieces[..n]), Join(pieces[..n]);
      assert n == 0 ==> pieces[..n] == [];
      if s.status == Open {
        TakeAgrees(s, whole, pieces[n]);
      } else {
        HalfIsExact(whole);
        ParseStops(whole, pieces[n]);
      }
    }
  }

  lemma {:induction false} FeedFreezes(pieces: seq<bytes>, j: nat)
    requires j <= |pieces| && Feed(pieces[..j]).status != Open
    ensures Feed(pieces) == Feed(pieces[..j])
  {
    if j < |pieces| {
      assert pieces[..|pieces| - 1][..j] == pieces[..j];
      FeedFreezes(pieces[..|pieces| - 1], j);
    } else {
      assert pieces[..j] == pieces;
    }
  }

  lemma {:induction false} JoinFrom(pieces: seq<bytes>, j: nat)
    requires 0 <= j < |pieces| && forall i :: 0 <= i < |pieces| ==> pieces[i] != []
    ensures |Join(pieces[..j])| < |Join(pieces)| && Join(pieces[..j]) == Join(pieces)[..|Join(pieces[..j])|]
  {
    var n := |pieces| - 1;
    if j < n {
      JoinFrom(pieces[..n], j);
      assert pieces[..n][..j] == pieces[..j];
    }
  }

  lemma {:induction false} FirstBadCut(pieces: seq<bytes>, n: nat) returns (j: nat)
    requires n <= |pieces| && !NoBadCut(pieces[..n])
    ensures 0 < j < n && CutsResponse(Join(pieces[..j])) && NoBadCut(pieces[..j])
  {
    var i :| 0 < i < n && CutsResponse(Join(pieces[..n][..i]));
    assert pieces[..n][..i] == pieces[..i];
    if NoBadCut(pieces[..i]) {
      j := i;
    } else {
      j := FirstBadCut(pieces, i);
    }
  }

  lemma BadCutDiffers(pieces: seq<bytes>, j: nat, a: bytes, whole: bytes)
    requires forall i :: 0 <= i < |pieces| ==> pieces[i] != []
    requires j < |pieces| && a == Join(pieces[..j]) && whole == Join(pieces) && CutsResponse(a) && NoBadCut(pieces[..j])
    ensures Parse(whole) != Parsed(Feed(pieces).frames, Feed(pieces).used, Feed(pieces).status)
  {
    GoodCutsAgree(pieces[..j]);
    HalfIsExact(a);
    FeedFreezes(pieces, j);
    JoinFrom(pieces, j);
    var c := whole[|a|..];
    assert whole == a + c;
    HalfResponseReleased(a, c);
  }

  /** Framing by pieces gives the messages, the byte count and the outcome of decoding the whole stream if and
      only if no piece but the last ends nine bytes into a response. */
  lemma FramingRefinesDecoding(pieces: seq<bytes>)
    requires forall i :: 0 <= i < |pieces| ==> pieces[i] != []
    ensures Parse(Join(pieces)) == Parsed(Feed(pieces).frames, Feed(pieces).used, Feed(pieces).status) <==> NoBadCut(pieces)
  {
    if NoBadCut(pieces) {
      GoodCutsAgree(pieces);
    } else {
      assert pieces[..|pieces|] == pieces;
      var j := FirstBadCut(pieces, |pieces|);
      BadCutDiffers(pieces, j, Join(pieces[..j]), Join(pieces));
    }
  }

  // ------------------------------------------------------------------ how the receive loop ends

  /** The pieces are non-empty, and joined they are the start of what was sent. */
  predicate CutFrom(pieces: seq<bytes>, wire: bytes) {
    && (forall i :: 0 <= i < |pieces| ==> pieces[i] != [])
    && IsStart(Join(pieces), wire)
  }

  ghost predicate JamsAt(pieces: seq<bytes>, j: int) {
    0 <= j <= |pieces| && Jams(Join(pieces[..j]))
  }

  /** Some piece leaves the parser with something it goes round on without consuming it. */
  ghost predicate EverJams(pieces: seq<bytes>) {
    exists j :: JamsAt(pieces, j)
  }

  lemma JamsAtBefore(pieces: seq<bytes>, n: nat, j: int)
    requires n <= |pieces|
    ensures JamsAt(pieces[..n], j) <==> j <= n && JamsAt(pieces, j)
  {
    if 0 <= j <= n {
      assert pieces[..n][..j] == pieces[..j];
    }
  }

  lemma EverJamsNext(pieces: seq<bytes>, n: nat)
    requires |pieces| == n + 1
    ensures EverJams(pieces) <==> EverJams(pieces[..n]) || JamsAt(pieces, n + 1)
  {
    forall j ensures JamsAt(pieces[..n], j) <==> j <= n && JamsAt(pieces, j) {
      JamsAtBefore(pieces, n, j);
    }
  }

  lemma {:induction false} OpenAgrees(pieces: seq<bytes>)
    requires Feed(pieces).status == Open
    ensures Agrees(Feed(pieces), Join(pieces))
  {
    if pieces != [] {
      var n := |pieces| - 1;
      OpenAgrees(pieces[..n]);
      TakeAgrees(Feed(pieces[..n]), Join(pieces[..n]), pieces[n]);
    }
  }

  /** What the session has is what some of the pieces, joined, decode to. */
  lemma {:induction false} SessionIsOfSome(pieces: seq<bytes>) returns (j: nat)
    ensures j <= |pieces| && Feed(pieces).frames == Parse(Join(pieces[..j])).frames
    ensures Feed(pieces).status == Parse(Join(pieces[..j])).status
    ensures Feed(pieces).status == Open ==> j == |pieces|
  {
    j := 0;
    if pieces != [] {
      var n := |pieces| - 1;
      if Feed(pieces[..n]).status == Open {
        OpenAgrees(pieces[..n]);
        TakeAgrees(Feed(pieces[..n]), Join(pieces[..n]), pieces[n]);
        j := n + 1;
        assert pieces[..j] == pieces;
      } else {
        j := SessionIsOfSome(pieces[..n]);
        assert pieces[..n][..j] == pieces[..j];
      }
    }
  }

  lemma StatusAfter(pieces: seq<bytes>, n: nat, whole: bytes)
    requires |pieces| == n + 1 && whole == Join(pieces[..n])
    ensures Feed(pieces[..n]).status == Open ==> Feed(pieces).status == Parse(Join(pieces)).status
    ensures Feed(pieces[..n]).status != Open ==> Feed(pieces).status == Feed(pieces[..n]).status
    ensures Parse(whole).status == Failed ==> Parse(Join(pieces)).status == Failed
  {
    var s := Feed(pieces[..n]);
    if s.status == Open {
      OpenAgrees(pieces[..n]);
      TakeAgrees(s, whole, pieces[n]);
    }
    if Parse(whole).status == Failed {
      ParseStops(whole, pieces[n]);
    }
  }

  /** Whatever arrives in whatever pieces: the loop hangs if and only if after some piece what has arrived jams the
      parser, and otherwise it fails if and only if a refusal has arrived. In all other cases it goes on. */
  lemma {:induction false} LoopStatusIsExact(pieces: seq<bytes>)
    ensures Feed(pieces).status == Stuck <==> EverJams(pieces)
    ensures Feed(pieces).status == Failed <==> !EverJams(pieces) && IsRefused(Join(pieces))
  {
    StatusIsExact(Join(pieces));
    if pieces == [] {
      assert forall j :: 0 <= j <= |pieces| ==> pieces[..j] == pieces;
    } else {
      var n := |pieces| - 1;
      LoopStatusIsExact(pieces[..n]);
      EverJamsNext(pieces, n);
      assert pieces[..n + 1] == pieces;
      StatusIsExact(Join(pieces[..n]));
      StatusAfter(pieces, n, Join(pieces[..n]));
      if Feed(pieces[..n]).status == Open {
        OpenIsNotRefused(pieces[..n]);
      }
    }
  }

  lemma OpenIsNotRefused(pieces: seq<bytes>)
    requires Feed(pieces).status == Open
    ensures Parse(Join(pieces)).status == Open
  {
    OpenAgrees(pieces);
  }

  // ------------------------------------------------------------------ the buffer

  function LastSeqNo(frames: seq<bytes>, last: int): int {
    if frames == [] || |frames[|frames| - 1]| < HEADER_SIZE then last else SeqNoOf(frames[|frames| - 1])
  }

  predicate IsTrailer(f: bytes) {
    |f| >= HEADER_SIZE && f[8] == END_OF_MASTER
  }

  /** END_OF_MASTER is counted but not handed on. */
  function HandedOn(frames: seq<bytes>): seq<bytes> {
    if frames == [] then []
    else HandedOn(frames[..|frames| - 1]) + if IsTrailer(frames[|frames| - 1]) then [] else [frames[|frames| - 1]]
  }

  /** The parser's progress: what is decoded of the data up to a point, and the counters for it. */
  datatype Progress = Progress(at: nat, frames: seq<bytes>, handed: seq<bytes>, lastSeqNo: int, count: int)

  predicate Splits(data: bytes, at: nat, frames: seq<bytes>) {
    && at <= |data|
    && var q := Parse(data[at..]); Parse(data) == Parsed(frames + q.frames, at + q.used, q.status)
  }

  predicate Decoded(data: bytes, last: int, count: int, p: Progress) {
    && p.handed == HandedOn(p.frames) && p.lastSeqNo == LastSeqNo(p.frames, last) && p.count == count + |p.frames|
    && Splits(data, p.at, p.frames)
  }

  function Advance(p: Progress, frame: bytes): Progress
    requires |frame| >= HEADER_SIZE
  {
    Progress(p.at + |frame|, p.frames + [frame], p.handed + if IsTrailer(frame) then [] else [frame],
             SeqNoOf(frame), p.count + 1)
  }

  lemma SplitsLater(data: bytes, at: nat, frames: seq<bytes>, frame: bytes, at': nat, frames': seq<bytes>)
    requires Splits(data, at, frames) && HeadOf(data[at..]).Frame? && frame == data[at..][..HeadOf(data[at..]).n]
    requires at' == at + |frame| && frames' == frames + [frame]
    ensures Splits(data, at', frames')
  {
    var rest := data[at..];
    var n := HeadOf(rest).n;
    ParseFrame(rest, n);
    var later := Parse(rest[n..]);
    assert |frame| == n && rest[n..] == data[at'..];
    Associates(frames, [frame], later.frames);
    assert Parse(data).frames == frames' + later.frames;
    assert Parse(data).used == at' + later.used;
  }

  lemma LastPush(frames: seq<bytes>, f: bytes, last: int)
    requires |f| >= HEADER_SIZE
    ensures LastSeqNo(frames + [f], last) == SeqNoOf(f)
  {
  }

  lemma DecodedFrame(data: bytes, last: int, count: int, p: Progress, frame: bytes)
    requires Decoded(data, last, count, p) && HeadOf(data[p.at..]).Frame?
    requires frame == data[p.at..][..HeadOf(data[p.at..]).n]
    ensures Decoded(data, last, count, Advance(p, frame))
  {
    var next := Advance(p, frame);
    SplitsLater(data, p.at, p.frames, frame, next.at, next.frames);
    FramePush(p.frames, frame);
    LastPush(p.frames, frame, last);
  }

  lemma DecodedSkip(data: bytes, last: int, count: int, p: Progress)
    requires Decoded(data, last, count, p) && HeadOf(data[p.at..]).Skip?
    ensures Decoded(data, last, count, p.(at := p.at + HeadOf(data[p.at..]).n))
  {
    assert data[p.at..][HeadOf(data[p.at..]).n..] == data[p.at + HeadOf(data[p.at..]).n..];
  }

  lemma DecodedEnd(data: bytes, last: int, count: int, p: Progress)
    requires Decoded(data, last, count, p) && !HeadOf(data[p.at..]).Frame? && !HeadOf(data[p.at..]).Skip?
    ensures Parse(data) == Parsed(p.frames, p.at, Parse(data[p.at..]).status)
  {
    assert p.frames + [] == p.frames;
  }

  /** The type switch: what stands at an offset of the buffer, given how many bytes there are. */
  method Peek(buf: array<byte>, available: nat, total: nat) returns (head: Head, frame: bytes)
    requires available <= total <= buf.Length
    ensures head == HeadOf(buf[available..total])
    ensures head.Frame? ==> frame == buf[available..total][..head.n]
  {
    frame := [];
    if total - available < HEADER_SIZE {
      return Short, frame;
    }
    var kind := buf[available + 8];
    if kind == RECOVERY_RESPONSE {
      if available + RESPONSE_SIZE <= total {
        head := if buf[available + 9] == RECOVERY_RESPONSE then Refused else Skip(RESPONSE_SIZE);
      } else {
        head := Hang;
      }
    } else if FrameSize(kind) == 0 {
      head := Hang;
    } else if available + FrameSize(kind) <= total {
      head := Frame(FrameSize(kind));
      frame := buf[available..available + FrameSize(kind)];
    } else {
      head := Short;
    }
  }

  /** Decodes what is in the buffer and moves the unconsumed tail to its start. On a record it cannot consume the
      original goes round for ever; here that outcome is reported as Stuck. */
  method GetPacketFromMessage(buf: array<byte>, total: nat, last: int, count: int)
    returns (status: Status, pending: nat, p: Progress)
    requires total <= buf.Length
    modifies buf
    ensures Parse(old(buf[..total])) == Parsed(p.frames, p.at, status)
    ensures status == Stuck <==> Jams(old(buf[..total]))
    ensures status == Failed <==> IsRefused(old(buf[..total]))
    ensures Decoded(old(buf[..total]), last, count, p)
    ensures status == Open ==> pending == total - p.at && pending <= 44 && buf[..pending] == old(buf[..total])[p.at..]
  {
    ghost var data := buf[..total];
    CarryIsShort(data);
    assert data[0..] == data;
    p := Progress(0, [], [], last, count);
    status, pending := Open, 0;
    while p.at < total
      invariant buf[..total] == data && Decoded(data, last, count, p) && status == Open
      decreases total - p.at
    {
      var head, frame := Peek(buf, p.at, total);
      assert buf[p.at..total] == data[p.at..];
      match head {
        case Refused =>
          status := Failed;
          break;
        case Hang =>
          status := Stuck;
          break;
        case Skip(n) =>
          DecodedSkip(data, last, count, p);
          p := p.(at := p.at + n);
        case Frame(n) =>
          DecodedFrame(data, last, count, p, frame);
          p := Advance(p, frame);
        case Short =>
          break;
      }
    }
    DecodedEnd(data, last, count, p);
    StatusIsExact(data);
    if status == Open {
      pending := total - p.at;
      MoveDown(buf, p.at, total);
    }
  }

  lemma FramePush(frames: seq<bytes>, f: bytes)
    ensures HandedOn(frames + [f]) == HandedOn(frames) + if IsTrailer(f) then [] else [f]
  {
    assert (frames + [f])[..|frames|] == frames;
  }

  /** Moves buf[from..total] to the start of the buffer. */
  method MoveDown(buf: array<byte>, from: nat, total: nat)
    requires from <= total <= buf.Length
    modifies buf
    ensures buf[..total - from] == old(buf[from..total])
  {
    forall i | 0 <= i < total - from {
      buf[i] := buf[from + i];
    }
  }

  lemma {:induction false} HandedConcat(a: seq<bytes>, b: seq<bytes>)
    ensures HandedOn(a + b) == HandedOn(a) + HandedOn(b)
  {
    if b == [] {
      assert a + b == a;
    } else {
      assert (a + b)[..|a + b| - 1] == a + b[..|b| - 1];
      HandedConcat(a, b[..|b| - 1]);
    }
  }

  /** recv: some bytes of what the server has sent, at least one and no more than there is room for. */
  method Receive(buf: array<byte>, pending: nat, wire: bytes, pos: nat) returns (n: nat)
    requires pending < buf.Length && pos < |wire|
    modifies buf
    ensures 0 < n <= buf.Length - pending && pos + n <= |wire|
    ensures buf[..pending + n] == old(buf[..pending]) + wire[pos..pos + n]
  {
    n := 1;
    if * {
      n :| 0 < n <= buf.Length - pending && pos + n <= |wire|;
    }
    forall i | 0 <= i < n {
      buf[pending + i] := wire[pos + i];
    }
  }

  predicate Counted(s: Session, last: int, count: int, last': int, count': int, handed: seq<bytes>) {
    && last' == LastSeqNo(s.frames, last) && count' == count + |s.frames| && handed == HandedOn(s.frames)
  }

  lemma {:induction false} FramesHaveHeaders(buf: bytes)
    ensures forall f :: f in Parse(buf).frames ==> |f| >= HEADER_SIZE
    decreases |buf|
  {
    match HeadOf(buf)
    case Short =>
    case Refused =>
    case Hang =>
    case Skip(n) => FramesHaveHeaders(buf[n..]);
    case Frame(n) => FramesHaveHeaders(buf[n..]);
  }

  /** Everything that can be decoded of the data has been. */
  predicate Finished(data: bytes, last: int, count: int, p: Progress) {
    Decoded(data, last, count, p) && p.frames == Parse(data).frames
  }

  lemma CountedTake(s: Session, piece: bytes, last: int, count: int, last': int, count': int, handed: seq<bytes>, p: Progress)
    requires Counted(s, last, count, last', count', handed) && Finished(s.carry + piece, last', count', p)
    ensures Counted(Take(s, piece), last, count, p.lastSeqNo, p.count, handed + p.handed)
  {
    HandedConcat(s.frames, p.frames);
    assert p.frames == [] ==> s.frames + p.frames == s.frames;
    FramesHaveHeaders(s.carry + piece);
  }

  lemma CutNext(pieces: seq<bytes>, wire: bytes, pos: nat, n: nat)
    requires CutFrom(pieces, wire) && pos == |Join(pieces)| && 0 < n && pos + n <= |wire|
    ensures CutFrom(pieces + [wire[pos..pos + n]], wire) && |Join(pieces + [wire[pos..pos + n]])| == pos + n
  {
    var piece := wire[pos..pos + n];
    assert (pieces + [piece])[..|pieces|] == pieces;
    assert wire[..pos + n] == wire[..pos] + piece;
  }

  lemma FeedTake(pieces: seq<bytes>, piece: bytes)
    requires Feed(pieces).status == Open
    ensures Feed(pieces + [piece]) == Take(Feed(pieces), piece)
  {
    assert (pieces + [piece])[..|pieces|] == pieces;
  }

  /** One turn of the receive loop: a piece is received behind the carry-over, and what is now whole is decoded. */
  method ReceivePiece(buf: array<byte>, pending: nat, wire: bytes, pos: nat, last: int, count: int, ghost s: Session)
    returns (n: nat, status: Status, pending': nat, p: Progress)
    requires pending < buf.Length && pos < |wire| && buf[..pending] == s.carry
    modifies buf
    ensures 0 < n && pos + n <= |wire|
    ensures var t := Take(s, wire[pos..pos + n]);
            status == t.status && (status == Open ==> pending' <= 44 && pending' <= buf.Length && buf[..pending'] == t.carry)
    ensures Finished(s.carry + wire[pos..pos + n], last, count, p)
  {
    n := Receive(buf, pending, wire, pos);
    status, pending', p := GetPacketFromMessage(buf, n + pending, last, count);
  }

  /** The receive loop of one attempt: what the server sends, received in pieces until it closes, the connection
      breaks, it refuses, or the parser hangs. Messages, counters and outcome are those of the session. */
  method ReceiveAnswer(wire: bytes, to: int, last: int, count: int)
    returns (status: Status, ret: int, last': int, count': int, handed: seq<bytes>, ghost pieces: seq<bytes>)
    ensures CutFrom(pieces, wire)
    ensures status == Feed(pieces).status && Counted(Feed(pieces), last, count, last', count', handed)
    ensures status == Stuck <==> EverJams(pieces)
    ensures status == Failed <==> !EverJams(pieces) && IsRefused(Join(pieces))
    ensures status == Open ==> ret == if to == last' then 0 else -1
    ensures status != Open ==> ret == -1
  {
    var buf := new byte[BUFFER_SIZE];
    var pending: nat := 0;
    var pos: nat := 0;
    status, ret, last', count', handed, pieces := Open, -1, last, count, [], [];
    while pos < |wire|
      invariant CutFrom(pieces, wire) && pos == |Join(pieces)|
      invariant pending <= 44 && status == Feed(pieces).status == Open && buf[..pending] == Feed(pieces).carry
      invariant Counted(Feed(pieces), last, count, last', count', handed)
      decreases |wire| - pos
    {
      if * {
        break;
      }
      var n, p;
      ghost var s := Feed(pieces);
      n, status, pending, p := ReceivePiece(buf, pending, wire, pos, last', count', s);
      ghost var piece := wire[pos..pos + n];
      CutNext(pieces, wire, pos, n);
      FeedTake(pieces, piece);
      CountedTake(s, piece, last, count, last', count', handed, p);
      pos, pieces := pos + n, pieces + [piece];
      last', count', handed := p.lastSeqNo, p.count, handed + p.handed;
      if status != Open {
        LoopStatusIsExact(pieces);
        return;
      }
    }
    LoopStatusIsExact(pieces);
    ret := if to == last' then 0 else -1;
  }
}
