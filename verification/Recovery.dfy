/** Gap detection on the live feed, and recovery of what was missed from a server that may stop anywhere. */
module Recovery {
  import opened Market
  import opened Engine
  import opened Quotients

  // ------------------------------------------------------------------ the exchange's numbered messages

  /** Message number n is feed[n - 1]. */
  predicate Numbered(book: Book, feed: seq<Message>) {
    forall i :: 0 <= i < |feed| ==> feed[i].seqNo == i + 1 && Admissible(book, feed[i])
  }

  /** The messages apart from the END_OF_MASTER trailers, which recovery counts but does not hand on. */
  function WithoutTrailers(ms: seq<Message>): seq<Message> {
    if ms == [] then []
    else WithoutTrailers(ms[..|ms| - 1]) + if ms[|ms| - 1].kind == 'E' then [] else [ms[|ms| - 1]]
  }

  lemma TrailersPush(ms: seq<Message>, m: Message)
    ensures WithoutTrailers(ms + [m]) == WithoutTrailers(ms) + if m.kind == 'E' then [] else [m]
  {
    assert (ms + [m])[..|ms|] == ms;
  }

  /** A trailer does nothing to the engine, whatever state it is in. */
  lemma {:induction false} TrailersAreIdle(book: Book, s: Snapshot, ms: seq<Message>)
    ensures RunFrom(book, s, WithoutTrailers(ms)) == RunFrom(book, s, ms)
  {
    if ms != [] {
      var n := |ms| - 1;
      TrailersAreIdle(book, s, ms[..n]);
      var before := WithoutTrailers(ms[..n]);
      if ms[n].kind == 'E' {
        assert before + [] == before;
      } else {
        RunOne(book, s, before, ms[n]);
      }
    }
  }

  // ------------------------------------------------------------------ requests

  /** One connection to the server: the range asked for, and how many messages came before it closed. */
  datatype Attempt = Attempt(from: int, to: int, delivered: int)

  /** Each attempt asks from the first number still missing, and together they deliver from..next-1. */
  predicate Resumes(log: seq<Attempt>, from: int, next: int) {
    if log == [] then from == next
    else
      var last := log[|log| - 1];
      last.from + last.delivered == next && last.delivered >= 0 && next <= last.to + 1
      && Resumes(log[..|log| - 1], from, last.from)
  }

  lemma {:induction false} ResumesConcat(a: seq<Attempt>, c: seq<Attempt>, from: int, mid: int, next: int)
    requires Resumes(a, from, mid) && Resumes(c, mid, next)
    ensures Resumes(a + c, from, next)
  {
    if c == [] {
      assert a + c == a;
    } else {
      assert (a + c)[..|a + c| - 1] == a + c[..|c| - 1];
      ResumesConcat(a, c[..|c| - 1], from, mid, c[|c| - 1].from);
    }
  }

  /** What one attempt reports: how many messages it delivered and, if it claims success, that it ended at the end
      of the range. */
  predicate Attempted(from: int, to: int, count: int, last: int, ret: int, count': int, last': int) {
    && 0 <= count' - count <= to - from + 1
    && last' == (if count' == count then last else from + (count' - count) - 1)
    && (ret == 0 || ret == -1)
    && (ret == 0 ==> last' == to)
  }

  datatype Range = Range(from: int, to: int)

  /** First number of the i-th chunk; the first chunk is one longer than the others. */
  function ChunkStart(from: int, size: int, i: nat): int {
    if i == 0 then from else from + i * size + 1
  }

  function FullChunks(from: int, size: int, n: nat): seq<Range> {
    if n == 0 then []
    else FullChunks(from, size, n - 1) + [Range(ChunkStart(from, size, n - 1), from + n * size)]
  }

  /** The requests a gap is cut into. */
  function Chunks(from: int, to: int, size: int): seq<Range>
    requires from <= to && size >= 1
  {
    var full := (to - from) / size;
    FullChunks(from, size, full)
    + if full > 0 && from + full * size == to then [] else [Range(ChunkStart(from, size, full), to)]
  }

  /** The ranges follow one another without gap or overlap, and none is empty or inverted. */
  predicate Partition(rs: seq<Range>, from: int, next: int) {
    if rs == [] then from == next
    else
      var last := rs[|rs| - 1];
      last.from <= last.to && last.to + 1 == next && Partition(rs[..|rs| - 1], from, last.from)
  }

  lemma {:induction false} FullChunksPartition(from: int, size: int, n: nat)
    requires size >= 1
    ensures |FullChunks(from, size, n)| == n
    ensures Partition(FullChunks(from, size, n), from, ChunkStart(from, size, n))
    ensures forall i :: 0 <= i < n ==>
              FullChunks(from, size, n)[i].to - FullChunks(from, size, n)[i].from + 1 == if i == 0 then size + 1 else size
  {
    if n > 0 {
      FullChunksPartition(from, size, n - 1);
      var before := FullChunks(from, size, n - 1);
      var last := Range(ChunkStart(from, size, n - 1), from + n * size);
      assert (before + [last])[..|before|] == before;
      assert n * size == (n - 1) * size + size;
    }
  }

  /** The chunks partition the gap: one of size + 1, then ones of exactly size, then a remainder of fewer; no
      remainder is asked for exactly when the distance is a positive multiple of the size. */
  lemma ChunksPartition(from: int, to: int, size: int)
    requires from <= to && size >= 1
    ensures var cs := Chunks(from, to, size);
            var full := (to - from) / size;
            && Partition(cs, from, to + 1)
            && |cs| == full + (if to > from && (to - from) % size == 0 then 0 else 1)
            && (forall i :: 0 <= i < full ==> cs[i].to - cs[i].from + 1 == if i == 0 then size + 1 else size)
            && (|cs| > full ==> cs[full].to - cs[full].from + 1 == (to - from) % size + if full == 0 then 1 else 0)
  {
    var full := (to - from) / size;
    var d, r := to - from, (to - from) % size;
    assert d == full * size + r;
    FullChunksPartition(from, size, full);
    var before := FullChunks(from, size, full);
    assert full > 0 && from + full * size == to <==> d > 0 && r == 0;
    if !(full > 0 && from + full * size == to) {
      var last := Range(ChunkStart(from, size, full), to);
      assert (before + [last])[..|before|] == before;
    } else {
      assert before + [] == before;
    }
  }

  /** No request is for more than the configured maximum exactly when the gap is no wider than that. */
  lemma ChunksFit(from: int, to: int, size: int)
    requires from <= to && size >= 1
    ensures (forall r :: r in Chunks(from, to, size) ==> r.to - r.from + 1 <= size) <==> to - from < size
  {
    var cs, full := Chunks(from, to, size), (to - from) / size;
    ChunksPartition(from, to, size);
    if to - from < size {
      SmallQuotient(to - from, size);
      assert |cs| == 1 && forall r :: r in cs ==> r == cs[0];
    } else {
      BigQuotient(to - from, size);
      assert cs[0] in cs;
    }
  }

  lemma SmallQuotient(d: int, size: int)
    requires 0 <= d < size
    ensures d / size == 0 && d % size == d
  {
    QuotientUnique(d, size, 0, d);
  }

  lemma BigQuotient(d: int, size: int)
    requires 1 <= size <= d
    ensures d / size >= 1
  {
  }

  // ------------------------------------------------------------------ the recovery manager

  /** What has been received, and every request made, up to some moment. */
  datatype Mark = Mark(counted: seq<Message>, requests: seq<Attempt>)

  /** Between two moments just the numbers start..next-1 were received, by just these requests. */
  predicate Recovered(feed: seq<Message>, before: Mark, after: Mark, start: int, next: int, made: seq<Attempt>) {
    && 1 <= start <= next <= |feed| + 1
    && after.counted == before.counted + feed[start - 1..next - 1]
    && after.requests == before.requests + made && Resumes(made, start, next)
  }

  lemma RecoveredNone(feed: seq<Message>, m: Mark, start: int)
    requires 1 <= start <= |feed| + 1
    ensures Recovered(feed, m, m, start, start, [])
  {
  }

  lemma RecoveredJoin(feed: seq<Message>, x: Mark, y: Mark, z: Mark, a: int, b: int, c: int,
                      made: seq<Attempt>, more: seq<Attempt>)
    requires Recovered(feed, x, y, a, b, made) && Recovered(feed, y, z, b, c, more)
    ensures Recovered(feed, x, z, a, c, made + more)
  {
    SlicesJoin(x.counted, feed, a - 1, b - 1, c - 1);
    ResumesConcat(made, more, a, b, c);
    assert x.requests + made + more == x.requests + (made + more);
  }

  predicate EndAt(made: seq<Attempt>, to: int) {
    forall i :: 0 <= i < |made| ==> made[i].to == to
  }

  lemma EndAtJoin(made: seq<Attempt>, more: seq<Attempt>, to: int)
    requires EndAt(made, to) && EndAt(more, to)
    ensures EndAt(made + more, to)
  {
  }

  /** The requests made for one chunk: the first begins where it begins, and each ends where it ends. */
  predicate ServesChunk(made: seq<Attempt>, chunk: Range) {
    && made != [] && made[0].from == chunk.from && EndAt(made, chunk.to)
    && Resumes(made, chunk.from, chunk.to + 1)
  }

  /** The requests made run chunk by chunk through these ranges. */
  ghost predicate Serves(made: seq<Attempt>, chunks: seq<Range>)
    decreases |chunks|
  {
    if chunks == [] then made == []
    else exists m :: 0 <= m <= |made| && Serves(made[..m], chunks[..|chunks| - 1])
                     && ServesChunk(made[m..], chunks[|chunks| - 1])
  }

  /** A first attempt at a chunk, and whatever attempts completed it. */
  lemma ChunkServed(feed: seq<Message>, before: Mark, after: Mark, now: Mark, first: Attempt, more: seq<Attempt>)
    returns (made: seq<Attempt>)
    requires Recovered(feed, before, after, first.from, first.from + first.delivered, [first])
    requires Recovered(feed, after, now, first.from + first.delivered, first.to + 1, more) && EndAt(more, first.to)
    ensures Recovered(feed, before, now, first.from, first.to + 1, made)
    ensures ServesChunk(made, Range(first.from, first.to))
  {
    made := [first] + more;
    RecoveredJoin(feed, before, after, now, first.from, first.from + first.delivered, first.to + 1, [first], more);
    EndAtJoin([first], more, first.to);
    assert made[0] == first;
  }

  lemma ServesNext(made: seq<Attempt>, chunks: seq<Range>, more: seq<Attempt>, chunk: Range)
    requires Serves(made, chunks) && ServesChunk(more, chunk)
    ensures Serves(made + more, chunks + [chunk])
  {
    assert (chunks + [chunk])[..|chunks|] == chunks;
    assert (made + more)[..|made|] == made && (made + more)[|made|..] == more;
  }

  lemma SlicesJoin(base: seq<Message>, feed: seq<Message>, a: int, b: int, c: int)
    requires 0 <= a <= b <= c <= |feed|
    ensures base + feed[a..b] + feed[b..c] == base + feed[a..c]
  {
    assert feed[a..b] + feed[b..c] == feed[a..c];
  }

  class RecoveryManager {
    const book: Book
    const feed: seq<Message>
    const maxPackets: int
    const engine: TradeEngine
    var patience: nat                // how many more attempts the network lets come to nothing
    ghost var counted: seq<Message>  // every message received so far, live or recovered
    ghost var requests: seq<Attempt> // every request made so far, with the number of messages it brought

    ghost function Now(): Mark
      reads this
    {
      Mark(counted, requests)
    }

    ghost predicate Valid()
      reads this, engine
    {
      && engine.Valid() && engine.book == book
      && Numbered(book, feed) && maxPackets >= 1
      && WithoutTrailers(engine.history) == WithoutTrailers(counted)
    }

    constructor (feed: seq<Message>, maxPackets: int, engine: TradeEngine, patience: nat)
      requires engine.Valid() && Numbered(engine.book, feed) && maxPackets >= 1 && engine.history == []
      ensures Valid() && this.feed == feed && this.maxPackets == maxPackets && this.engine == engine
      ensures counted == [] && requests == []
    {
      this.book, this.feed, this.maxPackets, this.engine := engine.book, feed, maxPackets, engine;
      this.patience := patience;
      counted, requests := [], [];
    }

    /** A message arrives; unless it is a trailer out of an answer it is handed on. */
    method HandOn(m: Message, recovered: bool)
      requires Valid() && Admissible(book, m)
      modifies this`counted, engine
      ensures Valid() && counted == old(counted) + [m]
      ensures engine.history == old(engine.history) + if recovered && m.kind == 'E' then [] else [m]
    {
      TrailersPush(engine.history, m);
      TrailersPush(counted, m);
      counted := counted + [m];
      if !(recovered && m.kind == 'E') {
        engine.WriteDataInFile(m);
      }
    }

    /** The messages of one answer, handed on in order; a trailer is counted only. */
    method Deliver(from: int, delivered: int, count: int, last: int) returns (count': int, last': int)
      requires Valid() && 1 <= from && 0 <= delivered <= |feed| - from + 1
      modifies this`counted, engine
      ensures Valid()
      ensures count' == count + delivered
      ensures last' == if delivered == 0 then last else from + delivered - 1
      ensures counted == old(counted) + feed[from - 1..from - 1 + delivered]
    {
      count', last' := count, last;
      for i := 0 to delivered
        invariant Valid() && count' == count + i
        invariant last' == if i == 0 then last else from + i - 1
        invariant counted == old(counted) + feed[from - 1..from - 1 + i]
      {
        HandOn(feed[from - 1 + i], true);
        last' := feed[from - 1 + i].seqNo;
        count' := count' + 1;
      }
    }

    /** One attempt. The server delivers some consecutive prefix of the range, possibly nothing, and closes. */
    method RecoveryPackets(from: int, to: int, count: int, last: int) returns (ret: int, count': int, last': int)
      requires Valid() && 1 <= from <= to <= |feed|
      modifies this`patience, this`counted, this`requests, engine
      ensures Valid() && Attempted(from, to, count, last, ret, count', last')
      ensures patience <= old(patience) && (count' == count ==> patience < old(patience))
      ensures counted == old(counted) + feed[from - 1..from - 1 + (count' - count)]
      ensures requests == old(requests) + [Attempt(from, to, count' - count)]
    {
      var reached := true;
      if patience > 0 {
        if * {
          // No socket, no connection, or the request could not be sent.
          reached := false;
        }
      }
      var delivered := to - from + 1;
      if !reached {
        delivered := 0;
      } else if * {
        delivered :| 0 <= delivered <= to - from + 1 && (delivered == 0 ==> patience > 0);
      }
      requests := requests + [Attempt(from, to, delivered)];
      count', last' := Deliver(from, delivered, count, last);
      if delivered == 0 {
        patience := patience - 1;
      }
      ret := if reached && to == last' then 0 else -1;
      if * {
        // The answer ended in an error record.
        ret := -1;
      }
    }

    /** One more attempt at a range recovered since some moment from start up to its first missing number. */
    method Retry(from: int, to: int, last: int, ghost start: int, ghost since: Mark, ghost sofar: seq<Attempt>)
      returns (ret: int, count: int, last': int, ghost next: int, ghost made: seq<Attempt>)
      requires Valid() && 1 <= from <= to <= |feed| && Recovered(feed, since, Now(), start, from, sofar)
      requires EndAt(sofar, to)
      modifies this`patience, this`counted, this`requests, engine
      ensures Valid() && Attempted(from, to, 0, last, ret, count, last')
      ensures patience <= old(patience) && (count == 0 ==> patience < old(patience))
      ensures next == from + count && Recovered(feed, since, Now(), start, next, made) && EndAt(made, to)
      ensures requests == old(requests) + [Attempt(from, to, count)]
    {
      ghost var before := Now();
      ret, count, last' := RecoveryPackets(from, to, 0, last);
      OneAttempt(feed, before, Now(), from, to, count);
      RecoveredJoin(feed, since, before, Now(), start, from, from + count, sofar, [Attempt(from, to, count)]);
      made, next := sofar + [Attempt(from, to, count)], from + count;
    }

    /** The loop: attempts follow one another until the last number of the range has come. */
    method RetryUntilComplete(from: int, to: int, count: int, last: int, ghost since: Mark)
      returns (count': int, last': int, ghost made: seq<Attempt>)
      requires Valid() && 1 <= from <= to <= |feed| && since == Now()
      requires 0 <= count <= to - from + 1 && (last == to <==> count == to - from + 1)
      modifies this`patience, this`counted, this`requests, engine
      ensures Valid() && last' == to && count' == to - from + 1
      ensures Recovered(feed, since, Now(), from + count, to + 1, made) && EndAt(made, to)
    {
      count', last', made := count, last, [];
      ghost var next := from + count;
      RecoveredNone(feed, since, from + count);
      while last' != to
        invariant Valid() && count <= count' <= to - from + 1 && (last' == to <==> count' == to - from + 1)
        invariant next == from + count' && Recovered(feed, since, Now(), from + count, next, made) && EndAt(made, to)
        decreases 1 + to - next, patience
      {
        var status, newCount;
        status, newCount, last', next, made := Retry(from + count', to, last', from + count, since, made);
        count' := count' + newCount;
        if status == 0 {
          break;
        }
      }
      assert next == to + 1;
    }

    /** Retries until the range is complete. */
    method ForceRecoveryPackets(from: int, to: int, count: int, last: int)
      returns (ret: int, count': int, last': int, ghost made: seq<Attempt>)
      requires Valid() && (from <= to ==> 1 <= from && to <= |feed|)
      requires from <= to ==> 0 <= count <= to - from + 1 && (last == to <==> count == to - from + 1)
      modifies this`patience, this`counted, this`requests, engine
      ensures Valid()
      ensures to < from ==> ret == -1 && made == [] && Now() == old(Now())
      ensures from <= to ==> ret == 0 && last' == to && count' == to - from + 1
      ensures from <= to ==> Recovered(feed, old(Now()), Now(), from + count, to + 1, made)
      ensures EndAt(made, to)
    {
      if to < from {
        return -1, count, last, [];
      }
      ret := 0;
      count', last', made := RetryUntilComplete(from, to, count, last, Now());
    }

    /** One chunk: an attempt, then retries if it did not succeed. */
    method RecoverChunk(from: int, to: int) returns (last: int, ghost made: seq<Attempt>)
      requires Valid() && 1 <= from <= to <= |feed|
      modifies this`patience, this`counted, this`requests, engine
      ensures Valid() && last == to
      ensures Recovered(feed, old(Now()), Now(), from, to + 1, made) && ServesChunk(made, Range(from, to))
    {
      ghost var before := Now();
      var status, count;
      status, count, last := RecoveryPackets(from, to, 0, 0);
      ghost var first, after, more := Attempt(from, to, count), Now(), [];
      OneAttempt(feed, before, after, from, to, count);
      if status == -1 {
        status, count, last, more := ForceRecoveryPackets(from, to, count, last);
      } else {
        RecoveredNone(feed, after, to + 1);
      }
      made := ChunkServed(feed, before, after, Now(), first, more);
    }

    /** One more chunk of a gap recovered since some moment from start up to the chunk. */
    method ContinueWith(from: int, to: int, ghost start: int, ghost since: Mark, ghost sofar: seq<Attempt>,
                        ghost asked: seq<Range>)
      returns (last: int, ghost made: seq<Attempt>)
      requires Valid() && 1 <= from <= to <= |feed|
      requires Recovered(feed, since, Now(), start, from, sofar) && Serves(sofar, asked)
      modifies this`patience, this`counted, this`requests, engine
      ensures Valid() && last == to
      ensures Recovered(feed, since, Now(), start, to + 1, made) && Serves(made, asked + [Range(from, to)])
    {
      ghost var more, before := [], Now();
      last, more := RecoverChunk(from, to);
      RecoveredJoin(feed, since, before, Now(), start, from, to + 1, sofar, more);
      ServesNext(sofar, asked, more, Range(from, to));
      made := sofar + more;
    }

    /** After so many full chunks: where the last of them ended, where the next begins, and what was asked for. */
    ghost predicate FullUpTo(from: int, loop: nat, chunkTo: int, next: int, asked: seq<Range>) {
      && chunkTo == from + loop * maxPackets && next == ChunkStart(from, maxPackets, loop) && from <= next
      && asked == FullChunks(from, maxPackets, loop)
    }

    /** The body of the loop over full chunks. */
    method NextFullChunk(from: int, to: int, fullCount: int, loop: nat, chunkTo: int, next: int,
                         ghost since: Mark, ghost asked: seq<Range>, ghost sofar: seq<Attempt>)
      returns (chunkTo': int, next': int, last: int, ghost asked': seq<Range>, ghost made: seq<Attempt>)
      requires Valid() && 1 <= from <= to <= |feed| && next <= to
      requires loop < fullCount && fullCount == (to - from) / maxPackets && FullUpTo(from, loop, chunkTo, next, asked)
      requires Recovered(feed, since, Now(), from, next, sofar) && Serves(sofar, asked)
      modifies this`patience, this`counted, this`requests, engine
      ensures Valid() && FullUpTo(from, loop + 1, chunkTo', next', asked')
      ensures last == chunkTo' <= to && next' == chunkTo' + 1
      ensures Recovered(feed, since, Now(), from, next', made) && Serves(made, asked')
    {
      NextChunkFits(from, to, maxPackets, fullCount, loop, chunkTo);
      NextChunk(from, maxPackets, loop, chunkTo, next);
      chunkTo' := chunkTo + maxPackets;
      asked' := asked + [Range(next, chunkTo')];
      last, made := ContinueWith(next, chunkTo', from, since, sofar, asked);
      next' := chunkTo' + 1;
    }

    /** The chunks of full size; finished when the last of them reaches the end of the gap. */
    method RecoverFullChunks(from: int, to: int)
      returns (next: int, finished: bool, ghost asked: seq<Range>, ghost made: seq<Attempt>)
      requires Valid() && 1 <= from <= to <= |feed|
      modifies this`patience, this`counted, this`requests, engine
      ensures Valid()
      ensures finished ==> next == to + 1 && asked == Chunks(from, to, maxPackets)
      ensures !finished ==> from <= next <= to && asked + [Range(next, to)] == Chunks(from, to, maxPackets)
      ensures Recovered(feed, old(Now()), Now(), from, next, made) && Serves(made, asked)
    {
      var fullCount := (to - from) / maxPackets;
      next, finished, asked, made := from, false, [], [];
      var chunkTo := from;
      ghost var since := Now();
      RecoveredNone(feed, since, from);
      for loop := 0 to fullCount
        invariant Valid() && FullUpTo(from, loop, chunkTo, next, asked) && next <= to
        invariant Recovered(feed, since, Now(), from, next, made) && Serves(made, asked)
      {
        var last;
        chunkTo, next, last, asked, made := NextFullChunk(from, to, fullCount, loop, chunkTo, next, since, asked, made);
        if to == last {
          EndsWithFull(from, to, maxPackets, fullCount, loop);
          finished := true;
          return;
        }
      }
      NoMoreThanFull(from, to, maxPackets, fullCount);
    }

    /** Recovers a gap chunk by chunk: the requests made, and no others, run through the planned ranges. */
    method SplitRecoveryDataRequest(from: int, to: int) returns (ghost asked: seq<Range>, ghost made: seq<Attempt>)
      requires Valid() && (from <= to ==> 1 <= from && to <= |feed|)
      modifies this`patience, this`counted, this`requests, engine
      ensures Valid()
      ensures to < from ==> asked == [] && made == [] && Now() == old(Now())
      ensures from <= to ==> asked == Chunks(from, to, maxPackets) && Serves(made, asked)
      ensures from <= to ==> counted == old(counted) + feed[from - 1..to] && requests == old(requests) + made
      ensures from <= to ==> Resumes(made, from, to + 1)
    {
      asked, made := [], [];
      if to < from {
        return;
      }
      var next, finished;
      next, finished, asked, made := RecoverFullChunks(from, to);
      if finished {
        return;
      }
      var last;
      last, made := ContinueWith(next, to, from, old(Now()), made, asked);
      asked := asked + [Range(next, to)];
    }
  }

  lemma OneAttempt(feed: seq<Message>, before: Mark, after: Mark, from: int, to: int, count: int)
    requires 1 <= from <= to <= |feed| && 0 <= count <= to - from + 1
    requires after == Mark(before.counted + feed[from - 1..from - 1 + count], before.requests + [Attempt(from, to, count)])
    ensures Recovered(feed, before, after, from, from + count, [Attempt(from, to, count)])
  {
    assert [Attempt(from, to, count)][..0] == [];
  }

  lemma Multiple(d: int, size: int)
    requires d >= 1 && size >= 1
    ensures d * size >= size
  {
  }

  lemma ProductGrows(a: int, b: int, size: int)
    requires size >= 1
    ensures a < b ==> a * size + size <= b * size
  {
    if a < b {
      Multiple(b - a, size);
      assert (b - a) * size == b * size - a * size;
    }
  }

  lemma NextProduct(i: int, size: int)
    ensures (i + 1) * size == i * size + size
  {
  }

  /** The next full chunk ends one size further on, and no later than the gap. */
  lemma NextChunkFits(from: int, to: int, size: int, full: int, i: nat, chunkTo: int)
    requires from <= to && size >= 1 && full == (to - from) / size && i < full && chunkTo == from + i * size
    ensures from <= chunkTo && chunkTo + size == from + (i + 1) * size <= to
  {
    var d, product, next := to - from, full * size, (i + 1) * size;
    assert d == product + d % size;
    ProductGrows(i + 1, full, size);
    ProductGrows(0, i, size);
    NextProduct(i, size);
    assert next <= product <= d;
  }

  /** It begins just after the one before it, the first at the start of the gap. */
  lemma NextChunk(from: int, size: int, i: nat, chunkTo: int, next: int)
    requires size >= 1 && chunkTo == from + i * size && next == ChunkStart(from, size, i)
    requires chunkTo + size == from + (i + 1) * size
    ensures next <= chunkTo + size && chunkTo + size + 1 == ChunkStart(from, size, i + 1)
    ensures FullChunks(from, size, i + 1) == FullChunks(from, size, i) + [Range(next, chunkTo + size)]
  {
  }

  lemma EndsWithFull(from: int, to: int, size: int, full: int, i: nat)
    requires from <= to && size >= 1 && full == (to - from) / size && i < full && from + (i + 1) * size == to
    ensures Chunks(from, to, size) == FullChunks(from, size, i + 1)
  {
    var d, product, next := to - from, full * size, (i + 1) * size;
    assert d == product + d % size;
    ProductGrows(i + 1, full, size);
    assert next == d && full == i + 1;
    assert FullChunks(from, size, full) + [] == FullChunks(from, size, full);
  }

  lemma NoMoreThanFull(from: int, to: int, size: int, full: int)
    requires from <= to && size >= 1 && full == (to - from) / size
    requires from <= ChunkStart(from, size, full) <= to
    ensures Chunks(from, to, size) == FullChunks(from, size, full) + [Range(ChunkStart(from, size, full), to)]
  {
  }

  // ------------------------------------------------------------------ the live feed

  lemma PrefixGrows(feed: seq<Message>, last: int, next: int)
    requires 0 <= last < next <= |feed|
    ensures feed[..last] + feed[last..next - 1] + [feed[next - 1]] == feed[..next]
  {
  }

  class Receiver {
    const manager: RecoveryManager
    var lastSeqNo: int

    /** Exactly the messages 1..lastSeqNo have been received, in order and once each. */
    ghost predicate InStep()
      reads this, manager, manager.engine
    {
      && manager.Valid() && 0 <= lastSeqNo <= |manager.feed|
      && manager.counted == manager.feed[..lastSeqNo]
    }

    constructor (manager: RecoveryManager)
      requires manager.Valid() && manager.counted == []
      ensures InStep() && lastSeqNo == 0 && this.manager == manager
    {
      this.manager := manager;
      lastSeqNo := 0;
    }

    /** One live packet. It may be late, repeated or ahead of others that were lost, but it is the exchange's. */
    method OnPacket(packet: Message)
      requires InStep()
      requires packet.seqNo > 0 ==> packet.seqNo <= |manager.feed| && packet == manager.feed[packet.seqNo - 1]
      modifies this, manager, manager.engine
      ensures InStep()
      ensures lastSeqNo == if packet.seqNo > old(lastSeqNo) then packet.seqNo else old(lastSeqNo)
    {
      var seqNo := packet.seqNo;
      if seqNo == 0 || seqNo <= lastSeqNo {
        return;
      }
      if seqNo - lastSeqNo == 1 {
        lastSeqNo := seqNo;
        manager.HandOn(packet, false);
      } else {
        var from, to := lastSeqNo + 1, seqNo - 1;
        ghost var asked, made := manager.SplitRecoveryDataRequest(from, to);
        PrefixGrows(manager.feed, lastSeqNo, seqNo);
        manager.HandOn(packet, false);
        lastSeqNo := seqNo;
      }
    }

    /** A whole session: whatever arrived, and however recovery went, the engine ends in the state, and with the
        records, of a run that received 1..lastSeqNo without loss. */
    method ReceiveAll(packets: seq<Message>)
      requires InStep()
      requires forall p :: p in packets && p.seqNo > 0 ==>
                 p.seqNo <= |manager.feed| && p == manager.feed[p.seqNo - 1]
      modifies this, manager, manager.engine
      ensures InStep() && lastSeqNo >= old(lastSeqNo)
      ensures forall p :: p in packets ==> p.seqNo <= lastSeqNo
      ensures lastSeqNo > old(lastSeqNo) ==> exists p :: p in packets && p.seqNo == lastSeqNo
      ensures manager.engine.State() == RunFrom(manager.book, IDLE, manager.feed[..lastSeqNo])
    {
      for i := 0 to |packets|
        invariant InStep() && lastSeqNo >= old(lastSeqNo)
        invariant forall j :: 0 <= j < i ==> packets[j].seqNo <= lastSeqNo
        invariant lastSeqNo > old(lastSeqNo) ==> exists p :: p in packets && p.seqNo == lastSeqNo
      {
        assert packets[i] in packets;
        OnPacket(packets[i]);
      }
      RunIsFold(manager.book, manager.engine.history, manager.engine.states);
      TrailersAreIdle(manager.book, IDLE, manager.engine.history);
      TrailersAreIdle(manager.book, IDLE, manager.feed[..lastSeqNo]);
    }
  }
}
