/** The capture loop of a camera worker (services/ingest/sentigon_ingest/capture.py): subsampling to the
    recording rate, fixed-length segments and the pre-roll ring buffer. */
module Capture {
  import opened Common

  type Frame = nat

  /** One `cap.read()` with the monotonic and the wall clock after it. */
  datatype Read = Read(frame: Option<Frame>, mono: real, wall: real)

  datatype Settings = Settings(recordFps: nat, segmentSeconds: real, readTimeout: real, ringSize: nat)

  /** A frame that was written, with the clocks at that moment. */
  datatype Written = Written(frame: Frame, mono: real, wall: real)

  /** What `on_segment` is handed; `content` is what the file holds. */
  datatype Segment = Segment(start: real, end: real, frames: nat, content: seq<Written>)

  function MinInterval(cfg: Settings): real
    requires cfg.recordFps > 0
  {
    1.0 / (cfg.recordFps as real)
  }

  // ----- What the loop should write, read off the input -----

  /** How many of the reads the loop consumes: it stops after a failed read more than the timeout after the
      last good one. */
  function Consumed(cfg: Settings, input: seq<Read>, i: nat, lastOk: real): (n: nat)
    requires i <= |input|
    ensures i <= n <= |input|
    decreases |input| - i
  {
    if i == |input| then i
    else if input[i].frame.None? then
      if input[i].mono - lastOk > cfg.readTimeout then i + 1 else Consumed(cfg, input, i + 1, lastOk)
    else Consumed(cfg, input, i + 1, input[i].mono)
  }

  /** The monotonic time of the last written frame, zero before any. */
  function LastWritten(ws: seq<Written>): real {
    if ws == [] then 0.0 else ws[|ws| - 1].mono
  }

  function FailedReads(input: seq<Read>, n: nat): nat
    requires n <= |input|
  {
    if n == 0 then 0 else FailedReads(input, n - 1) + if input[n - 1].frame.None? then 1 else 0
  }

  /** The frames the first n reads write: good reads at least one recording interval after the last. */
  function WrittenBy(cfg: Settings, input: seq<Read>, n: nat): seq<Written>
    requires n <= |input| && cfg.recordFps > 0
  {
    if n == 0 then [] else
      var ws, r := WrittenBy(cfg, input, n - 1), input[n - 1];
      if r.frame.None? || r.mono - LastWritten(ws) < MinInterval(cfg) then ws
      else ws + [Written(r.frame.value, r.mono, r.wall)]
  }

  /** The recording interval is what `recordFps` frames a second leave to each: waiting d seconds is enough exactly
      when d times the rate is at least one frame. */
  lemma IntervalIsRate(cfg: Settings, d: real)
    requires cfg.recordFps > 0
    ensures MinInterval(cfg) * (cfg.recordFps as real) == 1.0
    ensures d >= MinInterval(cfg) <==> d * (cfg.recordFps as real) >= 1.0
  {
    var f := cfg.recordFps as real;
    var m := MinInterval(cfg);
    assert m * f == 1.0;
    Scale(d, m, f);
  }

  lemma Scale(a: real, b: real, f: real)
    requires f > 0.0
    ensures a >= b <==> a * f >= b * f
  {
    var d := a - b;
    assert a * f - b * f == d * f;
    if d >= 0.0 {
      assert d * f >= 0.0;
    } else {
      assert d * f < 0.0;
    }
  }

  /** A read writes its frame, with the clocks it was read at, if and only if it is good and comes at least one
      frame's time after the last frame written, or after zero if there is none. */
  lemma WrittenIff(cfg: Settings, input: seq<Read>, n: nat)
    requires n < |input| && cfg.recordFps > 0
    ensures var ws, after, r := WrittenBy(cfg, input, n), WrittenBy(cfg, input, n + 1), input[n];
            var since := r.mono - if ws == [] then 0.0 else ws[|ws| - 1].mono;
            if r.frame.Some? && since * (cfg.recordFps as real) >= 1.0
            then |after| == |ws| + 1 && ws <= after && Some(after[|ws|].frame) == r.frame
                 && after[|ws|].mono == r.mono && after[|ws|].wall == r.wall
            else after == ws
  {
    var ws := WrittenBy(cfg, input, n);
    IntervalIsRate(cfg, input[n].mono - LastWritten(ws));
    hide MinInterval;
  }

  /** When the last good read before read i was, or when the loop began. */
  function LastGood(input: seq<Read>, i: nat, start: real): real
    requires i <= |input|
  {
    if i == 0 then start else if input[i - 1].frame.Some? then input[i - 1].mono else LastGood(input, i - 1, start)
  }

  /** Read i fails longer after the last good one than the timeout allows. */
  predicate TimesOut(cfg: Settings, input: seq<Read>, i: nat, start: real)
    requires i < |input|
  {
    input[i].frame == None && input[i].mono - LastGood(input, i, start) > cfg.readTimeout
  }

  lemma {:induction false} ConsumedFrom(cfg: Settings, input: seq<Read>, i: nat, start: real)
    requires i <= |input|
    ensures var n := Consumed(cfg, input, i, LastGood(input, i, start));
            && (forall k :: i <= k < n - 1 ==> !TimesOut(cfg, input, k, start))
            && (n < |input| ==> n > i && TimesOut(cfg, input, n - 1, start))
    decreases |input| - i
  {
    if i < |input| {
      ConsumedFrom(cfg, input, i + 1, start);
    }
  }

  /** The loop ends with the first read that times out, or with the last. */
  lemma StopsAtTimeout(cfg: Settings, input: seq<Read>, start: real)
    ensures var n := Consumed(cfg, input, 0, start);
            && (forall k :: 0 <= k < n - 1 ==> !TimesOut(cfg, input, k, start))
            && (n < |input| ==> n > 0 && TimesOut(cfg, input, n - 1, start))
  {
    ConsumedFrom(cfg, input, 0, start);
  }

  function Contents(segs: seq<Segment>): seq<Written> {
    if segs == [] then [] else Contents(segs[..|segs| - 1]) + segs[|segs| - 1].content
  }

  lemma ContentsSnoc(segs: seq<Segment>, s: Segment)
    ensures Contents(segs + [s]) == Contents(segs) + s.content
  {
    assert (segs + [s])[..|segs|] == segs;
  }

  /** A file's frames were written from its start until less than a segment length later. */
  ghost predicate Fits(cfg: Settings, start: real, content: seq<Written>) {
    content != [] && content[0].wall == start
    && forall k :: 0 < k < |content| ==> content[k].wall - start < cfg.segmentSeconds
  }

  ghost predicate SegmentsOk(cfg: Settings, segs: seq<Segment>) {
    && (forall i :: 0 <= i < |segs|
          ==> Fits(cfg, segs[i].start, segs[i].content) && segs[i].frames == |segs[i].content|)
    && (forall i :: 0 < i < |segs|
          ==> segs[i - 1].end == segs[i].start && segs[i].start - segs[i - 1].start >= cfg.segmentSeconds)
  }

  /** The loop's locals after the frames `ws`: the segments emitted so far hold all but the open file's. */
  ghost predicate Recording(cfg: Settings, segs: seq<Segment>, writer: Option<seq<Written>>, segStart: real,
                            segFrames: nat, ws: seq<Written>) {
    && SegmentsOk(cfg, segs)
    && match writer
       case None => segs == [] && ws == []
       case Some(content) =>
         && Contents(segs) + content == ws
         && Fits(cfg, segStart, content) && segFrames == |content|
         && (segs != [] ==> segs[|segs| - 1].end == segStart && segStart - segs[|segs| - 1].start >= cfg.segmentSeconds)
  }

  /** Writing a frame into the open file, or into a new one after closing the old. */
  lemma RecordFrame(cfg: Settings, segs: seq<Segment>, writer: Option<seq<Written>>, segStart: real, segFrames: nat,
                    ws: seq<Written>, w: Written)
    requires Recording(cfg, segs, writer, segStart, segFrames, ws)
    ensures writer.None? ==> Recording(cfg, segs, Some([w]), w.wall, 1, ws + [w])
    ensures writer.Some? && w.wall - segStart >= cfg.segmentSeconds ==>
              Recording(cfg, segs + [Segment(segStart, w.wall, segFrames, writer.value)], Some([w]), w.wall, 1,
                        ws + [w])
    ensures writer.Some? && w.wall - segStart < cfg.segmentSeconds ==>
              Recording(cfg, segs, Some(writer.value + [w]), segStart, segFrames + 1, ws + [w])
  {
    if writer.Some? {
      var closed := Segment(segStart, w.wall, segFrames, writer.value);
      ContentsSnoc(segs, closed);
      assert Contents(segs + [closed]) + [w] == ws + [w];
      assert Contents(segs) + (writer.value + [w]) == ws + [w];
    }
  }

  /** Closing the open file at the end of the loop. */
  lemma CloseLast(cfg: Settings, segs: seq<Segment>, writer: Option<seq<Written>>, segStart: real, segFrames: nat,
                  ws: seq<Written>, endWall: real)
    requires Recording(cfg, segs, writer, segStart, segFrames, ws)
    ensures writer.None? ==> segs == [] && Contents(segs) == ws && SegmentsOk(cfg, segs)
    ensures writer.Some? ==>
              var all := segs + [Segment(segStart, endWall, segFrames, writer.value)];
              segFrames > 0 && Contents(all) == ws && SegmentsOk(cfg, all)
  {
    if writer.Some? {
      ContentsSnoc(segs, Segment(segStart, endWall, segFrames, writer.value));
    }
  }

  // ----- Pre-roll -----

  /** Consecutive frames are at least `m` apart. */
  ghost predicate Spaced(ws: seq<Written>, m: real) {
    forall k :: 0 < k < |ws| ==> ws[k].mono - ws[k - 1].mono >= m
  }

  lemma {:induction false} WrittenSpaced(cfg: Settings, input: seq<Read>, n: nat)
    requires n <= |input| && cfg.recordFps > 0
    ensures Spaced(WrittenBy(cfg, input, n), MinInterval(cfg))
  {
    if n > 0 {
      WrittenSpaced(cfg, input, n - 1);
    }
  }

  lemma {:induction false} SpacedSpan(ws: seq<Written>, m: real, k: nat)
    requires Spaced(ws, m) && k < |ws|
    ensures ws[k].mono - ws[0].mono >= (k as real) * m
  {
    if k > 0 {
      SpacedSpan(ws, m, k - 1);
      assert ((k - 1) as real) * m + m == (k as real) * m;
    }
  }

  lemma SpacedPart(ws: seq<Written>, m: real, a: nat, b: nat)
    requires Spaced(ws, m) && a <= b <= |ws|
    ensures Spaced(ws[a..b], m)
  {
    forall k | 0 < k < b - a ensures ws[a..b][k].mono - ws[a..b][k - 1].mono >= m {
      assert ws[a..b][k] == ws[a + k] && ws[a..b][k - 1] == ws[a + k - 1];
    }
  }

  /** So no stretch of the recording holds more than `recordFps` frames a second, but for the first. */
  lemma RateBound(cfg: Settings, input: seq<Read>, n: nat, a: nat, b: nat)
    requires n <= |input| && cfg.recordFps > 0 && a <= b < |WrittenBy(cfg, input, n)|
    ensures var ws := WrittenBy(cfg, input, n);
            (b - a) as real <= (ws[b].mono - ws[a].mono) * (cfg.recordFps as real)
  {
    var ws, m, f := WrittenBy(cfg, input, n), MinInterval(cfg), cfg.recordFps as real;
    WrittenSpaced(cfg, input, n);
    IntervalIsRate(cfg, 0.0);
    hide MinInterval, WrittenBy, Spaced;
    SpacedPart(ws, m, a, b + 1);
    SpacedSpan(ws[a..b + 1], m, b - a);
    assert ws[a..b + 1][b - a] == ws[b] && ws[a..b + 1][0] == ws[a];
    FramesInSpan((b - a) as real, ws[b].mono - ws[a].mono, m, f);
  }

  lemma FramesInSpan(k: real, span: real, m: real, f: real)
    requires f > 0.0 && m * f == 1.0 && span >= k * m
    ensures k <= span * f
  {
    Scale(span, k * m, f);
    assert k * m * f == k * (m * f);
  }

  lemma SpacedLast(ws: seq<Written>, m: real, n: nat)
    requires Spaced(ws, m)
    ensures Spaced(LastN(ws, n), m)
  {
    var ring := LastN(ws, n);
    forall k | 0 < k < |ring| ensures ring[k].mono - ring[k - 1].mono >= m {
      var j := |ws| - |ring| + k;
      assert ring[k] == ws[j] && ring[k - 1] == ws[j - 1];
    }
  }

  /** A ring's footage spans at least its size minus one times m. */
  predicate Spans(ring: seq<Written>, m: real) {
    ring != [] ==> ring[|ring| - 1].mono - ring[0].mono >= ((|ring| - 1) as real) * m
  }

  lemma LastSpan(ws: seq<Written>, m: real, n: nat)
    requires Spaced(ws, m)
    ensures Spans(LastN(ws, n), m)
  {
    var ring := LastN(ws, n);
    SpacedLast(ws, m, n);
    if ring != [] {
      SpacedSpan(ring, m, |ring| - 1);
    }
  }

  /** Rings of every size span their footage at every moment if and only if consecutive frames are m apart. */
  lemma RingsSpanIff(ws: seq<Written>, m: real)
    ensures (forall k, n: nat :: 0 <= k <= |ws| ==> Spans(LastN(ws[..k], n), m)) <==> Spaced(ws, m)
  {
    hide Spans;
    if Spaced(ws, m) {
      forall k, n: nat | 0 <= k <= |ws| ensures Spans(LastN(ws[..k], n), m) {
        LastSpan(ws[..k], m, n);
      }
    }
    if forall k, n: nat :: 0 <= k <= |ws| ==> Spans(LastN(ws[..k], n), m) {
      forall k | 0 < k < |ws| ensures ws[k].mono - ws[k - 1].mono >= m {
        assert LastN(ws[..k + 1], 2) == [ws[k - 1], ws[k]];
        assert Spans(LastN(ws[..k + 1], 2), m);
        PairSpans(ws[k - 1], ws[k], m);
      }
    }
  }

  lemma PairSpans(a: Written, b: Written, m: real)
    requires Spans([a, b], m)
    ensures b.mono - a.mono >= m
  {
  }

  // ----- Reconnects -----

  /** One connection of the worker: its reads, when it was opened and when it ended. */
  datatype Session = Session(input: seq<Read>, startMono: real, endWall: real)

  function WrittenIn(cfg: Settings, s: Session): seq<Written>
    requires cfg.recordFps > 0
  {
    WrittenBy(cfg, s.input, Consumed(cfg, s.input, 0, s.startMono))
  }

  function WrittenOver(cfg: Settings, sessions: seq<Session>): seq<Written>
    requires cfg.recordFps > 0
  {
    if sessions == [] then []
    else WrittenOver(cfg, sessions[..|sessions| - 1]) + WrittenIn(cfg, sessions[|sessions| - 1])
  }

  /** Every read of a later connection comes at least m after every read of an earlier one. */
  ghost predicate Apart(sessions: seq<Session>, m: real) {
    forall a, b, i, j :: 0 <= a < b < |sessions| && 0 <= i < |sessions[a].input| && 0 <= j < |sessions[b].input| ==>
      sessions[b].input[j].mono - sessions[a].input[i].mono >= m
  }

  predicate ReadAt(input: seq<Read>, mono: real) {
    exists i :: 0 <= i < |input| && input[i].mono == mono
  }

  lemma {:induction false} WrittenAreRead(cfg: Settings, input: seq<Read>, n: nat)
    requires n <= |input| && cfg.recordFps > 0
    ensures forall k :: 0 <= k < |WrittenBy(cfg, input, n)| ==> ReadAt(input, WrittenBy(cfg, input, n)[k].mono)
  {
    hide MinInterval;
    if n > 0 {
      WrittenAreRead(cfg, input, n - 1);
      assert ReadAt(input, input[n - 1].mono);
    }
  }

  predicate ReadIn(sessions: seq<Session>, mono: real) {
    exists a :: 0 <= a < |sessions| && ReadAt(sessions[a].input, mono)
  }

  lemma {:induction false} WrittenOverAreRead(cfg: Settings, sessions: seq<Session>)
    requires cfg.recordFps > 0
    ensures forall k :: 0 <= k < |WrittenOver(cfg, sessions)| ==> ReadIn(sessions, WrittenOver(cfg, sessions)[k].mono)
  {
    hide MinInterval, ReadAt;
    if sessions != [] {
      var front, last := sessions[..|sessions| - 1], sessions[|sessions| - 1];
      WrittenOverAreRead(cfg, front);
      WrittenAreRead(cfg, last.input, Consumed(cfg, last.input, 0, last.startMono));
      forall mono | ReadIn(front, mono) ensures ReadIn(sessions, mono) {
        var a :| 0 <= a < |front| && ReadAt(front[a].input, mono);
        assert sessions[a] == front[a];
      }
      forall mono | ReadAt(last.input, mono) ensures ReadIn(sessions, mono) {
        assert sessions[|sessions| - 1] == last;
      }
    }
  }

  lemma SpacedConcatIff(a: seq<Written>, b: seq<Written>, m: real)
    ensures Spaced(a + b, m)
            <==> Spaced(a, m) && Spaced(b, m) && (a != [] && b != [] ==> b[0].mono - a[|a| - 1].mono >= m)
  {
    var c := a + b;
    if Spaced(c, m) {
      forall k | 0 < k < |a| ensures a[k].mono - a[k - 1].mono >= m {
        assert c[k] == a[k] && c[k - 1] == a[k - 1];
      }
      forall k | 0 < k < |b| ensures b[k].mono - b[k - 1].mono >= m {
        assert c[|a| + k] == b[k] && c[|a| + k - 1] == b[k - 1];
      }
      if a != [] && b != [] {
        assert c[|a|] == b[0] && c[|a| - 1] == a[|a| - 1];
      }
    }
  }

  /** The first frame written after each reconnect comes at least an interval after the last one before it. */
  ghost predicate GapsOk(cfg: Settings, sessions: seq<Session>)
    requires cfg.recordFps > 0
  {
    sessions == []
    || var front, last := sessions[..|sessions| - 1], sessions[|sessions| - 1];
       var a, b := WrittenOver(cfg, front), WrittenIn(cfg, last);
       GapsOk(cfg, front) && (a != [] && b != [] ==> b[0].mono - a[|a| - 1].mono >= MinInterval(cfg))
  }

  /** All the frames ever written are an interval apart if and only if the reconnect gaps are. */
  lemma {:induction false} WrittenOverSpacedIff(cfg: Settings, sessions: seq<Session>)
    requires cfg.recordFps > 0
    ensures Spaced(WrittenOver(cfg, sessions), MinInterval(cfg)) <==> GapsOk(cfg, sessions)
  {
    hide MinInterval, Spaced;
    if sessions == [] {
      NothingSpaced(MinInterval(cfg));
    } else {
      var front, last := sessions[..|sessions| - 1], sessions[|sessions| - 1];
      WrittenOverSpacedIff(cfg, front);
      WrittenSpaced(cfg, last.input, Consumed(cfg, last.input, 0, last.startMono));
      SpacedConcatIff(WrittenOver(cfg, front), WrittenIn(cfg, last), MinInterval(cfg));
    }
  }

  /** They are when the worker waits at least an interval before it reconnects. */
  lemma {:induction false} ApartGapsOk(cfg: Settings, sessions: seq<Session>)
    requires cfg.recordFps > 0 && Apart(sessions, MinInterval(cfg))
    ensures GapsOk(cfg, sessions)
  {
    hide MinInterval, ReadIn, ReadAt;
    if sessions != [] {
      var front, last := sessions[..|sessions| - 1], sessions[|sessions| - 1];
      var a, b := WrittenOver(cfg, front), WrittenIn(cfg, last);
      ApartGapsOk(cfg, front);
      if a != [] && b != [] {
        WrittenOverAreRead(cfg, front);
        WrittenAreRead(cfg, last.input, Consumed(cfg, last.input, 0, last.startMono));
        ReadsApart(sessions, MinInterval(cfg), a[|a| - 1].mono, b[0].mono);
      }
    }
  }

  /** The worker's ring spans its footage at every point of its life over any reconnects whose gaps are at least an
      interval; full, it holds at least its size minus one recording intervals. */
  lemma FullRingSpan(cfg: Settings, sessions: seq<Session>)
    requires cfg.recordFps > 0 && GapsOk(cfg, sessions)
    ensures var ring := LastN(WrittenOver(cfg, sessions), cfg.ringSize);
            && Spans(ring, MinInterval(cfg))
            && (|ring| == cfg.ringSize > 0 ==>
                  ring[|ring| - 1].mono - ring[0].mono >= ((cfg.ringSize - 1) as real) * MinInterval(cfg))
  {
    hide MinInterval, GapsOk, LastN, Spaced;
    WrittenOverSpacedIff(cfg, sessions);
    LastSpan(WrittenOver(cfg, sessions), MinInterval(cfg), cfg.ringSize);
  }

  lemma NothingSpaced(m: real)
    ensures Spaced([], m)
  {
  }

  lemma ReadsApart(sessions: seq<Session>, m: real, before: real, after: real)
    requires sessions != [] && Apart(sessions, m)
    requires ReadIn(sessions[..|sessions| - 1], before) && ReadAt(sessions[|sessions| - 1].input, after)
    ensures after - before >= m
  {
    var a :| 0 <= a < |sessions| - 1 && ReadAt(sessions[..|sessions| - 1][a].input, before);
    var i :| 0 <= i < |sessions[a].input| && sessions[a].input[i].mono == before;
    var b := |sessions| - 1;
    var j :| 0 <= j < |sessions[b].input| && sessions[b].input[j].mono == after;
  }

  lemma NoContents()
    ensures Contents([]) == []
  {
  }

  lemma {:induction false} ContentsConcat(a: seq<Segment>, b: seq<Segment>)
    ensures Contents(a + b) == Contents(a) + Contents(b)
  {
    hide Contents;
    if b == [] {
      NoContents();
      assert a + b == a && Contents(a) + [] == Contents(a);
    } else {
      var front, last := b[..|b| - 1], b[|b| - 1];
      ContentsConcat(a, front);
      ContentsSnoc(a + front, last);
      ContentsSnoc(front, last);
      assert a + b == (a + front) + [last] && b == front + [last];
      assert Contents(a) + (Contents(front) + last.content) == (Contents(a) + Contents(front)) + last.content;
    }
  }

  // ----- The loop -----

  lemma BeforeReads(cfg: Settings, input: seq<Read>)
    requires cfg.recordFps > 0
    ensures WrittenBy(cfg, input, 0) == [] && FailedReads(input, 0) == 0 && LastWritten([]) == 0.0
  {
  }

  lemma AppendLast(a: seq<Written>, b: seq<Written>, w: Written)
    ensures a + (b + [w]) == (a + b) + [w]
  {
  }

  lemma AfterReads(cfg: Settings, input: seq<Read>, lastOk: real)
    ensures Consumed(cfg, input, |input|, lastOk) == |input|
  {
  }

  /** What one read adds. */
  lemma OneRead(cfg: Settings, input: seq<Read>, i: nat, lastOk: real)
    requires i < |input| && cfg.recordFps > 0
    ensures var r, ws, after := input[i], WrittenBy(cfg, input, i), WrittenBy(cfg, input, i + 1);
            if r.frame.None? then
              && after == ws && FailedReads(input, i + 1) == FailedReads(input, i) + 1
              && Consumed(cfg, input, i, lastOk)
                 == if r.mono - lastOk > cfg.readTimeout then i + 1 else Consumed(cfg, input, i + 1, lastOk)
            else
              && FailedReads(input, i + 1) == FailedReads(input, i)
              && Consumed(cfg, input, i, lastOk) == Consumed(cfg, input, i + 1, r.mono)
              && after == (if r.mono - LastWritten(ws) < MinInterval(cfg) then ws
                    else ws + [Written(r.frame.value, r.mono, r.wall)])
              && (after != ws ==> LastWritten(after) == r.mono)
  {
    hide MinInterval;
  }

  class CameraWorker {
    const cfg: Settings
    /** The bounded deque of recently written frames; it outlives reconnects. */
    var ring: seq<Written>
    var decodeErrors: nat
    var framesTotal: nat
    /** Everything ever written to the ring. */
    ghost var history: seq<Written>

    ghost predicate Valid()
      reads this
    {
      cfg.recordFps > 0 && cfg.ringSize > 0 && ring == LastN(history, cfg.ringSize)
    }

    constructor (cfg: Settings)
      requires cfg.recordFps > 0 && cfg.ringSize > 0
      ensures Valid() && this.cfg == cfg && history == [] && decodeErrors == 0 && framesTotal == 0
    {
      this.cfg := cfg;
      ring, history, decodeErrors, framesTotal := [], [], 0, 0;
    }

    /** `deque.append` on the ring. */
    method Push(w: Written)
      requires Valid()
      modifies this`ring, this`history
      ensures Valid() && history == old(history) + [w]
    {
      LastNPush(history, w, cfg.ringSize);
      ring := ring + [w];
      if |ring| > cfg.ringSize {
        ring := ring[1..];
      }
      history := history + [w];
    }

    /** Writes a frame, after opening a new segment if needed. */
    method WriteFrame(segs0: seq<Segment>, writer0: Option<seq<Written>>, segStart0: real, segFrames0: nat,
                      w: Written, ghost ws: seq<Written>)
      returns (segs: seq<Segment>, writer: Option<seq<Written>>, segStart: real, segFrames: nat)
      requires Recording(cfg, segs0, writer0, segStart0, segFrames0, ws)
      ensures Recording(cfg, segs, writer, segStart, segFrames, ws + [w])
    {
      segs, writer, segStart, segFrames := segs0, writer0, segStart0, segFrames0;
      RecordFrame(cfg, segs, writer, segStart, segFrames, ws, w);
      hide Recording;
      if writer.None? || w.wall - segStart >= cfg.segmentSeconds {
        if writer.Some? {
          segs := segs + [Segment(segStart, w.wall, segFrames, writer.value)];
        }
        segStart, segFrames, writer := w.wall, 0, Some([]);
        assert [] + [w] == [w];
      }
      writer := Some(writer.value + [w]);
      segFrames := segFrames + 1;
    }

    /** What the loop does with a frame that is due. */
    method TakeFrame(segs0: seq<Segment>, writer0: Option<seq<Written>>, segStart0: real, segFrames0: nat, w: Written,
                     ghost ws: seq<Written>)
      returns (segs: seq<Segment>, writer: Option<seq<Written>>, segStart: real, segFrames: nat)
      requires Valid() && Recording(cfg, segs0, writer0, segStart0, segFrames0, ws)
      modifies this
      ensures Valid() && history == old(history) + [w]
      ensures framesTotal == old(framesTotal) + 1 && decodeErrors == old(decodeErrors)
      ensures Recording(cfg, segs, writer, segStart, segFrames, ws + [w])
    {
      hide Recording, LastN;
      segs, writer, segStart, segFrames := WriteFrame(segs0, writer0, segStart0, segFrames0, w, ws);
      Push(w);
      framesTotal := framesTotal + 1;
    }

    /** `_capture_loop` on reads that end with the stop event or the timeout, with no exception. Every frame
        written is in exactly one segment, in order. */
    method CaptureLoop(input: seq<Read>, startMono: real, endWall: real) returns (segs: seq<Segment>)
      requires Valid()
      modifies this
      ensures Valid()
      ensures var n := Consumed(cfg, input, 0, startMono);
              var ws := WrittenBy(cfg, input, n);
              && Contents(segs) == ws
              && history == old(history) + ws
              && framesTotal == old(framesTotal) + |ws|
              && decodeErrors == old(decodeErrors) + FailedReads(input, n)
      ensures SegmentsOk(cfg, segs)
      ensures segs != [] ==> segs[|segs| - 1].end == endWall
    {
      assert Recording(cfg, [], None, 0.0, 0, []);
      BeforeReads(cfg, input);
      hide MinInterval, SegmentsOk, Recording, LastN, WrittenBy, Consumed, FailedReads, LastWritten;
      var minInterval := MinInterval(cfg);
      var lastWritten, lastOk := 0.0, startMono;
      segs := [];
      // the open file, if any
      var writer: Option<seq<Written>> := None;
      var segStart, segFrames := 0.0, 0;
      var i, dead := 0, false;
      while i < |input| && !dead
        invariant 0 <= i <= |input| && Valid()
        invariant Consumed(cfg, input, 0, startMono) == if dead then i else Consumed(cfg, input, i, lastOk)
        invariant history == old(history) + WrittenBy(cfg, input, i)
        invariant framesTotal == old(framesTotal) + |WrittenBy(cfg, input, i)|
        invariant decodeErrors == old(decodeErrors) + FailedReads(input, i)
        invariant lastWritten == LastWritten(WrittenBy(cfg, input, i))
        invariant Recording(cfg, segs, writer, segStart, segFrames, WrittenBy(cfg, input, i))
      {
        var r := input[i];
        OneRead(cfg, input, i, lastOk);
        i := i + 1;
        if r.frame.None? {
          decodeErrors := decodeErrors + 1;
          if r.mono - lastOk > cfg.readTimeout {
            dead := true;
          }
          continue;
        }
        lastOk := r.mono;
        if r.mono - lastWritten < minInterval {
          continue;
        }
        lastWritten := r.mono;
        var w := Written(r.frame.value, r.mono, r.wall);
        ghost var before := WrittenBy(cfg, input, i - 1);
        segs, writer, segStart, segFrames := TakeFrame(segs, writer, segStart, segFrames, w, before);
        AppendLast(old(history), before, w);
      }
      CloseLast(cfg, segs, writer, segStart, segFrames, WrittenBy(cfg, input, i), endWall);
      assert Consumed(cfg, input, 0, startMono) == i by {
        AfterReads(cfg, input, lastOk);
      }
      if writer.Some? {
        if segFrames > 0 {
          segs := segs + [Segment(segStart, endWall, segFrames, writer.value)];
        }
      }
    }

    /** The worker's life over several connections. The ring outlives each of them: it holds the last frames ever
        written, and once full it spans at least its size minus one recording intervals, provided the
        reconnect gaps are at least an interval. */
    method RunSessions(sessions: seq<Session>) returns (segs: seq<Segment>)
      requires Valid() && history == []
      modifies this
      ensures Valid() && history == WrittenOver(cfg, sessions) && Contents(segs) == history
      ensures ring == LastN(WrittenOver(cfg, sessions), cfg.ringSize)
      ensures GapsOk(cfg, sessions) && |ring| == cfg.ringSize ==>
                ring[|ring| - 1].mono - ring[0].mono >= ((cfg.ringSize - 1) as real) * MinInterval(cfg)
    {
      hide MinInterval, SegmentsOk, GapsOk, LastN;
      segs := [];
      for i := 0 to |sessions|
        invariant Valid() && history == WrittenOver(cfg, sessions[..i]) && Contents(segs) == history
      {
        assert sessions[..i + 1][..i] == sessions[..i];
        var more := CaptureLoop(sessions[i].input, sessions[i].startMono, sessions[i].endWall);
        ContentsConcat(segs, more);
        segs := segs + more;
      }
      assert sessions[..|sessions|] == sessions;
      if GapsOk(cfg, sessions) {
        FullRingSpan(cfg, sessions);
      }
    }
  }
}
