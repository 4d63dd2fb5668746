/**
  What a start of the profiler settles, and what each line of a profile says
  (src/safegdscript/profiling_safegdscript.cpp:110-131, 160-173).
 */
module ProfilerStart {
  import opened FrameProfiler

  // ----- Right after the start

  lemma {:induction false} SameCountersNoLines(s: Script, cs: seq<Counters>, m: nat)
    requires m <= |cs|
    ensures Lines(s, Deltas(cs, cs), m) == []
  {
    if m > 0 {
      SameCountersNoLines(s, cs, m - 1);
    }
  }

  lemma NoPart(p: Piece, room: int)
    requires p.before == p.records
    ensures PartOf(p, room) == []
  {
    if room > 0 {
      SameCountersNoLines(p.script, p.records, Fitting(p.script, Deltas(p.records, p.before), |p.records|, room));
    }
  }

  lemma {:induction false} NothingListed(ps: seq<Piece>, part: Lister, max: int, k: nat)
    requires k <= |ps| && forall j, room: int :: 0 <= j < |ps| ==> part(ps[j], room) == []
    ensures Profile(ps, part, max, k) == []
  {
    if k > 0 {
      NothingListed(ps, part, max, k - 1);
      ProfileStep(ps, part, max, k - 1);
    }
  }

  lemma SnappedNoPart(table: map<Script, seq<Counters>>, reading: Reading, j: nat, room: int)
    requires j < |reading.order|
    ensures PartOf(PieceOf(reading, Snapped(table, reading, |reading.order|), reading.order[j]), room) == []
  {
    SnappedOf(table, reading, |reading.order|, reading.order[j]);
    assert reading.order[..|reading.order|] == reading.order;
    NoPart(PieceOf(reading, Snapped(table, reading, |reading.order|), reading.order[j]), room);
  }

  lemma SnappedShows(table: map<Script, seq<Counters>>, reading: Reading, max: int)
    ensures var ps := Pieces(reading, Snapped(table, reading, |reading.order|)); Profile(ps, PartOf, max, |ps|) == []
  {
    var ps := Pieces(reading, Snapped(table, reading, |reading.order|));
    NothingListed(ps, PartOf, max, |ps|) by {
      forall j, room: int | 0 <= j < |ps| ensures PartOf(ps[j], room) == [] {
        SnappedNoPart(table, reading, j, room);
      }
    }
  }

  /** Whatever the scripts did before the start is in neither profile: right after it both are empty, for any room. */
  lemma StartShowsNothing(st: State, reading: Reading, max: int)
    ensures var now := Do(st, Start(reading)).0;
      now.collecting && Do(now, FrameData(reading, max)).1 == [] && Do(now, AccumulatedData(reading, max)).1 == []
  {
    StartedFrame(st, reading, max);
    StartedBaseline(st, reading, max);
  }

  lemma StartedFrame(st: State, reading: Reading, max: int)
    ensures Do(Do(st, Start(reading)).0, FrameData(reading, max)).1 == []
  {
    SnappedShows(st.previous, reading, max);
    Lists(Do(st, Start(reading)).0, FrameData(reading, max));
  }

  lemma StartedBaseline(st: State, reading: Reading, max: int)
    ensures Do(Do(st, Start(reading)).0, AccumulatedData(reading, max)).1 == []
  {
    SnappedShows(st.baseline, reading, max);
    Lists(Do(st, Start(reading)).0, AccumulatedData(reading, max));
  }

  lemma Lists(st: State, op: Op)
    requires st.collecting && (op.FrameData? || op.AccumulatedData?)
    ensures var ps := Pieces(op.reading, BaseOf(st, op)); Do(st, op).1 == Profile(ps, PartOf, op.max, |ps|)
  {
  }

  /** And after a stop there is nothing in either, until the next start, and nothing is remembered from before. */
  lemma {:induction false} StoppedShowsNothing(st: State, ops: seq<Op>, op: Op)
    requires !op.Start? && forall k :: 0 <= k < |ops| ==> !ops[k].Start?
    ensures Run(Do(st, Stop).0, ops) == START && Do(START, op) == (START, [])
  {
    if ops != [] {
      StoppedShowsNothing(st, ops[..|ops| - 1], ops[|ops| - 1]);
    }
  }

  // ----- From the start on

  /** The counters that the last frame to reach the script read, or `first` if none did. */
  function LastRead(frames: seq<Frame>, first: seq<Counters>): seq<Counters> {
    if frames == [] then first
    else if Reached(frames[|frames| - 1]) then frames[|frames| - 1].read
    else LastRead(frames[..|frames| - 1], first)
  }

  lemma {:induction false} HistoryLastRead(frames: seq<Frame>, s: Script, n: nat, first: seq<Counters>, last: seq<Counters>)
    requires History(frames, s, n, first, last)
    ensures last == LastRead(frames, first)
  {
    if frames != [] {
      var f := frames[|frames| - 1];
      HistoryLastRead(frames[..|frames| - 1], s, n, first, f.before);
    }
  }

  /** After a start, from any state, both tables have what was read at it. */
  lemma StartTracks(st: State, reading: Reading, s: Script, n: nat)
    requires s in reading.order && |Of(reading.records, s)| == n
    ensures var now := Do(st, Start(reading)).0;
      && now.collecting
      && Tracked(now.previous, s, n) == Of(reading.records, s) && Tracked(now.baseline, s, n) == Of(reading.records, s)
  {
    SnappedOf(st.previous, reading, |reading.order|, s);
    SnappedOf(st.baseline, reading, |reading.order|, s);
    assert reading.order[..|reading.order|] == reading.order;
  }

  /**
    From a start on, whatever was before it, the calls that the frames show of a function come to the
    counter that the last of them read less the counter read at the start, exactly if no frame was cut
    at a new call of it.
   */
  lemma StartedCalls(st: State, reading: Reading, ops: seq<Op>, s: Script, n: nat, i: nat)
    requires s in reading.order && |Of(reading.records, s)| == n && i < n
    requires Session(Do(st, Start(reading)).0, ops, s, n)
    ensures var start := Of(reading.records, s); var frames := Frames(Do(st, Start(reading)).0, ops, s, n);
      && |LastRead(frames, start)| == n
      && (TotalCalls(frames, s, i) == LastRead(frames, start)[i].calls - start[i].calls <==> NoneCut(frames, s, i))
  {
    var now := Do(st, Start(reading)).0;
    var frames := Frames(now, ops, s, n);
    var last := Tracked(Run(now, ops).previous, s, n);
    StartTracks(st, reading, s, n);
    SessionHistory(now, ops, s, n);
    HistoryLastRead(frames, s, n, Of(reading.records, s), last);
    FramesTelescope(frames, s, n, Of(reading.records, s), last, i);
  }

  /** And the accumulated profile counts from that start, however many frames were taken in between. */
  lemma StartedAccumulated(st: State, reading: Reading, ops: seq<Op>, op: Op, s: Script, n: nat, i: nat)
    requires s in reading.order && |Of(reading.records, s)| == n && i < n
    requires Session(Do(st, Start(reading)).0, ops, s, n)
    requires op.AccumulatedData? && Distinct(op.reading.order) && AllAtMost(Of(reading.records, s), ReadOf(op, s))
    requires var whole := FrameOf(Run(Do(st, Start(reading)).0, ops), op, s, n); Reached(whole) && !Cut(whole, s, i)
    ensures var start, now := Of(reading.records, s)[i], ReadOf(op, s)[i]; var out := Do(Run(Do(st, Start(reading)).0, ops), op).1;
      && Calls(out, s, i) == now.calls - start.calls
      && SelfUs(out, s, i) == if now.calls == start.calls then 0 else (now.selfNs - start.selfNs) / 1000
  {
    var begun := Do(st, Start(reading)).0;
    StartTracks(st, reading, s, n);
    SessionHistory(begun, ops, s, n);
    AccumulatedExact(Run(begun, ops), op, s, n, i, Of(reading.records, s), ReadOf(op, s));
  }

  // ----- A line

  /** The line is of a function with new calls, and has its calls and both its times since they were remembered. */
  predicate Tells(p: Piece, line: Info) {
    && line.script == p.script && line.index < |p.records| == |p.before| && line.calls > 0
    && var now, before := p.records[line.index], p.before[line.index];
      && line.calls == (now.calls - before.calls) % U64_LIMIT
      && line.selfUs == (now.selfNs - before.selfNs) % U64_LIMIT / 1000
      && line.totalUs == (now.totalNs - before.totalNs) % U64_LIMIT / 1000
  }

  ghost predicate AllTell(p: Piece, lines: seq<Info>) { forall l :: 0 <= l < |lines| ==> Tells(p, lines[l]) }

  lemma LineForTells(p: Piece, i: nat)
    requires i < |p.records| == |p.before|
    ensures AllTell(p, LineFor(p.script, i, Delta(p.records[i], p.before[i])))
  {
  }

  lemma BothTell(p: Piece, a: seq<Info>, b: seq<Info>)
    requires AllTell(p, a) && AllTell(p, b)
    ensures AllTell(p, a + b)
  {
  }

  lemma {:induction false} LinesTell(p: Piece, m: nat)
    requires m <= |p.records| == |p.before|
    ensures AllTell(p, Lines(p.script, Deltas(p.records, p.before), m))
  {
    if m > 0 {
      var k := m - 1;
      LinesTell(p, k);
      LineForTells(p, k);
      BothTell(p, Lines(p.script, Deltas(p.records, p.before), k), LineFor(p.script, k, Delta(p.records[k], p.before[k])));
    }
  }

  lemma {:induction false} ProfileTells(ps: seq<Piece>, part: Lister, max: int, k: nat, l: nat) returns (j: nat)
    requires k <= |ps| && l < |Profile(ps, part, max, k)|
    requires forall p: Piece, room: int :: AllTell(p, part(p, room))
    ensures j < k && Tells(ps[j], Profile(ps, part, max, k)[l])
  {
    var out := Profile(ps, part, max, k - 1);
    ProfileStep(ps, part, max, k - 1);
    if l < |out| {
      j := ProfileTells(ps, part, max, k - 1, l);
    } else {
      j := k - 1;
      assert AllTell(ps[j], part(ps[j], max - |out|));
    }
  }

  /** Every line of every profile, of a frame or accumulated, is of a script that was read, and tells its growth. */
  lemma LineTells(st: State, op: Op, l: nat) returns (j: nat)
    requires (op.FrameData? || op.AccumulatedData?) && l < |Do(st, op).1|
    ensures j < |op.reading.order|
    ensures var s := op.reading.order[j]; var records := Of(op.reading.records, s);
      Tells(Piece(s, records, Tracked(BaseOf(st, op), s, |records|)), Do(st, op).1[l])
  {
    var ps := Pieces(op.reading, BaseOf(st, op));
    forall p: Piece, room: int ensures AllTell(p, PartOf(p, room)) {
      if room > 0 && |p.before| == |p.records| {
        LinesTell(p, Fitting(p.script, Deltas(p.records, p.before), |p.records|, room));
      }
    }
    j := ProfileTells(ps, PartOf, op.max, |ps|, l);
  }
}
