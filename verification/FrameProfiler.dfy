/**
  Per-frame and accumulated profiles from counters that only grow in the guest
  (src/safegdscript/profiling_safegdscript.cpp:96-138, 160-191).
 */
module FrameProfiler {

  const U64_LIMIT: nat := 0x1_0000_0000_0000_0000

  type U64 = x: nat | x < U64_LIMIT

  type Script = nat

  datatype Counters = Counters(calls: U64, selfNs: U64, totalNs: U64)

  const ZERO := Counters(0, 0, 0)

  /** One line of a profile: which function of which script, and what is shown for it. */
  datatype Info = Info(script: Script, index: nat, calls: nat, selfUs: nat, totalUs: nat)

  /** Unsigned 64-bit subtraction. */
  function Minus(a: U64, b: U64): U64 { (a - b) % U64_LIMIT }

  function Delta(now: Counters, before: Counters): Counters {
    Counters(Minus(now.calls, before.calls), Minus(now.selfNs, before.selfNs), Minus(now.totalNs, before.totalNs))
  }

  /** `vector::resize`. */
  function Resized(cs: seq<Counters>, n: nat): (r: seq<Counters>)
    ensures |r| == n
    ensures |cs| == n ==> r == cs
  {
    if n <= |cs| then cs[..n] else cs + seq(n - |cs|, _ => ZERO)
  }

  function Of(table: map<Script, seq<Counters>>, s: Script): seq<Counters> { if s in table then table[s] else [] }

  /** The counters read from each script that has any, in the order the scripts are visited. */
  datatype Reading = Reading(order: seq<Script>, records: map<Script, seq<Counters>>)

  ghost predicate Distinct(order: seq<Script>) {
    forall j, k :: 0 <= j < k < |order| ==> order[j] != order[k]
  }

  // ----- What a profile lists

  /** A function without a new call has no line. */
  function LineFor(s: Script, i: nat, d: Counters): seq<Info> {
    if d.calls == 0 then [] else [Info(s, i, d.calls, d.selfNs / 1000, d.totalNs / 1000)]
  }

  /** What each function's counters grew by. */
  function Deltas(now: seq<Counters>, before: seq<Counters>): (ds: seq<Counters>)
    requires |before| == |now|
    ensures |ds| == |now| && forall i :: 0 <= i < |ds| ==> ds[i] == Delta(now[i], before[i])
  {
    seq(|now|, i requires 0 <= i < |now| => Delta(now[i], before[i]))
  }

  /** The lines of the script's first `m` functions, in order. */
  function Lines(s: Script, ds: seq<Counters>, m: nat): seq<Info>
    requires m <= |ds|
  {
    if m == 0 then [] else Lines(s, ds, m - 1) + LineFor(s, m - 1, ds[m - 1])
  }

  /** The last function up to `n` for which there is still room. */
  function Fitting(s: Script, ds: seq<Counters>, n: nat, room: nat): (m: nat)
    requires n <= |ds|
    ensures m <= n
  {
    if n == 0 || |Lines(s, ds, n)| <= room then n else Fitting(s, ds, n - 1, room)
  }

  /** What there is to show of a script: its counters, and what was remembered of them. */
  datatype Piece = Piece(script: Script, records: seq<Counters>, before: seq<Counters>)

  /** The lines of a script for which there is room. */
  function Part(s: Script, ds: seq<Counters>, room: int): seq<Info> {
    if room <= 0 then [] else Lines(s, ds, Fitting(s, ds, |ds|, room))
  }

  function PartOf(p: Piece, room: int): seq<Info> {
    if |p.before| != |p.records| then [] else Part(p.script, Deltas(p.records, p.before), room)
  }

  function PieceOf(reading: Reading, base: map<Script, seq<Counters>>, s: Script): (p: Piece)
    ensures |p.before| == |p.records|
  {
    Piece(s, Of(reading.records, s), Resized(Of(base, s), |Of(reading.records, s)|))
  }

  function Pieces(reading: Reading, base: map<Script, seq<Counters>>): (ps: seq<Piece>)
    ensures |ps| == |reading.order|
    ensures forall k :: 0 <= k < |ps| ==> ps[k] == PieceOf(reading, base, reading.order[k])
  {
    seq(|reading.order|, k requires 0 <= k < |reading.order| => PieceOf(reading, base, reading.order[k]))
  }

  /**
    Which lines of a script a profile shows, given room for some. It is always PartOf, but the recursions
    over scripts take it as a parameter: that keeps PartOf folded in the proofs about them, which need of it
    only how many lines it gives and of which script.
   */
  type Lister = (Piece, int) -> seq<Info>

  ghost predicate Frugal(part: Lister) {
    forall p: Piece, room: int ::
      |part(p, room)| <= (if room < 0 then 0 else room) && (p.records == [] ==> part(p, room) == [])
  }

  /** What a profile shows after `k` scripts: of each the lines for which there is still room. */
  function Profile(ps: seq<Piece>, part: Lister, max: int, k: nat): seq<Info>
    requires k <= |ps|
  {
    if k == 0 then []
    else
      var out := Profile(ps, part, max, k - 1);
      out + part(ps[k - 1], max - |out|)
  }

  /** How many lines a script would have with all the room it wants. */
  function LineCount(p: Piece): nat {
    if |p.before| != |p.records| then 0 else |Lines(p.script, Deltas(p.records, p.before), |p.records|)|
  }

  /** How many lines the first `k` scripts want between them. */
  function Wanted(ps: seq<Piece>, count: Piece -> nat, k: nat): nat
    requires k <= |ps|
  {
    if k == 0 then 0 else Wanted(ps, count, k - 1) + count(ps[k - 1])
  }

  /** The turn of a script among those from `k` on, or the end if it has none. */
  function Turn(ps: seq<Piece>, s: Script, k: nat): (j: nat)
    requires k <= |ps|
    ensures k <= j <= |ps| && (j < |ps| ==> ps[j].script == s)
    ensures forall l :: k <= l < j ==> ps[l].script != s
    decreases |ps| - k
  {
    if k == |ps| || ps[k].script == s then k else Turn(ps, s, k + 1)
  }

  /** The room that the scripts visited before a script leave for it; none, or less, where they want it all. */
  function RoomFor(ps: seq<Piece>, count: Piece -> nat, max: int, s: Script): int { max - Wanted(ps, count, Turn(ps, s, 0)) }

  // ----- What is remembered

  /** The script at `k` is reached with room left, and has counters to read. */
  predicate VisitedAt(ps: seq<Piece>, part: Lister, max: int, k: nat)
    requires k < |ps|
  {
    |Profile(ps, part, max, k)| < max && ps[k].records != []
  }

  predicate Visited(ps: seq<Piece>, part: Lister, max: int, k: nat, s: Script)
    requires k <= |ps|
  {
    k > 0 && (Visited(ps, part, max, k - 1, s) || (ps[k - 1].script == s && VisitedAt(ps, part, max, k - 1)))
  }

  /** A snapshot table after a profile: a visited script has what was read (`replace`), or the size of it. */
  function Remembered(table: map<Script, seq<Counters>>, ps: seq<Piece>, part: Lister, max: int, k: nat, replace: bool)
    : map<Script, seq<Counters>>
    requires k <= |ps|
  {
    if k == 0 then table
    else
      var before := Remembered(table, ps, part, max, k - 1, replace);
      if !VisitedAt(ps, part, max, k - 1) then before
      else before[ps[k - 1].script := Refreshed(Of(before, ps[k - 1].script), ps[k - 1].records, replace)]
  }

  function Refreshed(entry: seq<Counters>, records: seq<Counters>, replace: bool): seq<Counters> {
    if replace then records else Resized(entry, |records|)
  }

  /** A snapshot table after profiling is started: every script that is visited has what was read. */
  function Snapped(table: map<Script, seq<Counters>>, reading: Reading, k: nat): map<Script, seq<Counters>>
    requires k <= |reading.order|
  {
    if k == 0 then table
    else Snapped(table, reading, k - 1)[reading.order[k - 1] := Of(reading.records, reading.order[k - 1])]
  }

  lemma {:induction false} SnappedOf(table: map<Script, seq<Counters>>, reading: Reading, k: nat, s: Script)
    requires k <= |reading.order|
    ensures Of(Snapped(table, reading, k), s) == if s in reading.order[..k] then Of(reading.records, s) else Of(table, s)
  {
    if k > 0 {
      SnappedOf(table, reading, k - 1, s);
      assert reading.order[..k] == reading.order[..k - 1] + [reading.order[k - 1]];
    }
  }

  // ----- The profiler as a value

  datatype State = State(collecting: bool, previous: map<Script, seq<Counters>>, baseline: map<Script, seq<Counters>>)

  const START := State(false, map[], map[])

  datatype Op =
    | Start(reading: Reading)
    | Stop
    | FrameData(reading: Reading, max: int)
    | AccumulatedData(reading: Reading, max: int)

  function Collected(st: State, reading: Reading, max: int, delta: bool): (State, seq<Info>) {
    var ps := Pieces(reading, if delta then st.previous else st.baseline);
    (st.(previous := Remembered(st.previous, ps, PartOf, max, |ps|, delta),
         baseline := Remembered(st.baseline, ps, PartOf, max, |ps|, false)),
     Profile(ps, PartOf, max, |ps|))
  }

  function Do(st: State, op: Op): (State, seq<Info>) {
    match op
    case Start(reading) =>
      (State(true, Snapped(st.previous, reading, |reading.order|), Snapped(st.baseline, reading, |reading.order|)), [])
    case Stop => (START, [])
    case FrameData(reading, max) => if st.collecting then Collected(st, reading, max, true) else (st, [])
    case AccumulatedData(reading, max) => if st.collecting then Collected(st, reading, max, false) else (st, [])
  }

  function Run(st: State, ops: seq<Op>): State {
    if ops == [] then st else Do(Run(st, ops[..|ops| - 1]), ops[|ops| - 1]).0
  }

  // ----- As it runs

  class Profiler {
    var collecting: bool
    var previous: map<Script, seq<Counters>>
    var baseline: map<Script, seq<Counters>>

    function View(): State
      reads this
    {
      State(collecting, previous, baseline)
    }

    constructor ()
      ensures View() == START
    {
      collecting, previous, baseline := false, map[], map[];
    }

    /** `_profiling_start`. */
    method StartProfiling(reading: Reading)
      modifies this
      ensures View() == Do(old(View()), Start(reading)).0
      ensures collecting
      ensures forall s :: s in reading.order ==> Of(previous, s) == Of(baseline, s) == Of(reading.records, s)
      ensures forall s :: s !in reading.order ==> Of(previous, s) == Of(old(previous), s) && Of(baseline, s) == Of(old(baseline), s)
    {
      collecting := true;
      for k := 0 to |reading.order|
        invariant collecting
        invariant previous == Snapped(old(previous), reading, k) && baseline == Snapped(old(baseline), reading, k)
      {
        var s := reading.order[k];
        previous := previous[s := Of(reading.records, s)];
        baseline := baseline[s := Of(reading.records, s)];
      }
      assert reading.order[..|reading.order|] == reading.order;
      forall s
        ensures Of(previous, s) == if s in reading.order then Of(reading.records, s) else Of(old(previous), s)
        ensures Of(baseline, s) == if s in reading.order then Of(reading.records, s) else Of(old(baseline), s)
      {
        SnappedOf(old(previous), reading, |reading.order|, s);
        SnappedOf(old(baseline), reading, |reading.order|, s);
      }
    }

    /** `_profiling_stop`. */
    method StopProfiling()
      modifies this
      ensures View() == START
    {
      collecting, previous, baseline := false, map[], map[];
    }

    /** `_profiling_get_frame_data`. */
    method GetFrameData(reading: Reading, max: int) returns (out: seq<Info>)
      requires Distinct(reading.order)
      modifies this
      ensures (View(), out) == Do(old(View()), FrameData(reading, max))
    {
      if !collecting {
        return [];
      }
      out := Collect(reading, max, true);
    }

    /** `_profiling_get_accumulated_data`. */
    method GetAccumulatedData(reading: Reading, max: int) returns (out: seq<Info>)
      requires Distinct(reading.order)
      modifies this
      ensures (View(), out) == Do(old(View()), AccumulatedData(reading, max))
    {
      if !collecting {
        return [];
      }
      out := Collect(reading, max, false);
    }

    /**
      `collect`: the lines of all scripts in order, cut where the room runs out; the snapshots of the
      scripts reached before that are replaced for a frame and only resized for the accumulated profile.
     */
    method Collect(reading: Reading, max: int, delta: bool) returns (out: seq<Info>)
      requires Distinct(reading.order)
      modifies this
      ensures (View(), out) == Collected(old(View()), reading, max, delta)
      ensures |out| <= if max < 0 then 0 else max
    {
      PartIsFrugal();
      if max <= 0 {
        ghost var ps := Pieces(reading, if delta then previous else baseline);
        NoRoom(previous, ps, PartOf, max, |ps|, delta);
        NoRoom(baseline, ps, PartOf, max, |ps|, false);
        return [];
      }
      out := CollectAll(reading, max, delta, PartOf);
    }

    /** The loop over the scripts. */
    method CollectAll(reading: Reading, max: int, delta: bool, ghost part: Lister) returns (out: seq<Info>)
      requires Distinct(reading.order) && Frugal(part) && max > 0
      requires forall p: Piece, room: int {:trigger PartOf(p, room)} :: part(p, room) == PartOf(p, room)
      modifies this`previous, this`baseline
      ensures |out| <= max
      ensures var ps := Pieces(reading, if delta then old(previous) else old(baseline));
        && out == Profile(ps, part, max, |ps|)
        && previous == Remembered(old(previous), ps, part, max, |ps|, delta)
        && baseline == Remembered(old(baseline), ps, part, max, |ps|, false)
    {
      out := [];
      ghost var ps := Pieces(reading, if delta then previous else baseline);
      PiecesDistinct(reading, if delta then previous else baseline);
      for k := 0 to |reading.order|
        invariant |out| <= max && out == Profile(ps, part, max, k)
        invariant previous == Remembered(old(previous), ps, part, max, k, delta)
        invariant baseline == Remembered(old(baseline), ps, part, max, k, false)
      {
        var s := reading.order[k];
        var records := Of(reading.records, s);
        ghost var p := ps[k];
        assert p.script == s && p.records == records;
        if |out| >= max || records == [] {
          Passed(ps, part, max, k);
          continue;
        }
        Next(old(previous), old(baseline), ps, part, delta, max, k, out, previous, baseline);
        out := VisitScript(out, s, records, max, delta, p, part);
      }
    }

    /** The body of the loop for a script that is reached with room left. */
    method VisitScript(out: seq<Info>, s: Script, records: seq<Counters>, max: int, delta: bool, ghost p: Piece, ghost part: Lister)
      returns (longer: seq<Info>)
      requires |out| < max && p == Piece(s, records, Resized(Of(if delta then previous else baseline, s), |records|))
      requires forall p: Piece, room: int {:trigger PartOf(p, room)} :: part(p, room) == PartOf(p, room)
      modifies this`previous, this`baseline
      ensures previous == old(previous)[s := Refreshed(Of(old(previous), s), records, delta)]
      ensures baseline == old(baseline)[s := Refreshed(Of(old(baseline), s), records, false)]
      ensures longer == out + part(p, max - |out|)
      ensures |longer| <= max
    {
      UpdatedTwice(previous, s, Resized(Of(previous, s), |records|), records);
      previous := previous[s := Resized(Of(previous, s), |records|)];
      baseline := baseline[s := Resized(Of(baseline, s), |records|)];
      assert part(p, max - |out|) == PartOf(p, max - |out|);
      ghost var m;
      longer, m := CollectScript(out, s, records, if delta then previous[s] else baseline[s], max);
      if delta {
        previous := previous[s := records];
      }
    }
  }

  lemma PartIsFrugal()
    ensures Frugal(PartOf)
  {
    forall p: Piece, room: int
      ensures |PartOf(p, room)| <= (if room < 0 then 0 else room) && (p.records == [] ==> PartOf(p, room) == [])
    {
      if room > 0 && |p.before| == |p.records| {
        PartBound(p.script, Deltas(p.records, p.before), room);
      }
    }
  }

  /** What the next script, if it is visited, makes of a profile and of the two tables. */
  lemma Next(
    previous: map<Script, seq<Counters>>, baseline: map<Script, seq<Counters>>, ps: seq<Piece>, part: Lister, delta: bool,
    max: int, k: nat, out: seq<Info>, was: map<Script, seq<Counters>>, wasBase: map<Script, seq<Counters>>)
    requires NoRepeats(ps) && k < |ps| && VisitedAt(ps, part, max, k) && out == Profile(ps, part, max, k)
    requires was == Remembered(previous, ps, part, max, k, delta) && wasBase == Remembered(baseline, ps, part, max, k, false)
    ensures var p := ps[k];
      && Of(was, p.script) == Of(previous, p.script) && Of(wasBase, p.script) == Of(baseline, p.script)
      && Profile(ps, part, max, k + 1) == out + part(p, max - |out|)
      && Remembered(previous, ps, part, max, k + 1, delta) == was[p.script := Refreshed(Of(was, p.script), p.records, delta)]
      && Remembered(baseline, ps, part, max, k + 1, false) == wasBase[p.script := Refreshed(Of(wasBase, p.script), p.records, false)]
  {
    ProfileStep(ps, part, max, k);
    RememberedStep(previous, ps, part, max, k, delta);
    RememberedStep(baseline, ps, part, max, k, false);
  }

  predicate NoRepeats(ps: seq<Piece>) { forall j, k :: 0 <= j < k < |ps| ==> ps[j].script != ps[k].script }

  lemma ProfileStep(ps: seq<Piece>, part: Lister, max: int, k: nat)
    requires k < |ps|
    ensures var out := Profile(ps, part, max, k); Profile(ps, part, max, k + 1) == out + part(ps[k], max - |out|)
  {
  }

  /** A script that is not visited adds nothing, there being no room or nothing to show; and it is remembered as before. */
  lemma Passed(ps: seq<Piece>, part: Lister, max: int, k: nat)
    requires Frugal(part) && k < |ps| && !VisitedAt(ps, part, max, k)
    ensures Profile(ps, part, max, k + 1) == Profile(ps, part, max, k)
    ensures forall table, replace :: Remembered(table, ps, part, max, k + 1, replace) == Remembered(table, ps, part, max, k, replace)
  {
    var out := Profile(ps, part, max, k);
    ProfileStep(ps, part, max, k);
    assert part(ps[k], max - |out|) == [];
    assert out + [] == out;
  }

  lemma {:induction false} NoRoom(table: map<Script, seq<Counters>>, ps: seq<Piece>, part: Lister, max: int, k: nat, replace: bool)
    requires Frugal(part) && max <= 0 && k <= |ps|
    ensures Profile(ps, part, max, k) == [] && Remembered(table, ps, part, max, k, replace) == table
  {
    if k > 0 {
      NoRoom(table, ps, part, max, k - 1, replace);
    }
  }

  lemma UpdatedTwice(table: map<Script, seq<Counters>>, s: Script, a: seq<Counters>, b: seq<Counters>)
    ensures table[s := a][s := b] == table[s := b]
  {
  }

  /** A script that is visited has not been before, so its entry is still what it was. */
  lemma RememberedStep(table: map<Script, seq<Counters>>, ps: seq<Piece>, part: Lister, max: int, k: nat, replace: bool)
    requires NoRepeats(ps) && k < |ps| && VisitedAt(ps, part, max, k)
    ensures var s := ps[k].script; var before := Remembered(table, ps, part, max, k, replace);
      && Of(before, s) == Of(table, s)
      && Remembered(table, ps, part, max, k + 1, replace) == before[s := Refreshed(Of(table, s), ps[k].records, replace)]
  {
    NotYetVisited(ps, part, max, k, ps[k].script);
    NotRemembered(table, ps, part, max, k, replace, ps[k].script);
  }

  lemma {:induction false} NotYetVisited(ps: seq<Piece>, part: Lister, max: int, k: nat, s: Script)
    requires k <= |ps| && forall j :: 0 <= j < k ==> ps[j].script != s
    ensures !Visited(ps, part, max, k, s)
  {
    if k > 0 {
      NotYetVisited(ps, part, max, k - 1, s);
    }
  }

  lemma {:induction false} NotRemembered(
    table: map<Script, seq<Counters>>, ps: seq<Piece>, part: Lister, max: int, k: nat, replace: bool, s: Script)
    requires k <= |ps| && !Visited(ps, part, max, k, s)
    ensures Of(Remembered(table, ps, part, max, k, replace), s) == Of(table, s)
  {
    if k > 0 {
      NotRemembered(table, ps, part, max, k - 1, replace, s);
    }
  }

  /** What a table has for a visited script afterwards depends only on what it had and what was read. */
  lemma {:induction false} RememberedOf(
    table: map<Script, seq<Counters>>, ps: seq<Piece>, part: Lister, max: int, k: nat, replace: bool, j: nat)
    requires NoRepeats(ps) && j < k <= |ps| && Visited(ps, part, max, k, ps[j].script)
    ensures Of(Remembered(table, ps, part, max, k, replace), ps[j].script) == Refreshed(Of(table, ps[j].script), ps[j].records, replace)
  {
    if j == k - 1 {
      NotYetVisited(ps, part, max, j, ps[j].script);
      RememberedStep(table, ps, part, max, j, replace);
    } else {
      RememberedOf(table, ps, part, max, k - 1, replace, j);
    }
  }

  lemma {:induction false} LinesPrefix(s: Script, ds: seq<Counters>, i: nat, m: nat)
    requires i <= m <= |ds|
    ensures Lines(s, ds, i) <= Lines(s, ds, m)
  {
    if i < m {
      LinesPrefix(s, ds, i, m - 1);
    }
  }

  /** Where the room is used up, or the functions, there is nothing more to fit. */
  lemma {:induction false} FittingStop(s: Script, ds: seq<Counters>, n: nat, m: nat, room: nat)
    requires m <= n <= |ds| && |Lines(s, ds, m)| <= room && (m < n ==> |Lines(s, ds, m)| == room)
    ensures Lines(s, ds, Fitting(s, ds, n, room)) == Lines(s, ds, m)
  {
    if m < n {
      LinesPrefix(s, ds, m, n);
      if |Lines(s, ds, n)| > room {
        FittingStop(s, ds, n - 1, m, room);
      }
    }
  }

  /** The lines are of this script, and of ever later functions among the first `m`. */
  predicate InOrder(lines: seq<Info>, s: Script, m: nat) {
    && (forall j :: 0 <= j < |lines| ==> lines[j].script == s && lines[j].index < m)
    && forall j, k :: 0 <= j < k < |lines| ==> lines[j].index < lines[k].index
  }

  lemma {:induction false} LinesInOrder(s: Script, ds: seq<Counters>, m: nat)
    requires m <= |ds|
    ensures InOrder(Lines(s, ds, m), s, m)
  {
    if m > 0 {
      LinesInOrder(s, ds, m - 1);
      InOrderPush(Lines(s, ds, m - 1), s, m - 1, ds[m - 1]);
    }
  }

  lemma InOrderPush(lines: seq<Info>, s: Script, m: nat, d: Counters)
    requires InOrder(lines, s, m)
    ensures InOrder(lines + LineFor(s, m, d), s, m + 1)
  {
  }

  /**
    The inner loop: one script's functions in order, those without a new call left out. `m` is where it
    stops, which is the end unless the room has run out.
   */
  method CollectScript(out: seq<Info>, s: Script, records: seq<Counters>, base: seq<Counters>, max: int)
    returns (longer: seq<Info>, ghost m: nat)
    requires |base| == |records| && |out| < max
    ensures m <= |records| && longer == out + Lines(s, Deltas(records, base), m)
    ensures InOrder(longer[|out|..], s, m)
    ensures |longer| <= max && (m < |records| ==> |longer| == max)
    ensures longer == out + Part(s, Deltas(records, base), max - |out|)
  {
    longer := out;
    ghost var ds := Deltas(records, base);
    var i := 0;
    while i < |records| && |longer| < max
      invariant i <= |records| && |longer| <= max
      invariant longer == out + Lines(s, ds, i)
    {
      var shown := Delta(records[i], base[i]);
      assert shown == ds[i];
      if shown.calls != 0 {
        longer := longer + [Info(s, i, shown.calls, shown.selfNs / 1000, shown.totalNs / 1000)];
      }
      i := i + 1;
    }
    m := i;
    StoppedAt(out, longer, s, ds, i, max);
  }

  /** What the loop has written when it stops. */
  lemma StoppedAt(out: seq<Info>, longer: seq<Info>, s: Script, ds: seq<Counters>, i: nat, max: int)
    requires i <= |ds| && |out| < max && longer == out + Lines(s, ds, i) && |longer| <= max && (i < |ds| ==> |longer| == max)
    ensures longer == out + Part(s, ds, max - |out|)
    ensures InOrder(longer[|out|..], s, i)
  {
    PartStops(s, ds, i, max - |out|);
    LinesInOrder(s, ds, i);
    assert longer[|out|..] == Lines(s, ds, i);
  }

  lemma PartStops(s: Script, ds: seq<Counters>, i: nat, room: nat)
    requires room > 0 && i <= |ds| && |Lines(s, ds, i)| <= room && (i < |ds| ==> |Lines(s, ds, i)| == room)
    ensures Part(s, ds, room) == Lines(s, ds, i)
  {
    FittingStop(s, ds, |ds|, i, room);
  }

  // ----- What a profile says about a function

  function Calls(out: seq<Info>, s: Script, i: nat): nat { CallsUpTo(out, |out|, s, i) }

  function SelfUs(out: seq<Info>, s: Script, i: nat): nat { SelfUsUpTo(out, |out|, s, i) }

  /** Summed over the first `n` lines. */
  function CallsUpTo(out: seq<Info>, n: nat, s: Script, i: nat): nat
    requires n <= |out|
  {
    if n == 0 then 0
    else CallsUpTo(out, n - 1, s, i) + if out[n - 1].script == s && out[n - 1].index == i then out[n - 1].calls else 0
  }

  function SelfUsUpTo(out: seq<Info>, n: nat, s: Script, i: nat): nat
    requires n <= |out|
  {
    if n == 0 then 0
    else SelfUsUpTo(out, n - 1, s, i) + if out[n - 1].script == s && out[n - 1].index == i then out[n - 1].selfUs else 0
  }

  lemma {:induction false} SameUpTo(a: seq<Info>, b: seq<Info>, n: nat, s: Script, i: nat)
    requires n <= |a|
    ensures CallsUpTo(a + b, n, s, i) == CallsUpTo(a, n, s, i)
    ensures SelfUsUpTo(a + b, n, s, i) == SelfUsUpTo(a, n, s, i)
  {
    if n > 0 {
      SameUpTo(a, b, n - 1, s, i);
    }
  }

  lemma {:induction false} PastUpTo(a: seq<Info>, b: seq<Info>, n: nat, s: Script, i: nat)
    requires n <= |b|
    ensures CallsUpTo(a + b, |a| + n, s, i) == Calls(a, s, i) + CallsUpTo(b, n, s, i)
    ensures SelfUsUpTo(a + b, |a| + n, s, i) == SelfUs(a, s, i) + SelfUsUpTo(b, n, s, i)
  {
    if n == 0 {
      SameUpTo(a, b, |a|, s, i);
    } else {
      PastUpTo(a, b, n - 1, s, i);
      assert (a + b)[|a| + n - 1] == b[n - 1];
    }
  }

  lemma CallsConcat(a: seq<Info>, b: seq<Info>, s: Script, i: nat)
    ensures Calls(a + b, s, i) == Calls(a, s, i) + Calls(b, s, i)
    ensures SelfUs(a + b, s, i) == SelfUs(a, s, i) + SelfUs(b, s, i)
  {
    PastUpTo(a, b, |b|, s, i);
  }

  /** Function `i` of the script is shown in full; with no new call it is not shown, and its time is dropped. */
  ghost predicate InFull(out: seq<Info>, s: Script, i: nat, d: Counters) {
    Calls(out, s, i) == d.calls && SelfUs(out, s, i) == if d.calls == 0 then 0 else d.selfNs / 1000
  }

  ghost predicate NotAtAll(out: seq<Info>, s: Script, i: nat) {
    Calls(out, s, i) == 0 && SelfUs(out, s, i) == 0
  }

  /** The script's functions below `m` are in full, those from `m` on not at all. */
  ghost predicate ShownUpTo(out: seq<Info>, s: Script, now: seq<Counters>, before: seq<Counters>, m: nat)
    requires |before| == |now|
  {
    && m <= |now|
    && (forall i :: 0 <= i < m ==> InFull(out, s, i, Delta(now[i], before[i])))
    && forall i :: m <= i ==> NotAtAll(out, s, i)
  }

  ghost predicate ScriptAbsent(out: seq<Info>, s: Script) { forall i :: NotAtAll(out, s, i) }

  lemma {:induction false} LinesShow(s: Script, ds: seq<Counters>, m: nat, t: Script, i: nat)
    requires m <= |ds|
    ensures if t == s && i < m then InFull(Lines(s, ds, m), s, i, ds[i]) else NotAtAll(Lines(s, ds, m), t, i)
  {
    if m > 0 {
      LinesShow(s, ds, m - 1, t, i);
      LineAdds(Lines(s, ds, m - 1), s, m - 1, ds[m - 1], t, i);
    }
  }

  lemma LineAdds(lines: seq<Info>, s: Script, m: nat, d: Counters, t: Script, i: nat)
    ensures var more := lines + LineFor(s, m, d);
      if t == s && i == m then NotAtAll(lines, s, m) ==> InFull(more, s, m, d)
      else Calls(more, t, i) == Calls(lines, t, i) && SelfUs(more, t, i) == SelfUs(lines, t, i)
  {
    var line := LineFor(s, m, d);
    CallsConcat(lines, line, t, i);
    assert CallsUpTo(line, 0, t, i) == 0 && SelfUsUpTo(line, 0, t, i) == 0;
  }

  /** What fits ends at a function, and fills the room if that is not the last. */
  lemma {:induction false} FittingFills(s: Script, ds: seq<Counters>, n: nat, room: nat)
    requires n <= |ds|
    ensures |Lines(s, ds, Fitting(s, ds, n, room))| <= room
    ensures Fitting(s, ds, n, room) < n ==> |Lines(s, ds, Fitting(s, ds, n, room))| == room
  {
    if n > 0 && |Lines(s, ds, n)| > room {
      FittingFills(s, ds, n - 1, room);
    }
  }

  lemma PartBound(s: Script, ds: seq<Counters>, room: nat)
    ensures |Part(s, ds, room)| <= room
  {
    FittingFills(s, ds, |ds|, room);
  }

  /** A function is below the cut exactly when there is room for the lines up to it. */
  lemma {:induction false} FittingReaches(s: Script, ds: seq<Counters>, n: nat, room: nat, i: nat)
    requires i < n <= |ds|
    ensures i < Fitting(s, ds, n, room) <==> |Lines(s, ds, i + 1)| <= room
  {
    if |Lines(s, ds, n)| <= room {
      LinesPrefix(s, ds, i + 1, n);
    } else {
      assert Fitting(s, ds, n, room) == Fitting(s, ds, n - 1, room);
      if i < n - 1 {
        FittingReaches(s, ds, n - 1, room, i);
      }
    }
  }

  /** How much of what is wanted there is room for. */
  function Clip(wanted: nat, room: int): nat { if room <= 0 then 0 else if wanted <= room then wanted else room }

  lemma PartCount(p: Piece, room: int)
    ensures |PartOf(p, room)| == Clip(LineCount(p), room)
  {
    if room > 0 && |p.before| == |p.records| {
      var ds := Deltas(p.records, p.before);
      FittingFills(p.script, ds, |ds|, room);
      LinesPrefix(p.script, ds, Fitting(p.script, ds, |ds|, room), |ds|);
    }
  }

  ghost predicate Filling(part: Lister, count: Piece -> nat) {
    forall p: Piece, room: int :: |part(p, room)| == Clip(count(p), room)
  }

  /** A profile has as many lines as are wanted, or as there is room for. */
  lemma {:induction false} ProfileLength(ps: seq<Piece>, part: Lister, count: Piece -> nat, max: nat, k: nat)
    requires Filling(part, count) && k <= |ps|
    ensures |Profile(ps, part, max, k)| == Clip(Wanted(ps, count, k), max)
  {
    if k > 0 {
      ProfileLength(ps, part, count, max, k - 1);
    }
  }

  /** The lines of one script that fit, added to lines that have none of it. */
  lemma OwnLines(out: seq<Info>, s: Script, now: seq<Counters>, before: seq<Counters>, room: nat)
    requires |before| == |now| && room > 0 && ScriptAbsent(out, s)
    ensures var ds := Deltas(now, before);
      ShownUpTo(out + Part(s, ds, room), s, now, before, Fitting(s, ds, |ds|, room))
  {
    var ds := Deltas(now, before);
    var m := Fitting(s, ds, |ds|, room);
    var longer := out + Lines(s, ds, m);
    forall i: nat
      ensures i < m ==> InFull(longer, s, i, ds[i])
      ensures m <= i ==> NotAtAll(longer, s, i)
    {
      CallsConcat(out, Lines(s, ds, m), s, i);
      LinesShow(s, ds, m, s, i);
      assert NotAtAll(out, s, i);
    }
  }

  lemma AbsentFromPart(p: Piece, room: int, t: Script)
    requires t != p.script
    ensures ScriptAbsent(PartOf(p, room), t)
  {
    if room <= 0 || |p.before| != |p.records| {
      NothingShown(t);
    } else {
      var ds := Deltas(p.records, p.before);
      var m := Fitting(p.script, ds, |ds|, room);
      forall i ensures NotAtAll(Lines(p.script, ds, m), t, i) {
        LinesShow(p.script, ds, m, t, i);
      }
    }
  }

  /**
    What a profile says of a script that has `room` when its turn comes: with room and something to read,
    its functions up to the last that fits, and nothing otherwise.
   */
  ghost predicate Shows(out: seq<Info>, s: Script, now: seq<Counters>, before: seq<Counters>, room: int)
    requires now != [] ==> |before| == |now|
  {
    if room > 0 && now != [] then ShownUpTo(out, s, now, before, Fitting(s, Deltas(now, before), |now|, room))
    else ScriptAbsent(out, s)
  }

  /** The lines added for another script change nothing for this one. */
  lemma OtherLines(out: seq<Info>, more: seq<Info>, s: Script, now: seq<Counters>, before: seq<Counters>, room: int)
    requires (now != [] ==> |before| == |now|) && Shows(out, s, now, before, room) && ScriptAbsent(more, s)
    ensures Shows(out + more, s, now, before, room)
  {
    forall i: nat ensures Calls(out + more, s, i) == Calls(out, s, i) && SelfUs(out + more, s, i) == SelfUs(out, s, i) {
      CallsConcat(out, more, s, i);
      assert NotAtAll(more, s, i);
    }
    if room > 0 && now != [] {
      ShownStill(out, out + more, s, now, before, Fitting(s, Deltas(now, before), |now|, room));
    } else {
      forall i: nat ensures NotAtAll(out + more, s, i) {
        assert NotAtAll(out, s, i);
      }
    }
  }

  lemma ShownStill(out: seq<Info>, longer: seq<Info>, s: Script, now: seq<Counters>, before: seq<Counters>, m: nat)
    requires |before| == |now| && ShownUpTo(out, s, now, before, m)
    requires forall i: nat :: Calls(longer, s, i) == Calls(out, s, i) && SelfUs(longer, s, i) == SelfUs(out, s, i)
    ensures ShownUpTo(longer, s, now, before, m)
  {
    forall i: nat | i < m ensures InFull(longer, s, i, Delta(now[i], before[i])) {
      assert InFull(out, s, i, Delta(now[i], before[i]));
    }
    forall i: nat | m <= i ensures NotAtAll(longer, s, i) {
      assert NotAtAll(out, s, i);
    }
  }

  lemma {:induction false} ProfileBound(ps: seq<Piece>, part: Lister, max: int, k: nat)
    requires Frugal(part) && k <= |ps| && max >= 0
    ensures |Profile(ps, part, max, k)| <= max
  {
    if k > 0 {
      ProfileBound(ps, part, max, k - 1);
    }
  }

  lemma OwnPiece(out: seq<Info>, p: Piece, room: int)
    requires |p.before| == |p.records| && ScriptAbsent(out, p.script)
    ensures Shows(out + PartOf(p, room), p.script, p.records, p.before, room)
  {
    if room > 0 && p.records != [] {
      OwnLines(out, p.script, p.records, p.before, room);
    } else {
      assert PartOf(p, room) == [];
      assert out + [] == out;
    }
  }

  /** The pieces from `from` on say nothing new of a script that is none of theirs. */
  lemma {:induction false} LaterPieces(
    ps: seq<Piece>, part: Lister, max: int, from: nat, k: nat, s: Script, now: seq<Counters>, before: seq<Counters>, room: int)
    requires from <= k <= |ps| && forall l :: from <= l < k ==> ps[l].script != s
    requires forall p: Piece, room: int :: p.script != s ==> ScriptAbsent(part(p, room), s)
    requires (now != [] ==> |before| == |now|) && Shows(Profile(ps, part, max, from), s, now, before, room)
    ensures Shows(Profile(ps, part, max, k), s, now, before, room)
  {
    if from < k {
      var i := k - 1;
      var out := Profile(ps, part, max, i);
      LaterPieces(ps, part, max, from, i, s, now, before, room);
      ProfileStep(ps, part, max, i);
      OtherLines(out, part(ps[i], max - |out|), s, now, before, room);
    }
  }

  /** A profile shows a script only by the piece at its turn, and nothing of a script without one. */
  lemma PieceShows(ps: seq<Piece>, part: Lister, max: int, j: nat, s: Script, now: seq<Counters>, before: seq<Counters>, room: int)
    requires j <= |ps| && forall l :: 0 <= l < |ps| && l != j ==> ps[l].script != s
    requires forall p: Piece, room: int :: p.script != s ==> ScriptAbsent(part(p, room), s)
    requires (now != [] ==> |before| == |now|) && (j == |ps| ==> now == [])
    requires var out := Profile(ps, part, max, j);
      j < |ps| ==> ScriptAbsent(out, s) ==> Shows(out + part(ps[j], max - |out|), s, now, before, room)
    ensures Shows(Profile(ps, part, max, |ps|), s, now, before, room)
  {
    NothingShown(s);
    LaterPieces(ps, part, max, 0, j, s, [], [], 0);
    if j < |ps| {
      ProfileStep(ps, part, max, j);
      LaterPieces(ps, part, max, j + 1, |ps|, s, now, before, room);
    }
  }

  lemma {:induction false} VisitedOnce(ps: seq<Piece>, part: Lister, max: int, k: nat, j: nat)
    requires NoRepeats(ps) && j < k <= |ps|
    ensures Visited(ps, part, max, k, ps[j].script) <==> VisitedAt(ps, part, max, j)
  {
    if j < k - 1 {
      VisitedOnce(ps, part, max, k - 1, j);
    } else {
      NotYetVisited(ps, part, max, j, ps[j].script);
    }
  }

  lemma NothingShown(s: Script)
    ensures ScriptAbsent([], s)
  {
    forall i ensures NotAtAll([], s, i) {}
  }

  // ----- Over many frames

  /**
    One script in one profile: the room there was for it, what was read of it, and what was remembered of
    it before; and what came out.
   */
  datatype Frame = Frame(out: seq<Info>, room: int, read: seq<Counters>, before: seq<Counters>)

  /** The script's turn came with room left, and there was something to read. */
  predicate Reached(f: Frame) { f.room > 0 && f.read != [] }

  /** What is remembered of the script after a frame. */
  function Now(f: Frame): seq<Counters> { if Reached(f) then f.read else f.before }

  predicate AtMost(a: Counters, b: Counters) { a.calls <= b.calls && a.selfNs <= b.selfNs }

  predicate AllAtMost(a: seq<Counters>, b: seq<Counters>) {
    |a| == |b| && forall i :: 0 <= i < |a| ==> AtMost(a[i], b[i])
  }

  /** A frame of a script whose table has `n` functions and counters that only grow. */
  ghost predicate Regular(f: Frame, s: Script, n: nat) {
    && |f.before| == n && (f.read != [] ==> |f.read| == n) && AllAtMost(f.before, Now(f))
    && Shows(f.out, s, f.read, f.before, f.room)
  }

  /** Frame after frame, each starting from what the one before it left. */
  ghost predicate History(frames: seq<Frame>, s: Script, n: nat, first: seq<Counters>, last: seq<Counters>) {
    if frames == [] then |first| == n && last == first
    else
      var f := frames[|frames| - 1];
      Regular(f, s, n) && Now(f) == last && History(frames[..|frames| - 1], s, n, first, f.before)
  }

  /**
    A new call of function `i` is lost to a frame: the script is reached with room left, and the lines of
    its functions before `i` use that room up. A script that is not reached loses nothing: what was
    remembered of it stays, and a later frame shows its calls.
   */
  predicate Cut(f: Frame, s: Script, i: nat) {
    && Reached(f) && i < |f.read| == |f.before|
    && f.read[i].calls > f.before[i].calls
    && |Lines(s, Deltas(f.read, f.before), i)| >= f.room
  }

  /** All the script's lines fit, if it is reached. */
  predicate Roomy(f: Frame, s: Script) {
    Reached(f) && |f.read| == |f.before| ==> |Lines(s, Deltas(f.read, f.before), |f.read|)| <= f.room
  }

  ghost predicate NoneCut(frames: seq<Frame>, s: Script, i: nat) {
    forall k :: 0 <= k < |frames| ==> !Cut(frames[k], s, i)
  }

  function TotalCalls(frames: seq<Frame>, s: Script, i: nat): nat {
    if frames == [] then 0 else TotalCalls(frames[..|frames| - 1], s, i) + Calls(frames[|frames| - 1].out, s, i)
  }

  function TotalSelfUs(frames: seq<Frame>, s: Script, i: nat): nat {
    if frames == [] then 0 else TotalSelfUs(frames[..|frames| - 1], s, i) + SelfUs(frames[|frames| - 1].out, s, i)
  }

  /** Nanoseconds of function `i` that the frame does not show: all of them without a line, else the fraction of a microsecond. */
  function Lost(f: Frame, s: Script, i: nat): nat
    requires i < |f.before| && i < |Now(f)| && f.before[i].selfNs <= Now(f)[i].selfNs
  {
    var passed := Now(f)[i].selfNs - f.before[i].selfNs;
    if Now(f)[i].calls == f.before[i].calls || Cut(f, s, i) then passed else passed % 1000
  }

  function TotalLost(frames: seq<Frame>, s: Script, i: nat): nat
    requires forall k :: 0 <= k < |frames| ==> i < |frames[k].before| && AllAtMost(frames[k].before, Now(frames[k]))
  {
    if frames == [] then 0
    else
      var f := frames[|frames| - 1];
      assert i < |f.before| && AllAtMost(f.before, Now(f));
      assert AtMost(f.before[i], Now(f)[i]);
      TotalLost(frames[..|frames| - 1], s, i) + Lost(f, s, i)
  }

  /** A function that has a new call is at or above the cut exactly when the lines before it use up the room. */
  lemma CutIsPast(f: Frame, s: Script, i: nat)
    requires Reached(f) && |f.read| == |f.before| && i < |f.read| && AtMost(f.before[i], f.read[i])
    requires f.read[i].calls > f.before[i].calls
    ensures Cut(f, s, i) <==> i >= Fitting(s, Deltas(f.read, f.before), |f.read|, f.room)
  {
    var ds := Deltas(f.read, f.before);
    FittingReaches(s, ds, |ds|, f.room, i);
    NewCall(f.read[i], f.before[i]);
    NewLine(s, ds, i);
  }

  lemma NewCall(now: Counters, before: Counters)
    requires now.calls > before.calls
    ensures Delta(now, before).calls == now.calls - before.calls
  {
  }

  lemma NewLine(s: Script, ds: seq<Counters>, i: nat)
    requires i < |ds| && ds[i].calls > 0
    ensures |Lines(s, ds, i + 1)| == |Lines(s, ds, i)| + 1
  {
  }

  lemma OneFrame(f: Frame, s: Script, n: nat, i: nat)
    requires Regular(f, s, n) && i < n
    ensures |Now(f)| == n && AtMost(f.before[i], Now(f)[i])
    ensures Calls(f.out, s, i) <= Now(f)[i].calls - f.before[i].calls
    ensures Calls(f.out, s, i) == Now(f)[i].calls - f.before[i].calls <==> !Cut(f, s, i)
    ensures Now(f)[i].selfNs - f.before[i].selfNs == 1000 * SelfUs(f.out, s, i) + Lost(f, s, i)
  {
    assert AtMost(f.before[i], Now(f)[i]);
    if Reached(f) {
      var m := Fitting(s, Deltas(f.read, f.before), |f.read|, f.room);
      assert Minus(f.read[i].calls, f.before[i].calls) == f.read[i].calls - f.before[i].calls;
      assert Minus(f.read[i].selfNs, f.before[i].selfNs) == f.read[i].selfNs - f.before[i].selfNs;
      assert ShownUpTo(f.out, s, f.read, f.before, m);
      if f.read[i].calls > f.before[i].calls {
        CutIsPast(f, s, i);
      }
      assert if i < m then InFull(f.out, s, i, Delta(f.read[i], f.before[i])) else NotAtAll(f.out, s, i);
    } else {
      assert NotAtAll(f.out, s, i);
    }
  }

  /** Where all lines fit, none is cut. */
  lemma RoomyNotCut(f: Frame, s: Script, i: nat)
    requires Roomy(f, s)
    ensures !Cut(f, s, i)
  {
    if Cut(f, s, i) {
      var ds := Deltas(f.read, f.before);
      NewLine(s, ds, i);
      LinesPrefix(s, ds, i + 1, |ds|);
    }
  }

  lemma {:induction false} HistoryShape(frames: seq<Frame>, s: Script, n: nat, first: seq<Counters>, last: seq<Counters>)
    requires History(frames, s, n, first, last)
    ensures |first| == |last| == n
    ensures forall k :: 0 <= k < |frames| ==> |frames[k].before| == n && AllAtMost(frames[k].before, Now(frames[k]))
  {
    if frames != [] {
      var front, f := frames[..|frames| - 1], frames[|frames| - 1];
      HistoryShape(front, s, n, first, f.before);
      assert frames == front + [f];
    }
  }

  /** What the counters were before a run of frames, and after it, whatever the frames showed. */
  ghost predicate Chain(frames: seq<Frame>, n: nat, first: seq<Counters>, last: seq<Counters>) {
    if frames == [] then |first| == n && last == first
    else
      var f := frames[|frames| - 1];
      |f.before| == n && AllAtMost(f.before, Now(f)) && Now(f) == last && Chain(frames[..|frames| - 1], n, first, f.before)
  }

  ghost predicate CallsExact(f: Frame, s: Script, i: nat, cut: Frame -> bool)
    requires i < |f.before| && i < |Now(f)|
  {
    && Calls(f.out, s, i) <= Now(f)[i].calls - f.before[i].calls
    && (Calls(f.out, s, i) == Now(f)[i].calls - f.before[i].calls <==> !cut(f))
  }

  lemma {:induction false} HistoryIsChain(frames: seq<Frame>, s: Script, n: nat, first: seq<Counters>, last: seq<Counters>)
    requires History(frames, s, n, first, last)
    ensures Chain(frames, n, first, last)
    ensures forall k :: 0 <= k < |frames| ==> Regular(frames[k], s, n)
  {
    if frames != [] {
      var front, f := frames[..|frames| - 1], frames[|frames| - 1];
      HistoryIsChain(front, s, n, first, f.before);
      assert frames == front + [f];
    }
  }

  lemma {:induction false} CallsTelescope(
    frames: seq<Frame>, s: Script, n: nat, first: seq<Counters>, last: seq<Counters>, i: nat, cut: Frame -> bool)
    requires Chain(frames, n, first, last) && i < n
    requires forall k :: 0 <= k < |frames| ==> |frames[k].before| == |Now(frames[k])| == n && CallsExact(frames[k], s, i, cut)
    ensures |first| == |last| == n && first[i].calls <= last[i].calls && first[i].selfNs <= last[i].selfNs
    ensures TotalCalls(frames, s, i) <= last[i].calls - first[i].calls
    ensures TotalCalls(frames, s, i) == last[i].calls - first[i].calls <==> forall k :: 0 <= k < |frames| ==> !cut(frames[k])
  {
    if frames != [] {
      var front, f := frames[..|frames| - 1], frames[|frames| - 1];
      CallsTelescope(front, s, n, first, f.before, i, cut);
      assert AtMost(f.before[i], Now(f)[i]) && CallsExact(f, s, i, cut);
      assert frames == front + [f];
    }
  }

  /**
    The calls shown frame by frame add up to what the counter grew by, exactly when no frame was cut at a
    new call of this function.
   */
  lemma FramesTelescope(frames: seq<Frame>, s: Script, n: nat, first: seq<Counters>, last: seq<Counters>, i: nat)
    requires History(frames, s, n, first, last) && i < n
    ensures |first| == |last| == n && AtMost(first[i], last[i])
    ensures TotalCalls(frames, s, i) <= last[i].calls - first[i].calls
    ensures TotalCalls(frames, s, i) == last[i].calls - first[i].calls <==> NoneCut(frames, s, i)
  {
    var cut := f => Cut(f, s, i);
    HistoryIsChain(frames, s, n, first, last);
    forall k | 0 <= k < |frames|
      ensures |frames[k].before| == |Now(frames[k])| == n && CallsExact(frames[k], s, i, cut)
    {
      OneFrame(frames[k], s, n, i);
    }
    CallsTelescope(frames, s, n, first, last, i, cut);
    NoneCutBy(frames, s, i, cut);
  }

  lemma NoneCutBy(frames: seq<Frame>, s: Script, i: nat, cut: Frame -> bool)
    requires forall f: Frame :: cut(f) <==> Cut(f, s, i)
    ensures NoneCut(frames, s, i) <==> forall k :: 0 <= k < |frames| ==> !cut(frames[k])
  {
    assert forall k :: 0 <= k < |frames| ==> (cut(frames[k]) <==> Cut(frames[k], s, i));
  }

  /**
    The times shown frame by frame, and the time that no frame shows, add up to the time that passed; so
    they come to the microseconds that passed exactly when less than one was lost.
   */
  lemma {:induction false} TimesTelescope(
    frames: seq<Frame>, s: Script, n: nat, first: seq<Counters>, last: seq<Counters>, i: nat)
    requires History(frames, s, n, first, last) && i < n
    ensures |first| == |last| == n && AtMost(first[i], last[i])
    ensures forall k :: 0 <= k < |frames| ==> i < |frames[k].before| && AllAtMost(frames[k].before, Now(frames[k]))
    ensures last[i].selfNs - first[i].selfNs == 1000 * TotalSelfUs(frames, s, i) + TotalLost(frames, s, i)
    ensures TotalSelfUs(frames, s, i) == (last[i].selfNs - first[i].selfNs) / 1000 <==> TotalLost(frames, s, i) < 1000
  {
    HistoryShape(frames, s, n, first, last);
    if frames != [] {
      var front, f := frames[..|frames| - 1], frames[|frames| - 1];
      TimesTelescope(front, s, n, first, f.before, i);
      OneFrame(f, s, n, i);
    }
  }

  // ----- A session of the profiler

  /** What a snapshot table has for a script, at the size of its function table. */
  function Tracked(table: map<Script, seq<Counters>>, s: Script, n: nat): (r: seq<Counters>)
    ensures |r| == n
  {
    Resized(Of(table, s), n)
  }

  /** What a profile reads of the script: nothing if it is not among those visited. */
  function ReadOf(op: Op, s: Script): seq<Counters>
    requires op.FrameData? || op.AccumulatedData?
  {
    if s in op.reading.order then Of(op.reading.records, s) else []
  }

  /** The counters read last, or those the session began with. */
  function Latest(st: State, ops: seq<Op>, s: Script, n: nat): seq<Counters> {
    if ops == [] then Tracked(st.previous, s, n)
    else
      var op := ops[|ops| - 1];
      if (op.FrameData? || op.AccumulatedData?) && ReadOf(op, s) != [] then ReadOf(op, s)
      else Latest(st, ops[..|ops| - 1], s, n)
  }

  /**
    A session after its start: frames and accumulated profiles in any order, with the script's function
    table unchanged and its counters growing; a script may be unreadable at times.
   */
  ghost predicate Session(st: State, ops: seq<Op>, s: Script, n: nat) {
    ops == [] ||
    var front, op := ops[..|ops| - 1], ops[|ops| - 1];
    && Session(st, front, s, n)
    && (op.FrameData? || op.AccumulatedData?) && Distinct(op.reading.order)
    && (ReadOf(op, s) == [] || AllAtMost(Latest(st, front, s, n), ReadOf(op, s)))
  }

  /** The frames of the session, as the script sees them. */
  function Frames(st: State, ops: seq<Op>, s: Script, n: nat): seq<Frame> {
    if ops == [] then []
    else
      var front, op := ops[..|ops| - 1], ops[|ops| - 1];
      if op.FrameData? then Frames(st, front, s, n) + [FrameOf(Run(st, front), op, s, n)] else Frames(st, front, s, n)
  }

  function BaseOf(st: State, op: Op): map<Script, seq<Counters>> { if op.FrameData? then st.previous else st.baseline }

  /** One profile, of a frame or accumulated, as the script sees it; all but `out` is known before it is taken. */
  function FrameOf(st: State, op: Op, s: Script, n: nat): Frame
    requires op.FrameData? || op.AccumulatedData?
  {
    Frame(Do(st, op).1, RoomFor(Pieces(op.reading, BaseOf(st, op)), LineCount, op.max, s), if st.collecting then ReadOf(op, s) else [],
          Tracked(BaseOf(st, op), s, n))
  }

  lemma {:induction false} VisitedIsRead(ps: seq<Piece>, part: Lister, max: int, k: nat, s: Script) returns (j: nat)
    requires k <= |ps| && Visited(ps, part, max, k, s)
    ensures j < k && ps[j].script == s && ps[j].records != [] && max > 0
  {
    if ps[k - 1].script == s && VisitedAt(ps, part, max, k - 1) {
      j := k - 1;
    } else {
      j := VisitedIsRead(ps, part, max, k - 1, s);
    }
  }

  lemma PiecesDistinct(reading: Reading, base: map<Script, seq<Counters>>)
    requires Distinct(reading.order)
    ensures NoRepeats(Pieces(reading, base))
  {
    var ps := Pieces(reading, base);
    forall j, k | 0 <= j < k < |ps| ensures ps[j].script != ps[k].script {
      assert ps[j].script == reading.order[j] && ps[k].script == reading.order[k];
    }
  }

  lemma PartLacks(s: Script)
    ensures forall p: Piece, room: int :: p.script != s ==> ScriptAbsent(PartOf(p, room), s)
  {
    forall p: Piece, room: int | p.script != s ensures ScriptAbsent(PartOf(p, room), s) {
      AbsentFromPart(p, room, s);
    }
  }

  /**
    A profile shows each script for which the scripts before it leave room and which can be read, as far as
    that room goes, and no other; and these are the scripts it visits.
   */
  lemma PiecesShow(reading: Reading, base: map<Script, seq<Counters>>, max: int, s: Script)
    requires Distinct(reading.order)
    ensures var ps := Pieces(reading, base);
      var records := if s in reading.order then Of(reading.records, s) else [];
      var room := RoomFor(ps, LineCount, max, s);
      && Shows(Profile(ps, PartOf, max, |ps|), s, records, Resized(Of(base, s), |records|), room)
      && (Visited(ps, PartOf, max, |ps|, s) <==> room > 0 && records != [])
  {
    PiecesDistinct(reading, base);
    PartIsFrugal();
    PartLacks(s);
    ListedShow(reading, base, Pieces(reading, base), PartOf, LineCount, max, s) by {
      forall out: seq<Info>, p: Piece, room: int | |p.before| == |p.records| && ScriptAbsent(out, p.script)
        ensures Shows(out + PartOf(p, room), p.script, p.records, p.before, room)
      {
        OwnPiece(out, p, room);
      }
      forall p: Piece, room: int ensures |PartOf(p, room)| == Clip(LineCount(p), room) {
        PartCount(p, room);
      }
    }
  }

  /** The same for any way of listing that shows a script rightly when its turn comes. */
  lemma ListedShow(
    reading: Reading, base: map<Script, seq<Counters>>, ps: seq<Piece>, part: Lister, count: Piece -> nat, max: int, s: Script)
    requires ps == Pieces(reading, base) && NoRepeats(ps) && Frugal(part) && Filling(part, count)
    requires forall p: Piece, room: int :: p.script != s ==> ScriptAbsent(part(p, room), s)
    requires forall out: seq<Info>, p: Piece, room: int :: |p.before| == |p.records| && ScriptAbsent(out, p.script) ==>
      Shows(out + part(p, room), p.script, p.records, p.before, room)
    ensures var records := if s in reading.order then Of(reading.records, s) else [];
      var room := RoomFor(ps, count, max, s);
      && Shows(Profile(ps, part, max, |ps|), s, records, Resized(Of(base, s), |records|), room)
      && (Visited(ps, part, max, |ps|, s) <==> room > 0 && records != [])
  {
    var j := Turn(ps, s, 0);
    if max <= 0 {
      NoRoom(map[], ps, part, max, |ps|, false);
      NothingShown(s);
      if Visited(ps, part, max, |ps|, s) {
        var k := VisitedIsRead(ps, part, max, |ps|, s);
      }
    } else if j < |ps| {
      assert ps[j] == PieceOf(reading, base, reading.order[j]);
      ListedAt(ps, part, count, max, j, RoomFor(ps, count, max, s));
    } else {
      forall k | 0 <= k < |reading.order| ensures reading.order[k] != s {
        assert ps[k].script == reading.order[k];
      }
      NotYetVisited(ps, part, max, |ps|, s);
      PieceShows(ps, part, max, |ps|, s, [], [], RoomFor(ps, count, max, s));
    }
  }

  lemma ListedAt(ps: seq<Piece>, part: Lister, count: Piece -> nat, max: nat, j: nat, room: int)
    requires NoRepeats(ps) && Filling(part, count) && j < |ps| && |ps[j].before| == |ps[j].records|
    requires room == max - Wanted(ps, count, j)
    requires forall p: Piece, room: int :: p.script != ps[j].script ==> ScriptAbsent(part(p, room), ps[j].script)
    requires forall out: seq<Info>, p: Piece, room: int :: |p.before| == |p.records| && ScriptAbsent(out, p.script) ==>
      Shows(out + part(p, room), p.script, p.records, p.before, room)
    ensures Shows(Profile(ps, part, max, |ps|), ps[j].script, ps[j].records, ps[j].before, room)
    ensures Visited(ps, part, max, |ps|, ps[j].script) <==> room > 0 && ps[j].records != []
  {
    var p, left := ps[j], max - |Profile(ps, part, max, j)|;
    ProfileLength(ps, part, count, max, j);
    VisitedOnce(ps, part, max, |ps|, j);
    PieceShows(ps, part, max, j, p.script, p.records, p.before, left);
    RoomAlike(Profile(ps, part, max, |ps|), p.script, p.records, p.before, left, room);
  }

  lemma RoomAlike(out: seq<Info>, s: Script, now: seq<Counters>, before: seq<Counters>, a: int, b: int)
    requires a == b || (a <= 0 && b <= 0)
    requires (now != [] ==> |before| == |now|) && Shows(out, s, now, before, a)
    ensures Shows(out, s, now, before, b)
  {
  }

  lemma PiecesRemembered(
    table: map<Script, seq<Counters>>, reading: Reading, base: map<Script, seq<Counters>>, max: int, replace: bool, s: Script)
    requires Distinct(reading.order)
    ensures var ps := Pieces(reading, base); var now := Remembered(table, ps, PartOf, max, |ps|, replace);
      Of(now, s) == if Visited(ps, PartOf, max, |ps|, s) then Refreshed(Of(table, s), Of(reading.records, s), replace) else Of(table, s)
  {
    var ps := Pieces(reading, base);
    PiecesDistinct(reading, base);
    if Visited(ps, PartOf, max, |ps|, s) {
      var j := VisitedIsRead(ps, PartOf, max, |ps|, s);
      RememberedOf(table, ps, PartOf, max, |ps|, replace, j);
    } else {
      NotRemembered(table, ps, PartOf, max, |ps|, replace, s);
    }
  }

  /** One profile: what it does to the two tables' entries for the script. */
  lemma ProfileTracks(st: State, op: Op, s: Script, n: nat, latest: seq<Counters>)
    requires (op.FrameData? || op.AccumulatedData?) && Distinct(op.reading.order)
    requires AllAtMost(Tracked(st.previous, s, n), latest)
    requires ReadOf(op, s) == [] || AllAtMost(latest, ReadOf(op, s))
    ensures var now := Do(st, op).0; var later := if ReadOf(op, s) == [] then latest else ReadOf(op, s);
      && now.collecting == st.collecting
      && Tracked(now.baseline, s, n) == Tracked(st.baseline, s, n)
      && AllAtMost(Tracked(now.previous, s, n), later)
      && (op.AccumulatedData? ==> Tracked(now.previous, s, n) == Tracked(st.previous, s, n))
      && (op.FrameData? ==> Regular(FrameOf(st, op, s, n), s, n) && Now(FrameOf(st, op, s, n)) == Tracked(now.previous, s, n))
  {
    if ReadOf(op, s) != [] {
      AtMostTransitive(Tracked(st.previous, s, n), latest, ReadOf(op, s));
    }
    if st.collecting {
      PiecesShow(op.reading, BaseOf(st, op), op.max, s);
      PiecesRemembered(st.previous, op.reading, BaseOf(st, op), op.max, op.FrameData?, s);
      PiecesRemembered(st.baseline, op.reading, BaseOf(st, op), op.max, false, s);
    } else {
      NothingShown(s);
    }
  }

  lemma AtMostTransitive(a: seq<Counters>, b: seq<Counters>, c: seq<Counters>)
    requires AllAtMost(a, b) && AllAtMost(b, c)
    ensures AllAtMost(a, c)
  {
    forall i | 0 <= i < |a| ensures AtMost(a[i], c[i]) {
      assert AtMost(a[i], b[i]) && AtMost(b[i], c[i]);
    }
  }

  /** The frames of a session are a history, from what the start left to what the last frame left. */
  lemma {:induction false} SessionHistory(st: State, ops: seq<Op>, s: Script, n: nat)
    requires Session(st, ops, s, n)
    ensures var now := Run(st, ops);
      && now.collecting == st.collecting
      && Tracked(now.baseline, s, n) == Tracked(st.baseline, s, n)
      && AllAtMost(Tracked(now.previous, s, n), Latest(st, ops, s, n))
      && History(Frames(st, ops, s, n), s, n, Tracked(st.previous, s, n), Tracked(now.previous, s, n))
  {
    if ops != [] {
      var front, op := ops[..|ops| - 1], ops[|ops| - 1];
      SessionHistory(st, front, s, n);
      var before := Run(st, front);
      ProfileTracks(before, op, s, n, Latest(st, front, s, n));
      if op.FrameData? {
        HistoryPush(Frames(st, front, s, n), FrameOf(before, op, s, n), s, n, Tracked(st.previous, s, n));
      }
    }
  }

  lemma HistoryPush(frames: seq<Frame>, f: Frame, s: Script, n: nat, first: seq<Counters>)
    requires History(frames, s, n, first, f.before) && Regular(f, s, n)
    ensures History(frames + [f], s, n, first, Now(f))
  {
    assert (frames + [f])[..|frames|] == frames;
  }

  /** After a start both tables have the same for every script, if they were empty before, as a stop leaves them. */
  lemma StartLevels(st: State, reading: Reading, s: Script, n: nat)
    requires st.previous == st.baseline == map[]
    ensures var now := Do(st, Start(reading)).0; now.collecting && Tracked(now.previous, s, n) == Tracked(now.baseline, s, n)
  {
    SnappedOf(st.previous, reading, |reading.order|, s);
    SnappedOf(st.baseline, reading, |reading.order|, s);
  }

  /** An accumulated profile is to the baseline what a frame is to the one before. */
  lemma AccumulatedRegular(st: State, op: Op, s: Script, n: nat)
    requires op.AccumulatedData? && Distinct(op.reading.order)
    requires ReadOf(op, s) == [] || AllAtMost(Tracked(st.baseline, s, n), ReadOf(op, s))
    ensures Regular(FrameOf(st, op, s, n), s, n)
  {
    if st.collecting {
      PiecesShow(op.reading, st.baseline, op.max, s);
    } else {
      NothingShown(s);
    }
    AtMostItself(Tracked(st.baseline, s, n));
  }

  lemma AtMostItself(a: seq<Counters>)
    ensures AllAtMost(a, a)
  {
  }

  /**
    The two ways to profile agree, for every session and every function: an accumulated profile that
    reaches the script at the counters of the last frame, and does not cut the function itself, counts the
    calls of all frames together exactly when none of them was cut at a new call of the function; and it
    has the time of all frames together exactly when they lost less than a microsecond, or there was no
    call at all.
   */
  lemma SessionAddsUp(st: State, ops: seq<Op>, op: Op, s: Script, n: nat, i: nat)
    requires st.collecting && Tracked(st.previous, s, n) == Tracked(st.baseline, s, n) && Session(st, ops, s, n) && i < n
    requires op.AccumulatedData? && Distinct(op.reading.order) && ReadOf(op, s) == Tracked(Run(st, ops).previous, s, n)
    requires var whole := FrameOf(Run(st, ops), op, s, n); Reached(whole) && !Cut(whole, s, i)
    ensures var frames := Frames(st, ops, s, n); var out := Do(Run(st, ops), op).1;
      && (forall k :: 0 <= k < |frames| ==> i < |frames[k].before| && AllAtMost(frames[k].before, Now(frames[k])))
      && (Calls(out, s, i) == TotalCalls(frames, s, i) <==> NoneCut(frames, s, i))
      && (SelfUs(out, s, i) == TotalSelfUs(frames, s, i) <==> Calls(out, s, i) == 0 || TotalLost(frames, s, i) < 1000)
  {
    var now, frames := Run(st, ops), Frames(st, ops, s, n);
    var first, last := Tracked(st.previous, s, n), Tracked(now.previous, s, n);
    SessionHistory(st, ops, s, n);
    HistoryGrows(frames, s, n, first, last);
    AccumulatedExact(now, op, s, n, i, first, last);
    HistorySums(frames, s, n, first, last, i);
  }

  /** What the accumulated profile says of a function it reaches and does not cut. */
  lemma AccumulatedExact(st: State, op: Op, s: Script, n: nat, i: nat, first: seq<Counters>, last: seq<Counters>)
    requires op.AccumulatedData? && Distinct(op.reading.order) && i < n
    requires first == Tracked(st.baseline, s, n) && last == ReadOf(op, s) && AllAtMost(first, last)
    requires Reached(FrameOf(st, op, s, n)) && !Cut(FrameOf(st, op, s, n), s, i)
    ensures var out := Do(st, op).1;
      && Calls(out, s, i) == last[i].calls - first[i].calls
      && SelfUs(out, s, i) == if last[i].calls == first[i].calls then 0 else (last[i].selfNs - first[i].selfNs) / 1000
  {
    AccumulatedRegular(st, op, s, n);
    OneFrame(FrameOf(st, op, s, n), s, n, i);
  }

  /** What the frames of a history come to. */
  lemma HistorySums(frames: seq<Frame>, s: Script, n: nat, first: seq<Counters>, last: seq<Counters>, i: nat)
    requires History(frames, s, n, first, last) && |first| == |last| == n && i < n
    ensures first[i].calls <= last[i].calls && first[i].selfNs <= last[i].selfNs
    ensures forall k :: 0 <= k < |frames| ==> i < |frames[k].before| && AllAtMost(frames[k].before, Now(frames[k]))
    ensures TotalCalls(frames, s, i) == last[i].calls - first[i].calls <==> NoneCut(frames, s, i)
    ensures var time := if last[i].calls == first[i].calls then 0 else (last[i].selfNs - first[i].selfNs) / 1000;
      TotalSelfUs(frames, s, i) == time <==> last[i].calls == first[i].calls || TotalLost(frames, s, i) < 1000
  {
    FramesTelescope(frames, s, n, first, last, i);
    TimesTelescope(frames, s, n, first, last, i);
    if last[i].calls == first[i].calls {
      NoCallsNoTime(frames, s, n, first, last, i);
    }
  }

  lemma {:induction false} HistoryGrows(frames: seq<Frame>, s: Script, n: nat, first: seq<Counters>, last: seq<Counters>)
    requires History(frames, s, n, first, last)
    ensures AllAtMost(first, last)
  {
    HistoryShape(frames, s, n, first, last);
    forall i | 0 <= i < n ensures AtMost(first[i], last[i]) {
      FramesTelescope(frames, s, n, first, last, i);
    }
  }

  /** Without a call there is no line in any frame, and so no time. */
  lemma {:induction false} NoCallsNoTime(
    frames: seq<Frame>, s: Script, n: nat, first: seq<Counters>, last: seq<Counters>, i: nat)
    requires History(frames, s, n, first, last) && |first| == |last| == n && i < n && first[i].calls == last[i].calls
    ensures TotalSelfUs(frames, s, i) == 0
  {
    if frames != [] {
      var front, f := frames[..|frames| - 1], frames[|frames| - 1];
      FramesTelescope(front, s, n, first, f.before, i);
      OneFrame(f, s, n, i);
      NoCallsNoTime(front, s, n, first, f.before, i);
    }
  }

  /** Where the script's lines fit into every frame that reaches it, the calls always add up. */
  lemma FramesSumToAccumulated(st: State, ops: seq<Op>, op: Op, s: Script, n: nat, i: nat)
    requires st.collecting && Tracked(st.previous, s, n) == Tracked(st.baseline, s, n) && Session(st, ops, s, n) && i < n
    requires op.AccumulatedData? && Distinct(op.reading.order) && ReadOf(op, s) == Tracked(Run(st, ops).previous, s, n)
    requires var whole := FrameOf(Run(st, ops), op, s, n); Reached(whole) && Roomy(whole, s)
    requires forall k :: 0 <= k < |Frames(st, ops, s, n)| ==> Roomy(Frames(st, ops, s, n)[k], s)
    ensures Calls(Do(Run(st, ops), op).1, s, i) == TotalCalls(Frames(st, ops, s, n), s, i)
  {
    RoomyNotCut(FrameOf(Run(st, ops), op, s, n), s, i);
    RoomyNoneCut(Frames(st, ops, s, n), s, i);
    SessionAddsUp(st, ops, op, s, n, i);
  }

  lemma RoomyNoneCut(frames: seq<Frame>, s: Script, i: nat)
    requires forall k :: 0 <= k < |frames| ==> Roomy(frames[k], s)
    ensures NoneCut(frames, s, i)
  {
    forall k | 0 <= k < |frames| ensures !Cut(frames[k], s, i) {
      RoomyNotCut(frames[k], s, i);
    }
  }

  /**
    Which new calls a frame loses, from what goes into it: those of a script whose turn comes before the
    scripts before it want all the room, but whose own earlier functions want the rest of it.
   */
  lemma CutExactly(st: State, op: Op, s: Script, n: nat, i: nat, j: nat)
    requires op.FrameData? && st.collecting && Distinct(op.reading.order)
    requires j < |op.reading.order| && op.reading.order[j] == s && |ReadOf(op, s)| == n && i < n
    ensures var before, now := Tracked(st.previous, s, n), ReadOf(op, s);
      var ahead := Wanted(Pieces(op.reading, st.previous), LineCount, j);
      Cut(FrameOf(st, op, s, n), s, i) <==>
      (now[i].calls > before[i].calls && ahead < op.max <= ahead + |Lines(s, Deltas(now, before), i)|)
  {
    TurnIs(op.reading, st.previous, s, j);
    CutBy(FrameOf(st, op, s, n), s, i, op.max, Wanted(Pieces(op.reading, st.previous), LineCount, j));
  }

  lemma CutBy(f: Frame, s: Script, i: nat, max: int, ahead: nat)
    requires f.room == max - ahead && i < |f.read| == |f.before|
    ensures Cut(f, s, i) <==>
      (f.read[i].calls > f.before[i].calls && ahead < max <= ahead + |Lines(s, Deltas(f.read, f.before), i)|)
  {
  }

  lemma TurnIs(reading: Reading, base: map<Script, seq<Counters>>, s: Script, j: nat)
    requires Distinct(reading.order) && j < |reading.order| && reading.order[j] == s
    ensures Turn(Pieces(reading, base), s, 0) == j
  {
    var ps := Pieces(reading, base);
    PiecesDistinct(reading, base);
    assert ps[j].script == s;
    var k := Turn(ps, s, 0);
  }

  // ----- A session in which the times do not add up

  /** A reading of one script with one function. */
  function Alone(s: Script, c: Counters): Reading { Reading([s], map[s := [c]]) }

  lemma AloneRoom(s: Script, c: Counters, base: map<Script, seq<Counters>>, max: int)
    ensures RoomFor(Pieces(Alone(s, c), base), LineCount, max, s) == max && Distinct(Alone(s, c).order)
  {
    TurnIs(Alone(s, c), base, s, 0);
  }

  lemma {:induction false} LinesCount(s: Script, ds: seq<Counters>, m: nat)
    requires m <= |ds|
    ensures |Lines(s, ds, m)| <= m
  {
    if m > 0 {
      LinesCount(s, ds, m - 1);
    }
  }

  lemma AloneFrame(st: State, op: Op, s: Script, c: Counters)
    requires st.collecting && (op.FrameData? || op.AccumulatedData?) && op.reading == Alone(s, c) && op.max > 0
    ensures var f := FrameOf(st, op, s, 1);
      f.before == Tracked(BaseOf(st, op), s, 1) && f.read == Now(f) == [c] && f.room == op.max && Roomy(f, s)
  {
    AloneRead(op, s, c);
    AloneRoom(s, c, BaseOf(st, op), op.max);
    LinesCount(s, Deltas([c], Tracked(BaseOf(st, op), s, 1)), 1);
  }

  lemma AloneTracked(st: State, s: Script, c: Counters, max: int)
    requires st.collecting && max > 0
    ensures var now := Do(st, FrameData(Alone(s, c), max)).0; now.collecting && Tracked(now.previous, s, 1) == [c]
  {
    AloneRoom(s, c, st.previous, max);
    PiecesShow(Alone(s, c), st.previous, max, s);
    PiecesRemembered(st.previous, Alone(s, c), st.previous, max, true, s);
  }

  lemma TwoOps(st: State, a: Op, b: Op, s: Script, n: nat)
    requires a.FrameData? && b.FrameData?
    ensures Run(st, [a, b]) == Do(Do(st, a).0, b).0
    ensures Frames(st, [a, b], s, n) == [FrameOf(st, a, s, n), FrameOf(Do(st, a).0, b, s, n)]
  {
    assert [a, b][..1] == [a] && [a][..0] == [];
    assert Run(st, [a]) == Do(st, a).0;
    assert Frames(st, [a], s, n) == [] + [FrameOf(st, a, s, n)];
  }

  /** A frame in which the function is called and one in which it is still running, seen from the script. */
  lemma TwoFrames(st: State, s: Script, c: Counters, d: Counters, max: int)
    requires st.collecting && max > 0
    ensures var a, b := FrameData(Alone(s, c), max), FrameData(Alone(s, d), max); var frames := Frames(st, [a, b], s, 1);
      && |frames| == 2
      && frames[0].before == Tracked(st.previous, s, 1)
      && Now(frames[0]) == frames[1].before == [c] && Now(frames[1]) == [d]
      && (forall k :: 0 <= k < 2 ==> Roomy(frames[k], s))
      && Tracked(Run(st, [a, b]).previous, s, 1) == [d]
  {
    var a, b := FrameData(Alone(s, c), max), FrameData(Alone(s, d), max);
    TwoOps(st, a, b, s, 1);
    var between := Do(st, a).0;
    AloneStep(st, a, s, c);
    AloneStep(between, b, s, d);
    TwoRoomy(Frames(st, [a, b], s, 1), FrameOf(st, a, s, 1), FrameOf(between, b, s, 1), s);
  }

  lemma TwoRoomy(frames: seq<Frame>, f: Frame, g: Frame, s: Script)
    requires frames == [f, g] && Roomy(f, s) && Roomy(g, s)
    ensures |frames| == 2 && frames[0] == f && frames[1] == g
    ensures forall k :: 0 <= k < 2 ==> Roomy(frames[k], s)
  {
  }

  /** One such frame: where it starts from and what it leaves. */
  lemma AloneStep(st: State, op: Op, s: Script, c: Counters)
    requires st.collecting && op.FrameData? && op.reading == Alone(s, c) && op.max > 0
    ensures var f := FrameOf(st, op, s, 1); f.before == Tracked(st.previous, s, 1) && Now(f) == [c] && Roomy(f, s)
    ensures var now := Do(st, op).0; now.collecting && Tracked(now.previous, s, 1) == [c]
  {
    AloneTracked(st, s, c, op.max);
    AloneFrame(st, op, s, c);
  }

  lemma AloneRead(op: Op, s: Script, c: Counters)
    requires (op.FrameData? || op.AccumulatedData?) && op.reading == Alone(s, c)
    ensures ReadOf(op, s) == [c] && Distinct(op.reading.order)
  {
  }

  lemma TwoFramesSession(st: State, s: Script, c: Counters, d: Counters, max: int)
    requires AllAtMost(Tracked(st.previous, s, 1), [c]) && AllAtMost([c], [d])
    ensures Session(st, [FrameData(Alone(s, c), max), FrameData(Alone(s, d), max)], s, 1)
  {
    var a, b := FrameData(Alone(s, c), max), FrameData(Alone(s, d), max);
    assert [a, b][..1] == [a] && [a][..0] == [];
    AloneRead(a, s, c);
    AloneRead(b, s, d);
    assert Session(st, [], s, 1) && Latest(st, [], s, 1) == Tracked(st.previous, s, 1);
    assert Session(st, [a], s, 1) && Latest(st, [a], s, 1) == [c];
  }

  /**
    The times of the frames can come to less than the accumulated time: in every session in which a
    function is called in one frame and runs on through the next, for a microsecond or more, the
    accumulated profile shows that time and neither of the frames does.
   */
  lemma RunningTimeIsLost(s: Script, ns: U64)
    requires ns >= 1000
    ensures var c, d := Counters(1, 0, 0), Counters(1, ns, ns);
      var st := Do(START, Start(Alone(s, ZERO))).0;
      var ops := [FrameData(Alone(s, c), 10), FrameData(Alone(s, d), 10)];
      var out := Do(Run(st, ops), AccumulatedData(Alone(s, d), 10)).1;
      && Session(st, ops, s, 1)
      && Calls(out, s, 0) == TotalCalls(Frames(st, ops, s, 1), s, 0) == 1
      && SelfUs(out, s, 0) == ns / 1000 > 0 == TotalSelfUs(Frames(st, ops, s, 1), s, 0)
  {
    var c, d := Counters(1, 0, 0), Counters(1, ns, ns);
    var st := Do(START, Start(Alone(s, ZERO))).0;
    var ops := [FrameData(Alone(s, c), 10), FrameData(Alone(s, d), 10)];
    var op := AccumulatedData(Alone(s, d), 10);
    SnappedOf(map[], Alone(s, ZERO), 1, s);
    StartLevels(START, Alone(s, ZERO), s, 1);
    assert Tracked(st.previous, s, 1) == [ZERO];
    TwoFramesSession(st, s, c, d, 10);
    LossOfTwo(st, ops, op, s, ns);
  }

  lemma LossOfTwo(st: State, ops: seq<Op>, op: Op, s: Script, ns: U64)
    requires ns >= 1000 && st.collecting && Tracked(st.previous, s, 1) == Tracked(st.baseline, s, 1) == [ZERO]
    requires ops == [FrameData(Alone(s, Counters(1, 0, 0)), 10), FrameData(Alone(s, Counters(1, ns, ns)), 10)]
    requires op == AccumulatedData(Alone(s, Counters(1, ns, ns)), 10) && Session(st, ops, s, 1)
    ensures var out := Do(Run(st, ops), op).1;
      && Calls(out, s, 0) == TotalCalls(Frames(st, ops, s, 1), s, 0) == 1
      && SelfUs(out, s, 0) == ns / 1000 && TotalSelfUs(Frames(st, ops, s, 1), s, 0) == 0
  {
    var now, last := Run(st, ops), [Counters(1, ns, ns)];
    TwoFrames(st, s, Counters(1, 0, 0), Counters(1, ns, ns), 10);
    SessionHistory(st, ops, s, 1);
    TwoAddUp(Frames(st, ops, s, 1), s, ns);
    AccumulatedAlone(now, s, last[0]);
  }

  lemma AccumulatedAlone(st: State, s: Script, c: Counters)
    requires st.collecting && Tracked(st.baseline, s, 1) == [ZERO] && c.calls > 0
    ensures var out := Do(st, AccumulatedData(Alone(s, c), 10)).1;
      Calls(out, s, 0) == c.calls && SelfUs(out, s, 0) == c.selfNs / 1000
  {
    var op := AccumulatedData(Alone(s, c), 10);
    AloneRead(op, s, c);
    assert AllAtMost([ZERO], [c]);
    AccumulatedRegular(st, op, s, 1);
    AloneFrame(st, op, s, c);
    RoomyNotCut(FrameOf(st, op, s, 1), s, 0);
    OneFrame(FrameOf(st, op, s, 1), s, 1, 0);
  }

  lemma TwoAddUp(frames: seq<Frame>, s: Script, ns: U64)
    requires ns >= 1000 && History(frames, s, 1, [ZERO], [Counters(1, ns, ns)]) && |frames| == 2
    requires frames[0].before == [ZERO] && Now(frames[0]) == frames[1].before == [Counters(1, 0, 0)]
    requires Now(frames[1]) == [Counters(1, ns, ns)]
    requires forall k :: 0 <= k < |frames| ==> Roomy(frames[k], s)
    ensures TotalCalls(frames, s, 0) == 1 && TotalSelfUs(frames, s, 0) == 0
  {
    RoomyNoneCut(frames, s, 0);
    FramesTelescope(frames, s, 1, [ZERO], [Counters(1, ns, ns)], 0);
    TimesTelescope(frames, s, 1, [ZERO], [Counters(1, ns, ns)], 0);
    LostOfTwo(frames, s, ns);
  }

  lemma LostOfTwo(frames: seq<Frame>, s: Script, ns: U64)
    requires |frames| == 2 && frames[0].before == [ZERO] && Now(frames[0]) == frames[1].before == [Counters(1, 0, 0)]
    requires Now(frames[1]) == [Counters(1, ns, ns)]
    ensures forall k :: 0 <= k < |frames| ==> 0 < |frames[k].before| && AllAtMost(frames[k].before, Now(frames[k]))
    ensures TotalLost(frames, s, 0) == ns
  {
    var one := frames[..1];
    assert one[..0] == [] && one[0] == frames[0];
    assert TotalLost([], s, 0) == 0 && TotalLost(one, s, 0) == Lost(frames[0], s, 0) == 0;
    assert TotalLost(frames, s, 0) == TotalLost(one, s, 0) + Lost(frames[1], s, 0);
  }
}
