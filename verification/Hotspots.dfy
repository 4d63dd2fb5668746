/**
  The report of the hottest functions: samples by address are merged by function in place, the top
  few are sorted to the front, and the rest cut off (src/sandbox_profiling.cpp:190-258).
 */
module Hotspots {

  /** One sampled address with the names it resolved to. */
  datatype Entry = Entry(pc: nat, offset: int, function_: string, file: string, count: nat)

  /** What entries are merged by: the names joined without a separator. */
  datatype Label = Label(text: string)

  function Key(e: Entry): Label { Label(e.function_ + e.file) }

  function Sum(es: seq<Entry>): nat { SumUpTo(es, |es|) }

  /** Over the first `n` entries. */
  function SumUpTo(es: seq<Entry>, n: nat): nat
    requires n <= |es|
  {
    if n == 0 then 0 else SumUpTo(es, n - 1) + es[n - 1].count
  }

  /** All samples of one key. */
  function SumOf(es: seq<Entry>, key: Label): nat { SumOfUpTo(es, |es|, key) }

  function SumOfUpTo(es: seq<Entry>, n: nat, key: Label): nat
    requires n <= |es|
  {
    if n == 0 then 0 else SumOfUpTo(es, n - 1, key) + if Key(es[n - 1]) == key then es[n - 1].count else 0
  }

  function KeysUpTo(es: seq<Entry>, n: nat): set<Label>
    requires n <= |es|
  {
    set i | 0 <= i < n :: Key(es[i])
  }

  function Keys(es: seq<Entry>): set<Label> { KeysUpTo(es, |es|) }

  // ----- Sums

  /** Entries up to `n` that are the same have the same sum; one that is not makes the difference. */
  lemma {:induction false} SumUpdated(es: seq<Entry>, i: nat, e: Entry, n: nat)
    requires i < |es| && n <= |es|
    ensures SumUpTo(es[i := e], n) == SumUpTo(es, n) + if i < n then e.count - es[i].count else 0
  {
    if n > 0 {
      SumUpdated(es, i, e, n - 1);
    }
  }

  lemma SumUpdate(es: seq<Entry>, i: nat, e: Entry)
    requires i < |es|
    ensures Sum(es[i := e]) == Sum(es) - es[i].count + e.count
  {
    SumUpdated(es, i, e, |es|);
  }

  /** From `n` on nothing is counted exactly when the sum has reached its end. */
  lemma {:induction false} SumRest(es: seq<Entry>, n: nat, m: nat)
    requires n <= m <= |es|
    ensures SumUpTo(es, n) <= SumUpTo(es, m)
    ensures SumUpTo(es, n) == SumUpTo(es, m) <==> forall i :: n <= i < m ==> es[i].count == 0
  {
    if n < m {
      SumRest(es, n, m - 1);
    }
  }

  lemma {:induction false} SumPrefix(es: seq<Entry>, n: nat, m: nat)
    requires m <= n <= |es|
    ensures SumUpTo(es[..n], m) == SumUpTo(es, m)
  {
    if m > 0 {
      SumPrefix(es, n, m - 1);
    }
  }

  lemma {:induction false} SumOfMissing(es: seq<Entry>, n: nat, key: Label)
    requires n <= |es| && key !in KeysUpTo(es, n)
    ensures SumOfUpTo(es, n, key) == 0
  {
    if n > 0 {
      assert Key(es[n - 1]) in KeysUpTo(es, n);
      assert KeysUpTo(es, n - 1) <= KeysUpTo(es, n);
      SumOfMissing(es, n - 1, key);
    }
  }

  // ----- Merging

  predicate First(es: seq<Entry>, i: nat)
    requires i < |es|
  {
    forall j :: 0 <= j < i ==> Key(es[j]) != Key(es[i])
  }

  /** The first entry of each key holds what `sum` says of it, later ones up to `n` hold nothing. */
  ghost predicate MergedBy(es: seq<Entry>, now: seq<Entry>, n: nat, sum: Label -> nat)
    requires n <= |es|
  {
    && |now| == |es|
    && (forall i :: 0 <= i < |es| ==> now[i] == es[i].(count := now[i].count))
    && (forall i :: 0 <= i < n ==> now[i].count == if First(es, i) then sum(Key(es[i])) else 0)
    && (forall i :: n <= i < |es| ==> now[i] == es[i])
  }

  /** That key's samples among the first `n` entries. */
  ghost predicate MergedUpTo(es: seq<Entry>, now: seq<Entry>, n: nat)
    requires n <= |es|
  {
    MergedBy(es, now, n, Sums(es, n))
  }

  function Sums(es: seq<Entry>, n: nat): Label -> nat
    requires n <= |es|
  {
    key => SumOfUpTo(es, n, key)
  }

  /** One more entry counted. */
  ghost predicate CountsOneMore(sum: Label -> nat, more: Label -> nat, e: Entry) {
    forall key :: more(key) == sum(key) + if Key(e) == key then e.count else 0
  }

  lemma SumsStep(es: seq<Entry>, n: nat)
    requires n < |es|
    ensures CountsOneMore(Sums(es, n), Sums(es, n + 1), es[n])
  {
  }

  ghost predicate Merged(es: seq<Entry>, now: seq<Entry>) { MergedUpTo(es, now, |es|) }

  /** The index table of the merging loop. */
  ghost predicate Indexed(es: seq<Entry>, n: nat, index: map<Label, nat>)
    requires n <= |es|
  {
    && index.Keys == KeysUpTo(es, n)
    && forall key :: key in index ==> index[key] < n && Key(es[index[key]]) == key && First(es, index[key])
  }

  /** The samples of entry `i` moved to entry `first`. */
  function Moved(es: seq<Entry>, first: nat, i: nat): seq<Entry>
    requires first < i < |es|
  {
    es[first := es[first].(count := es[first].count + es[i].count)][i := es[i].(count := 0)]
  }

  lemma SumMoved(es: seq<Entry>, first: nat, i: nat)
    requires first < i < |es|
    ensures Sum(Moved(es, first, i)) == Sum(es)
  {
    var more := es[first].(count := es[first].count + es[i].count);
    SumUpdate(es, first, more);
    SumUpdate(es[first := more], i, es[i].(count := 0));
  }

  /** `results[index].count += res.count; res.count = 0`. */
  method MoveSamples(es: seq<Entry>, first: nat, i: nat) returns (now: seq<Entry>)
    requires first < i < |es|
    ensures now == Moved(es, first, i)
  {
    now := es[first := es[first].(count := es[first].count + es[i].count)];
    now := now[i := now[i].(count := 0)];
  }

  /** The merging loop; `unique` is how many keys its table has in the end. */
  method Merge(es: seq<Entry>) returns (now: seq<Entry>, unique: nat)
    ensures Merged(es, now)
    ensures Sum(now) == Sum(es)
    ensures unique == |Keys(es)|
  {
    now := es;
    var index: map<Label, nat> := map[];
    for i := 0 to |es|
      invariant MergedUpTo(es, now, i) && Indexed(es, i, index)
      invariant Sum(now) == Sum(es)
    {
      now, index := MergeOne(now, i, index, es);
    }
    unique := |index.Keys|;
  }

  /** The body of the merging loop. */
  method MergeOne(now: seq<Entry>, i: nat, index: map<Label, nat>, ghost es: seq<Entry>)
    returns (later: seq<Entry>, added: map<Label, nat>)
    requires i < |es| && MergedUpTo(es, now, i) && Indexed(es, i, index)
    ensures MergedUpTo(es, later, i + 1) && Indexed(es, i + 1, added) && Sum(later) == Sum(now)
  {
    var key := Key(now[i]);
    if key in index {
      SeenBefore(es, now, i, index);
      later := MoveSamples(now, index[key], i);
      added := index;
    } else {
      NewKey(es, now, i, index);
      later := now;
      added := index[key := i];
    }
  }

  /** The body of the merging loop for a key that the table has. */
  lemma SeenBefore(es: seq<Entry>, now: seq<Entry>, i: nat, index: map<Label, nat>)
    requires i < |es| && MergedUpTo(es, now, i) && Indexed(es, i, index) && Key(now[i]) in index
    ensures index[Key(now[i])] < i && Indexed(es, i + 1, index)
    ensures MergedUpTo(es, Moved(now, index[Key(now[i])], i), i + 1)
    ensures Sum(Moved(now, index[Key(now[i])], i)) == Sum(now)
  {
    var first := index[Key(es[i])];
    SumsStep(es, i);
    MergeStep(es, now, i, first, Sums(es, i), Sums(es, i + 1));
    SumMoved(now, first, i);
    IndexKept(es, i, index);
  }

  /** And for a key that it has not. */
  lemma NewKey(es: seq<Entry>, now: seq<Entry>, i: nat, index: map<Label, nat>)
    requires i < |es| && MergedUpTo(es, now, i) && Indexed(es, i, index) && Key(now[i]) !in index
    ensures MergedUpTo(es, now, i + 1) && Indexed(es, i + 1, index[Key(now[i]) := i])
  {
    SumsStep(es, i);
    SumOfMissing(es, i, Key(es[i]));
    NewIsFirst(es, i);
    NewStep(es, now, i, Sums(es, i), Sums(es, i + 1));
    IndexAdded(es, i, index);
  }

  lemma IndexKept(es: seq<Entry>, n: nat, index: map<Label, nat>)
    requires n < |es| && Indexed(es, n, index) && Key(es[n]) in index
    ensures Indexed(es, n + 1, index)
  {
    KeysPush(es, n);
  }

  lemma IndexAdded(es: seq<Entry>, n: nat, index: map<Label, nat>)
    requires n < |es| && Indexed(es, n, index) && Key(es[n]) !in index
    ensures Indexed(es, n + 1, index[Key(es[n]) := n])
  {
    KeysPush(es, n);
    NewIsFirst(es, n);
  }

  lemma KeysPush(es: seq<Entry>, n: nat)
    requires n < |es|
    ensures KeysUpTo(es, n + 1) == KeysUpTo(es, n) + {Key(es[n])}
  {
  }

  lemma MergeStep(es: seq<Entry>, now: seq<Entry>, n: nat, first: nat, sum: Label -> nat, more: Label -> nat)
    requires n < |es| && MergedBy(es, now, n, sum) && CountsOneMore(sum, more, es[n])
    requires first < n && Key(es[first]) == Key(es[n]) && First(es, first)
    ensures MergedBy(es, Moved(now, first, n), n + 1, more)
  {
    var later := Moved(now, first, n);
    forall i | 0 <= i < n + 1 ensures later[i].count == if First(es, i) then more(Key(es[i])) else 0 {
      if First(es, i) && Key(es[i]) == Key(es[first]) {
        assert i == first;
      }
    }
  }

  lemma NewIsFirst(es: seq<Entry>, n: nat)
    requires n < |es| && Key(es[n]) !in KeysUpTo(es, n)
    ensures First(es, n)
  {
  }

  lemma NewStep(es: seq<Entry>, now: seq<Entry>, n: nat, sum: Label -> nat, more: Label -> nat)
    requires n < |es| && MergedBy(es, now, n, sum) && CountsOneMore(sum, more, es[n])
    requires sum(Key(es[n])) == 0 && forall j :: 0 <= j < n ==> Key(es[j]) != Key(es[n])
    ensures MergedBy(es, now, n + 1, more)
  {
  }

  // ----- Sorting the top to the front

  /** `order` lists each index below `n` once; `back` is its inverse. */
  predicate Permutes(order: seq<nat>, back: seq<nat>, n: nat) {
    && |order| == |back| == n
    && (forall i :: 0 <= i < n ==> order[i] < n && back[order[i]] == i)
    && (forall j :: 0 <= j < n ==> back[j] < n && order[back[j]] == j)
  }

  /** What `std::partial_sort` promises: the same entries, the top `k` in descending order in front. */
  ghost predicate PartlySorted(es: seq<Entry>, now: seq<Entry>, k: nat, order: seq<nat>, back: seq<nat>) {
    && Permutes(order, back, |es|) && |now| == |es|
    && (forall i :: 0 <= i < |es| ==> now[i] == es[order[i]])
    && forall i, j :: 0 <= i < k && i < j < |es| ==> now[i].count >= now[j].count
  }

  /** The index of a largest count from `i` on. */
  method Largest(es: seq<Entry>, i: nat) returns (best: nat)
    requires i < |es|
    ensures i <= best < |es|
    ensures forall l :: i <= l < |es| ==> es[best].count >= es[l].count
  {
    best := i;
    for j := i + 1 to |es|
      invariant i <= best < |es|
      invariant forall l :: i <= l < j ==> es[best].count >= es[l].count
    {
      if es[j].count > es[best].count {
        best := j;
      }
    }
  }

  function Swapped<T>(s: seq<T>, i: nat, j: nat): seq<T>
    requires i < |s| && j < |s|
  {
    s[j := s[i]][i := s[j]]
  }

  method PartialSort(es: seq<Entry>, k: nat) returns (now: seq<Entry>, ghost order: seq<nat>, ghost back: seq<nat>)
    requires k <= |es|
    ensures PartlySorted(es, now, k, order, back)
    ensures Sum(now) == Sum(es)
  {
    now := es;
    order, back := seq(|es|, i => i), seq(|es|, i => i);
    for i := 0 to k
      invariant PartlySorted(es, now, i, order, back)
      invariant Sum(now) == Sum(es)
    {
      var best := Largest(now, i);
      SumSwap(now, i, best);
      SwapSorted(es, now, order, back, i, best);
      now := Swapped(now, i, best);
      back := back[order[i] := best][order[best] := i];
      order := Swapped(order, i, best);
    }
  }

  lemma SwapSorted(es: seq<Entry>, now: seq<Entry>, order: seq<nat>, back: seq<nat>, i: nat, best: nat)
    requires PartlySorted(es, now, i, order, back) && i <= best < |es|
    requires forall l :: i <= l < |es| ==> now[best].count >= now[l].count
    ensures PartlySorted(es, Swapped(now, i, best), i + 1, Swapped(order, i, best), back[order[i] := best][order[best] := i])
  {
    SwapPermutes(order, back, |es|, i, best);
    var later := Swapped(now, i, best);
    forall l, m | 0 <= l < i + 1 && l < m < |es| ensures later[l].count >= later[m].count {
      if l < i {
        assert later[l] == now[l];
      }
    }
  }

  lemma SumSwap(es: seq<Entry>, i: nat, j: nat)
    requires i < |es| && j < |es|
    ensures Sum(Swapped(es, i, j)) == Sum(es)
  {
    SumUpdate(es, j, es[i]);
    SumUpdate(es[j := es[i]], i, es[j]);
  }

  lemma SwapPermutes(order: seq<nat>, back: seq<nat>, n: nat, i: nat, j: nat)
    requires Permutes(order, back, n) && i < n && j < n
    ensures Permutes(Swapped(order, i, j), back[order[i] := j][order[j] := i], n)
  {
  }

  // ----- The report

  datatype Report = Report(shown: seq<Entry>, samplesShown: nat, samplesTotal: nat, unique: nat)

  predicate Shows(r: Report, key: Label) { exists i :: 0 <= i < |r.shown| && Key(r.shown[i]) == key }

  /** Each entry shown is a key of its own with all of that key's samples, in descending order, none of them empty. */
  ghost predicate TopEntries(es: seq<Entry>, r: Report) {
    && (forall i :: 0 <= i < |r.shown| ==> r.shown[i].count == SumOf(es, Key(r.shown[i])) && r.shown[i].count > 0)
    && (forall i, j :: 0 <= i < j < |r.shown| ==>
          Key(r.shown[i]) != Key(r.shown[j]) && r.shown[i].count >= r.shown[j].count)
  }

  /** And it stands for the first entry of its key: its address, offset and names are that one's. */
  ghost predicate StandsForFirst(es: seq<Entry>, e: Entry) {
    exists i :: 0 <= i < |es| && First(es, i) && e == es[i].(count := e.count)
  }

  ghost predicate NamedAsFirst(es: seq<Entry>, r: Report) {
    forall i :: 0 <= i < |r.shown| ==> StandsForFirst(es, r.shown[i])
  }

  /** A key left out has no samples, or the report is full and shows nothing with fewer. */
  ghost predicate NothingBetterOmitted(es: seq<Entry>, limit: nat, r: Report) {
    forall key :: key in Keys(es) && !Shows(r, key) ==>
      || SumOf(es, key) == 0
      || (|r.shown| == limit && forall i :: 0 <= i < |r.shown| ==> r.shown[i].count >= SumOf(es, key))
  }

  method Total(es: seq<Entry>) returns (total: nat)
    ensures total == Sum(es)
  {
    total := 0;
    for i := 0 to |es|
      invariant total == SumUpTo(es, i)
    {
      total := total + es[i].count;
    }
  }

  /** The loop that pops results without samples off the end. */
  method Trim(es: seq<Entry>) returns (now: seq<Entry>)
    ensures now <= es
    ensures forall i :: |now| <= i < |es| ==> es[i].count == 0
    ensures |now| > 0 ==> now[|now| - 1].count > 0
  {
    now := es;
    while now != [] && now[|now| - 1].count == 0
      invariant now <= es
      invariant forall i :: |now| <= i < |es| ==> es[i].count == 0
    {
      now := now[..|now| - 1];
    }
  }

  /** `get_hotspots`, from the gathered entries to the report. */
  method GetHotspots(es: seq<Entry>, limit: nat) returns (r: Report)
    ensures |r.shown| <= limit
    ensures TopEntries(es, r) && NamedAsFirst(es, r)
    ensures NothingBetterOmitted(es, limit, r)
    ensures r.samplesTotal == Sum(es) && r.samplesShown == Sum(r.shown) <= Sum(es)
    ensures r.samplesShown == r.samplesTotal <==> ShowsAll(es, r)
    ensures r.unique == |Keys(es)|
  {
    var total := Total(es);
    var merged, unique := Merge(es);
    var k := if limit < |merged| then limit else |merged|;
    var sorted: seq<Entry>;
    ghost var order, back;
    sorted, order, back := PartialSort(merged, k);
    r := CutOff(sorted, k, total, unique);
    ReportCorrect(es, merged, sorted, k, limit, order, back, r);
    ShownNames(es, merged, sorted, k, order, back, r);
  }

  /** The report of the first `k` results. */
  method CutOff(sorted: seq<Entry>, k: nat, total: nat, unique: nat) returns (r: Report)
    requires k <= |sorted|
    ensures Shown(sorted, k, r)
    ensures r.samplesShown == Sum(r.shown) && r.samplesTotal == total && r.unique == unique
  {
    var results := Trim(sorted[..k]);
    var samplesShown := Total(results);
    r := Report(results, samplesShown, total, unique);
    TrimmedShown(sorted, k, r);
  }

  lemma ReportCorrect(
    es: seq<Entry>, merged: seq<Entry>, sorted: seq<Entry>, k: nat, limit: nat, order: seq<nat>, back: seq<nat>, r: Report)
    requires Merged(es, merged) && PartlySorted(merged, sorted, k, order, back) && Sum(sorted) == Sum(es)
    requires k == (if limit < |merged| then limit else |merged|) && Shown(sorted, k, r)
    ensures |r.shown| <= limit && TopEntries(es, r) && NothingBetterOmitted(es, limit, r)
    ensures Sum(r.shown) <= Sum(es) && (Sum(r.shown) == Sum(es) <==> ShowsAll(es, r))
  {
    ShownIsTop(es, merged, sorted, k, order, back, r);
    OmittedIsWorse(es, merged, sorted, k, limit, order, back, r);
    ShownIsAll(es, merged, sorted, k, order, back, r);
  }

  /** Every key that has samples is in the report. */
  ghost predicate ShowsAll(es: seq<Entry>, r: Report) {
    forall key :: key in Keys(es) && SumOf(es, key) > 0 ==> Shows(r, key)
  }

  /** The report shows the nonempty ones among the first `k` of the sorted entries. */
  ghost predicate Shown(sorted: seq<Entry>, k: nat, r: Report) {
    && |r.shown| <= k <= |sorted| && r.shown == sorted[..|r.shown|]
    && (forall i :: |r.shown| <= i < k ==> sorted[i].count == 0)
    && (|r.shown| > 0 ==> r.shown[|r.shown| - 1].count > 0)
  }

  lemma TrimmedShown(sorted: seq<Entry>, k: nat, r: Report)
    requires k <= |sorted| && r.shown <= sorted[..k]
    requires forall i :: |r.shown| <= i < k ==> sorted[..k][i].count == 0
    requires |r.shown| > 0 ==> r.shown[|r.shown| - 1].count > 0
    ensures Shown(sorted, k, r)
  {
    forall i | |r.shown| <= i < k ensures sorted[i].count == 0 {
      assert sorted[..k][i].count == 0;
    }
  }

  /** Being sorted, the entries before the last one shown hold samples too. */
  lemma ShownHoldSamples(sorted: seq<Entry>, k: nat, r: Report, i: nat)
    requires Shown(sorted, k, r) && i < |r.shown|
    requires forall i, j :: 0 <= i < k && i < j < |sorted| ==> sorted[i].count >= sorted[j].count
    ensures r.shown[i] == sorted[i] && sorted[i].count > 0
  {
    var last := |r.shown| - 1;
    assert r.shown[last] == sorted[last];
    if i < last {
      assert sorted[i].count >= sorted[last].count;
    }
  }

  lemma HoldsItsSum(
    es: seq<Entry>, merged: seq<Entry>, sorted: seq<Entry>, k: nat, order: seq<nat>, back: seq<nat>, i: nat)
    requires Merged(es, merged) && PartlySorted(merged, sorted, k, order, back) && i < |sorted| && sorted[i].count > 0
    ensures sorted[i].count == SumOf(es, Key(sorted[i])) && Key(sorted[i]) in Keys(es)
  {
    assert sorted[i] == merged[order[i]];
    assert Key(merged[order[i]]) == Key(es[order[i]]);
  }

  lemma ShownNames(
    es: seq<Entry>, merged: seq<Entry>, sorted: seq<Entry>, k: nat, order: seq<nat>, back: seq<nat>, r: Report)
    requires Merged(es, merged) && PartlySorted(merged, sorted, k, order, back) && Shown(sorted, k, r)
    ensures NamedAsFirst(es, r)
  {
    forall i | 0 <= i < |r.shown| ensures StandsForFirst(es, r.shown[i]) {
      ShownHoldSamples(sorted, k, r, i);
      assert sorted[i] == merged[order[i]];
      assert First(es, order[i]);
    }
  }

  lemma ShownIsTop(
    es: seq<Entry>, merged: seq<Entry>, sorted: seq<Entry>, k: nat, order: seq<nat>, back: seq<nat>, r: Report)
    requires Merged(es, merged) && PartlySorted(merged, sorted, k, order, back) && Shown(sorted, k, r)
    ensures TopEntries(es, r)
  {
    forall i | 0 <= i < |r.shown| ensures r.shown[i].count == SumOf(es, Key(r.shown[i])) && r.shown[i].count > 0 {
      ShownHoldSamples(sorted, k, r, i);
      HoldsItsSum(es, merged, sorted, k, order, back, i);
    }
    forall i, j | 0 <= i < j < |r.shown|
      ensures Key(r.shown[i]) != Key(r.shown[j]) && r.shown[i].count >= r.shown[j].count
    {
      ShownHoldSamples(sorted, k, r, i);
      ShownHoldSamples(sorted, k, r, j);
      if Key(sorted[i]) == Key(sorted[j]) {
        OneHolder(es, merged, sorted, k, order, back, i, j);
      }
    }
  }

  /** The entry that holds a key's samples after merging. */
  lemma {:induction false} Holder(es: seq<Entry>, n: nat, key: Label) returns (i: nat)
    requires n <= |es| && key in KeysUpTo(es, n)
    ensures i < n && Key(es[i]) == key && First(es, i)
  {
    if n > 0 && key in KeysUpTo(es, n - 1) {
      i := Holder(es, n - 1, key);
    } else {
      KeysPush(es, n - 1);
      i := n - 1;
      forall j | 0 <= j < i ensures Key(es[j]) != Key(es[i]) {
        assert Key(es[..n - 1][j]) in KeysUpTo(es, n - 1);
      }
    }
  }

  /** Where a key's samples are among the sorted entries: shown, or past the limit, or nowhere for want of samples. */
  lemma HolderSorted(
    es: seq<Entry>, merged: seq<Entry>, sorted: seq<Entry>, k: nat, order: seq<nat>, back: seq<nat>, key: Label)
    returns (at: nat)
    requires Merged(es, merged) && PartlySorted(merged, sorted, k, order, back) && key in Keys(es)
    ensures at < |sorted| && Key(sorted[at]) == key && sorted[at].count == SumOf(es, key)
  {
    var i := Holder(es, |es|, key);
    at := back[i];
    assert sorted[at] == merged[order[at]] == merged[i];
  }

  lemma OmittedIsWorse(
    es: seq<Entry>, merged: seq<Entry>, sorted: seq<Entry>, k: nat, limit: nat, order: seq<nat>, back: seq<nat>, r: Report)
    requires Merged(es, merged) && PartlySorted(merged, sorted, k, order, back) && Shown(sorted, k, r)
    requires k == if limit < |merged| then limit else |merged|
    ensures NothingBetterOmitted(es, limit, r)
  {
    forall key | key in Keys(es) && !Shows(r, key) && SumOf(es, key) > 0
      ensures |r.shown| == limit && forall i :: 0 <= i < |r.shown| ==> r.shown[i].count >= SumOf(es, key)
    {
      var at := HolderSorted(es, merged, sorted, k, order, back, key);
      HolderPastShown(sorted, k, r, at, key);
      if |r.shown| < k {
        NoneBehindZero(sorted, k, r, at);
      }
      forall i | 0 <= i < |r.shown| ensures r.shown[i].count >= SumOf(es, key) {
        assert sorted[i].count >= sorted[at].count;
      }
    }
  }

  lemma HolderPastShown(sorted: seq<Entry>, k: nat, r: Report, at: nat, key: Label)
    requires Shown(sorted, k, r) && at < |sorted| && Key(sorted[at]) == key && sorted[at].count > 0 && !Shows(r, key)
    ensures at >= k
  {
    assert forall i :: 0 <= i < |r.shown| ==> Key(r.shown[i]) == Key(sorted[i]);
  }

  lemma NoneBehindZero(sorted: seq<Entry>, k: nat, r: Report, at: nat)
    requires Shown(sorted, k, r) && |r.shown| < k <= at < |sorted|
    requires forall i, j :: 0 <= i < k && i < j < |sorted| ==> sorted[i].count >= sorted[j].count
    ensures sorted[at].count == 0
  {
    var n := |r.shown|;
    assert sorted[n].count == 0;
  }

  lemma SumSplit(es: seq<Entry>, n: nat)
    requires n <= |es|
    ensures Sum(es[..n]) <= Sum(es)
    ensures Sum(es[..n]) == Sum(es) <==> forall at :: n <= at < |es| ==> es[at].count == 0
  {
    SumPrefix(es, n, n);
    SumRest(es, n, |es|);
  }

  lemma ShownIsAll(
    es: seq<Entry>, merged: seq<Entry>, sorted: seq<Entry>, k: nat, order: seq<nat>, back: seq<nat>, r: Report)
    requires Merged(es, merged) && PartlySorted(merged, sorted, k, order, back) && Shown(sorted, k, r)
    requires Sum(sorted) == Sum(es)
    ensures Sum(r.shown) <= Sum(es)
    ensures Sum(r.shown) == Sum(es) <==> ShowsAll(es, r)
  {
    SumSplit(sorted, |r.shown|);
    if Sum(r.shown) == Sum(es) {
      RestEmptyShowsAll(es, merged, sorted, k, order, back, r);
    }
    if ShowsAll(es, r) {
      forall at | |r.shown| <= at < |sorted| ensures sorted[at].count == 0 {
        RestIsShown(es, merged, sorted, k, order, back, r, at);
      }
    }
  }

  lemma RestEmptyShowsAll(
    es: seq<Entry>, merged: seq<Entry>, sorted: seq<Entry>, k: nat, order: seq<nat>, back: seq<nat>, r: Report)
    requires Merged(es, merged) && PartlySorted(merged, sorted, k, order, back) && Shown(sorted, k, r)
    requires forall at :: |r.shown| <= at < |sorted| ==> sorted[at].count == 0
    ensures ShowsAll(es, r)
  {
    forall key | key in Keys(es) && SumOf(es, key) > 0 ensures Shows(r, key) {
      var at := HolderSorted(es, merged, sorted, k, order, back, key);
      ShownHoldSamples(sorted, k, r, at);
      assert Key(r.shown[at]) == key;
    }
  }

  /** Two entries of one key that both hold samples after merging are the same entry. */
  lemma OneHolder(
    es: seq<Entry>, merged: seq<Entry>, sorted: seq<Entry>, k: nat, order: seq<nat>, back: seq<nat>, i: nat, j: nat)
    requires Merged(es, merged) && PartlySorted(merged, sorted, k, order, back) && i < |sorted| && j < |sorted|
    requires sorted[i].count > 0 && sorted[j].count > 0 && Key(sorted[i]) == Key(sorted[j])
    ensures i == j
  {
    assert sorted[i] == merged[order[i]] && sorted[j] == merged[order[j]];
    assert First(es, order[i]) && First(es, order[j]);
    assert order[i] == order[j];
    assert back[order[i]] == i && back[order[j]] == j;
  }

  lemma RestIsShown(
    es: seq<Entry>, merged: seq<Entry>, sorted: seq<Entry>, k: nat, order: seq<nat>, back: seq<nat>, r: Report, at: nat)
    requires Merged(es, merged) && PartlySorted(merged, sorted, k, order, back) && Shown(sorted, k, r)
    requires |r.shown| <= at < |sorted| && ShowsAll(es, r)
    ensures sorted[at].count == 0
  {
    if sorted[at].count > 0 {
      HoldsItsSum(es, merged, sorted, k, order, back, at);
      var key := Key(sorted[at]);
      assert Shows(r, key);
      var i :| 0 <= i < |r.shown| && Key(r.shown[i]) == key;
      ShownHoldSamples(sorted, k, r, i);
      OneHolder(es, merged, sorted, k, order, back, i, at);
    }
  }

  // ----- What a key stands for

  /** All samples of the functions with that name in that file. */
  function SumOfPair(es: seq<Entry>, n: nat, function_: string, file: string): nat
    requires n <= |es|
  {
    if n == 0 then 0
    else
      var e := es[n - 1];
      SumOfPair(es, n - 1, function_, file) + if e.function_ == function_ && e.file == file then e.count else 0
  }

  /** An entry with other names that run together to the same text, and with samples. */
  predicate Mistaken(e: Entry, function_: string, file: string) {
    e.count > 0 && (e.function_ != function_ || e.file != file) && e.function_ + e.file == function_ + file
  }

  /** The samples under a key are those of its function in its file, exactly if no entry with samples is mistaken for it. */
  lemma {:induction false} KeySumExactly(es: seq<Entry>, n: nat, function_: string, file: string)
    requires n <= |es|
    ensures SumOfPair(es, n, function_, file) <= SumOfUpTo(es, n, Label(function_ + file))
    ensures SumOfUpTo(es, n, Label(function_ + file)) == SumOfPair(es, n, function_, file)
       <==> forall i :: 0 <= i < n ==> !Mistaken(es[i], function_, file)
  {
    if n > 0 {
      KeySumExactly(es, n - 1, function_, file);
    }
  }

  /** There always are such names: move the first characters of the file to the end of the function. */
  lemma MovedNameMistaken(e: Entry, function_: string, middle: string, file: string)
    requires e.count > 0 && middle != [] && e.function_ == function_ + middle && e.file == file
    ensures Mistaken(e, function_, middle + file)
  {
    assert e.function_ + e.file == function_ + (middle + file);
  }

  /** Functions of one name in two files are never mistaken for each other, nor are two functions of one file. */
  lemma OneNameApart(e: Entry, function_: string, file: string)
    requires e.function_ == function_ || e.file == file
    ensures !Mistaken(e, function_, file)
  {
    if e.function_ == function_ {
      assert (e.function_ + e.file)[|function_|..] == e.file;
      assert (function_ + file)[|function_|..] == file;
    } else if |e.function_| == |function_| {
      assert (e.function_ + e.file)[..|function_|] == e.function_;
      assert (function_ + file)[..|function_|] == function_;
    } else {
      assert |e.function_ + e.file| != |function_ + file|;
    }
  }

  /** A limit that covers every key shows every sample. */
  lemma LimitCoversAll(es: seq<Entry>, limit: nat, r: Report)
    requires |r.shown| <= limit && TopEntries(es, r) && NothingBetterOmitted(es, limit, r)
    requires |Keys(es)| <= limit
    ensures ShowsAll(es, r)
  {
    forall key | key in Keys(es) && SumOf(es, key) > 0 ensures Shows(r, key) {
      if !Shows(r, key) {
        forall i | 0 <= i < |r.shown| ensures Key(r.shown[i]) in Keys(es) - {key} {
          if Key(r.shown[i]) !in Keys(es) {
            SumOfMissing(es, |es|, Key(r.shown[i]));
          }
        }
        DistinctFit(r.shown, Keys(es) - {key});
      }
    }
  }

  lemma {:induction false} DistinctFit(es: seq<Entry>, keys: set<Label>)
    requires forall i :: 0 <= i < |es| ==> Key(es[i]) in keys
    requires forall i, j :: 0 <= i < j < |es| ==> Key(es[i]) != Key(es[j])
    ensures |es| <= |keys|
  {
    if es != [] {
      var last := Key(es[|es| - 1]);
      DistinctFit(es[..|es| - 1], keys - {last});
    }
  }
}
