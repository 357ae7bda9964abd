/**
 * `main` and the `__main__` block: run every pending configuration once,
 * record its timing (or "nan" when the launch raised), append the record to
 * the data and dump the whole data after every run.
 */
module Sweep {
  import opened Wrappers
  import opened Dicts
  import opened Product
  import opened Launcher
  import opened Resume

  /** What a run whose launch raised records as its timing. */
  const Nan: string := "nan"

  /** The timing a run records: what `launch` returned, or "nan" when it raised. */
  function Timing(outcome: RunOutcome): (t: string)
    ensures outcome.Raised? ==> t == Nan
    ensures outcome.Exited? && AllSpace(outcome.stdout) ==> t == Nan
    ensures outcome.Exited? && !AllSpace(outcome.stdout) ==> IsLastToken(outcome.stdout, t)
  {
    match Launch(outcome)
    case Success(timing) => timing
    case Failure(_) => Nan
  }

  /** `combo["time"] = timing`: the configuration with its timing recorded. */
  function Record(combo: Dict, outcome: RunOutcome): Dict {
    SetItem(combo, Time, Str(Timing(outcome)))
  }

  /**
   * A record holds the run's timing under `time`, agrees with its
   * configuration on every other key, and deleting its `time` gives back the
   * configuration when that had none.
   */
  lemma RecordFields(combo: Dict, outcome: RunOutcome)
    ensures Get(Record(combo, outcome), Time) == Some(Str(Timing(outcome)))
    ensures forall k :: k != Time ==> Get(Record(combo, outcome), k) == Get(combo, k)
    ensures !HasKey(combo, Time) ==> Delete(Record(combo, outcome), Time) == Success(combo)
  {
    SetItemToMap(combo, Time, Str(Timing(outcome)));
    if !HasKey(combo, Time) {
      DeleteUndoesSetItem(combo, Time, Str(Timing(outcome)));
    }
  }

  /** An untimed configuration's record holds a `time` and deleting it gives the configuration back. */
  lemma RecordStrips(combo: Dict, outcome: RunOutcome)
    requires !HasKey(combo, Time)
    ensures HasKey(Record(combo, outcome), Time) && Without(Record(combo, outcome), Time) == combo
  {
    DeleteUndoesSetItem(combo, Time, Str(Timing(outcome)));
  }

  /** The records of a run over `combos` whose launches ended as `outcomes`. */
  function Records(combos: seq<Dict>, outcomes: seq<RunOutcome>): seq<Dict>
    requires |outcomes| == |combos|
  {
    seq(|combos|, i requires 0 <= i < |combos| => Record(combos[i], outcomes[i]))
  }

  /** `data=None` starts from an empty list. */
  function Initial(previous: Option<seq<Dict>>): seq<Dict> {
    if previous.Some? then previous.value else []
  }

  /** No candidate configuration already holds a `time`. */
  predicate Untimed(combos: seq<Dict>) {
    forall i :: 0 <= i < |combos| ==> !HasKey(combos[i], Time)
  }

  /** One pass of the loop's `try`: launch, then record the timing or "nan". */
  method RunOne(combo: Dict, outcome: RunOutcome) returns (record: Dict)
    ensures record == Record(combo, outcome)
  {
    var timing: string;
    var launched := Launch(outcome);
    if launched.Success? {
      timing := launched.value;
    } else {
      timing := Nan;
    }
    record := SetItem(combo, Time, Str(timing));
  }

  /**
   * The state of `main` after the first `n` runs: `data` holds the initial
   * records and one record per run, `rendered[j]` is what run `j` filled the
   * template with, and `dumps[j]` is the data as dumped after run `j`.
   */
  ghost predicate SweptUpTo(init: seq<Dict>, combos: seq<Dict>, outcomes: seq<RunOutcome>, n: nat,
                            data: seq<Dict>, rendered: seq<map<Key, Option<Value>>>, dumps: seq<seq<Dict>>)
    requires |outcomes| == |combos| && n <= |combos|
  {
    && data == init + Records(combos[..n], outcomes[..n])
    && |rendered| == n && (forall j :: 0 <= j < n ==> rendered[j] == SelectFields(combos[j]))
    && |dumps| == n && (forall j :: 0 <= j < n ==> dumps[j] == data[..|init| + j + 1])
  }

  /** One more run keeps `SweptUpTo`: render, record, append, dump. */
  lemma SweptStep(init: seq<Dict>, combos: seq<Dict>, outcomes: seq<RunOutcome>, n: nat,
                  data: seq<Dict>, rendered: seq<map<Key, Option<Value>>>, dumps: seq<seq<Dict>>)
    requires |outcomes| == |combos| && n < |combos|
    requires SweptUpTo(init, combos, outcomes, n, data, rendered, dumps)
    ensures SweptUpTo(init, combos, outcomes, n + 1, data + [Record(combos[n], outcomes[n])],
                      rendered + [SelectFields(combos[n])], dumps + [data + [Record(combos[n], outcomes[n])]])
  {
    var record := Record(combos[n], outcomes[n]);
    var data' := data + [record];
    var done := Records(combos[..n], outcomes[..n]);
    RecordsSnoc(combos, outcomes, n);
    assert data' == init + (done + [record]) by {
      assert init + (done + [record]) == (init + done) + [record];
    }
    DumpsStep(init, data, record, dumps);
  }

  lemma RecordsSnoc(combos: seq<Dict>, outcomes: seq<RunOutcome>, n: nat)
    requires |outcomes| == |combos| && n < |combos|
    ensures |Records(combos[..n], outcomes[..n])| == n
    ensures Records(combos[..n + 1], outcomes[..n + 1]) == Records(combos[..n], outcomes[..n]) + [Record(combos[n], outcomes[n])]
  {
  }

  /** Appending a record keeps every earlier dump a prefix of the data, and adds the whole data as the last dump. */
  lemma DumpsStep(init: seq<Dict>, data: seq<Dict>, record: Dict, dumps: seq<seq<Dict>>)
    requires |data| == |init| + |dumps|
    requires forall j :: 0 <= j < |dumps| ==> dumps[j] == data[..|init| + j + 1]
    ensures forall j :: 0 <= j < |dumps| + 1 ==> (dumps + [data + [record]])[j] == (data + [record])[..|init| + j + 1]
  {
    var data' := data + [record];
    forall j | 0 <= j < |dumps| + 1 ensures (dumps + [data'])[j] == data'[..|init| + j + 1] {
      if j < |dumps| {
        PrefixOfAppend(data, record, |init| + j + 1);
      } else {
        assert data'[..|init| + j + 1] == data';
      }
    }
  }

  lemma PrefixOfAppend(s: seq<Dict>, x: Dict, n: nat)
    requires n <= |s|
    ensures (s + [x])[..n] == s[..n]
  {
  }

  /**
   * `main(test_matrix, data)`: for each configuration in turn, render its
   * run config, launch it, record the timing and append the record, then
   * dump the data so far. `rendered[i]` is what run `i` fills the template
   * with; `dumps[i]` is the document written after run `i`, the data up to
   * and including that run's record.
   */
  method RunSweep(combos: seq<Dict>, outcomes: seq<RunOutcome>, previous: Option<seq<Dict>>)
    returns (data: seq<Dict>, rendered: seq<map<Key, Option<Value>>>, dumps: seq<seq<Dict>>)
    requires |outcomes| == |combos|
    ensures data == Initial(previous) + Records(combos, outcomes)
    ensures |rendered| == |combos| && forall i :: 0 <= i < |combos| ==> rendered[i] == SelectFields(combos[i])
    ensures |dumps| == |combos|
    ensures forall i :: 0 <= i < |combos| ==> dumps[i] == data[..|Initial(previous)| + i + 1]
  {
    var init := Initial(previous);
    data := init;
    rendered := [];
    dumps := [];
    assert data == init + Records(combos[..0], outcomes[..0]);
    for i := 0 to |combos|
      invariant SweptUpTo(init, combos, outcomes, i, data, rendered, dumps)
    {
      SweptStep(init, combos, outcomes, i, data, rendered, dumps);
      rendered := rendered + [SelectFields(combos[i])];
      var record := RunOne(combos[i], outcomes[i]);
      data := data + [record];
      dumps := dumps + [data];
    }
    assert combos[..|combos|] == combos && outcomes[..|outcomes|] == outcomes;
  }

  /** The records of untimed configurations are timed and strip back to those configurations. */
  lemma RecordsRecorded(combos: seq<Dict>, outcomes: seq<RunOutcome>)
    requires |outcomes| == |combos| && Untimed(combos)
    ensures AllTimed(Records(combos, outcomes))
    ensures Recorded(Records(combos, outcomes)) == Identities(combos)
  {
    var rs := Records(combos, outcomes);
    forall i | 0 <= i < |rs| ensures HasKey(rs[i], Time) && Without(rs[i], Time) == combos[i] {
      RecordStrips(combos[i], outcomes[i]);
    }
    RecordedStripsTo(rs, combos);
  }

  /** Resuming after an uninterrupted sweep over `combos` finds nothing left to run. */
  lemma ResumeAfterCompleteSweep(combos: seq<Dict>, outcomes: seq<RunOutcome>)
    requires |outcomes| == |combos| && Untimed(combos)
    ensures Unrecorded(Recorded(Records(combos, outcomes)), combos) == []
  {
    RecordsRecorded(combos, outcomes);
    UnrecordedAllDone(Recorded(Records(combos, outcomes)), combos);
  }

  /** Configurations with pairwise different identities. */
  predicate DistinctIdentities(combos: seq<Dict>) {
    forall i, j :: 0 <= i < j < |combos| ==> Identity(combos[i]) != Identity(combos[j])
  }

  /** With the first `k` candidates done and none after them, the first `n` leave exactly `k..n` to run. */
  lemma {:induction false} UnrecordedBeyondDone(done: set<Fingerprint>, combos: seq<Dict>, k: nat, n: nat)
    requires k <= n <= |combos|
    requires forall j :: 0 <= j < k ==> Identity(combos[j]) in done
    requires forall j :: k <= j < |combos| ==> Identity(combos[j]) !in done
    ensures Unrecorded(done, combos[..n]) == combos[k..n]
  {
    if n == k {
      forall c | c in combos[..k] ensures Identity(c) in done {
        var j :| 0 <= j < k && combos[..k][j] == c;
      }
      UnrecordedAllDone(done, combos[..k]);
    } else {
      UnrecordedBeyondDone(done, combos, k, n - 1);
      assert combos[..n][..n - 1] == combos[..n - 1];
      assert combos[..n][n - 1] == combos[n - 1];
      assert combos[k..n] == combos[k..n - 1] + [combos[n - 1]];
    }
  }

  /** Of configurations with distinct identities, exactly the first `k` have their identity among those of the first `k`. */
  lemma PrefixDone(combos: seq<Dict>, k: nat)
    requires k <= |combos| && DistinctIdentities(combos)
    ensures forall j :: 0 <= j < k ==> Identity(combos[j]) in Identities(combos[..k])
    ensures forall j :: k <= j < |combos| ==> Identity(combos[j]) !in Identities(combos[..k])
  {
    var done := Identities(combos[..k]);
    forall j | 0 <= j < k ensures Identity(combos[j]) in done {
      assert combos[..k][j] == combos[j];
      assert combos[j] in combos[..k];
    }
    forall j | k <= j < |combos| ensures Identity(combos[j]) !in done {
      forall c | c in combos[..k] ensures Identity(c) != Identity(combos[j]) {
        var i :| 0 <= i < k && combos[..k][i] == c;
      }
    }
  }

  /**
   * Resuming after a sweep interrupted once the first `k` configurations were
   * recorded runs exactly the remaining ones, in order.
   */
  lemma ResumeAfterInterruption(combos: seq<Dict>, outcomes: seq<RunOutcome>, k: nat)
    requires |outcomes| == |combos| && Untimed(combos) && DistinctIdentities(combos)
    requires k <= |combos|
    ensures Unrecorded(Recorded(Records(combos[..k], outcomes[..k])), combos) == combos[k..]
  {
    assert Untimed(combos[..k]);
    RecordsRecorded(combos[..k], outcomes[..k]);
    PrefixDone(combos, k);
    UnrecordedBeyondDone(Identities(combos[..k]), combos, k, |combos|);
    assert combos[..|combos|] == combos;
  }

  /** After a resumed sweep, resuming again finds every candidate recorded. */
  lemma SecondResumeFindsNothing(previous: seq<Dict>, candidates: seq<Dict>, outcomes: seq<RunOutcome>)
    requires Untimed(candidates)
    requires |outcomes| == |Unrecorded(Recorded(previous), candidates)|
    ensures Unrecorded(Recorded(previous + Records(Unrecorded(Recorded(previous), candidates), outcomes)), candidates) == []
  {
    var pending := Unrecorded(Recorded(previous), candidates);
    var data := previous + Records(pending, outcomes);
    UnrecordedMembers(Recorded(previous), candidates);
    forall i | 0 <= i < |pending| ensures !HasKey(pending[i], Time) {
      assert pending[i] in candidates;
      var j :| 0 <= j < |candidates| && candidates[j] == pending[i];
    }
    RecordsRecorded(pending, outcomes);
    RecordedAppend(previous, Records(pending, outcomes));
    forall c | c in candidates ensures Identity(c) in Recorded(data) {
      if Identity(c) !in Recorded(previous) {
        assert c in pending;
      }
    }
    UnrecordedAllDone(Recorded(data), candidates);
  }

  /** No configuration is recorded twice: the records' stripped identities are pairwise different. */
  predicate UniqueRuns(records: seq<Dict>) {
    forall i, j :: 0 <= i < j < |records| ==> Identity(Without(records[i], Time)) != Identity(Without(records[j], Time))
  }

  /**
   * A resumed sweep over candidates with distinct identities keeps the data
   * free of repeated configurations.
   */
  lemma ResumeKeepsRunsUnique(previous: seq<Dict>, candidates: seq<Dict>, outcomes: seq<RunOutcome>)
    requires UniqueRuns(previous)
    requires Untimed(candidates) && DistinctIdentities(candidates)
    requires |outcomes| == |Unrecorded(Recorded(previous), candidates)|
    ensures UniqueRuns(previous + Records(Unrecorded(Recorded(previous), candidates), outcomes))
  {
    var pending := Unrecorded(Recorded(previous), candidates);
    var rs := Records(pending, outcomes);
    var positions := UnrecordedIsFilter(Recorded(previous), candidates);
    UnrecordedMembers(Recorded(previous), candidates);
    forall i | 0 <= i < |rs| ensures Identity(Without(rs[i], Time)) == Identity(pending[i]) && Identity(pending[i]) !in Recorded(previous) {
      assert pending[i] in pending;
      var j :| 0 <= j < |candidates| && candidates[j] == pending[i];
      RecordStrips(pending[i], outcomes[i]);
    }
    forall a, b | 0 <= a < b < |rs| ensures Identity(Without(rs[a], Time)) != Identity(Without(rs[b], Time)) {
      assert pending[a] == candidates[positions[a]] && pending[b] == candidates[positions[b]];
      assert positions[a] < positions[b];
    }
    UniqueRunsAppend(previous, rs);
  }

  lemma UniqueRunsAppend(previous: seq<Dict>, rs: seq<Dict>)
    requires UniqueRuns(previous) && UniqueRuns(rs)
    requires forall i :: 0 <= i < |rs| ==> Identity(Without(rs[i], Time)) !in Recorded(previous)
    ensures UniqueRuns(previous + rs)
  {
    var data := previous + rs;
    forall i, j | 0 <= i < j < |data| ensures Identity(Without(data[i], Time)) != Identity(Without(data[j], Time)) {
      if j < |previous| {
        assert data[i] == previous[i] && data[j] == previous[j];
      } else if i < |previous| {
        assert data[i] == previous[i] && data[j] == rs[j - |previous|];
        assert Identity(Without(previous[i], Time)) in Recorded(previous);
      } else {
        assert data[i] == rs[i - |previous|] && data[j] == rs[j - |previous|];
      }
    }
  }

  /** The configurations a run launches: all of them, or those `previousRuns` has not recorded. */
  function Pending(m: Matrix, previousRuns: Option<seq<Dict>>): seq<Dict> {
    if previousRuns.Some? then Unrecorded(Recorded(previousRuns.value), ProductDict(m))
    else ProductDict(m)
  }

  /** The outcome of launching each configuration. */
  function Outcomes(combos: seq<Dict>, run: Dict -> RunOutcome): (outcomes: seq<RunOutcome>)
    ensures |outcomes| == |combos|
  {
    seq(|combos|, i requires 0 <= i < |combos| => run(combos[i]))
  }

  lemma ProductDictUntimed(m: Matrix)
    requires Time !in KeyList(m)
    ensures Untimed(ProductDict(m))
  {
    forall i | 0 <= i < |ProductDict(m)| ensures !HasKey(ProductDict(m)[i], Time) {
      var d := ProductDict(m)[i];
      assert d in ProductDict(m);
      assert KeyList(d) == KeyList(m);
      forall j | 0 <= j < |d| ensures d[j].0 != Time {
        assert KeyList(m)[j] in KeyList(m);
      }
    }
  }

  /**
   * The `__main__` block: generate every configuration of `m`; when restarting
   * from `previousRuns`, drop those already recorded there; run the rest, each
   * ending as `run` says. Fails only as `list_differences` does.
   */
  method Sweep(m: Matrix, previousRuns: Option<seq<Dict>>, run: Dict -> RunOutcome) returns (r: Result<seq<Dict>, Exception>)
    ensures r.Failure? <==> previousRuns.Some? && !AllTimed(previousRuns.value)
    ensures r.Failure? ==> r.error == KeyError(Time)
    ensures r.Success? ==> r.value == Initial(previousRuns) + Records(Pending(m, previousRuns), Outcomes(Pending(m, previousRuns), run))
    ensures r.Success? ==> AllTimed(r.value)
    ensures r.Success? && previousRuns.None? ==> |r.value| == Size(Lists(m))
    ensures r.Success? && Time !in KeyList(m) ==> Unrecorded(Recorded(r.value), ProductDict(m)) == []
  {
    var candidates := ProductDict(m);
    var pending := candidates;
    if previousRuns.Some? {
      var differences := ListDifferences(previousRuns.value, candidates);
      if differences.Failure? {
        return Failure(differences.error);
      }
      pending := differences.value;
    }
    assert pending == Pending(m, previousRuns);
    var outcomes := Outcomes(pending, run);
    var data, rendered, dumps := RunSweep(pending, outcomes, previousRuns);
    r := Success(data);
    TimedAfterSweep(Initial(previousRuns), pending, outcomes);
    if Time !in KeyList(m) {
      ResumeAfterSweepChangesNothing(m, previousRuns, run, run);
      assert Pending(m, Some(data)) == Unrecorded(Recorded(data), ProductDict(m));
    }
  }

  /** Every record holds a `time`, so timed data stays timed when records are appended. */
  lemma TimedAfterSweep(init: seq<Dict>, combos: seq<Dict>, outcomes: seq<RunOutcome>)
    requires |outcomes| == |combos| && AllTimed(init)
    ensures AllTimed(init + Records(combos, outcomes))
  {
    var data := init + Records(combos, outcomes);
    forall i | 0 <= i < |data| ensures HasKey(data[i], Time) {
      if i >= |init| {
        RecordFields(combos[i - |init|], outcomes[i - |init|]);
      }
    }
  }

  /**
   * Resuming from the data of a successful sweep over a matrix without a
   * `time` parameter raises nothing, launches nothing and leaves the data as
   * it was, whatever the launches would do.
   */
  lemma ResumeAfterSweepChangesNothing(m: Matrix, previousRuns: Option<seq<Dict>>, run: Dict -> RunOutcome, again: Dict -> RunOutcome)
    requires Time !in KeyList(m)
    requires previousRuns.Some? ==> AllTimed(previousRuns.value)
    ensures var data := Initial(previousRuns) + Records(Pending(m, previousRuns), Outcomes(Pending(m, previousRuns), run));
      && AllTimed(data)
      && Pending(m, Some(data)) == []
      && Initial(Some(data)) + Records(Pending(m, Some(data)), Outcomes(Pending(m, Some(data)), again)) == data
  {
    var pending := Pending(m, previousRuns);
    var outcomes := Outcomes(pending, run);
    var data := Initial(previousRuns) + Records(pending, outcomes);
    TimedAfterSweep(Initial(previousRuns), pending, outcomes);
    ProductDictUntimed(m);
    if previousRuns.Some? {
      SecondResumeFindsNothing(previousRuns.value, ProductDict(m), outcomes);
    } else {
      assert data == Records(ProductDict(m), outcomes);
      ResumeAfterCompleteSweep(ProductDict(m), outcomes);
    }
    assert Pending(m, Some(data)) == [];
    assert Records([], Outcomes([], again)) == [];
  }

  /** A launch that printed a single token records that token. */
  lemma TimingOfToken(w: string)
    requires w != [] && NoSpace(w)
    ensures Timing(Exited(w)) == w
  {
    assert TokenAt(w, 0, w);
    ParseTimingIffLastToken(w, w);
  }

  lemma TestMatrixUntimed(m: Matrix)
    requires m == TestMatrix
    ensures Time !in KeyList(m)
  {
    assert |m| == 4;
    assert |m[0].0| == 7 && |m[1].0| == 11 && |m[2].0| == 10 && |m[3].0| == 14;
    forall i | 0 <= i < |m| ensures KeyList(m)[i] != Time {
      assert |KeyList(m)[i]| != |Time|;
    }
  }

  /**
   * The two-candidate matrix with launches printing one timing each (such as
   * "1.23" and "4.56"): the first run records both timings, in candidate
   * order, and resuming after it launches nothing.
   */
  lemma MockedTestMatrixSweep(m: Matrix, first: string, second: string)
    requires m == TestMatrix
    requires first != [] && NoSpace(first) && second != [] && NoSpace(second)
    ensures |ProductDict(m)| == 2
    ensures var data := Records(ProductDict(m), [Exited(first), Exited(second)]);
      && |data| == 2
      && Get(data[0], Time) == Some(Str(first))
      && Get(data[1], Time) == Some(Str(second))
      && Unrecorded(Recorded(data), ProductDict(m)) == []
  {
    TestMatrixCombinations(m);
    var combos := ProductDict(m);
    var outcomes := [Exited(first), Exited(second)];
    TimingOfToken(first);
    TimingOfToken(second);
    RecordFields(combos[0], outcomes[0]);
    RecordFields(combos[1], outcomes[1]);
    TestMatrixUntimed(m);
    ProductDictUntimed(m);
    ResumeAfterCompleteSweep(combos, outcomes);
  }

  /** A first launch that raises records "nan", and the second run still records its timing. */
  lemma PartialFailureScenario(first: Dict, second: Dict, timing: string)
    requires timing != [] && NoSpace(timing)
    ensures var data := Records([first, second], [Raised, Exited(timing)]);
      && |data| == 2
      && Get(data[0], Time) == Some(Str(Nan))
      && Get(data[1], Time) == Some(Str(timing))
  {
    TimingOfToken(timing);
    RecordFields(first, Raised);
    RecordFields(second, Exited(timing));
  }
}
