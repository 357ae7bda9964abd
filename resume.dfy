/**
 * `list_differences`: which candidate configurations still have to run, given
 * the records persisted by earlier runs. A record is identified by the set of
 * its key/value pairs once its `time` is removed.
 */
module Resume {
  import opened Wrappers
  import opened Dicts

  /** The key under which a run's timing is recorded. */
  const Time: Key := "time"

  /** The identity of a configuration, `frozenset(d.items())`. */
  type Fingerprint = set<(Key, Value)>

  /** Every record holds a `time` (what `del subdict["time"]` needs). */
  predicate AllTimed(records: seq<Dict>) {
    forall i :: 0 <= i < |records| ==> HasKey(records[i], Time)
  }

  /** The identities of the records with their `time` removed. */
  function Recorded(records: seq<Dict>): set<Fingerprint> {
    set i | 0 <= i < |records| :: Identity(Without(records[i], Time))
  }

  /** The identities of some configurations. */
  function Identities(combos: seq<Dict>): set<Fingerprint> {
    set c | c in combos :: Identity(c)
  }

  /** Records that strip back to `combos`, position by position, have recorded exactly their identities. */
  lemma RecordedStripsTo(records: seq<Dict>, combos: seq<Dict>)
    requires |records| == |combos|
    requires forall i :: 0 <= i < |records| ==> Without(records[i], Time) == combos[i]
    ensures Recorded(records) == Identities(combos)
  {
    forall h | h in Recorded(records) ensures h in Identities(combos) {
      var i :| 0 <= i < |records| && h == Identity(Without(records[i], Time));
      assert combos[i] in combos;
    }
    forall h | h in Identities(combos) ensures h in Recorded(records) {
      var c :| c in combos && h == Identity(c);
      var i :| 0 <= i < |combos| && combos[i] == c;
      assert Identity(Without(records[i], Time)) == h;
    }
  }

  /** The candidates whose identity is not in `done`, in their original order. */
  function Unrecorded(done: set<Fingerprint>, candidates: seq<Dict>): seq<Dict> {
    if candidates == [] then []
    else
      var last := candidates[|candidates| - 1];
      var kept := Unrecorded(done, candidates[..|candidates| - 1]);
      if Identity(last) in done then kept else kept + [last]
  }

  /**
   * The first loop of `list_differences`: `del subdict["time"]` on a copy of
   * every previous record, in order; the first record without a `time`
   * raises `KeyError('time')`.
   */
  method StripTimes(previousData: seq<Dict>) returns (r: Result<seq<Dict>, Exception>)
    ensures r.Failure? <==> !AllTimed(previousData)
    ensures r.Failure? ==> r.error == KeyError(Time)
    ensures r.Success? ==> |r.value| == |previousData|
    ensures r.Success? ==> forall j :: 0 <= j < |previousData| ==> r.value[j] == Without(previousData[j], Time)
  {
    // `deepcopy`: the records are values, so the caller's list stays as it was
    var previous := previousData;
    for i := 0 to |previous|
      invariant |previous| == |previousData|
      invariant forall j :: 0 <= j < i ==> HasKey(previousData[j], Time) && previous[j] == Without(previousData[j], Time)
      invariant forall j :: i <= j < |previous| ==> previous[j] == previousData[j]
    {
      var stripped := Delete(previous[i], Time);
      if stripped.Failure? {
        return Failure(stripped.error);
      }
      previous := previous[i := stripped.value];
    }
    return Success(previous);
  }

  /**
   * `list_differences(previous_data, default_matrix)`: raises `KeyError('time')`
   * when some previous record has no `time`; otherwise keeps exactly the
   * candidates whose identity no previous record has.
   */
  method ListDifferences(previousData: seq<Dict>, candidates: seq<Dict>) returns (r: Result<seq<Dict>, Exception>)
    ensures r.Failure? <==> !AllTimed(previousData)
    ensures r.Failure? ==> r.error == KeyError(Time)
    ensures r.Success? ==> r.value == Unrecorded(Recorded(previousData), candidates)
  {
    var stripped := StripTimes(previousData);
    if stripped.Failure? {
      return Failure(stripped.error);
    }
    var previous := stripped.value;
    var prevHashes := seq(|previous|, j requires 0 <= j < |previous| => Identity(previous[j]));
    var defHashes := seq(|candidates|, j requires 0 <= j < |candidates| => Identity(candidates[j]));
    assert forall h :: h in prevHashes <==> h in Recorded(previousData) by {
      forall h ensures h in prevHashes <==> h in Recorded(previousData) {
        if h in Recorded(previousData) {
          var j :| 0 <= j < |previousData| && h == Identity(Without(previousData[j], Time));
          assert prevHashes[j] == h;
        }
      }
    }
    var returnList := [];
    for index := 0 to |defHashes|
      invariant returnList == Unrecorded(Recorded(previousData), candidates[..index])
    {
      assert candidates[..index + 1][..index] == candidates[..index];
      if defHashes[index] !in prevHashes {
        returnList := returnList + [candidates[index]];
      }
    }
    assert candidates[..|candidates|] == candidates;
    return Success(returnList);
  }

  /** A candidate is kept exactly when its identity is not among `done`. */
  lemma {:induction false} UnrecordedMembers(done: set<Fingerprint>, candidates: seq<Dict>)
    ensures forall c :: c in Unrecorded(done, candidates) <==> c in candidates && Identity(c) !in done
  {
    if candidates != [] {
      var init := candidates[..|candidates| - 1];
      UnrecordedMembers(done, init);
      assert candidates == init + [candidates[|candidates| - 1]];
    }
  }

  /** `sub` lists `s` at the strictly increasing positions `positions`. */
  ghost predicate SubsequenceAt(sub: seq<Dict>, s: seq<Dict>, positions: seq<nat>) {
    && |positions| == |sub|
    && (forall k :: 0 <= k < |positions| ==> positions[k] < |s| && sub[k] == s[positions[k]])
    && (forall k, l :: 0 <= k < l < |positions| ==> positions[k] < positions[l])
  }

  /**
   * The result is the subsequence of the candidates at the positions whose
   * identity is not in `done`: every such position, in increasing order.
   */
  lemma {:induction false} UnrecordedIsFilter(done: set<Fingerprint>, candidates: seq<Dict>) returns (positions: seq<nat>)
    ensures SubsequenceAt(Unrecorded(done, candidates), candidates, positions)
    ensures forall j :: 0 <= j < |candidates| ==> (j in positions <==> Identity(candidates[j]) !in done)
  {
    if candidates == [] {
      positions := [];
    } else {
      var n := |candidates| - 1;
      var init := candidates[..n];
      var kept := Unrecorded(done, init);
      var p := UnrecordedIsFilter(done, init);
      assert forall j :: 0 <= j < n ==> init[j] == candidates[j];
      assert n !in p;
      if Identity(candidates[n]) in done {
        assert Unrecorded(done, candidates) == kept;
        positions := p;
      } else {
        assert Unrecorded(done, candidates) == kept + [candidates[n]];
        positions := p + [n];
        assert forall j :: 0 <= j < n ==> (j in positions <==> j in p);
      }
    }
  }

  /** Nothing recorded: every candidate is kept, in order. */
  lemma {:induction false} UnrecordedNothingDone(candidates: seq<Dict>)
    ensures Unrecorded({}, candidates) == candidates
  {
    if candidates != [] {
      UnrecordedNothingDone(candidates[..|candidates| - 1]);
    }
  }

  /** Every candidate recorded: nothing is kept. */
  lemma {:induction false} UnrecordedAllDone(done: set<Fingerprint>, candidates: seq<Dict>)
    requires forall c :: c in candidates ==> Identity(c) in done
    ensures Unrecorded(done, candidates) == []
  {
    if candidates != [] {
      UnrecordedAllDone(done, candidates[..|candidates| - 1]);
    }
  }

  /** Filtering the remaining work again removes nothing more. */
  lemma {:induction false} UnrecordedIdempotent(done: set<Fingerprint>, candidates: seq<Dict>)
    ensures Unrecorded(done, Unrecorded(done, candidates)) == Unrecorded(done, candidates)
  {
    if candidates != [] {
      var n := |candidates| - 1;
      var kept := Unrecorded(done, candidates[..n]);
      UnrecordedIdempotent(done, candidates[..n]);
      if Identity(candidates[n]) !in done {
        assert (kept + [candidates[n]])[..|kept|] == kept;
      }
    }
  }

  /** With no persisted records, `list_differences` keeps the whole candidate list. */
  lemma ResumeFromNothing(candidates: seq<Dict>)
    ensures Unrecorded(Recorded([]), candidates) == candidates
  {
    assert Recorded([]) == {};
    UnrecordedNothingDone(candidates);
  }

  lemma RecordedAppend(a: seq<Dict>, b: seq<Dict>)
    ensures Recorded(a + b) == Recorded(a) + Recorded(b)
  {
    var ab := a + b;
    forall h | h in Recorded(ab) ensures h in Recorded(a) + Recorded(b) {
      var i :| 0 <= i < |ab| && h == Identity(Without(ab[i], Time));
      if i < |a| {
        assert ab[i] == a[i];
      } else {
        assert ab[i] == b[i - |a|];
      }
    }
    forall h | h in Recorded(a) + Recorded(b) ensures h in Recorded(ab) {
      if h in Recorded(a) {
        var i :| 0 <= i < |a| && h == Identity(Without(a[i], Time));
        assert ab[i] == a[i];
      } else {
        var i :| 0 <= i < |b| && h == Identity(Without(b[i], Time));
        assert ab[|a| + i] == b[i];
      }
    }
  }
}
