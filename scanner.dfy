/** One cycle of the live-match scanner: for each fetched record, skip it when
    its fixture was already signalled, extract its fields, apply the trigger
    engine, and on a signal that was delivered remember the fixture in the
    dedup set, which is emptied as soon as it holds more than 500 ids. */
module Scanner {

  import opened Wrappers
  import opened Score
  import opened Leagues
  import opened Records
  import opened Triggers

  /** The dedup set is cleared once its size exceeds this. */
  const Capacity: nat := 500

  /** Remembers a delivered fixture: add it, then clear everything when the
      set has grown past the capacity, the id just added included. */
  function Admit(sent: set<int>, fixture: int): (r: set<int>)
    ensures |r| <= Capacity
    ensures r == sent + {fixture} || r == {}
    ensures |sent| < Capacity ==> r == sent + {fixture}
    ensures |sent + {fixture}| <= Capacity <==> r == sent + {fixture}
    ensures |sent + {fixture}| > Capacity ==> r == {}
  {
    var grown := sent + {fixture};
    if |grown| > Capacity then {} else grown
  }

  /** One iteration of the per-match loop: the dedup set afterwards and the
      signal delivered, if any. `delivered` is whether sending the message
      completed without raising. */
  function Step(sent: set<int>, raw: RawRecord, delivered: bool): (r: (set<int>, Option<Signal>))
    ensures r.1.None? ==> r.0 == sent
    ensures !delivered ==> r == (sent, None)
    ensures r.1.Some? ==>
      && raw.fixtureId == Some(r.1.value.fixture)
      && r.1.value.fixture !in sent
      && r.0 == Admit(sent, r.1.value.fixture)
    ensures
      && raw.fixtureId.Some? && raw.fixtureId.value !in sent
      && Extract(raw).Some? && Evaluate(Extract(raw).value).Some?
      && delivered
      ==> r == (Admit(sent, raw.fixtureId.value), Evaluate(Extract(raw).value))
  {
    match raw.fixtureId
    case None => (sent, None)
    case Some(fid) =>
      if fid in sent then (sent, None)
      else match Extract(raw)
        case None => (sent, None)
        case Some(ev) =>
          match Evaluate(ev)
          case None => (sent, None)
          case Some(signal) =>
            if delivered then (Admit(sent, fid), Some(signal)) else (sent, None)
  }

  /** The records a step skips without touching the set: a missing key, a
      fixture already signalled, a league outside the allow-list; and the
      signal it delivers otherwise is the trigger engine's. */
  lemma StepSkips(sent: set<int>, raw: RawRecord, delivered: bool)
    ensures Extract(raw).None? ==> Step(sent, raw, delivered) == (sent, None)
    ensures raw.fixtureId.Some? && raw.fixtureId.value in sent ==> Step(sent, raw, delivered) == (sent, None)
    ensures Extract(raw).Some? && !InAllowList(Extract(raw).value.league) ==> Step(sent, raw, delivered) == (sent, None)
    ensures Step(sent, raw, delivered).1.Some? ==>
      Extract(raw).Some? && Step(sent, raw, delivered).1 == Evaluate(Extract(raw).value)
  {
    if Extract(raw).Some? {
      EvaluateFollowsRules(Extract(raw).value);
    }
  }

  function AsSeq(o: Option<Signal>): seq<Signal> {
    if o.Some? then [o.value] else []
  }

  /** A whole cycle over the fetched records, in order: the final dedup set and
      the signals delivered. */
  function Run(sent: set<int>, records: seq<RawRecord>, delivered: seq<bool>): (set<int>, seq<Signal>)
    requires |delivered| == |records|
    decreases |records|
  {
    if |records| == 0 then (sent, [])
    else
      var n := |records| - 1;
      var before := Run(sent, records[..n], delivered[..n]);
      var after := Step(before.0, records[n], delivered[n]);
      (after.0, before.1 + AsSeq(after.1))
  }

  /** The fixture ids of a list of signals. */
  function Fixtures(signals: seq<Signal>): (ids: set<int>)
    ensures forall i :: 0 <= i < |signals| ==> signals[i].fixture in ids
    ensures |ids| <= |signals|
  {
    if signals == [] then {}
    else Fixtures(signals[..|signals| - 1]) + {signals[|signals| - 1].fixture}
  }

  /** No two signals name the same fixture. */
  predicate DistinctFixtures(signals: seq<Signal>) {
    forall i, j :: 0 <= i < j < |signals| ==> signals[i].fixture != signals[j].fixture
  }

  /** A cycle keeps the dedup set within its capacity. */
  lemma {:induction false} RunKeepsCapacity(sent: set<int>, records: seq<RawRecord>, delivered: seq<bool>)
    requires |delivered| == |records|
    requires |sent| <= Capacity
    ensures |Run(sent, records, delivered).0| <= Capacity
  {
    if |records| > 0 {
      var n := |records| - 1;
      RunKeepsCapacity(sent, records[..n], delivered[..n]);
    }
  }

  /** Within one dedup generation (a cycle in which the set never grows past
      its capacity, so it is never cleared) every delivered signal names a
      fixture that was not yet in the set, no fixture is signalled twice, and
      the set afterwards is the set before plus the signalled fixtures. */
  lemma {:induction false} RunWithoutClear(sent: set<int>, records: seq<RawRecord>, delivered: seq<bool>)
    requires |delivered| == |records|
    requires |sent| + |Run(sent, records, delivered).1| <= Capacity
    ensures Run(sent, records, delivered).0 == sent + Fixtures(Run(sent, records, delivered).1)
    ensures |Run(sent, records, delivered).0| == |sent| + |Run(sent, records, delivered).1|
    ensures DistinctFixtures(Run(sent, records, delivered).1)
    ensures forall i :: 0 <= i < |Run(sent, records, delivered).1| ==>
              Run(sent, records, delivered).1[i].fixture !in sent
  {
    if |records| > 0 {
      var n := |records| - 1;
      var before := Run(sent, records[..n], delivered[..n]);
      var after := Step(before.0, records[n], delivered[n]);
      var all := before.1 + AsSeq(after.1);
      assert Run(sent, records, delivered) == (after.0, all);
      RunWithoutClear(sent, records[..n], delivered[..n]);
      StepWithRoom(before.0, records[n], delivered[n]);
      ExtendGeneration(sent, before.0, before.1, after.0, after.1);
    }
  }

  /** The set and signal facts of a generation carry over one more step that
      adds only a fresh fixture. */
  lemma {:induction false} ExtendGeneration(sent: set<int>, mid: set<int>, signals: seq<Signal>, last: set<int>, o: Option<Signal>)
    requires mid == sent + Fixtures(signals) && |mid| == |sent| + |signals|
    requires DistinctFixtures(signals)
    requires forall i :: 0 <= i < |signals| ==> signals[i].fixture !in sent
    requires last == mid + Fixtures(AsSeq(o)) && |last| == |mid| + |AsSeq(o)|
    requires forall i :: 0 <= i < |AsSeq(o)| ==> AsSeq(o)[i].fixture !in mid
    ensures last == sent + Fixtures(signals + AsSeq(o))
    ensures |last| == |sent| + |signals + AsSeq(o)|
    ensures DistinctFixtures(signals + AsSeq(o))
    ensures forall i :: 0 <= i < |signals + AsSeq(o)| ==> (signals + AsSeq(o))[i].fixture !in sent
  {
    AppendSignal(signals, o);
    if o.Some? {
      assert AsSeq(o)[0] == o.value;
    }
    AppendFresh(sent, signals, o);
  }

  /** A step taken while the set still has room adds at most the fixture it
      signals, which was not in the set. */
  lemma {:induction false} StepWithRoom(sent: set<int>, raw: RawRecord, delivered: bool)
    requires |sent| + |AsSeq(Step(sent, raw, delivered).1)| <= Capacity
    ensures Step(sent, raw, delivered).0 == sent + Fixtures(AsSeq(Step(sent, raw, delivered).1))
    ensures |Step(sent, raw, delivered).0| == |sent| + |AsSeq(Step(sent, raw, delivered).1)|
    ensures forall i :: 0 <= i < |AsSeq(Step(sent, raw, delivered).1)| ==>
              AsSeq(Step(sent, raw, delivered).1)[i].fixture !in sent
  {
    var r := Step(sent, raw, delivered);
    if r.1.Some? {
      assert [r.1.value][..0] == [];
      assert Fixtures(AsSeq(r.1)) == {r.1.value.fixture};
    }
  }

  /** Appending a signal for a fixture outside both `sent` and the earlier
      signals keeps the fixtures distinct and outside `sent`. */
  lemma {:induction false} AppendFresh(sent: set<int>, signals: seq<Signal>, o: Option<Signal>)
    requires DistinctFixtures(signals)
    requires forall i :: 0 <= i < |signals| ==> signals[i].fixture !in sent
    requires o.Some? ==> o.value.fixture !in sent + Fixtures(signals)
    ensures DistinctFixtures(signals + AsSeq(o))
    ensures forall i :: 0 <= i < |signals + AsSeq(o)| ==> (signals + AsSeq(o))[i].fixture !in sent
  {
    var all := signals + AsSeq(o);
    forall i, j | 0 <= i < j < |all|
      ensures all[i].fixture != all[j].fixture
    {
      assert all[i] == signals[i];
      if j == |signals| {
        assert all[i].fixture in Fixtures(signals);
      } else {
        assert all[j] == signals[j];
      }
    }
  }

  lemma {:induction false} AppendSignal(signals: seq<Signal>, o: Option<Signal>)
    ensures Fixtures(signals + AsSeq(o)) == Fixtures(signals) + Fixtures(AsSeq(o))
    ensures |signals + AsSeq(o)| == |signals| + |AsSeq(o)|
  {
    if o.Some? {
      FixturesSnoc(signals, o.value);
      FixturesSnoc([], o.value);
      assert [] + [o.value] == AsSeq(o);
    } else {
      assert signals + AsSeq(o) == signals;
    }
  }

  lemma FixturesSnoc(signals: seq<Signal>, s: Signal)
    ensures Fixtures(signals + [s]) == Fixtures(signals) + {s.fixture}
  {
    var all := signals + [s];
    assert all[..|all| - 1] == signals && all[|all| - 1] == s;
  }

  /** A record whose evaluation against `small` delivered nothing new to
      `large` is skipped when evaluated against `large`. */
  lemma {:induction false} StepAgainstLargerSet(small: set<int>, large: set<int>, raw: RawRecord, delivered: bool)
    requires small <= large
    requires Step(small, raw, delivered).1.None? || Step(small, raw, delivered).1.value.fixture in large
    ensures Step(large, raw, delivered) == (large, None)
  {
  }

  /** Every record of a cycle evaluated against a set that contains everything
      the cycle left behind delivers nothing. */
  lemma {:induction false} NothingNewAgainst(sent: set<int>, records: seq<RawRecord>, delivered: seq<bool>, known: set<int>)
    requires |delivered| == |records|
    requires |sent| + |Run(sent, records, delivered).1| <= Capacity
    requires Run(sent, records, delivered).0 <= known
    ensures forall k :: 0 <= k < |records| ==> Step(known, records[k], delivered[k]) == (known, None)
  {
    if |records| > 0 {
      var n := |records| - 1;
      var before := Run(sent, records[..n], delivered[..n]);
      var after := Step(before.0, records[n], delivered[n]);
      var all := before.1 + AsSeq(after.1);
      assert Run(sent, records, delivered) == (after.0, all);
      RunWithoutClear(sent, records[..n], delivered[..n]);
      assert |before.0| + |AsSeq(after.1)| == |sent| + |all|;
      StepWithRoom(before.0, records[n], delivered[n]);
      assert before.0 <= after.0 <= known;
      assert after.1.Some? ==> after.1.value.fixture in Fixtures(AsSeq(after.1));
      NothingNewAgainst(sent, records[..n], delivered[..n], known);
      StepAgainstLargerSet(before.0, known, records[n], delivered[n]);
      forall k | 0 <= k < |records|
        ensures Step(known, records[k], delivered[k]) == (known, None)
      {
        if k < n {
          assert records[..n][k] == records[k] && delivered[..n][k] == delivered[k];
          assert Step(known, records[..n][k], delivered[..n][k]) == (known, None);
        } else {
          assert k == n;
        }
      }
    }
  }

  /** A cycle in which no record delivers anything leaves the set as it was. */
  lemma {:induction false} QuietRun(sent: set<int>, records: seq<RawRecord>, delivered: seq<bool>)
    requires |delivered| == |records|
    requires forall k :: 0 <= k < |records| ==> Step(sent, records[k], delivered[k]) == (sent, None)
    ensures Run(sent, records, delivered) == (sent, [])
  {
    if |records| > 0 {
      var n := |records| - 1;
      forall k | 0 <= k < n
        ensures Step(sent, records[..n][k], delivered[..n][k]) == (sent, None)
      {
        assert records[..n][k] == records[k] && delivered[..n][k] == delivered[k];
      }
      QuietRun(sent, records[..n], delivered[..n]);
      var before := Run(sent, records[..n], delivered[..n]);
      assert before == (sent, []);
      var after := Step(before.0, records[n], delivered[n]);
      assert after == (sent, None);
      assert Run(sent, records, delivered) == (after.0, before.1 + AsSeq(after.1));
      assert before.1 + AsSeq(after.1) == [];
    }
  }

  /** Polling the same records again with the same delivery outcomes, right
      after a cycle that did not clear the set, delivers nothing and leaves the
      set unchanged: every fixture signalled the first time is now known, and
      every other record is judged as it was before. */
  lemma RepeatedPollIsSilent(sent: set<int>, records: seq<RawRecord>, delivered: seq<bool>)
    requires |delivered| == |records|
    requires |sent| + |Run(sent, records, delivered).1| <= Capacity
    ensures Run(Run(sent, records, delivered).0, records, delivered) == (Run(sent, records, delivered).0, [])
  {
    var first := Run(sent, records, delivered).0;
    NothingNewAgainst(sent, records, delivered, first);
    QuietRun(first, records, delivered);
  }

  /** A record that delivers nothing (a missing key, an already signalled
      fixture, a league outside the allow-list, no rule firing, or a failed
      send) leaves the rest of the cycle exactly as if it had not been
      fetched. */
  lemma {:induction false} SilentRecordIsInvisible(sent: set<int>, a: seq<RawRecord>, da: seq<bool>, raw: RawRecord, d: bool,
                                                   b: seq<RawRecord>, db: seq<bool>)
    requires |da| == |a| && |db| == |b|
    requires Step(Run(sent, a, da).0, raw, d).1.None?
    ensures Run(sent, a + [raw] + b, da + [d] + db) == Run(sent, a + b, da + db)
  {
    if |b| == 0 {
      assert a + [raw] + b == a + [raw] && da + [d] + db == da + [d];
      assert a + b == a && da + db == da;
      RunAppendSilent(sent, a, da, raw, d);
    } else {
      var n := |b| - 1;
      SilentRecordIsInvisible(sent, a, da, raw, d, b[..n], db[..n]);
      assert a + [raw] + b == (a + [raw] + b[..n]) + [b[n]] && da + [d] + db == (da + [d] + db[..n]) + [db[n]];
      assert a + b == (a + b[..n]) + [b[n]] && da + db == (da + db[..n]) + [db[n]];
      RunAppendSame(sent, a + [raw] + b[..n], da + [d] + db[..n], a + b[..n], da + db[..n], b[n], db[n]);
    }
  }

  /** Appending a record that delivers nothing leaves the cycle's result as it
      was. */
  lemma RunAppendSilent(sent: set<int>, a: seq<RawRecord>, da: seq<bool>, raw: RawRecord, d: bool)
    requires |da| == |a|
    requires Step(Run(sent, a, da).0, raw, d).1.None?
    ensures Run(sent, a + [raw], da + [d]) == Run(sent, a, da)
  {
    assert (a + [raw])[..|a|] == a && (a + [raw])[|a|] == raw;
    assert (da + [d])[..|da|] == da && (da + [d])[|da|] == d;
    assert Run(sent, a, da).1 + [] == Run(sent, a, da).1;
  }

  /** Two record lists the cycle treats alike stay alike when the same record
      is appended to both. */
  lemma {:induction false} RunAppendSame(sent: set<int>, x: seq<RawRecord>, dx: seq<bool>, y: seq<RawRecord>, dy: seq<bool>,
                                         raw: RawRecord, d: bool)
    requires |dx| == |x| && |dy| == |y|
    requires Run(sent, x, dx) == Run(sent, y, dy)
    ensures Run(sent, x + [raw], dx + [d]) == Run(sent, y + [raw], dy + [d])
  {
    assert (x + [raw])[..|x|] == x && (x + [raw])[|x|] == raw;
    assert (dx + [d])[..|dx|] == dx && (dx + [d])[|dx|] == d;
    assert (y + [raw])[..|y|] == y && (y + [raw])[|y|] == raw;
    assert (dy + [d])[..|dy|] == dy && (dy + [d])[|dy|] == d;
  }

  /** The cycle over the first i + 1 records is the cycle over the first i
      followed by one more step. */
  lemma RunOneMore(sent: set<int>, records: seq<RawRecord>, delivered: seq<bool>, i: nat)
    requires |delivered| == |records| && i < |records|
    ensures var before := Run(sent, records[..i], delivered[..i]);
            var after := Step(before.0, records[i], delivered[i]);
            Run(sent, records[..i + 1], delivered[..i + 1]) == (after.0, before.1 + AsSeq(after.1))
  {
    assert records[..i + 1][..i] == records[..i] && records[..i + 1][i] == records[i];
    assert delivered[..i + 1][..i] == delivered[..i] && delivered[..i + 1][i] == delivered[i];
  }

  /** Every match of a cycle whose fixture is not yet in the set at its turn,
      whose fields can be read, for which a rule fires and whose message is
      sent, is signalled at its position and its fixture is remembered. */
  lemma RunSignalsFiringMatch(sent: set<int>, records: seq<RawRecord>, delivered: seq<bool>, i: nat)
    requires |delivered| == |records| && i < |records|
    requires records[i].fixtureId.Some?
    requires records[i].fixtureId.value !in Run(sent, records[..i], delivered[..i]).0
    requires Extract(records[i]).Some? && Evaluate(Extract(records[i]).value).Some?
    requires delivered[i]
    ensures var before := Run(sent, records[..i], delivered[..i]);
            Run(sent, records[..i + 1], delivered[..i + 1])
              == (Admit(before.0, records[i].fixtureId.value),
                  before.1 + [Evaluate(Extract(records[i]).value).value])
  {
    RunOneMore(sent, records, delivered, i);
  }

  /** A live Premier League fixture at 0-0 in minute 30 is signalled once
      under rule 1, and the next poll returning the same record is silent. */
  lemma RepeatedFixtureScenario()
    ensures
      var raw := RawRecord(Some(42), Value("Inside FC"), Value("Outside FC"),
                           Value(0), Value(0), Value(30), Value("Premier League"));
      var first := Run({}, [raw], [true]);
      && first.0 == {42}
      && first.1 == [Signal(Trigger1, 42, "Inside FC", "Outside FC", "0:0", "Premier League")]
      && Run(first.0, [raw], [true]) == ({42}, [])
  {
    var raw := RawRecord(Some(42), Value("Inside FC"), Value("Outside FC"),
                         Value(0), Value(0), Value(30), Value("Premier League"));
    assert OccursAt("Premier League", "Premier League", 0);
    assert IsTopLeague("Premier League");
    ScoreLiterals();
    assert Step({}, raw, true) == ({42}, Some(Signal(Trigger1, 42, "Inside FC", "Outside FC", "0:0", "Premier League")));
    assert [raw][..0] == [] && [true][..0] == [];
    RepeatedPollIsSilent({}, [raw], [true]);
  }

  /** The scanner's process-wide state: the ids of the fixtures a signal was
      already sent for. */
  class LiveScanner {
    var sentMatches: set<int>

    ghost predicate Valid()
      reads this
    {
      |sentMatches| <= Capacity
    }

    constructor ()
      ensures Valid() && sentMatches == {}
    {
      sentMatches := {};
    }

    /** The per-match body of the loop: a record is skipped when its fixture
        id is missing or already known, or when a field cannot be read;
        otherwise the trigger engine runs and a delivered signal is
        remembered. `delivered` is whether sending the message would complete;
        it is consulted only when the record produces a signal. */
    method HandleMatch(m: RawRecord, delivered: bool) returns (sent: Option<Signal>)
      requires Valid()
      modifies this
      ensures Valid()
      ensures (sentMatches, sent) == Step(old(sentMatches), m, delivered)
    {
      sent := None;
      if m.fixtureId.None? {
        return;
      }
      var fid := m.fixtureId.value;
      if fid in sentMatches {
        return;
      }
      var ev := Extract(m);
      if ev.None? {
        return;
      }
      var signal := Evaluate(ev.value);
      if signal.Some? && delivered {
        sentMatches := sentMatches + {fid};
        if |sentMatches| > Capacity {
          sentMatches := {};
        }
        sent := signal;
      }
    }

    /** One pass of the scanner over the records one poll returned.
        `delivered[i]` is whether sending the message for record i would
        complete. */
    method ScanCycle(matches: seq<RawRecord>, delivered: seq<bool>) returns (signals: seq<Signal>)
      requires Valid()
      requires |delivered| == |matches|
      modifies this
      ensures Valid()
      ensures (sentMatches, signals) == Run(old(sentMatches), matches, delivered)
    {
      signals := [];
      var i := 0;
      while i < |matches|
        invariant 0 <= i <= |matches|
        invariant Valid()
        invariant (sentMatches, signals) == Run(old(sentMatches), matches[..i], delivered[..i])
      {
        var sent := HandleMatch(matches[i], delivered[i]);
        RunOneMore(old(sentMatches), matches, delivered, i);
        signals := signals + AsSeq(sent);
        i := i + 1;
      }
      assert matches[..i] == matches && delivered[..i] == delivered;
    }
  }
}
