/** What a resumed run writes: every attempt of the aggregate node, however many
    crashes lie between them, gets the same findings, so its partial writes are
    retries of one write. */
module Resume {
  import opened Basics
  import opened Findings
  import opened Dedup
  import opened FindingRecords
  import Engine

  lemma StepKeepsMerged(m: Engine.Machine, e: Engine.Event, special: map<string, int>)
    requires Engine.Inv(m) && Engine.Inv(Engine.Step(m, e, special)) && m.merged.Some?
    ensures Engine.Step(m, e, special).merged == m.merged
  {
  }

  lemma {:induction false} RunKeepsMerged(m: Engine.Machine, events: seq<Engine.Event>, special: map<string, int>)
    requires Engine.Inv(m) && Engine.Channels(special) && m.merged.Some?
    ensures Engine.Inv(Engine.RunFrom(m, events, special)) && Engine.RunFrom(m, events, special).merged == m.merged
  {
    if events != [] {
      var before := events[..|events| - 1];
      RunKeepsMerged(m, before, special);
      Engine.InvStep(Engine.RunFrom(m, before, special), events[|events| - 1], special);
      StepKeepsMerged(Engine.RunFrom(m, before, special), events[|events| - 1], special);
    }
  }

  /** Once the aggregate node has been given its findings, every later attempt,
      after whatever crashes and resumes, is given the same. */
  lemma EveryAttemptGetsTheSame(before: seq<Engine.Event>, after: seq<Engine.Event>, special: map<string, int>)
    requires Engine.Channels(special) && Engine.Run(before, special).merged.Some?
    ensures Engine.Run(before + after, special).merged == Engine.Run(before, special).merged
  {
    Engine.InvRun(before, special);
    Engine.RunFromAppend(Engine.START, before, after, special);
    RunKeepsMerged(Engine.Run(before, special), after, special);
  }

  /** An attempt of the aggregate node after `upTo` events of the run, which died
      when it had inserted `written` findings. */
  datatype Attempt = Attempt(upTo: nat, written: nat)

  ghost predicate Possible(a: Attempt, events: seq<Engine.Event>, special: map<string, int>) {
    && a.upTo <= |events| && Engine.Run(events[..a.upTo], special).merged.Some?
    && a.written <= |DedupSpec(Engine.Run(events[..a.upTo], special).merged.value)|
  }

  /** The table after these attempts, each with what the engine gave it. */
  ghost function AfterAttempts(table: seq<Row>, review: ReviewId, attempts: seq<Attempt>, events: seq<Engine.Event>,
                               special: map<string, int>): seq<Row>
    requires forall a :: a in attempts ==> Possible(a, events, special)
  {
    if attempts == [] then table
    else
      var last := attempts[|attempts| - 1];
      assert last in attempts && Possible(last, events, special);
      InsertAll(AfterAttempts(table, review, attempts[..|attempts| - 1], events, special), review,
                DedupSpec(Engine.Run(events[..last.upTo], special).merged.value)[..last.written])
  }

  function Prefixes(attempts: seq<Attempt>): seq<nat> {
    seq(|attempts|, i requires 0 <= i < |attempts| => attempts[i].written)
  }

  lemma SameGiven(a: Attempt, events: seq<Engine.Event>, special: map<string, int>)
    requires Engine.Channels(special) && Possible(a, events, special)
    ensures Engine.Run(events, special).merged == Engine.Run(events[..a.upTo], special).merged
  {
    assert events[..a.upTo] + events[a.upTo..] == events;
    EveryAttemptGetsTheSame(events[..a.upTo], events[a.upTo..], special);
  }

  lemma {:induction false} AttemptsAreRetries(table: seq<Row>, review: ReviewId, attempts: seq<Attempt>,
                                              events: seq<Engine.Event>, special: map<string, int>)
    requires Engine.Channels(special) && Engine.Run(events, special).merged.Some?
    requires forall a :: a in attempts ==> Possible(a, events, special)
    ensures var fs := DedupSpec(Engine.Run(events, special).merged.value);
      && (forall k :: 0 <= k < |attempts| ==> Prefixes(attempts)[k] <= |fs|)
      && AfterAttempts(table, review, attempts, events, special) == Attempts(table, review, fs, Prefixes(attempts))
  {
    if attempts != [] {
      var n := |attempts| - 1;
      AttemptsAreRetries(table, review, attempts[..n], events, special);
      assert attempts[n] in attempts;
      SameGiven(attempts[n], events, special);
      assert Prefixes(attempts)[..n] == Prefixes(attempts[..n]);
      forall k | 0 <= k < |attempts|
        ensures Prefixes(attempts)[k] <= |DedupSpec(Engine.Run(events, special).merged.value)|
      {
        assert attempts[k] in attempts;
        SameGiven(attempts[k], events, special);
      }
    }
  }

  /** Over any crashes and resumes of one review: the attempts that died while
      inserting, followed by one that did not, leave the table as one write of the
      deduplicated findings does. */
  lemma ResumedWritesAreOneWrite(table: seq<Row>, review: ReviewId, attempts: seq<Attempt>,
                                 events: seq<Engine.Event>, special: map<string, int>)
    requires Engine.Channels(special) && Engine.Run(events, special).merged.Some?
    requires forall a :: a in attempts ==> Possible(a, events, special)
    ensures var fs := DedupSpec(Engine.Run(events, special).merged.value);
      InsertAll(AfterAttempts(table, review, attempts, events, special), review, fs) == InsertAll(table, review, fs)
  {
    AttemptsAreRetries(table, review, attempts, events, special);
    RetriedWriteIsOneWrite(table, review, DedupSpec(Engine.Run(events, special).merged.value), Prefixes(attempts));
  }
}
