/** The code that sequences store calls: `run_review`, `aggregate`, `approve`
    and `reject`, each run here without interference; `ReviewProtocol` covers
    the interleavings of the same steps. */
module Pipeline {
  import opened Basics
  import opened StableSort
  import opened Findings
  import opened Dedup
  import opened Render
  import opened FindingRecords
  import opened ReviewTables
  import opened Fanout
  import P = ReviewProtocol

  /** The contents of all stores. */
  datatype World = World(
    records: map<ReviewId, Record>,
    findings: seq<Row>,
    rows: seq<HitlRow>,
    posts: seq<Posting>)

  ghost function WorldOf(store: TruthStore, queue: HitlQueue, github: GitHub): World
    reads store, queue, github
  {
    World(store.records, store.findings, queue.rows, github.posts)
  }

  /** One review as `ReviewProtocol` sees it; `posts` are the GitHub reviews made for it. */
  ghost function ViewOf(w: World, id: ReviewId, posts: seq<nat>): P.Tables {
    if id in w.records then
      P.Tables(w.records[id].status, w.records[id].githubId, RowsOf(w.rows, id), posts)
    else
      P.Tables(P.Pending, None, RowsOf(w.rows, id), posts)
  }

  ghost predicate OthersUntouched(before: World, after: World, id: ReviewId) {
    && (forall v :: v in before.records && v != id ==> v in after.records && after.records[v] == before.records[v])
    && (forall v :: v != id ==> RowsOf(after.rows, v) == RowsOf(before.rows, v))
    && before.posts <= after.posts
  }

  datatype AggregateResult = AggregateResult(
    reviewId: ReviewId,
    score: real,
    decision: Decision,
    githubId: Option<nat>,
    hitlId: Option<nat>,
    deduped: seq<Finding>)

  function PriorDecision(status: P.Status): Decision {
    match status
    case Posted => AutoPost
    case EscalatedToHuman => Escalated
    case _ => Queued
  }

  /** What the status of a decided review says about its decision. */
  predicate StatusSays(status: P.Status, decision: Decision) {
    match decision
    case AutoPost => status == P.Posted
    case Queued => status == P.NeedsHuman
    case Escalated => status == P.EscalatedToHuman
  }

  function Criticals(fs: seq<Finding>): seq<string> {
    if fs == [] then []
    else Criticals(fs[..|fs| - 1])
           + (if fs[|fs| - 1].severity == Critical then [fs[|fs| - 1].title] else [])
  }

  function ReasonFor(deduped: seq<Finding>, score: real, threshold: real): Reason {
    if exists f :: f in deduped && f.severity == Critical then CriticalFindings(Criticals(deduped))
    else LowConfidence(score, threshold)
  }

  function EventFor(fs: seq<Finding>): ReviewEvent {
    if fs == [] then APPROVE else COMMENT
  }

  /** What one undisturbed job with these deduped findings does to the stores. */
  ghost predicate EffectOf(before: World, after: World, id: ReviewId, deduped: seq<Finding>, score: real, gate: Decision,
                           reason: Reason, posting: Posting)
  {
    var prior := ViewOf(before, id, []);
    && OthersUntouched(before, after, id)
    && id in after.records
    && (prior.status != P.Pending ==>
          && ViewOf(after, id, []) == prior
          && after.findings == before.findings && after.rows == before.rows && after.posts == before.posts)
    && (prior.status == P.Pending ==>
          && after.findings == InsertAll(before.findings, id, deduped)
          && after.records[id].confidence == Some(Round3(score))
          && (gate == AutoPost ==>
                var g := |before.posts|;
                && ViewOf(after, id, [g]) == P.MarkPosted(P.Post(prior, g), g)
                && after.rows == before.rows
                && after.posts == before.posts + [posting])
          && (gate != AutoPost ==>
                && ViewOf(after, id, []) == P.SetStatus(P.Enqueue(prior), P.StatusFor(gate))
                && after.rows == before.rows + [HitlRow(id, reason, P.Waiting, None)]
                && after.posts == before.posts))
  }

  /** The effect of one undisturbed job on the review of its delivery. */
  ghost predicate JobEffect(before: World, after: World, id: ReviewId, repo: string, prNumber: int,
                            merged: seq<Finding>, threshold: real, splitLines: string -> seq<string>)
  {
    var deduped := DedupSpec(merged);
    var score := OverallConfidence(deduped);
    EffectOf(before, after, id, deduped, score, Gate(merged, threshold), ReasonFor(deduped, score, threshold),
             Posting(repo, prNumber, Body(deduped, splitLines), EventFor(deduped)))
  }

  method CriticalTitles(fs: seq<Finding>) returns (titles: seq<string>)
    ensures titles == Criticals(fs)
  {
    titles := [];
    for k := 0 to |fs|
      invariant titles == Criticals(fs[..k])
    {
      assert fs[..k + 1][..k] == fs[..k];
      if fs[k].severity == Critical {
        titles := titles + [fs[k].title];
      }
    }
    assert fs[..|fs|] == fs;
  }

  /** After `upsert_review`: the row of the delivery, new or with its PR number rewritten. */
  ghost predicate Upserted(before: map<ReviewId, Record>, after: map<ReviewId, Record>, id: ReviewId,
                           repo: string, prNumber: int, delivery: string)
  {
    if id in before then after == before[id := before[id].(prNumber := prNumber)]
    else after == before[id := Record(repo, prNumber, delivery, P.Pending, None, None)]
  }

  lemma PostIsEffect(before: World, records: map<ReviewId, Record>, after: World, id: ReviewId, delivery: string,
                     deduped: seq<Finding>, score: real, reason: Reason, posting: Posting)
    requires Upserted(before.records, records, id, posting.repo, posting.prNumber, delivery)
    requires records[id].status == P.Pending
    requires after == World(
      records[id := records[id].(status := P.Posted, githubId := Some(|before.posts|), confidence := Some(Round3(score)))],
      InsertAll(before.findings, id, deduped), before.rows, before.posts + [posting])
    ensures EffectOf(before, after, id, deduped, score, AutoPost, reason, posting)
  {
  }

  lemma QueueIsEffect(before: World, records: map<ReviewId, Record>, after: World, id: ReviewId, delivery: string,
                      deduped: seq<Finding>, score: real, gate: Decision, reason: Reason, posting: Posting)
    requires Upserted(before.records, records, id, posting.repo, posting.prNumber, delivery)
    requires records[id].status == P.Pending && gate != AutoPost
    requires after == World(
      records[id := records[id].(status := P.StatusFor(gate), confidence := Some(Round3(score)))],
      InsertAll(before.findings, id, deduped), before.rows + [HitlRow(id, reason, P.Waiting, None)], before.posts)
    ensures EffectOf(before, after, id, deduped, score, gate, reason, posting)
  {
    forall v { RowsOfSnoc(before.rows, HitlRow(id, reason, P.Waiting, None), v); }
  }

  lemma ReplayIsEffect(before: World, after: World, id: ReviewId, delivery: string,
                       deduped: seq<Finding>, score: real, gate: Decision, reason: Reason, posting: Posting)
    requires Upserted(before.records, after.records, id, posting.repo, posting.prNumber, delivery)
    requires after.records[id].status != P.Pending && after == before.(records := after.records)
    ensures EffectOf(before, after, id, deduped, score, gate, reason, posting)
  {
  }

  method PostNow(store: TruthStore, queue: HitlQueue, github: GitHub, ghost before: World, id: ReviewId, repo: string,
                 prNumber: int, ghost delivery: string, deduped: seq<Finding>, score: real, ghost reason: Reason,
                 splitLines: string -> seq<string>)
    returns (githubId: nat)
    requires store.Valid() && id in store.records && store.records[id].status == P.Pending
    requires Upserted(before.records, store.records, id, repo, prNumber, delivery)
    requires WorldOf(store, queue, github)
             == before.(records := store.records, findings := InsertAll(before.findings, id, deduped))
    modifies store, github
    ensures store.Valid() && store.records.Keys == old(store.records).Keys
    ensures store.records[id].delivery == old(store.records)[id].delivery
    ensures EffectOf(before, WorldOf(store, queue, github), id, deduped, score, AutoPost, reason,
                     Posting(repo, prNumber, Body(deduped, splitLines), EventFor(deduped)))
    ensures githubId == |before.posts| && |github.posts| == githubId + 1
    ensures github.posts[githubId].event == APPROVE <==> deduped == []
  {
    ghost var records := store.records;
    var body := RenderReviewBody(deduped, splitLines);
    githubId := github.PostReview(repo, prNumber, body, EventFor(deduped));
    store.MarkPosted(id, githubId, score);
    PostIsEffect(before, records, WorldOf(store, queue, github), id, delivery, deduped, score, reason,
                 Posting(repo, prNumber, body, EventFor(deduped)));
  }

  method QueueForHuman(store: TruthStore, queue: HitlQueue, github: GitHub, ghost before: World, id: ReviewId,
                       ghost delivery: string, deduped: seq<Finding>, score: real, decision: Decision, reason: Reason,
                       ghost posting: Posting)
    returns (hitlId: nat)
    requires store.Valid() && id in store.records && store.records[id].status == P.Pending && decision != AutoPost
    requires Upserted(before.records, store.records, id, posting.repo, posting.prNumber, delivery)
    requires WorldOf(store, queue, github)
             == before.(records := store.records, findings := InsertAll(before.findings, id, deduped))
    modifies store, queue
    ensures store.Valid() && store.records.Keys == old(store.records).Keys
    ensures store.records[id].delivery == old(store.records)[id].delivery
    ensures EffectOf(before, WorldOf(store, queue, github), id, deduped, score, decision, reason, posting)
    ensures hitlId == |before.rows|
  {
    ghost var records := store.records;
    hitlId := queue.Enqueue(id, reason);
    store.SetStatus(id, P.StatusFor(decision), score);
    QueueIsEffect(before, records, WorldOf(store, queue, github), id, delivery, deduped, score, decision, reason, posting);
  }

  /** What a job leaves behind, in plain words: one posting at most, which approves
      the pull request exactly when nothing was found; a status that names the
      decision. */
  lemma JobSays(before: World, after: World, id: ReviewId, repo: string, prNumber: int, merged: seq<Finding>,
                threshold: real, splitLines: string -> seq<string>)
    requires JobEffect(before, after, id, repo, prNumber, merged, threshold, splitLines)
    ensures after.posts != before.posts ==>
              && |after.posts| == |before.posts| + 1
              && (after.posts[|before.posts|].event == APPROVE <==> merged == [])
    ensures var prior := ViewOf(before, id, []).status;
      && after.records[id].status != P.Pending
      && StatusSays(after.records[id].status, if prior != P.Pending then PriorDecision(prior) else Gate(merged, threshold))
  {
    hide DedupSpec, Body, InsertAll, Gate, OverallConfidence, ReasonFor;
    DedupEmptyIff(merged);
  }

  lemma {:induction false} CriticalsAt(fs: seq<Finding>, n: nat)
    requires n <= |fs|
    requires forall k :: 0 <= k < |fs| ==> (k < n <==> fs[k].severity == Critical)
    ensures |Criticals(fs)| == n && forall k :: 0 <= k < n ==> Criticals(fs)[k] == fs[k].title
  {
    if fs != [] {
      CriticalsAt(fs[..|fs| - 1], Min(n, |fs| - 1) as nat);
    }
  }

  /** The CRITICAL findings lead the deduplicated list. */
  lemma CriticalsLead(merged: seq<Finding>) returns (n: nat)
    ensures n <= |DedupSpec(merged)|
    ensures forall k :: 0 <= k < |DedupSpec(merged)| ==> (k < n <==> DedupSpec(merged)[k].severity == Critical)
  {
    hide DedupSpec;
    var fs := DedupSpec(merged);
    n := 0;
    while n < |fs| && fs[n].severity == Critical
      invariant n <= |fs| && forall k :: 0 <= k < n ==> fs[k].severity == Critical
    {
      n := n + 1;
    }
    forall k | n < k < |fs| ensures fs[k].severity != Critical {
      var p, q := OutputOrder(merged, n, k);
    }
  }

  /** The row of a queued job says why: all titles of CRITICAL findings, in the
      order of the body, when there are any; otherwise the score, which is then
      below the threshold. */
  lemma QueuedJobSays(before: World, after: World, id: ReviewId, repo: string, prNumber: int, merged: seq<Finding>,
                      threshold: real, splitLines: string -> seq<string>)
    requires JobEffect(before, after, id, repo, prNumber, merged, threshold, splitLines)
    requires ViewOf(before, id, []).status == P.Pending && Gate(merged, threshold) != AutoPost
    ensures after.posts == before.posts && |after.rows| == |before.rows| + 1 && after.rows[..|before.rows|] == before.rows
    ensures var row, fs := after.rows[|before.rows|], DedupSpec(merged);
      && row.review == id && row.status == P.Waiting && row.note == None
      && match row.reason
         case CriticalFindings(titles) =>
           && Gate(merged, threshold) == Escalated && 0 < |titles| <= |fs|
           && forall k :: 0 <= k < |fs| ==> (k < |titles| <==> fs[k].severity == Critical)
                                            && (k < |titles| ==> titles[k] == fs[k].title)
         case LowConfidence(score, limit) =>
           && Gate(merged, threshold) == Queued && limit == threshold
           && score == OverallConfidence(fs) < threshold && forall f :: f in fs ==> f.severity != Critical
  {
    hide DedupSpec, Body, InsertAll, OverallConfidence;
    var fs := DedupSpec(merged);
    var n := CriticalsLead(merged);
    CriticalsAt(fs, n);
    if n == 0 {
      assert forall f :: f in fs ==> f.severity != Critical;
    } else {
      assert fs[0] in fs;
    }
  }

  method Aggregate(store: TruthStore, queue: HitlQueue, github: GitHub, repo: string, prNumber: int, delivery: string,
                   merged: seq<Finding>, threshold: real, splitLines: string -> seq<string>)
    returns (r: AggregateResult)
    requires store.Valid()
    modifies store, queue, github
    ensures store.Valid()
    ensures r.reviewId in store.records && store.records[r.reviewId].delivery == delivery
    ensures JobEffect(old(WorldOf(store, queue, github)), WorldOf(store, queue, github), r.reviewId, repo, prNumber,
                      merged, threshold, splitLines)
    ensures r.deduped == DedupSpec(merged) && r.score == OverallConfidence(r.deduped)
    ensures var before := old(WorldOf(store, queue, github));
            var status := ViewOf(before, r.reviewId, []).status;
            r.decision == if status != P.Pending then PriorDecision(status) else Gate(merged, threshold)
    ensures var before := old(WorldOf(store, queue, github));
            if ViewOf(before, r.reviewId, []).status != P.Pending then
              r.githubId == store.records[r.reviewId].githubId && r.hitlId == None
            else if r.decision == AutoPost then r.githubId == Some(|before.posts|) && r.hitlId == None
            else r.githubId == None && r.hitlId == Some(|before.rows|)
    ensures github.posts != old(github.posts) ==>
              |github.posts| == |old(github.posts)| + 1
              && (github.posts[|old(github.posts)|].event == APPROVE <==> merged == [])
    ensures StatusSays(store.records[r.reviewId].status, r.decision)
  {
    hide EffectOf, OthersUntouched, DedupSpec, Body, InsertAll, OverallConfidence, Criticals;
    ghost var before := WorldOf(store, queue, github);
    var deduped := DedupFindings(merged);
    var score := OverallConfidence(deduped);
    var id := store.UpsertReview(repo, prNumber, delivery);
    var status := store.records[id].status;
    ghost var expected := ReasonFor(deduped, score, threshold);
    ghost var posting := Posting(repo, prNumber, Body(deduped, splitLines), EventFor(deduped));
    if status != P.Pending {
      ReplayIsEffect(before, WorldOf(store, queue, github), id, delivery, deduped, score, Gate(merged, threshold),
                     expected, posting);
      JobSays(before, WorldOf(store, queue, github), id, repo, prNumber, merged, threshold, splitLines);
      return AggregateResult(id, score, PriorDecision(status), store.records[id].githubId, None, deduped);
    }
    store.InsertFindings(id, deduped);
    var decision := Decide(deduped, score, threshold);
    if decision == AutoPost {
      var githubId := PostNow(store, queue, github, before, id, repo, prNumber, delivery, deduped, score, expected, splitLines);
      r := AggregateResult(id, score, decision, Some(githubId), None, deduped);
    } else {
      var titles := CriticalTitles(deduped);
      var reason := if decision == Escalated then CriticalFindings(titles) else LowConfidence(score, threshold);
      var hitlId := QueueForHuman(store, queue, github, before, id, delivery, deduped, score, decision, reason,
                                  posting);
      r := AggregateResult(id, score, decision, None, Some(hitlId), deduped);
    }
    JobSays(before, WorldOf(store, queue, github), id, repo, prNumber, merged, threshold, splitLines);
  }

  /** Upserting twice in one job is upserting once. */
  lemma EffectAcrossUpsert(before: World, mid: World, after: World, id: ReviewId, repo: string, prNumber: int,
                           delivery: string, merged: seq<Finding>, threshold: real, splitLines: string -> seq<string>)
    requires Upserted(before.records, mid.records, id, repo, prNumber, delivery)
    requires mid == before.(records := mid.records)
    requires JobEffect(mid, after, id, repo, prNumber, merged, threshold, splitLines)
    ensures JobEffect(before, after, id, repo, prNumber, merged, threshold, splitLines)
  {
    assert ViewOf(mid, id, []) == ViewOf(before, id, []);
    assert OthersUntouched(before, after, id);
  }

  /** `run_review`: a job whose review has left `pending` is replayed without
      touching anything; otherwise the specialists' results are joined by name
      and aggregated. */
  method RunReview(store: TruthStore, queue: HitlQueue, github: GitHub, repo: string, prNumber: int, delivery: string,
                   results: seq<Result>, threshold: real, splitLines: string -> seq<string>)
    returns (id: ReviewId, decision: Decision, replayed: bool)
    requires store.Valid()
    modifies store, queue, github
    ensures store.Valid() && id in store.records && store.records[id].delivery == delivery
    ensures JobEffect(old(WorldOf(store, queue, github)), WorldOf(store, queue, github), id, repo, prNumber,
                      Merged(results), threshold, splitLines)
    ensures var status := ViewOf(old(WorldOf(store, queue, github)), id, []).status;
      && (replayed <==> status != P.Pending)
      && decision == if replayed then PriorDecision(status) else Gate(Merged(results), threshold)
    ensures StatusSays(store.records[id].status, decision)
    ensures github.posts != old(github.posts) ==>
              |github.posts| == |old(github.posts)| + 1
              && (DistinctKeys(results, AgentOf) ==>
                    (github.posts[|old(github.posts)|].event == APPROVE <==> forall q :: q in results ==> q.findings == []))
    ensures !replayed && DistinctKeys(results, AgentOf) ==>
              forall q, f :: q in results && f in q.findings && f.severity == Critical && Unbeaten(results, f) ==>
                decision == Escalated
  {
    hide EffectOf, OthersUntouched, DedupSpec, Body, InsertAll, OverallConfidence, Criticals, Gate, MergedOver;
    ghost var before := WorldOf(store, queue, github);
    id := store.UpsertReview(repo, prNumber, delivery);
    var status := store.records[id].status;
    replayed := status != P.Pending;
    if replayed {
      decision := PriorDecision(status);
      ghost var fs := DedupSpec(Merged(results));
      ReplayIsEffect(before, WorldOf(store, queue, github), id, delivery, fs, OverallConfidence(fs),
                     Gate(Merged(results), threshold), ReasonFor(fs, OverallConfidence(fs), threshold),
                     Posting(repo, prNumber, Body(fs, splitLines), EventFor(fs)));
      return;
    }
    ghost var mid := WorldOf(store, queue, github);
    var merged := MergeResults(results, SPECIALIST_NAMES);
    var r := Aggregate(store, queue, github, repo, prNumber, delivery, merged, threshold, splitLines);
    assert id in mid.records && mid.records[id].delivery == delivery;
    JobKeepsOthers(mid, WorldOf(store, queue, github), r.reviewId, repo, prNumber, merged, threshold, splitLines);
    EffectAcrossUpsert(before, mid, WorldOf(store, queue, github), id, repo, prNumber, delivery, merged, threshold, splitLines);
    decision := r.decision;
    if DistinctKeys(results, AgentOf) {
      NothingMerged(results);
      forall q, f | q in results && f in q.findings && f.severity == Critical && Unbeaten(results, f)
        ensures decision == Escalated
      {
        CriticalEscalates(results, q, f, threshold);
      }
    }
  }

  /** A redelivered webhook: whatever the second run finds, nothing is posted, queued
      or stored a second time, and it answers what the first one decided. */
  method RedeliveredReview(store: TruthStore, queue: HitlQueue, github: GitHub, repo: string, prNumber: int, delivery: string,
                           first: seq<Result>, second: seq<Result>, threshold: real, splitLines: string -> seq<string>)
    returns (decision: Decision, again: Decision)
    requires store.Valid()
    modifies store, queue, github
    ensures again == decision
    ensures |github.posts| <= |old(github.posts)| + 1 && |queue.rows| <= |old(queue.rows)| + 1
    ensures |github.posts| + |queue.rows| <= |old(github.posts)| + |old(queue.rows)| + 1
  {
    hide JobEffect, EffectOf, OthersUntouched, DedupSpec, Body, InsertAll, OverallConfidence, Criticals, Gate, Merged;
    var id, replayed;
    ghost var before := WorldOf(store, queue, github);
    id, decision, replayed := RunReview(store, queue, github, repo, prNumber, delivery, first, threshold, splitLines);
    ghost var mid := WorldOf(store, queue, github);
    JobAddsOne(before, mid, id, repo, prNumber, Merged(first), threshold, splitLines);
    var id', replayed';
    id', again, replayed' := RunReview(store, queue, github, repo, prNumber, delivery, second, threshold, splitLines);
    JobKeepsOthers(mid, WorldOf(store, queue, github), id', repo, prNumber, Merged(second), threshold, splitLines);
    assert id' == id;
    ReplayAddsNothing(mid, WorldOf(store, queue, github), id, repo, prNumber, Merged(second), threshold, splitLines);
  }

  lemma JobKeepsOthers(before: World, after: World, id: ReviewId, repo: string, prNumber: int, merged: seq<Finding>,
                       threshold: real, splitLines: string -> seq<string>)
    requires JobEffect(before, after, id, repo, prNumber, merged, threshold, splitLines)
    ensures forall v :: v in before.records && v != id ==> v in after.records && after.records[v] == before.records[v]
  {
    hide DedupSpec, Body, InsertAll, Gate, OverallConfidence, ReasonFor;
  }

  lemma JobAddsOne(before: World, after: World, id: ReviewId, repo: string, prNumber: int, merged: seq<Finding>,
                   threshold: real, splitLines: string -> seq<string>)
    requires JobEffect(before, after, id, repo, prNumber, merged, threshold, splitLines)
    ensures |after.posts| <= |before.posts| + 1 && |after.rows| <= |before.rows| + 1
    ensures |after.posts| + |after.rows| <= |before.posts| + |before.rows| + 1
  {
    hide DedupSpec, Body, InsertAll, Gate, OverallConfidence, ReasonFor, OthersUntouched;
  }

  lemma ReplayAddsNothing(before: World, after: World, id: ReviewId, repo: string, prNumber: int, merged: seq<Finding>,
                          threshold: real, splitLines: string -> seq<string>)
    requires JobEffect(before, after, id, repo, prNumber, merged, threshold, splitLines)
    requires ViewOf(before, id, []).status != P.Pending
    ensures after.posts == before.posts && after.rows == before.rows && after.findings == before.findings
  {
    hide DedupSpec, Body, InsertAll, Gate, OverallConfidence, ReasonFor, OthersUntouched;
  }

  /** The job of `RunReview` as a run of the protocol machine. */
  function JobEvents(d: Decision, githubId: nat): seq<P.Event> {
    (P.UP_TO_SAVED + [P.Decide(d)])
      + (if d == AutoPost then [P.PostReview(githubId), P.WorkerMarks] else [P.EnqueueReview, P.WorkerSetsStatus])
  }

  lemma JobUpToDecision(s: P.State, d: Decision)
    requires s.worker == P.Idle && s.tables.status == P.Pending
    ensures P.RunFrom(s, P.UP_TO_SAVED + [P.Decide(d)]) == s.(worker := P.Decided(d))
  {
    P.SavedRuns(s);
    P.RunSnoc(s, P.UP_TO_SAVED, P.Decide(d));
  }

  lemma PostingTables(s: P.State, g: nat)
    requires s.worker == P.Decided(AutoPost)
    ensures P.RunFrom(s, [P.PostReview(g), P.WorkerMarks]).tables == P.MarkPosted(P.Post(s.tables, g), g)
  {
    P.TwoSteps(s, P.PostReview(g), P.WorkerMarks);
  }

  lemma QueueingTables(s: P.State, d: Decision)
    requires s.worker == P.Decided(d) && d != AutoPost
    ensures P.RunFrom(s, [P.EnqueueReview, P.WorkerSetsStatus]).tables
            == P.SetStatus(P.Enqueue(s.tables), P.StatusFor(d))
  {
    P.TwoSteps(s, P.EnqueueReview, P.WorkerSetsStatus);
  }

  lemma JobTables(s: P.State, d: Decision, g: nat)
    requires s.worker == P.Idle && s.tables.status == P.Pending
    ensures P.RunFrom(s, JobEvents(d, g)).tables ==
            if d == AutoPost then P.MarkPosted(P.Post(s.tables, g), g)
            else P.SetStatus(P.Enqueue(s.tables), P.StatusFor(d))
  {
    var head := P.UP_TO_SAVED + [P.Decide(d)];
    var ready := s.(worker := P.Decided(d));
    JobUpToDecision(s, d);
    if d == AutoPost {
      P.RunFromAppend(s, head, [P.PostReview(g), P.WorkerMarks]);
      PostingTables(ready, g);
    } else {
      P.RunFromAppend(s, head, [P.EnqueueReview, P.WorkerSetsStatus]);
      QueueingTables(ready, d);
    }
  }

  /** The imperative job and the protocol machine agree: what an undisturbed
      `aggregate` leaves in the stores is what the machine's run leaves. */
  lemma JobRefinesProtocol(before: World, after: World, id: ReviewId, repo: string, prNumber: int,
                           merged: seq<Finding>, threshold: real, splitLines: string -> seq<string>, s: P.State)
    requires JobEffect(before, after, id, repo, prNumber, merged, threshold, splitLines)
    requires s.worker == P.Idle && s.tables == ViewOf(before, id, []) && s.tables.status == P.Pending
    ensures var gate := Gate(merged, threshold);
      P.RunFrom(s, JobEvents(gate, |before.posts|)).tables ==
      ViewOf(after, id, if gate == AutoPost then [|before.posts|] else [])
  {
    JobTables(s, Gate(merged, threshold), |before.posts|);
  }

  datatype Response = Conflict | NotFound | Accepted(status: P.RowStatus, githubId: Option<nat>)

  /** The row that `approve` leaves: posted, with the score it already had, or 0. */
  function Recorded(r: Record, githubId: nat): Record {
    r.(status := P.Posted, githubId := Some(githubId),
       confidence := Some(if r.confidence.Some? then r.confidence.value else 0.0))
  }

  /** 409 exactly when nothing waits; a claim that then finds no review is spent;
      otherwise one post with the stored findings, recorded on the row. */
  ghost predicate ApproveEffect(before: World, after: World, id: ReviewId, note: Option<string>, response: Response,
                                splitLines: string -> seq<string>)
  {
    var g := |before.posts|;
    && OthersUntouched(before, after, id) && after.findings == before.findings
    && (response.Conflict? <==> P.Waiting !in RowsOf(before.rows, id))
    && (response.Conflict? ==> after == before)
    && (!response.Conflict? ==> after.rows == ResolveAll(before.rows, id, P.Resolved, note))
    && (response.NotFound? ==>
          && id !in before.records && after.records == before.records && after.posts == before.posts
          && ViewOf(after, id, []) == P.Resolve(ViewOf(before, id, []), P.Resolved))
    && (response.Accepted? ==>
          && response == Accepted(P.Resolved, Some(g)) && id in before.records
          && after.records == before.records[id := Recorded(before.records[id], g)]
          && ViewOf(after, id, [g]) == P.MarkPosted(P.Post(P.Resolve(ViewOf(before, id, []), P.Resolved), g), g)
          && exists found :: ReadBack(before.findings, id, found)
               && after.posts == before.posts + [Posting(before.records[id].repo, before.records[id].prNumber,
                                                         Body(found, splitLines), EventFor(found))])
  }

  /** 409 exactly when nothing waits, otherwise the rows are dismissed; nothing is posted. */
  ghost predicate RejectEffect(before: World, after: World, id: ReviewId, note: Option<string>, response: Response) {
    && OthersUntouched(before, after, id) && after.posts == before.posts
    && after.records == before.records && after.findings == before.findings
    && (response.Conflict? <==> P.Waiting !in RowsOf(before.rows, id))
    && (response.Conflict? ==> after == before)
    && (!response.Conflict? ==>
          && response == Accepted(P.Dismissed, None)
          && after.rows == ResolveAll(before.rows, id, P.Dismissed, note)
          && ViewOf(after, id, []) == P.Resolve(ViewOf(before, id, []), P.Dismissed))
  }

  lemma PostedIsApproval(before: World, after: World, id: ReviewId, note: Option<string>, found: seq<Finding>,
                         splitLines: string -> seq<string>)
    requires id in before.records && P.Waiting in RowsOf(before.rows, id) && ReadBack(before.findings, id, found)
    requires forall v :: RowsOf(after.rows, v) ==
                         if v == id then P.ResolveRows(RowsOf(before.rows, v), P.Resolved) else RowsOf(before.rows, v)
    requires after == World(before.records[id := Recorded(before.records[id], |before.posts|)], before.findings,
                            ResolveAll(before.rows, id, P.Resolved, note),
                            before.posts + [Posting(before.records[id].repo, before.records[id].prNumber,
                                                    Body(found, splitLines), EventFor(found))])
    ensures ApproveEffect(before, after, id, note, Accepted(P.Resolved, Some(|before.posts|)), splitLines)
  {
    hide FindingsOf, Body, ResolveAll, RowsOf, EventFor;
  }

  lemma MissingIsSpent(before: World, after: World, id: ReviewId, note: Option<string>, splitLines: string -> seq<string>)
    requires id !in before.records && P.Waiting in RowsOf(before.rows, id)
    requires forall v :: RowsOf(after.rows, v) ==
                         if v == id then P.ResolveRows(RowsOf(before.rows, v), P.Resolved) else RowsOf(before.rows, v)
    requires after == before.(rows := ResolveAll(before.rows, id, P.Resolved, note))
    ensures ApproveEffect(before, after, id, note, NotFound, splitLines)
  {
    hide FindingsOf, Body, ResolveAll, RowsOf;
  }

  /** The claimed part of `approve`: read, post, mark. */
  method PostApproved(store: TruthStore, queue: HitlQueue, github: GitHub, ghost before: World, id: ReviewId,
                      ghost note: Option<string>, splitLines: string -> seq<string>)
    returns (response: Response)
    requires store.Valid() && P.Waiting in RowsOf(before.rows, id)
    requires WorldOf(store, queue, github) == before.(rows := queue.rows)
    requires queue.rows == ResolveAll(before.rows, id, P.Resolved, note)
    requires forall v :: RowsOf(queue.rows, v) ==
                         if v == id then P.ResolveRows(RowsOf(before.rows, v), P.Resolved) else RowsOf(before.rows, v)
    modifies store, github
    ensures store.Valid() && ApproveEffect(before, WorldOf(store, queue, github), id, note, response, splitLines)
  {
    hide FindingsOf, Body, ResolveAll, RowsOf, ApproveEffect, EventFor;
    var review := store.GetReviewWithFindings(id);
    if review == None {
      MissingIsSpent(before, WorldOf(store, queue, github), id, note, splitLines);
      return NotFound;
    }
    var found := review.value.findings;
    var body := RenderReviewBody(found, splitLines);
    var githubId := github.PostReview(review.value.repo, review.value.prNumber, body, EventFor(found));
    store.MarkPosted(id, githubId, if review.value.confidence.Some? then review.value.confidence.value else 0.0);
    PostedIsApproval(before, WorldOf(store, queue, github), id, note, found, splitLines);
    response := Accepted(P.Resolved, Some(githubId));
  }

  /** What an approval posts: one review of the stored pull request that lists the
      stored findings and approves exactly when there are none. */
  lemma ApprovedSays(before: World, after: World, id: ReviewId, note: Option<string>, response: Response,
                     splitLines: string -> seq<string>)
    requires ApproveEffect(before, after, id, note, response, splitLines) && response.Accepted?
    ensures id in before.records && id in after.records && |after.posts| == |before.posts| + 1
    ensures var p := after.posts[|before.posts|];
      && p.repo == before.records[id].repo && p.prNumber == before.records[id].prNumber
      && (p.event == APPROVE <==> FreshReview(before.findings, id))
      && exists found :: ReadBack(before.findings, id, found) && Read(p.body, None) == Under(Sort(found, SeverityLe))
    ensures after.records[id].status == P.Posted && after.records[id].githubId == response.githubId
    ensures after.records[id].confidence ==
            if before.records[id].confidence == None then Some(0.0) else before.records[id].confidence
  {
    hide Body, FindingsOf, Sort, ResolveAll, OthersUntouched, ViewOf;
    var found :| ReadBack(before.findings, id, found)
      && after.posts == before.posts + [Posting(before.records[id].repo, before.records[id].prNumber,
                                                Body(found, splitLines), EventFor(found))];
    NothingStored(before.findings, id);
    assert |multiset(found)| == |multiset(FindingsOf(before.findings, id))|;
    BodyListsEveryFinding(found, splitLines);
  }

  /** `approve`: claim, read, post, mark. */
  method Approve(store: TruthStore, queue: HitlQueue, github: GitHub, id: ReviewId, note: Option<string>,
                 splitLines: string -> seq<string>)
    returns (response: Response)
    requires store.Valid()
    modifies store, queue, github
    ensures store.Valid()
    ensures ApproveEffect(old(WorldOf(store, queue, github)), WorldOf(store, queue, github), id, note, response, splitLines)
    ensures github.posts != old(github.posts) ==>
              |github.posts| == |old(github.posts)| + 1
              && (github.posts[|old(github.posts)|].event == APPROVE
                  <==> forall r :: r in old(store.findings) ==> r.review != id)
    ensures response.Accepted? ==>
              && id in old(store.records) && id in store.records
              && store.records[id].status == P.Posted && store.records[id].githubId == response.githubId
              && store.records[id].confidence ==
                 (if old(store.records)[id].confidence == None then Some(0.0) else old(store.records)[id].confidence)
  {
    hide ResolveAll, RowsOf, FindingsOf, Body;
    ghost var before := WorldOf(store, queue, github);
    var claimed := queue.Resolve(id, P.Resolved, note);
    if !claimed {
      return Conflict;
    }
    forall v { ResolveAllViews(before.rows, id, P.Resolved, note, v); }
    response := PostApproved(store, queue, github, before, id, note, splitLines);
    if response.Accepted? {
      ApprovedSays(before, WorldOf(store, queue, github), id, note, response, splitLines);
    }
  }

  /** `reject`: claim, nothing else. */
  method Reject(store: TruthStore, queue: HitlQueue, github: GitHub, id: ReviewId, note: Option<string>)
    returns (response: Response)
    modifies queue
    ensures RejectEffect(old(WorldOf(store, queue, github)), WorldOf(store, queue, github), id, note, response)
  {
    hide ResolveAll, RowsOf;
    ghost var rows := queue.rows;
    var claimed := queue.Resolve(id, P.Dismissed, note);
    if !claimed {
      return Conflict;
    }
    forall v { ResolveAllViews(rows, id, P.Dismissed, note, v); }
    response := Accepted(P.Dismissed, None);
  }

  /** An undisturbed `approve` leaves in the stores what the machine's run of its
      steps leaves; one that finds no review is the machine's abandoned approval. */
  lemma ApproveRefinesProtocol(before: World, after: World, id: ReviewId, note: Option<string>, response: Response,
                               splitLines: string -> seq<string>, s: P.State, posts: seq<nat>)
    requires ApproveEffect(before, after, id, note, response, splitLines) && s.tables == ViewOf(before, id, posts)
    ensures var g, h := |before.posts|, |s.handlers|;
      match response
      case Conflict => P.Step(s, P.Approve) == s && after == before
      case NotFound => P.RunFrom(s, [P.Approve, P.HandlerCrashes(h)]).tables == ViewOf(after, id, posts)
      case Accepted(_, _) => P.RunFrom(s, P.ApproveEvents(h, g)).tables == ViewOf(after, id, posts + [g])
  {
    if !response.Conflict? {
      P.ApproveRuns(s, |before.posts|);
      P.AbandonedRuns(s);
    }
  }

  lemma RejectRefinesProtocol(before: World, after: World, id: ReviewId, note: Option<string>, response: Response,
                              s: P.State, posts: seq<nat>)
    requires RejectEffect(before, after, id, note, response) && s.tables == ViewOf(before, id, posts)
    ensures P.RunFrom(s, [P.Reject]).tables == ViewOf(after, id, posts)
    ensures P.RunFrom(s, [P.Reject]).rejects == s.rejects + if response.Conflict? then 0 else 1
  {
    P.OneStep(s, P.Reject);
  }
}
