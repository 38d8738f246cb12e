/** The stores as objects that the pipeline updates in place: `TruthStore`,
    `HitlQueue` and the GitHub client's `post_review`. Every method changes one
    review's view by one operation of `ReviewProtocol`. */
module ReviewTables {
  import opened Basics
  import opened Findings
  import opened Render
  import opened FindingRecords
  import P = ReviewProtocol

  datatype Record = Record(
    repo: string,
    prNumber: int,
    delivery: string,
    status: P.Status,
    confidence: Option<real>,
    githubId: Option<nat>)

  datatype StoredReview = StoredReview(repo: string, prNumber: int, confidence: Option<real>, findings: seq<Finding>)

  class TruthStore {
    var records: map<ReviewId, Record>
    var findings: seq<Row>
    var nextId: ReviewId

    /** Delivery ids are unique; finding rows refer to existing reviews; confidences
        on record have three decimals. */
    ghost predicate Valid()
      reads this
    {
      && (forall i :: i in records ==> i < nextId)
      && (forall i, j :: i in records && j in records && records[i].delivery == records[j].delivery ==> i == j)
      && (forall r :: r in findings ==> r.review in records)
      && (forall i :: i in records && records[i].confidence.Some? ==>
            Round3(records[i].confidence.value) == records[i].confidence.value)
    }

    constructor ()
      ensures Valid() && records == map[] && findings == []
    {
      records, findings, nextId := map[], [], 0;
    }

    /** Get or create the review of a delivery. On conflict only the PR number
        is written. */
    method UpsertReview(repo: string, prNumber: int, delivery: string) returns (id: ReviewId)
      requires Valid()
      modifies this
      ensures Valid() && findings == old(findings)
      ensures id in records && records[id].delivery == delivery
      ensures id in old(records) ==> records == old(records)[id := old(records)[id].(prNumber := prNumber)]
      ensures id !in old(records) ==>
                && records == old(records)[id := Record(repo, prNumber, delivery, P.Pending, None, None)]
                && (forall i :: i in old(records) ==> old(records)[i].delivery != delivery)
                && FreshReview(findings, id)
    {
      if i :| i in records && records[i].delivery == delivery {
        id := i;
        records := records[id := records[id].(prNumber := prNumber)];
      } else {
        id := nextId;
        records := records[id := Record(repo, prNumber, delivery, P.Pending, None, None)];
        nextId := nextId + 1;
      }
    }

    /** INSERT … ON CONFLICT DO NOTHING, row by row. */
    method InsertFindings(id: ReviewId, fs: seq<Finding>)
      requires Valid() && id in records
      modifies this`findings
      ensures Valid() && findings == InsertAll(old(findings), id, fs)
    {
      for k := 0 to |fs|
        invariant findings == InsertAll(old(findings), id, fs[..k])
        invariant forall r :: r in findings ==> r.review in records
      {
        assert fs[..k + 1][..k] == fs[..k];
        var row := ToRow(id, fs[k]);
        if !HasKey(findings, KeyOfRow(row)) {
          findings := findings + [row];
        }
      }
      assert fs[..|fs|] == fs;
    }

    method MarkPosted(id: ReviewId, githubId: nat, confidence: real)
      requires Valid()
      modifies this`records
      ensures Valid()
      ensures records == if id !in old(records) then old(records) else
                old(records)[id := old(records)[id].(status := P.Posted, githubId := Some(githubId),
                                                     confidence := Some(Round3(confidence)))]
    {
      RoundTwice(confidence);
      if id in records {
        records := records[id := records[id].(status := P.Posted, githubId := Some(githubId),
                                              confidence := Some(Round3(confidence)))];
      }
    }

    method SetStatus(id: ReviewId, status: P.Status, confidence: real)
      requires Valid()
      modifies this`records
      ensures Valid()
      ensures records == if id !in old(records) then old(records) else
                old(records)[id := old(records)[id].(status := status, confidence := Some(Round3(confidence)))]
    {
      RoundTwice(confidence);
      if id in records {
        records := records[id := records[id].(status := status, confidence := Some(Round3(confidence)))];
      }
    }

    /** The rows come back in table order here; callers may rely on no order. */
    method GetReviewWithFindings(id: ReviewId) returns (review: Option<StoredReview>)
      requires Valid()
      ensures review.None? <==> id !in records
      ensures review.Some? ==>
                && ReadBack(findings, id, review.value.findings)
                && review.value.repo == records[id].repo && review.value.prNumber == records[id].prNumber
                && review.value.confidence == records[id].confidence
    {
      if id !in records {
        return None;
      }
      var found: seq<Finding> := [];
      for k := 0 to |findings|
        invariant found == FindingsOf(findings[..k], id)
      {
        assert findings[..k + 1][..k] == findings[..k];
        if findings[k].review == id {
          found := found + [FromRow(findings[k])];
        }
      }
      assert findings[..|findings|] == findings;
      var r := records[id];
      review := Some(StoredReview(r.repo, r.prNumber, r.confidence, found));
    }
  }

  datatype Reason = CriticalFindings(titles: seq<string>) | LowConfidence(score: real, threshold: real)

  datatype HitlRow = HitlRow(review: ReviewId, reason: Reason, status: P.RowStatus, note: Option<string>)

  /** The row states of one review, in table order. */
  function RowsOf(rows: seq<HitlRow>, review: ReviewId): seq<P.RowStatus> {
    if rows == [] then []
    else
      var before := RowsOf(rows[..|rows| - 1], review);
      if rows[|rows| - 1].review == review then before + [rows[|rows| - 1].status] else before
  }

  function ResolveRow(row: HitlRow, review: ReviewId, to: P.RowStatus, note: Option<string>): HitlRow {
    if row.review == review && row.status == P.Waiting then row.(status := to, note := note) else row
  }

  function ResolveAll(rows: seq<HitlRow>, review: ReviewId, to: P.RowStatus, note: Option<string>): seq<HitlRow> {
    if rows == [] then []
    else ResolveAll(rows[..|rows| - 1], review, to, note) + [ResolveRow(rows[|rows| - 1], review, to, note)]
  }

  lemma RowsOfSnoc(rows: seq<HitlRow>, last: HitlRow, v: ReviewId)
    ensures RowsOf(rows + [last], v) == if last.review == v then RowsOf(rows, v) + [last.status] else RowsOf(rows, v)
  {
    assert (rows + [last])[..|rows|] == rows;
  }

  /** The UPDATE resolves the waiting rows of its review and no other review's. */
  lemma {:induction false} ResolveAllViews(rows: seq<HitlRow>, review: ReviewId, to: P.RowStatus, note: Option<string>, v: ReviewId)
    ensures RowsOf(ResolveAll(rows, review, to, note), v) ==
            if v == review then P.ResolveRows(RowsOf(rows, v), to) else RowsOf(rows, v)
  {
    if rows != [] {
      var before, last := rows[..|rows| - 1], rows[|rows| - 1];
      ResolveAllViews(before, review, to, note, v);
      RowsOfSnoc(ResolveAll(before, review, to, note), ResolveRow(last, review, to, note), v);
      ResolveSnoc(RowsOf(before, v), last.status, to);
    }
  }

  lemma {:induction false} ResolveNothing(rows: seq<HitlRow>, review: ReviewId, to: P.RowStatus, note: Option<string>)
    requires P.Waiting !in RowsOf(rows, review)
    ensures ResolveAll(rows, review, to, note) == rows
  {
    if rows != [] {
      var before, last := rows[..|rows| - 1], rows[|rows| - 1];
      assert rows == before + [last];
      RowsOfSnoc(before, last, review);
      ResolveNothing(before, review, to, note);
    }
  }

  /** Row by row: a waiting row of the review gets the new state and the note and
      keeps its reason; every other row stays as it is. */
  lemma {:induction false} ResolveAllAt(rows: seq<HitlRow>, review: ReviewId, to: P.RowStatus, note: Option<string>)
    ensures |ResolveAll(rows, review, to, note)| == |rows|
    ensures forall k :: 0 <= k < |rows| ==>
              ResolveAll(rows, review, to, note)[k] ==
              if rows[k].review == review && rows[k].status == P.Waiting then HitlRow(review, rows[k].reason, to, note)
              else rows[k]
  {
    if rows != [] {
      ResolveAllAt(rows[..|rows| - 1], review, to, note);
    }
  }

  class HitlQueue {
    var rows: seq<HitlRow>

    constructor ()
      ensures rows == []
    {
      rows := [];
    }

    method Enqueue(review: ReviewId, reason: Reason) returns (id: nat)
      modifies this
      ensures rows == old(rows) + [HitlRow(review, reason, P.Waiting, None)] && id == |old(rows)|
      ensures forall v :: RowsOf(rows, v) == if v == review then RowsOf(old(rows), v) + [P.Waiting] else RowsOf(old(rows), v)
    {
      id := |rows|;
      rows := rows + [HitlRow(review, reason, P.Waiting, None)];
      assert rows[..|rows| - 1] == old(rows);
    }

    /** UPDATE … WHERE review_id = … AND status = 'pending': claims every
        waiting row of the review, reports whether there was one. */
    method Resolve(review: ReviewId, to: P.RowStatus, note: Option<string>) returns (claimed: bool)
      requires to != P.Waiting
      modifies this
      ensures claimed <==> P.Waiting in RowsOf(old(rows), review)
      ensures claimed <==> exists k :: 0 <= k < |old(rows)| && old(rows)[k].review == review && old(rows)[k].status == P.Waiting
      ensures rows == ResolveAll(old(rows), review, to, note)
      ensures |rows| == |old(rows)|
      ensures forall k :: 0 <= k < |rows| ==>
                rows[k] == if old(rows)[k].review == review && old(rows)[k].status == P.Waiting
                           then HitlRow(review, old(rows)[k].reason, to, note) else old(rows)[k]
      ensures !claimed ==> rows == old(rows)
    {
      claimed := false;
      var done: seq<HitlRow> := [];
      for k := 0 to |rows|
        invariant rows == old(rows)
        invariant claimed <==> P.Waiting in RowsOf(rows[..k], review)
        invariant claimed <==> exists j :: 0 <= j < k && rows[j].review == review && rows[j].status == P.Waiting
        invariant done == ResolveAll(rows[..k], review, to, note)
      {
        assert rows[..k + 1][..k] == rows[..k];
        if rows[k].review == review && rows[k].status == P.Waiting {
          claimed := true;
        }
        done := done + [ResolveRow(rows[k], review, to, note)];
      }
      assert rows[..|rows|] == rows;
      ResolveAllAt(rows, review, to, note);
      if !claimed {
        ResolveNothing(rows, review, to, note);
      }
      rows := done;
    }
  }

  lemma ResolveSnoc(rows: seq<P.RowStatus>, last: P.RowStatus, to: P.RowStatus)
    ensures P.ResolveRows(rows + [last], to) == P.ResolveRows(rows, to) + [if last == P.Waiting then to else last]
  {
    assert (rows + [last])[..|rows|] == rows;
  }

  datatype ReviewEvent = APPROVE | COMMENT

  datatype Posting = Posting(repo: string, prNumber: int, body: seq<Line>, event: ReviewEvent)

  class GitHub {
    var posts: seq<Posting>

    constructor ()
      ensures posts == []
    {
      posts := [];
    }

    method PostReview(repo: string, prNumber: int, body: seq<Line>, event: ReviewEvent) returns (id: nat)
      modifies this
      ensures posts == old(posts) + [Posting(repo, prNumber, body, event)] && id == |old(posts)|
    {
      id := |posts|;
      posts := posts + [Posting(repo, prNumber, body, event)];
    }
  }
}
