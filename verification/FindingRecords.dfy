/** The `finding_records` table: `insert_findings` (ON CONFLICT DO NOTHING) and
    the rows `get_review_with_findings` reads back. */
module FindingRecords {
  import opened Basics
  import opened StableSort
  import opened Findings
  import opened Dedup
  import opened Render

  type ReviewId = nat

  datatype Row = Row(
    review: ReviewId,
    agent: Agent,
    severity: Severity,
    category: string,
    summary: string,
    filePath: string,
    lineStart: Option<int>,
    confidence: real,
    rationale: string)

  /** Columns of `finding_records_dedup_idx`; a missing line is indexed as -1. */
  datatype RowKey = RowKey(review: ReviewId, agent: Agent, filePath: string, line: int, category: string)

  function Coalesce(line: Option<int>): int {
    match line
    case None => -1
    case Some(n) => n
  }

  function KeyOfRow(r: Row): RowKey {
    RowKey(r.review, r.agent, r.filePath, Coalesce(r.lineStart), r.category)
  }

  /** NUMERIC(4,3): three decimals, halves away from zero. */
  function Round3(c: real): real {
    (c * 1000.0 + 0.5).Floor as real / 1000.0
  }

  function ToRow(review: ReviewId, f: Finding): Row {
    Row(review, f.agent, f.severity, f.category, f.title, f.file, f.line, Round3(f.confidence), f.rationale)
  }

  function FromRow(r: Row): Finding {
    Finding(r.agent, r.severity, r.category, r.filePath, r.lineStart, r.confidence, r.summary, r.rationale)
  }

  function Rounded(f: Finding): Finding {
    f.(confidence := Round3(f.confidence))
  }

  predicate HasKey(table: seq<Row>, key: RowKey) {
    exists r :: r in table && KeyOfRow(r) == key
  }

  function InsertRow(table: seq<Row>, row: Row): seq<Row> {
    if HasKey(table, KeyOfRow(row)) then table else table + [row]
  }

  function InsertAll(table: seq<Row>, review: ReviewId, fs: seq<Finding>): seq<Row> {
    if fs == [] then table
    else InsertRow(InsertAll(table, review, fs[..|fs| - 1]), ToRow(review, fs[|fs| - 1]))
  }

  /** The findings stored for a review, in table order. A SELECT without
      ORDER BY may return them in any order. */
  function FindingsOf(table: seq<Row>, review: ReviewId): seq<Finding> {
    if table == [] then []
    else
      var before := FindingsOf(table[..|table| - 1], review);
      if table[|table| - 1].review == review then before + [FromRow(table[|table| - 1])] else before
  }

  ghost predicate ReadBack(table: seq<Row>, review: ReviewId, out: seq<Finding>) {
    multiset(out) == multiset(FindingsOf(table, review))
  }

  function RoundedAll(fs: seq<Finding>): seq<Finding> {
    if fs == [] then [] else RoundedAll(fs[..|fs| - 1]) + [Rounded(fs[|fs| - 1])]
  }

  /** What the confidence column keeps: the nearest multiple of 0.001, the upper one
      of two. */
  lemma RoundsToNearest(c: real) returns (k: int)
    ensures Round3(c) == k as real / 1000.0 && -0.0005 < Round3(c) - c <= 0.0005
  {
    k := (c * 1000.0 + 0.5).Floor;
    var r := k as real;
    assert r <= c * 1000.0 + 0.5 < r + 1.0;
    assert r / 1000.0 - c == (r - c * 1000.0) / 1000.0;
  }

  // ---- writing twice is writing once --------------------------------------------

  lemma {:induction false} InsertAppend(table: seq<Row>, review: ReviewId, a: seq<Finding>, b: seq<Finding>)
    ensures InsertAll(table, review, a + b) == InsertAll(InsertAll(table, review, a), review, b)
  {
    if b == [] {
      assert a + b == a;
    } else {
      assert (a + b)[..|a + b| - 1] == a + b[..|b| - 1];
      InsertAppend(table, review, a, b[..|b| - 1]);
    }
  }

  lemma {:induction false} InsertKeepsKeys(table: seq<Row>, review: ReviewId, fs: seq<Finding>)
    ensures forall k :: HasKey(table, k) ==> HasKey(InsertAll(table, review, fs), k)
    ensures forall f :: f in fs ==> HasKey(InsertAll(table, review, fs), KeyOfRow(ToRow(review, f)))
  {
    if fs != [] {
      var before, last := fs[..|fs| - 1], fs[|fs| - 1];
      var mid := InsertAll(table, review, before);
      InsertKeepsKeys(table, review, before);
      assert fs == before + [last];
      assert ToRow(review, last) in mid + [ToRow(review, last)];
      forall k | HasKey(mid, k) ensures HasKey(InsertRow(mid, ToRow(review, last)), k) {
        var r :| r in mid && KeyOfRow(r) == k;
        assert r in InsertRow(mid, ToRow(review, last));
      }
    }
  }

  lemma {:induction false} InsertPresent(table: seq<Row>, review: ReviewId, fs: seq<Finding>)
    requires forall f :: f in fs ==> HasKey(table, KeyOfRow(ToRow(review, f)))
    ensures InsertAll(table, review, fs) == table
  {
    if fs != [] {
      InsertPresent(table, review, fs[..|fs| - 1]);
      assert fs[|fs| - 1] in fs;
    }
  }

  /** Crashed attempts that wrote `fs[..p]` for each `p` of `prefixes`. */
  function Attempts(table: seq<Row>, review: ReviewId, fs: seq<Finding>, prefixes: seq<nat>): seq<Row>
    requires forall k :: 0 <= k < |prefixes| ==> prefixes[k] <= |fs|
  {
    if prefixes == [] then table
    else InsertAll(Attempts(table, review, fs, prefixes[..|prefixes| - 1]), review, fs[..prefixes[|prefixes| - 1]])
  }

  /** Any number of partial writes and retries before the full write leave the
      table as the full write alone does. */
  lemma {:induction false} RetriedWriteIsOneWrite(table: seq<Row>, review: ReviewId, fs: seq<Finding>, prefixes: seq<nat>)
    requires forall k :: 0 <= k < |prefixes| ==> prefixes[k] <= |fs|
    ensures InsertAll(Attempts(table, review, fs, prefixes), review, fs) == InsertAll(table, review, fs)
  {
    if prefixes != [] {
      var p := prefixes[|prefixes| - 1];
      var before := Attempts(table, review, fs, prefixes[..|prefixes| - 1]);
      var a, b := fs[..p], fs[p..];
      assert fs == a + b;
      RetriedWriteIsOneWrite(table, review, fs, prefixes[..|prefixes| - 1]);
      InsertKeepsKeys(before, review, a);
      InsertPresent(InsertAll(before, review, a), review, a);
      InsertAppend(InsertAll(before, review, a), review, a, b);
      InsertAppend(before, review, a, b);
    }
  }

  // ---- reading back ---------------------------------------------------------------

  /** No two findings collide on the table's unique index. */
  ghost predicate NoCollision(fs: seq<Finding>) {
    DistinctKeys(fs, f => KeyOfRow(ToRow(0, f)))
  }

  ghost predicate FreshReview(table: seq<Row>, review: ReviewId) {
    forall r :: r in table ==> r.review != review
  }

  lemma {:induction false} NothingStored(table: seq<Row>, review: ReviewId)
    ensures FindingsOf(table, review) == [] <==> FreshReview(table, review)
  {
    if table != [] {
      NothingStored(table[..|table| - 1], review);
      assert table == table[..|table| - 1] + [table[|table| - 1]];
    }
  }

  lemma FindingsOfInsert(table: seq<Row>, review: ReviewId, f: Finding)
    ensures FindingsOf(InsertRow(table, ToRow(review, f)), review) ==
            FindingsOf(table, review) + (if HasKey(table, KeyOfRow(ToRow(review, f))) then [] else [Rounded(f)])
  {
    hide Round3;
    var row := ToRow(review, f);
    if !HasKey(table, KeyOfRow(row)) {
      assert (table + [row])[..|table|] == table;
    }
  }

  /** Keys stored for a fresh review are the keys of the findings written. */
  lemma {:induction false} StoredKeys(table: seq<Row>, review: ReviewId, fs: seq<Finding>)
    requires FreshReview(table, review)
    ensures forall r :: r in InsertAll(table, review, fs) && r.review == review ==>
              exists f :: f in fs && r == ToRow(review, f)
  {
    if fs != [] {
      var before, last := fs[..|fs| - 1], fs[|fs| - 1];
      StoredKeys(table, review, before);
      assert fs == before + [last];
      forall r | r in InsertAll(table, review, fs) && r.review == review
        ensures exists f :: f in fs && r == ToRow(review, f)
      {
        if r in InsertAll(table, review, before) {
          var f :| f in before && r == ToRow(review, f);
          assert f in fs;
        } else {
          assert r == ToRow(review, last) && last in fs;
        }
      }
    }
  }

  lemma {:induction false} StoredAreWritten(table: seq<Row>, review: ReviewId, fs: seq<Finding>)
    requires FreshReview(table, review)
    ensures |FindingsOf(InsertAll(table, review, fs), review)| <= |fs|
    ensures NoCollision(fs) ==> FindingsOf(InsertAll(table, review, fs), review) == RoundedAll(fs)
    ensures !NoCollision(fs) ==> |FindingsOf(InsertAll(table, review, fs), review)| < |fs|
  {
    if fs == [] {
      NothingStored(table, review);
    } else {
      var before, last := fs[..|fs| - 1], fs[|fs| - 1];
      var mid := InsertAll(table, review, before);
      StoredAreWritten(table, review, before);
      FindingsOfInsert(mid, review, last);
      assert HasKey(mid, KeyOfRow(ToRow(review, last))) <==> Collides(before, last) by {
        StoredKeys(table, review, before);
        InsertKeepsKeys(table, review, before);
      }
      NoCollisionSnoc(fs);
    }
  }

  ghost predicate Collides(fs: seq<Finding>, f: Finding) {
    exists g :: g in fs && KeyOfRow(ToRow(0, g)) == KeyOfRow(ToRow(0, f))
  }

  lemma NoCollisionSnoc(fs: seq<Finding>)
    requires fs != []
    ensures NoCollision(fs) <==> NoCollision(fs[..|fs| - 1]) && !Collides(fs[..|fs| - 1], fs[|fs| - 1])
  {
    var n := |fs| - 1;
    var before, last := fs[..n], fs[n];
    var key := f => KeyOfRow(ToRow(0, f));
    assert forall i :: 0 <= i < n ==> before[i] == fs[i];
    if NoCollision(before) && !Collides(before, last) {
      forall i, j | 0 <= i < j < |fs| ensures key(fs[i]) != key(fs[j]) {
        if j == n {
          assert before[i] in before;
        } else {
          assert key(before[i]) != key(before[j]);
        }
      }
    }
  }

  /** The exact condition for a faithful copy: after any retries, what is read
      back is a permutation of the findings written (confidence to three
      decimals) if and only if no two of them collide on the unique index. */
  lemma ReadBackIsPermutationIffNoCollision(
    table: seq<Row>, review: ReviewId, fs: seq<Finding>, prefixes: seq<nat>, out: seq<Finding>)
    requires FreshReview(table, review)
    requires forall k :: 0 <= k < |prefixes| ==> prefixes[k] <= |fs|
    requires ReadBack(InsertAll(Attempts(table, review, fs, prefixes), review, fs), review, out)
    ensures multiset(out) == multiset(RoundedAll(fs)) <==> NoCollision(fs)
  {
    RetriedWriteIsOneWrite(table, review, fs, prefixes);
    StoredAreWritten(table, review, fs);
    RoundedLength(fs);
    assert |multiset(out)| == |multiset(FindingsOf(InsertAll(table, review, fs), review))|;
    assert |multiset(RoundedAll(fs))| == |fs|;
  }

  lemma {:induction false} RoundedLength(fs: seq<Finding>)
    ensures |RoundedAll(fs)| == |fs|
  {
    hide Round3;
    if fs != [] {
      RoundedLength(fs[..|fs| - 1]);
    }
  }

  /** A finding without a line and one on "line -1" look alike to the index. */
  ghost predicate LineMinusOneClash(fs: seq<Finding>) {
    exists f, g :: f in fs && g in fs && f.line == None && g.line == Some(-1)
                   && f.file == g.file && f.agent == g.agent && f.category == g.category
  }

  /** On a deduplicated list that clash is the only possible collision. */
  lemma DedupCollidesOnlyOnLineMinusOne(merged: seq<Finding>)
    ensures NoCollision(DedupSpec(merged)) <==> !LineMinusOneClash(DedupSpec(merged))
  {
    var fs := DedupSpec(merged);
    var key := f => KeyOfRow(ToRow(0, f));
    DedupOnePerSpot(merged);
    if LineMinusOneClash(fs) {
      var f, g :| f in fs && g in fs && f.line == None && g.line == Some(-1)
                  && f.file == g.file && f.agent == g.agent && f.category == g.category;
      var i :| 0 <= i < |fs| && fs[i] == f;
      var j :| 0 <= j < |fs| && fs[j] == g;
      assert key(fs[i]) == key(fs[j]);
      assert i < j || j < i;
    } else {
      forall i, j | 0 <= i < j < |fs| ensures key(fs[i]) != key(fs[j]) {
        assert SpotOf(fs[i]) != SpotOf(fs[j]);
        assert fs[i] in fs && fs[j] in fs;
      }
    }
  }

  // ---- the body a human approves --------------------------------------------------

  lemma {:induction false} BucketCounts(fs: seq<Finding>, s: Severity, f: Finding)
    ensures multiset(Bucket(fs, s))[f] == if f.severity == s then multiset(fs)[f] else 0
  {
    if fs != [] {
      var before, last := fs[..|fs| - 1], fs[|fs| - 1];
      BucketCounts(before, s, f);
      assert fs == before + [last];
    }
  }

  lemma BucketsPermute(a: seq<Finding>, b: seq<Finding>, s: Severity)
    requires multiset(a) == multiset(b)
    ensures multiset(Bucket(a, s)) == multiset(Bucket(b, s))
  {
    forall f ensures multiset(Bucket(a, s))[f] == multiset(Bucket(b, s))[f] {
      BucketCounts(a, s, f);
      BucketCounts(b, s, f);
    }
  }

  lemma {:induction false} BucketOfRounded(fs: seq<Finding>, s: Severity)
    ensures Bucket(RoundedAll(fs), s) == RoundedAll(Bucket(fs, s))
  {
    hide Round3;
    if fs != [] {
      BucketOfRounded(fs[..|fs| - 1], s);
      var before := RoundedAll(fs[..|fs| - 1]);
      assert (before + [Rounded(fs[|fs| - 1])])[..|before|] == before;
      if fs[|fs| - 1].severity == s {
        var kept := Bucket(fs[..|fs| - 1], s);
        assert (kept + [fs[|fs| - 1]])[..|kept|] == kept;
      }
    }
  }

  lemma {:induction false} SameBucketsSameHeadings(a: seq<Finding>, b: seq<Finding>, order: seq<Severity>)
    requires forall s :: Bucket(a, s) == [] <==> Bucket(b, s) == []
    ensures Occurring(a, order) == Occurring(b, order)
  {
    if order != [] {
      SameBucketsSameHeadings(a, b, order[..|order| - 1]);
    }
  }

  function ItemsUnder(entries: seq<Entry>, s: Severity): seq<Finding> {
    if entries == [] then []
    else
      var before := ItemsUnder(entries[..|entries| - 1], s);
      if entries[|entries| - 1].under == Some(s) then before + [entries[|entries| - 1].finding] else before
  }

  lemma {:induction false} ItemsUnderOwnHeading(fs: seq<Finding>, s: Severity)
    ensures ItemsUnder(Under(fs), s) == Bucket(fs, s)
  {
    if fs != [] {
      assert Under(fs)[..|fs| - 1] == Under(fs[..|fs| - 1]);
      ItemsUnderOwnHeading(fs[..|fs| - 1], s);
    }
  }

  /** The body shows, under each heading, exactly the findings of that severity
      in the order given. */
  lemma BodyItemsUnder(fs: seq<Finding>, s: Severity, splitLines: string -> seq<string>)
    ensures ItemsUnder(Read(Body(fs, splitLines), None), s) == Bucket(fs, s)
  {
    var sorted := Sort(fs, SeverityLe);
    BodyListsEveryFinding(fs, splitLines);
    ItemsUnderOwnHeading(sorted, s);
    var x := Finding(Docs, s, "", "", None, 0.0, "", "");
    SeverityLePreorder();
    SortIsStable(fs, SeverityLe);
    BucketIsPeers(fs, x);
    BucketIsPeers(sorted, x);
  }

  /** The body `out` shows what the body of `fs` shows: the same headings and,
      under each, the same findings, confidence to three decimals. */
  ghost predicate SameReview(out: seq<Finding>, fs: seq<Finding>, splitLines: string -> seq<string>) {
    && Headings(Body(out, splitLines)) == Headings(Body(fs, splitLines))
    && forall s :: SameUnder(out, fs, s, splitLines)
  }

  ghost predicate SameUnder(out: seq<Finding>, fs: seq<Finding>, s: Severity, splitLines: string -> seq<string>) {
    multiset(ItemsUnder(Read(Body(out, splitLines), None), s)) ==
    multiset(RoundedAll(ItemsUnder(Read(Body(fs, splitLines), None), s)))
  }

  lemma PermutationIsSameReview(out: seq<Finding>, fs: seq<Finding>, splitLines: string -> seq<string>)
    requires multiset(out) == multiset(RoundedAll(fs))
    ensures SameReview(out, fs, splitLines)
  {
    hide Round3;
    BodyListsEveryFinding(out, splitLines);
    BodyListsEveryFinding(fs, splitLines);
    forall t ensures multiset(Bucket(out, t)) == multiset(RoundedAll(Bucket(fs, t)))
    {
      BucketsPermute(out, RoundedAll(fs), t);
      BucketOfRounded(fs, t);
    }
    forall t ensures Bucket(out, t) == [] <==> Bucket(fs, t) == [] {
      RoundedLength(Bucket(fs, t));
      assert |multiset(Bucket(out, t))| == |multiset(RoundedAll(Bucket(fs, t)))|;
    }
    SameBucketsSameHeadings(out, fs, SEVERITY_ORDER);
    forall s ensures SameUnder(out, fs, s, splitLines) {
      BodyItemsUnder(out, s, splitLines);
      BodyItemsUnder(fs, s, splitLines);
    }
  }

  lemma {:induction false} SeveritiesPartition(fs: seq<Finding>)
    ensures |fs| == |Bucket(fs, Critical)| + |Bucket(fs, High)| + |Bucket(fs, Medium)| + |Bucket(fs, Low)| + |Bucket(fs, Info)|
  {
    if fs != [] {
      SeveritiesPartition(fs[..|fs| - 1]);
    }
  }

  lemma SameReviewSameLength(out: seq<Finding>, fs: seq<Finding>, splitLines: string -> seq<string>)
    requires SameReview(out, fs, splitLines)
    ensures |out| == |fs|
  {
    hide Round3;
    SeveritiesPartition(out);
    SeveritiesPartition(fs);
    forall s ensures |Bucket(out, s)| == |Bucket(fs, s)| {
      assert SameUnder(out, fs, s, splitLines);
      BodyItemsUnder(out, s, splitLines);
      BodyItemsUnder(fs, s, splitLines);
      RoundedLength(Bucket(fs, s));
      assert |multiset(Bucket(out, s))| == |multiset(RoundedAll(Bucket(fs, s)))|;
    }
  }

  /** What a human approves and what the gate saw: whatever order the rows come
      back in and however often the write was retried, the two bodies show the
      same findings under the same headings if and only if the deduplicated list
      has no finding without a line and one on line -1 that look alike. */
  lemma ApproveBodyMatchesGateBodyIff(
    table: seq<Row>, review: ReviewId, merged: seq<Finding>, prefixes: seq<nat>, out: seq<Finding>,
    splitLines: string -> seq<string>)
    requires FreshReview(table, review)
    requires forall k :: 0 <= k < |prefixes| ==> prefixes[k] <= |DedupSpec(merged)|
    requires var fs := DedupSpec(merged);
             ReadBack(InsertAll(Attempts(table, review, fs, prefixes), review, fs), review, out)
    ensures SameReview(out, DedupSpec(merged), splitLines) <==> !LineMinusOneClash(DedupSpec(merged))
  {
    var fs := DedupSpec(merged);
    DedupCollidesOnlyOnLineMinusOne(merged);
    ReadBackIsPermutationIffNoCollision(table, review, fs, prefixes, out);
    RetriedWriteIsOneWrite(table, review, fs, prefixes);
    StoredAreWritten(table, review, fs);
    assert |multiset(out)| == |multiset(FindingsOf(InsertAll(table, review, fs), review))|;
    if NoCollision(fs) {
      PermutationIsSameReview(out, fs, splitLines);
    } else if SameReview(out, fs, splitLines) {
      SameReviewSameLength(out, fs, splitLines);
    }
  }

  // ---- the exact review ---------------------------------------------------------------

  /** After the writes, every order in which the rows can come back gives the body
      of `fs`, line for line. */
  ghost predicate AlwaysExact(table: seq<Row>, review: ReviewId, fs: seq<Finding>, prefixes: seq<nat>,
                              splitLines: string -> seq<string>)
    requires forall k :: 0 <= k < |prefixes| ==> prefixes[k] <= |fs|
  {
    forall out :: ReadBack(InsertAll(Attempts(table, review, fs, prefixes), review, fs), review, out)
      ==> Body(out, splitLines) == Body(fs, splitLines)
  }

  /** No confidence has more than three decimals. */
  ghost predicate ThreeDecimals(fs: seq<Finding>) {
    forall f :: f in fs ==> Round3(f.confidence) == f.confidence
  }

  /** No severity has two findings. */
  ghost predicate OnePerSeverity(fs: seq<Finding>) {
    forall s :: |Bucket(fs, s)| <= 1
  }

  lemma {:induction false} SameBucketsSameSections(a: seq<Finding>, b: seq<Finding>, order: seq<Severity>,
                                                   splitLines: string -> seq<string>)
    requires forall s :: Bucket(a, s) == Bucket(b, s)
    ensures Sections(a, order, splitLines) == Sections(b, order, splitLines)
  {
    if order != [] {
      SameBucketsSameSections(a, b, order[..|order| - 1], splitLines);
    }
  }

  lemma SameBucketsSameBody(a: seq<Finding>, b: seq<Finding>, splitLines: string -> seq<string>)
    requires forall s :: Bucket(a, s) == Bucket(b, s)
    ensures Body(a, splitLines) == Body(b, splitLines)
  {
    SeveritiesPartition(a);
    SeveritiesPartition(b);
    SameBucketsSameSections(a, b, SEVERITY_ORDER, splitLines);
  }

  /** A bucket can be read off the lines of the body. */
  lemma BucketFromBody(fs: seq<Finding>, lines: seq<Line>, s: Severity, splitLines: string -> seq<string>)
    requires lines == Body(fs, splitLines)
    ensures Bucket(fs, s) == ItemsUnder(Read(lines, None), s)
  {
    BodyItemsUnder(fs, s, splitLines);
  }

  lemma SameBodySameBuckets(a: seq<Finding>, b: seq<Finding>, lines: seq<Line>, splitLines: string -> seq<string>)
    requires Body(a, splitLines) == lines && Body(b, splitLines) == lines
    ensures forall s :: Bucket(a, s) == Bucket(b, s)
  {
    forall s ensures Bucket(a, s) == Bucket(b, s) {
      BucketFromBody(a, lines, s, splitLines);
      BucketFromBody(b, lines, s, splitLines);
    }
  }

  lemma SameBucketsPermute(a: seq<Finding>, b: seq<Finding>)
    requires forall s :: Bucket(a, s) == Bucket(b, s)
    ensures multiset(a) == multiset(b)
  {
    forall f ensures multiset(a)[f] == multiset(b)[f] {
      BucketCounts(a, f.severity, f);
      BucketCounts(b, f.severity, f);
    }
  }

  lemma AtMostOnePermutes(a: seq<Finding>, b: seq<Finding>)
    requires multiset(a) == multiset(b) && |b| <= 1
    ensures a == b
  {
    assert |multiset(a)| == |multiset(b)|;
    if b != [] {
      assert a[0] in multiset(b);
    }
  }

  lemma {:induction false} RoundedIsItself(fs: seq<Finding>)
    requires ThreeDecimals(fs)
    ensures RoundedAll(fs) == fs
  {
    hide Round3;
    if fs != [] {
      var front, last := fs[..|fs| - 1], fs[|fs| - 1];
      assert fs == front + [last];
      assert ThreeDecimals(front) && Rounded(last) == last by {
        assert forall f :: f in front ==> f in fs;
        assert last in fs;
      }
      RoundedIsItself(front);
    }
  }

  lemma RoundTwice(c: real)
    ensures Round3(Round3(c)) == Round3(c)
  {
    ThousandthsAreExact((c * 1000.0 + 0.5).Floor);
  }

  lemma ThousandthsAreExact(k: int)
    ensures Round3(k as real / 1000.0) == k as real / 1000.0
  {
    var c := k as real / 1000.0;
    assert c * 1000.0 + 0.5 == k as real + 0.5;
    assert (k as real + 0.5).Floor == k;
  }

  lemma {:induction false} RoundedMember(fs: seq<Finding>, f: Finding) returns (g: Finding)
    requires f in RoundedAll(fs)
    ensures g in fs && f == Rounded(g)
  {
    hide Round3;
    if f in RoundedAll(fs[..|fs| - 1]) {
      g := RoundedMember(fs[..|fs| - 1], f);
    } else {
      g := fs[|fs| - 1];
    }
  }

  lemma PermutedByRounding(fs: seq<Finding>)
    requires multiset(RoundedAll(fs)) == multiset(fs)
    ensures ThreeDecimals(fs)
  {
    hide Round3;
    forall f | f in fs ensures Round3(f.confidence) == f.confidence {
      assert f in multiset(RoundedAll(fs));
      var g := RoundedMember(fs, f);
      RoundTwice(g.confidence);
    }
  }

  lemma {:induction false} BucketLeads(fs: seq<Finding>)
    requires fs != []
    ensures Bucket(fs, fs[0].severity) != [] && Bucket(fs, fs[0].severity)[0] == fs[0]
  {
    if |fs| > 1 {
      BucketLeads(fs[..|fs| - 1]);
    }
  }

  /** Two findings of one severity can trade places. */
  lemma OrderIsFree(fs: seq<Finding>, i: nat, j: nat, splitLines: string -> seq<string>)
    requires i < |fs| && j < |fs| && fs[i] != fs[j] && fs[i].severity == fs[j].severity
    ensures Body(ToFront(fs, i), splitLines) != Body(ToFront(fs, j), splitLines)
  {
    BucketLeads(ToFront(fs, i));
    BucketLeads(ToFront(fs, j));
    if Body(ToFront(fs, i), splitLines) == Body(ToFront(fs, j), splitLines) {
      SameBodySameBuckets(ToFront(fs, i), ToFront(fs, j), Body(ToFront(fs, j), splitLines), splitLines);
    }
  }

  lemma TwoOfOneSeverity(fs: seq<Finding>, s: Severity) returns (i: nat, j: nat)
    requires DistinctKeys(fs, SpotOf) && |Bucket(fs, s)| >= 2
    ensures i < |fs| && j < |fs| && fs[i] != fs[j] && fs[i].severity == s && fs[j].severity == s
  {
    var b := Bucket(fs, s);
    BucketMembers(fs, s);
    BucketOnce(fs, s);
    assert b[0] in b && b[1] in b;
    i :| 0 <= i < |fs| && fs[i] == b[0];
    j :| 0 <= j < |fs| && fs[j] == b[1];
  }

  lemma {:induction false} BucketOnce(fs: seq<Finding>, s: Severity)
    requires DistinctKeys(fs, SpotOf)
    ensures NoDuplicates(Bucket(fs, s))
  {
    if fs != [] {
      var n := |fs| - 1;
      BucketOnce(fs[..n], s);
      BucketMembers(fs[..n], s);
      assert fs[n] !in fs[..n] by {
        assert forall i :: 0 <= i < n ==> fs[..n][i] == fs[i] && SpotOf(fs[i]) != SpotOf(fs[n]);
      }
    }
  }

  lemma ExactIsFaithful(table: seq<Row>, review: ReviewId, merged: seq<Finding>, prefixes: seq<nat>,
                        splitLines: string -> seq<string>)
    requires FreshReview(table, review)
    requires forall k :: 0 <= k < |prefixes| ==> prefixes[k] <= |DedupSpec(merged)|
    requires AlwaysExact(table, review, DedupSpec(merged), prefixes, splitLines)
    ensures NoCollision(DedupSpec(merged)) && ThreeDecimals(DedupSpec(merged))
    ensures FindingsOf(InsertAll(table, review, DedupSpec(merged)), review) == DedupSpec(merged)
  {
    hide Round3;
    var fs := DedupSpec(merged);
    RetriedWriteIsOneWrite(table, review, fs, prefixes);
    StoredAreWritten(table, review, fs);
    var stored := FindingsOf(InsertAll(table, review, fs), review);
    assert ReadBack(InsertAll(table, review, fs), review, stored);
    SameBodySameBuckets(stored, fs, Body(fs, splitLines), splitLines);
    SameBucketsPermute(stored, fs);
    PermutedByRounding(fs);
    RoundedIsItself(fs);
  }

  /** When a human is sure to approve the very review the gate saw: if and only if
      no finding is lost to the index, no severity has two findings, whose order
      the database may change, and no confidence has more than three decimals. */
  lemma ApproveIsExactIff(table: seq<Row>, review: ReviewId, merged: seq<Finding>, prefixes: seq<nat>,
                          splitLines: string -> seq<string>)
    requires FreshReview(table, review)
    requires forall k :: 0 <= k < |prefixes| ==> prefixes[k] <= |DedupSpec(merged)|
    ensures var fs := DedupSpec(merged);
      AlwaysExact(table, review, fs, prefixes, splitLines) <==>
      !LineMinusOneClash(fs) && OnePerSeverity(fs) && ThreeDecimals(fs)
  {
    hide Round3;
    var fs := DedupSpec(merged);
    DedupCollidesOnlyOnLineMinusOne(merged);
    if NoCollision(fs) && OnePerSeverity(fs) && ThreeDecimals(fs) {
      FaithfulIsExact(table, review, fs, prefixes, splitLines);
    }
    if AlwaysExact(table, review, fs, prefixes, splitLines) {
      ExactIsFaithful(table, review, merged, prefixes, splitLines);
      forall s ensures |Bucket(fs, s)| <= 1 {
        ExactHasNoPair(table, review, merged, prefixes, s, splitLines);
      }
    }
  }

  lemma FaithfulIsExact(table: seq<Row>, review: ReviewId, fs: seq<Finding>, prefixes: seq<nat>,
                        splitLines: string -> seq<string>)
    requires FreshReview(table, review)
    requires forall k :: 0 <= k < |prefixes| ==> prefixes[k] <= |fs|
    requires NoCollision(fs) && OnePerSeverity(fs) && ThreeDecimals(fs)
    ensures AlwaysExact(table, review, fs, prefixes, splitLines)
  {
    hide Round3;
    RoundedIsItself(fs);
    forall out | ReadBack(InsertAll(Attempts(table, review, fs, prefixes), review, fs), review, out)
      ensures Body(out, splitLines) == Body(fs, splitLines)
    {
      ReadBackIsPermutationIffNoCollision(table, review, fs, prefixes, out);
      forall s ensures Bucket(out, s) == Bucket(fs, s) {
        BucketsPermute(out, fs, s);
        AtMostOnePermutes(Bucket(out, s), Bucket(fs, s));
      }
      SameBucketsSameBody(out, fs, splitLines);
    }
  }

  lemma ExactHasNoPair(table: seq<Row>, review: ReviewId, merged: seq<Finding>, prefixes: seq<nat>, s: Severity,
                       splitLines: string -> seq<string>)
    requires FreshReview(table, review)
    requires forall k :: 0 <= k < |prefixes| ==> prefixes[k] <= |DedupSpec(merged)|
    requires AlwaysExact(table, review, DedupSpec(merged), prefixes, splitLines)
    ensures |Bucket(DedupSpec(merged), s)| <= 1
  {
    hide Round3;
    var fs := DedupSpec(merged);
    if |Bucket(fs, s)| >= 2 {
      DedupOnePerSpot(merged);
      RetriedWriteIsOneWrite(table, review, fs, prefixes);
      ExactIsFaithful(table, review, merged, prefixes, splitLines);
      var i, j := TwoOfOneSeverity(fs, s);
      ToFrontPermutes(fs, i);
      ToFrontPermutes(fs, j);
      assert ReadBack(InsertAll(table, review, fs), review, ToFront(fs, i));
      assert ReadBack(InsertAll(table, review, fs), review, ToFront(fs, j));
      OrderIsFree(fs, i, j, splitLines);
    }
  }

  // ---- each way in which the approved review can differ ------------------------------------

  /** Such a list exists, so an approved review can miss a finding: one agent
      reports the same category on a file once without a line and once on -1. */
  lemma ApproveCanLoseFinding() returns (merged: seq<Finding>)
    ensures LineMinusOneClash(DedupSpec(merged))
  {
    var f := Finding(Docs, Low, "style", "a.py", None, 0.9, "t", "");
    var g := f.(line := Some(-1));
    merged := [f, g];
    assert SpotOf(merged[0]) != SpotOf(merged[1]);
    var o := FirstBestSurvives(merged, 0);
    var p := FirstBestSurvives(merged, 1);
    SurvivorKeepsColumns(merged, o);
    SurvivorKeepsColumns(merged, p);
  }

  lemma SurvivorKeepsColumns(merged: seq<Finding>, o: Finding)
    requires o in DedupSpec(merged)
    ensures exists f :: f in merged && f.agent == o.agent && f.category == o.category && SpotOf(f) == SpotOf(o)
  {
    var i, _ := DedupKeepsFirstBest(merged, o);
    assert merged[i] in merged;
  }

  lemma SurvivorsLookLikeInput(merged: seq<Finding>, confidence: real)
    requires forall f :: f in merged ==> f.line.Some? && f.confidence == confidence
    ensures forall o :: o in DedupSpec(merged) ==> o.line.Some? && o.confidence == confidence
  {
    forall o | o in DedupSpec(merged) ensures o.line.Some? && o.confidence == confidence {
      var i, _ := DedupKeepsFirstBest(merged, o);
      assert merged[i] in merged;
    }
  }

  lemma BothSurvive(f: Finding, g: Finding)
    requires SpotOf(f) != SpotOf(g) && f.severity == g.severity
    ensures |Bucket(DedupSpec([f, g]), f.severity)| >= 2
  {
    hide DedupSpec;
    var merged := [f, g];
    var o := FirstBestSurvives(merged, 0);
    var p := FirstBestSurvives(merged, 1);
    BucketMembers(DedupSpec(merged), f.severity);
    TwoMembers(Bucket(DedupSpec(merged), f.severity), o, p);
  }

  lemma TwoMembers<T>(s: seq<T>, x: T, y: T)
    requires x in s && y in s && x != y
    ensures |s| >= 2
  {
  }

  /** Two findings of one severity on different lines: the rows may come back the
      other way round, although nothing is lost or rounded. */
  lemma ApproveCanReorder(table: seq<Row>, review: ReviewId, splitLines: string -> seq<string>) returns (merged: seq<Finding>)
    requires FreshReview(table, review)
    ensures !LineMinusOneClash(DedupSpec(merged)) && ThreeDecimals(DedupSpec(merged))
    ensures !AlwaysExact(table, review, DedupSpec(merged), [], splitLines)
  {
    hide DedupSpec, AlwaysExact, Bucket;
    var f := Finding(Docs, Low, "style", "a.py", Some(1), 0.9, "t", "");
    var g := f.(line := Some(2));
    merged := [f, g];
    BothSurvive(f, g);
    SurvivorsLookLikeInput(merged, 0.9);
    assert 0.9 * 1000.0 + 0.5 == 900.5;
    ApproveIsExactIff(table, review, merged, [], splitLines);
  }

  /** One finding whose confidence has four decimals. */
  lemma ApproveCanRound(table: seq<Row>, review: ReviewId, splitLines: string -> seq<string>) returns (merged: seq<Finding>)
    requires FreshReview(table, review)
    ensures !LineMinusOneClash(DedupSpec(merged)) && OnePerSeverity(DedupSpec(merged))
    ensures !AlwaysExact(table, review, DedupSpec(merged), [], splitLines)
  {
    var f := Finding(Docs, Low, "style", "a.py", Some(1), 0.8765, "t", "");
    merged := [f];
    var fs := DedupSpec(merged);
    DistinctGroups(merged);
    SpotsAreGroups(merged);
    DedupStablySorted(merged);
    var o := FirstBestSurvives(merged, 0);
    assert |Survivors(merged, Spots(merged))| == 1 by { SurvivorAt(merged, Spots(merged), 0); }
    assert |multiset(fs)| == |multiset(Survivors(merged, Spots(merged)))|;
    forall s ensures |Bucket(fs, s)| <= 1 {
      SeveritiesPartition(fs);
    }
    forall q | q in fs ensures q.line.Some? {
      var i, _ := DedupKeepsFirstBest(merged, q);
    }
    assert 0.8765 * 1000.0 + 0.5 == 877.0;
    assert Round3(o.confidence) != o.confidence;
    ApproveIsExactIff(table, review, merged, [], splitLines);
  }
}
