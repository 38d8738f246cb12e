/** `render_review_body` of `orchestrator/nodes.py`. A body is kept as its
    lines; how a line's fields are spelled out is not modelled. */
module Render {
  import opened Basics
  import opened StableSort
  import opened Findings
  import opened Dedup

  datatype Line =
    | Clean                      // the one-line body of an empty review
    | Banner
    | Blank
    | Heading(severity: Severity)
    | Item(finding: Finding)
    | Quote(text: string)

  // ---- specification ---------------------------------------------------------

  function Bucket(fs: seq<Finding>, s: Severity): seq<Finding> {
    if fs == [] then []
    else
      var before := Bucket(fs[..|fs| - 1], s);
      if fs[|fs| - 1].severity == s then before + [fs[|fs| - 1]] else before
  }

  function Quotes(texts: seq<string>): seq<Line> {
    seq(|texts|, i requires 0 <= i < |texts| => Quote(texts[i]))
  }

  function ItemLines(fs: seq<Finding>, splitLines: string -> seq<string>): seq<Line> {
    if fs == [] then []
    else
      var f := fs[|fs| - 1];
      ItemLines(fs[..|fs| - 1], splitLines) + [Item(f)] + Quotes(splitLines(f.rationale))
  }

  function Section(fs: seq<Finding>, s: Severity, splitLines: string -> seq<string>): seq<Line> {
    if Bucket(fs, s) == [] then []
    else [Heading(s)] + ItemLines(Bucket(fs, s), splitLines) + [Blank]
  }

  function Sections(fs: seq<Finding>, order: seq<Severity>, splitLines: string -> seq<string>): seq<Line> {
    if order == [] then []
    else Sections(fs, order[..|order| - 1], splitLines) + Section(fs, order[|order| - 1], splitLines)
  }

  function Body(fs: seq<Finding>, splitLines: string -> seq<string>): seq<Line> {
    if fs == [] then [Clean] else [Banner, Blank] + Sections(fs, SEVERITY_ORDER, splitLines)
  }

  // ---- the algorithm ---------------------------------------------------------

  method CollectBucket(findings: seq<Finding>, severity: Severity) returns (bucket: seq<Finding>)
    ensures bucket == Bucket(findings, severity)
  {
    bucket := [];
    for i := 0 to |findings|
      invariant bucket == Bucket(findings[..i], severity)
    {
      assert findings[..i + 1][..i] == findings[..i];
      if findings[i].severity == severity {
        bucket := bucket + [findings[i]];
      }
    }
    assert findings[..|findings|] == findings;
  }

  method RenderItems(bucket: seq<Finding>, splitLines: string -> seq<string>) returns (lines: seq<Line>)
    ensures lines == ItemLines(bucket, splitLines)
  {
    lines := [];
    for i := 0 to |bucket|
      invariant lines == ItemLines(bucket[..i], splitLines)
    {
      assert bucket[..i + 1][..i] == bucket[..i];
      lines := lines + [Item(bucket[i])];
      ghost var start := lines;
      var rationale := splitLines(bucket[i].rationale);
      for q := 0 to |rationale|
        invariant lines == start + Quotes(rationale[..q])
      {
        assert Quotes(rationale[..q + 1]) == Quotes(rationale[..q]) + [Quote(rationale[q])];
        lines := lines + [Quote(rationale[q])];
      }
      assert rationale[..|rationale|] == rationale;
    }
    assert bucket[..|bucket|] == bucket;
  }

  method RenderSections(findings: seq<Finding>, order: seq<Severity>, splitLines: string -> seq<string>)
    returns (lines: seq<Line>)
    ensures lines == Sections(findings, order, splitLines)
  {
    lines := [];
    for k := 0 to |order|
      invariant lines == Sections(findings, order[..k], splitLines)
    {
      assert order[..k + 1][..k] == order[..k];
      var bucket := CollectBucket(findings, order[k]);
      var section: seq<Line> := [];
      if bucket != [] {
        var items := RenderItems(bucket, splitLines);
        section := [Heading(order[k])] + items + [Blank];
      }
      lines := lines + section;
    }
    assert order[..|order|] == order;
  }

  method RenderReviewBody(findings: seq<Finding>, splitLines: string -> seq<string>) returns (lines: seq<Line>)
    ensures lines == Body(findings, splitLines)
  {
    if findings == [] {
      return [Clean];
    }
    var sections := RenderSections(findings, SEVERITY_ORDER, splitLines);
    lines := [Banner, Blank] + sections;
  }

  // ---- what the body says ----------------------------------------------------

  /** A reader of the body: the findings with the heading each stands under. */
  datatype Entry = Entry(under: Option<Severity>, finding: Finding)

  /** Reads the lines in order, keeping the last heading seen. */
  function Read(lines: seq<Line>, under: Option<Severity>): seq<Entry> {
    if lines == [] then []
    else match lines[0]
      case Heading(s) => Read(lines[1..], Some(s))
      case Item(f) => [Entry(under, f)] + Read(lines[1..], under)
      case _ => Read(lines[1..], under)
  }

  function LastHeading(lines: seq<Line>, under: Option<Severity>): Option<Severity> {
    if lines == [] then under
    else LastHeading(lines[1..], if lines[0].Heading? then Some(lines[0].severity) else under)
  }

  function Headings(lines: seq<Line>): seq<Severity> {
    if lines == [] then []
    else (if lines[0].Heading? then [lines[0].severity] else []) + Headings(lines[1..])
  }

  function Under(fs: seq<Finding>): seq<Entry> {
    seq(|fs|, i requires 0 <= i < |fs| => Entry(Some(fs[i].severity), fs[i]))
  }

  lemma {:induction false} EntriesAppend(a: seq<Line>, b: seq<Line>, under: Option<Severity>)
    ensures Read(a + b, under) == Read(a, under) + Read(b, LastHeading(a, under))
  {
    if a == [] {
      assert a + b == b;
    } else {
      assert (a + b)[1..] == a[1..] + b;
      EntriesAppend(a[1..], b, if a[0].Heading? then Some(a[0].severity) else under);
    }
  }

  lemma {:induction false} LastHeadingAppend(a: seq<Line>, b: seq<Line>, under: Option<Severity>)
    ensures LastHeading(a + b, under) == LastHeading(b, LastHeading(a, under))
  {
    if a == [] {
      assert a + b == b;
    } else {
      assert (a + b)[1..] == a[1..] + b;
      LastHeadingAppend(a[1..], b, if a[0].Heading? then Some(a[0].severity) else under);
    }
  }

  lemma {:induction false} HeadingsAppend(a: seq<Line>, b: seq<Line>)
    ensures Headings(a + b) == Headings(a) + Headings(b)
  {
    if a == [] {
      assert a + b == b;
    } else {
      assert (a + b)[1..] == a[1..] + b && (a + b)[0] == a[0];
      HeadingsAppend(a[1..], b);
      var first := if a[0].Heading? then [a[0].severity] else [];
      assert first + (Headings(a[1..]) + Headings(b)) == (first + Headings(a[1..])) + Headings(b);
    }
  }

  lemma ReadAppend(a: seq<Line>, b: seq<Line>, under: Option<Severity>)
    ensures Read(a + b, under) == Read(a, under) + Read(b, LastHeading(a, under))
    ensures LastHeading(a + b, under) == LastHeading(b, LastHeading(a, under))
    ensures Headings(a + b) == Headings(a) + Headings(b)
  {
    EntriesAppend(a, b, under);
    LastHeadingAppend(a, b, under);
    HeadingsAppend(a, b);
  }

  lemma {:induction false} ReadQuotes(texts: seq<string>, under: Option<Severity>)
    ensures Read(Quotes(texts), under) == [] && LastHeading(Quotes(texts), under) == under
    ensures Headings(Quotes(texts)) == []
  {
    if texts != [] {
      assert Quotes(texts)[1..] == Quotes(texts[1..]);
      ReadQuotes(texts[1..], under);
    }
  }

  lemma ReadOne(line: Line, under: Option<Severity>)
    ensures Read([line], under) == if line.Item? then [Entry(under, line.finding)] else []
    ensures LastHeading([line], under) == if line.Heading? then Some(line.severity) else under
    ensures Headings([line]) == if line.Heading? then [line.severity] else []
  {
    assert [line][1..] == [];
  }

  lemma ReadItem(lines: seq<Line>, f: Finding, texts: seq<string>, under: Option<Severity>)
    ensures var more := lines + [Item(f)] + Quotes(texts);
      && Read(more, under) == Read(lines, under) + [Entry(LastHeading(lines, under), f)]
      && LastHeading(more, under) == LastHeading(lines, under)
      && Headings(more) == Headings(lines)
  {
    hide Read, Headings, LastHeading, Quotes;
    var at := LastHeading(lines, under);
    ReadOne(Item(f), at);
    ReadQuotes(texts, at);
    ReadAppend(lines, [Item(f)], under);
    ReadAppend(lines + [Item(f)], Quotes(texts), under);
  }

  lemma {:induction false} ReadItems(fs: seq<Finding>, s: Severity, splitLines: string -> seq<string>)
    requires forall f :: f in fs ==> f.severity == s
    ensures Read(ItemLines(fs, splitLines), Some(s)) == Under(fs)
    ensures LastHeading(ItemLines(fs, splitLines), Some(s)) == Some(s)
    ensures Headings(ItemLines(fs, splitLines)) == []
  {
    if fs == [] {
      assert ItemLines(fs, splitLines) == [];
    } else {
      hide Read, Headings, LastHeading, Under, Quotes;
      var before, f := fs[..|fs| - 1], fs[|fs| - 1];
      ReadItems(before, s, splitLines);
      ReadItem(ItemLines(before, splitLines), f, splitLines(f.rationale), Some(s));
      UnderSnoc(before, f);
      assert fs == before + [f];
    }
  }

  lemma UnderSnoc(fs: seq<Finding>, last: Finding)
    ensures Under(fs + [last]) == Under(fs) + [Entry(Some(last.severity), last)]
  {
  }

  lemma {:induction false} BucketMembers(fs: seq<Finding>, s: Severity)
    ensures forall f :: f in Bucket(fs, s) <==> f in fs && f.severity == s
  {
    if fs != [] {
      BucketMembers(fs[..|fs| - 1], s);
      assert fs == fs[..|fs| - 1] + [fs[|fs| - 1]];
    }
  }

  lemma ReadSection(fs: seq<Finding>, s: Severity, splitLines: string -> seq<string>, under: Option<Severity>)
    ensures Read(Section(fs, s, splitLines), under) == Under(Bucket(fs, s))
    ensures Headings(Section(fs, s, splitLines)) == if Bucket(fs, s) == [] then [] else [s]
  {
    var bucket := Bucket(fs, s);
    if bucket != [] {
      var items := ItemLines(bucket, splitLines);
      BucketMembers(fs, s);
      ReadItems(bucket, s, splitLines);
      ReadOne(Heading(s), under);
      ReadOne(Blank, Some(s));
      ReadAppend([Heading(s)], items, under);
      ReadAppend([Heading(s)] + items, [Blank], under);
    }
  }

  function Buckets(fs: seq<Finding>, order: seq<Severity>): seq<Finding> {
    if order == [] then []
    else Buckets(fs, order[..|order| - 1]) + Bucket(fs, order[|order| - 1])
  }

  /** The severities of `order` that occur in `fs`. */
  function Occurring(fs: seq<Finding>, order: seq<Severity>): seq<Severity> {
    if order == [] then []
    else Occurring(fs, order[..|order| - 1])
           + (if Bucket(fs, order[|order| - 1]) == [] then [] else [order[|order| - 1]])
  }

  lemma UnderAppend(a: seq<Finding>, b: seq<Finding>)
    ensures Under(a + b) == Under(a) + Under(b)
  {
  }

  lemma {:induction false} ReadSections(fs: seq<Finding>, order: seq<Severity>, splitLines: string -> seq<string>,
                                        under: Option<Severity>)
    ensures Read(Sections(fs, order, splitLines), under) == Under(Buckets(fs, order))
    ensures Headings(Sections(fs, order, splitLines)) == Occurring(fs, order)
  {
    if order != [] {
      var before, s := order[..|order| - 1], order[|order| - 1];
      ReadSections(fs, before, splitLines, under);
      ReadSection(fs, s, splitLines, LastHeading(Sections(fs, before, splitLines), under));
      ReadAppend(Sections(fs, before, splitLines), Section(fs, s, splitLines), under);
      UnderAppend(Buckets(fs, before), Bucket(fs, s));
    }
  }

  // ---- buckets of a list ------------------------------------------------------

  predicate SeverityLe(a: Finding, b: Finding) {
    Rank(a.severity) <= Rank(b.severity)
  }

  lemma SeverityLePreorder()
    ensures TotalPreorder(SeverityLe)
  {
  }

  lemma RankInjective(s: Severity, t: Severity)
    ensures Rank(s) == Rank(t) <==> s == t
  {
  }

  /** `fs` with the severity of `x` filtered out of it, whichever end one starts from. */
  lemma {:induction false} BucketIsPeers(fs: seq<Finding>, x: Finding)
    ensures Bucket(fs, x.severity) == Peers(fs, x, SeverityLe)
  {
    if fs != [] {
      var before, f := fs[..|fs| - 1], fs[|fs| - 1];
      BucketIsPeers(before, x);
      PeersAppend(before, [f], x, SeverityLe);
      assert fs == before + [f];
      RankInjective(f.severity, x.severity);
      assert [f][1..] == [];
    }
  }

  lemma {:induction false} PeersOfUniform(fs: seq<Finding>, s: Severity, x: Finding)
    requires forall f :: f in fs ==> f.severity == s
    ensures Peers(fs, x, SeverityLe) == if x.severity == s then fs else []
  {
    RankInjective(s, x.severity);
    if fs != [] {
      PeersOfUniform(fs[1..], s, x);
      assert fs == [fs[0]] + fs[1..];
    }
  }

  ghost predicate RanksAscend(order: seq<Severity>) {
    forall i, j :: 0 <= i < j < |order| ==> Rank(order[i]) < Rank(order[j])
  }

  lemma {:induction false} BucketsAreSorted(fs: seq<Finding>, order: seq<Severity>)
    requires RanksAscend(order)
    ensures forall f :: f in Buckets(fs, order) ==> f.severity in order
    ensures Sorted(Buckets(fs, order), SeverityLe)
  {
    if order != [] {
      var before, s := order[..|order| - 1], order[|order| - 1];
      BucketsAreSorted(fs, before);
      BucketMembers(fs, s);
      var a, b := Buckets(fs, before), Bucket(fs, s);
      forall i, j | 0 <= i < j < |a + b| ensures SeverityLe((a + b)[i], (a + b)[j]) {
        if i < |a| && j >= |a| {
          assert a[i] in a && b[j - |a|] in b;
        } else if i >= |a| {
          assert b[i - |a|] in b && b[j - |a|] in b;
        }
      }
    }
  }

  lemma PeersOfBucket(fs: seq<Finding>, s: Severity, x: Finding)
    ensures Peers(Bucket(fs, s), x, SeverityLe) == if x.severity == s then Bucket(fs, s) else []
  {
    BucketMembers(fs, s);
    PeersOfUniform(Bucket(fs, s), s, x);
  }

  lemma {:induction false} PeersOfBuckets(fs: seq<Finding>, order: seq<Severity>, x: Finding)
    requires RanksAscend(order)
    ensures Peers(Buckets(fs, order), x, SeverityLe) == if x.severity in order then Bucket(fs, x.severity) else []
  {
    hide Bucket;
    if order == [] {
      assert Peers([], x, SeverityLe) == [];
    } else {
      hide Peers;
      var before, s := order[..|order| - 1], order[|order| - 1];
      PeersOfBuckets(fs, before, x);
      PeersOfBucket(fs, s, x);
      PeersAppend(Buckets(fs, before), Bucket(fs, s), x, SeverityLe);
      assert order == before + [s];
      assert forall i :: 0 <= i < |before| ==> before[i] == order[i] && Rank(order[i]) < Rank(s);
    }
  }

  lemma SeverityOrderFacts()
    ensures RanksAscend(SEVERITY_ORDER) && forall s: Severity :: s in SEVERITY_ORDER
  {
    forall s: Severity ensures s in SEVERITY_ORDER {
      assert SEVERITY_ORDER[Rank(s)] == s;
    }
  }

  /** Reading the buckets one after the other is a stable sort by severity. */
  lemma BucketsAreStableSort(fs: seq<Finding>)
    ensures Buckets(fs, SEVERITY_ORDER) == Sort(fs, SeverityLe)
  {
    SeverityOrderFacts();
    SeverityLePreorder();
    BucketsAreSorted(fs, SEVERITY_ORDER);
    SortIsStable(fs, SeverityLe);
    forall x ensures Peers(Buckets(fs, SEVERITY_ORDER), x, SeverityLe) == Peers(Sort(fs, SeverityLe), x, SeverityLe) {
      PeersOfBuckets(fs, SEVERITY_ORDER, x);
      BucketIsPeers(fs, x);
    }
    StableSortUnique(Buckets(fs, SEVERITY_ORDER), Sort(fs, SeverityLe), SeverityLe);
  }

  // ---- main results -----------------------------------------------------------

  /** Whatever the order of `fs`, its body lists every finding once, under the
      heading of its own severity, stably sorted by severity; the headings are
      the severities that occur, worst first. */
  lemma BodyListsEveryFinding(fs: seq<Finding>, splitLines: string -> seq<string>)
    ensures Read(Body(fs, splitLines), None) == Under(Sort(fs, SeverityLe))
    ensures Headings(Body(fs, splitLines)) == Occurring(fs, SEVERITY_ORDER)
  {
    BucketsAreStableSort(fs);
    if fs == [] {
      ReadOne(Clean, None);
      assert Headings([Clean]) == [];
      NothingOccurs(SEVERITY_ORDER);
    } else {
      ReadOne(Banner, None);
      ReadOne(Blank, None);
      ReadAppend([Banner], [Blank], None);
      ReadSections(fs, SEVERITY_ORDER, splitLines, None);
      ReadAppend([Banner] + [Blank], Sections(fs, SEVERITY_ORDER, splitLines), None);
      assert [Banner] + [Blank] == [Banner, Blank];
    }
  }

  lemma {:induction false} NothingOccurs(order: seq<Severity>)
    ensures Occurring([], order) == []
  {
    if order != [] {
      NothingOccurs(order[..|order| - 1]);
    }
  }

  /** The posted body lists exactly the survivors, in the order of the
      deduplicated list. */
  lemma BodyKeepsDedupOrder(merged: seq<Finding>, splitLines: string -> seq<string>)
    ensures Read(Body(DedupSpec(merged), splitLines), None) == Under(DedupSpec(merged))
  {
    var out := DedupSpec(merged);
    DedupStablySorted(merged);
    SeverityLePreorder();
    assert Sorted(out, SeverityLe);
    SortFixesSorted(out, SeverityLe);
    BodyListsEveryFinding(out, splitLines);
  }

  // ---- the quoted rationales -----------------------------------------------------

  /** The quotes of each item: a quote belongs to the last item before it. */
  function QuotesSeen(seen: seq<seq<string>>, lines: seq<Line>): seq<seq<string>> {
    if lines == [] then seen
    else
      var before := QuotesSeen(seen, lines[..|lines| - 1]);
      match lines[|lines| - 1]
      case Item(_) => before + [[]]
      case Quote(text) => if before == [] then [] else before[..|before| - 1] + [before[|before| - 1] + [text]]
      case _ => before
  }

  function Rationales(fs: seq<Finding>, splitLines: string -> seq<string>): seq<seq<string>> {
    if fs == [] then []
    else Rationales(fs[..|fs| - 1], splitLines) + [splitLines(fs[|fs| - 1].rationale)]
  }

  lemma {:induction false} RationalesAppend(a: seq<Finding>, b: seq<Finding>, splitLines: string -> seq<string>)
    ensures Rationales(a + b, splitLines) == Rationales(a, splitLines) + Rationales(b, splitLines)
  {
    if b == [] {
      assert a + b == a;
    } else {
      assert (a + b)[..|a + b| - 1] == a + b[..|b| - 1];
      RationalesAppend(a, b[..|b| - 1], splitLines);
    }
  }

  lemma {:induction false} SeenAppend(seen: seq<seq<string>>, a: seq<Line>, b: seq<Line>)
    ensures QuotesSeen(seen, a + b) == QuotesSeen(QuotesSeen(seen, a), b)
  {
    if b == [] {
      assert a + b == a;
    } else {
      assert (a + b)[..|a + b| - 1] == a + b[..|b| - 1];
      SeenAppend(seen, a, b[..|b| - 1]);
    }
  }

  lemma SeenOne(seen: seq<seq<string>>, line: Line)
    ensures line.Item? ==> QuotesSeen(seen, [line]) == seen + [[]]
    ensures !line.Item? && !line.Quote? ==> QuotesSeen(seen, [line]) == seen
  {
    assert [line][..0] == [];
  }

  lemma {:induction false} SeenQuotes(seen: seq<seq<string>>, texts: seq<string>)
    ensures QuotesSeen(seen + [[]], Quotes(texts)) == seen + [texts]
  {
    if texts != [] {
      var front := texts[..|texts| - 1];
      assert Quotes(texts)[..|texts| - 1] == Quotes(front);
      SeenQuotes(seen, front);
      assert (seen + [front])[..|seen|] == seen;
      assert front + [texts[|texts| - 1]] == texts;
    }
  }

  lemma {:induction false} SeenItems(seen: seq<seq<string>>, fs: seq<Finding>, splitLines: string -> seq<string>)
    ensures QuotesSeen(seen, ItemLines(fs, splitLines)) == seen + Rationales(fs, splitLines)
  {
    if fs != [] {
      var before, f := fs[..|fs| - 1], fs[|fs| - 1];
      var lines := ItemLines(before, splitLines);
      SeenItems(seen, before, splitLines);
      SeenAppend(seen, lines, [Item(f)]);
      SeenOne(seen + Rationales(before, splitLines), Item(f));
      SeenAppend(seen, lines + [Item(f)], Quotes(splitLines(f.rationale)));
      SeenQuotes(seen + Rationales(before, splitLines), splitLines(f.rationale));
    }
  }

  lemma SeenSection(seen: seq<seq<string>>, fs: seq<Finding>, s: Severity, splitLines: string -> seq<string>)
    ensures QuotesSeen(seen, Section(fs, s, splitLines)) == seen + Rationales(Bucket(fs, s), splitLines)
  {
    var bucket := Bucket(fs, s);
    if bucket != [] {
      var items := ItemLines(bucket, splitLines);
      SeenOne(seen, Heading(s));
      SeenAppend(seen, [Heading(s)], items);
      SeenItems(seen, bucket, splitLines);
      SeenAppend(seen, [Heading(s)] + items, [Blank]);
      SeenOne(seen + Rationales(bucket, splitLines), Blank);
    }
  }

  lemma {:induction false} SeenSections(seen: seq<seq<string>>, fs: seq<Finding>, order: seq<Severity>,
                                        splitLines: string -> seq<string>)
    ensures QuotesSeen(seen, Sections(fs, order, splitLines)) == seen + Rationales(Buckets(fs, order), splitLines)
  {
    if order != [] {
      var before, s := order[..|order| - 1], order[|order| - 1];
      SeenSections(seen, fs, before, splitLines);
      SeenAppend(seen, Sections(fs, before, splitLines), Section(fs, s, splitLines));
      SeenSection(seen + Rationales(Buckets(fs, before), splitLines), fs, s, splitLines);
      RationalesAppend(Buckets(fs, before), Bucket(fs, s), splitLines);
    }
  }

  /** Under each listed finding stand exactly the lines of its own rationale. */
  lemma BodyQuotesEveryRationale(fs: seq<Finding>, splitLines: string -> seq<string>)
    ensures QuotesSeen([], Body(fs, splitLines)) == Rationales(Sort(fs, SeverityLe), splitLines)
  {
    BucketsAreStableSort(fs);
    if fs == [] {
      SeenOne([], Clean);
    } else {
      SeenOne([], Banner);
      SeenOne([], Blank);
      SeenAppend([], [Banner], [Blank]);
      assert [Banner] + [Blank] == [Banner, Blank];
      SeenAppend([], [Banner, Blank], Sections(fs, SEVERITY_ORDER, splitLines));
      SeenSections([], fs, SEVERITY_ORDER, splitLines);
    }
  }

  // ---- the shape of a body -----------------------------------------------------------

  /** Which line may stand after which. */
  predicate Follows(a: Line, b: Line) {
    match b
    case Clean => false
    case Banner => false
    case Blank => a.Banner? || a.Item? || a.Quote?
    case Heading(_) => a.Blank?
    case Item(_) => a.Heading? || a.Item? || a.Quote?
    case Quote(_) => a.Item? || a.Quote?
  }

  ghost predicate Chained(lines: seq<Line>) {
    forall k {:trigger lines[k]} :: 0 <= k < |lines| - 1 ==> Follows(lines[k], lines[k + 1])
  }

  lemma ChainedAppend(a: seq<Line>, b: seq<Line>)
    requires Chained(a) && Chained(b) && (a != [] && b != [] ==> Follows(a[|a| - 1], b[0]))
    ensures Chained(a + b)
  {
    forall k | 0 <= k < |a + b| - 1 ensures Follows((a + b)[k], (a + b)[k + 1]) {
      if k >= |a| {
        assert Follows(b[k - |a|], b[k - |a| + 1]);
      }
    }
  }

  lemma {:induction false} ItemsChained(fs: seq<Finding>, splitLines: string -> seq<string>)
    ensures var lines := ItemLines(fs, splitLines);
      Chained(lines) && (fs != [] ==> lines != [] && lines[0].Item? && (lines[|lines| - 1].Item? || lines[|lines| - 1].Quote?))
  {
    if fs != [] {
      var before, f := fs[..|fs| - 1], fs[|fs| - 1];
      ItemsChained(before, splitLines);
      ChainedAppend(ItemLines(before, splitLines), [Item(f)]);
      ChainedAppend(ItemLines(before, splitLines) + [Item(f)], Quotes(splitLines(f.rationale)));
    }
  }

  lemma SectionChained(fs: seq<Finding>, s: Severity, splitLines: string -> seq<string>)
    ensures var lines := Section(fs, s, splitLines);
      Chained(lines) && (lines != [] ==> lines[0] == Heading(s) && lines[|lines| - 1] == Blank)
  {
    var items := ItemLines(Bucket(fs, s), splitLines);
    ItemsChained(Bucket(fs, s), splitLines);
    if Bucket(fs, s) != [] {
      ChainedAppend([Heading(s)], items);
      ChainedAppend([Heading(s)] + items, [Blank]);
    }
  }

  lemma {:induction false} SectionsChained(fs: seq<Finding>, order: seq<Severity>, splitLines: string -> seq<string>)
    ensures var lines := Sections(fs, order, splitLines);
      Chained(lines) && (lines != [] ==> lines[0].Heading? && lines[|lines| - 1] == Blank)
  {
    if order != [] {
      var before, s := order[..|order| - 1], order[|order| - 1];
      SectionsChained(fs, before, splitLines);
      SectionChained(fs, s, splitLines);
      ChainedAppend(Sections(fs, before, splitLines), Section(fs, s, splitLines));
    }
  }

  /** The frame around what a reader reads: the one-line body exactly for no
      findings; else banner first, and a blank line before every heading and at the
      end, nowhere else; items only under a heading, quotes only under an item. */
  lemma BodyShape(fs: seq<Finding>, splitLines: string -> seq<string>)
    ensures var body := Body(fs, splitLines);
      if fs == [] then body == [Clean]
      else body[0] == Banner && body[|body| - 1] == Blank && Chained(body)
  {
    if fs != [] {
      SectionsChained(fs, SEVERITY_ORDER, splitLines);
      assert Chained([Banner, Blank]);
      ChainedAppend([Banner, Blank], Sections(fs, SEVERITY_ORDER, splitLines));
    }
  }
}
