/** The finding contract of `agents/contracts.py` and the order in which the
    aggregator lists findings. */
module Findings {
  import opened Basics
  import opened StableSort

  datatype Agent = Security | Quality | Tests | Docs

  datatype Severity = Critical | High | Medium | Low | Info

  datatype Finding = Finding(
    agent: Agent,
    severity: Severity,
    category: string,
    file: string,
    line: Option<int>,
    confidence: real,
    title: string,
    rationale: string)

  /** The place a finding is about; findings on one spot are deduplicated. */
  datatype Spot = Spot(file: string, line: Option<int>)

  function SpotOf(f: Finding): Spot {
    Spot(f.file, f.line)
  }

  function AgentName(a: Agent): string {
    match a
    case Security => "security"
    case Quality => "quality"
    case Tests => "tests"
    case Docs => "docs"
  }

  lemma NamesDistinct(a: Agent, b: Agent)
    ensures AgentName(a) == AgentName(b) <==> a == b
  {
    assert |AgentName(Security)| == 8 && |AgentName(Quality)| == 7 && |AgentName(Tests)| == 5 && |AgentName(Docs)| == 4;
  }

  const SEVERITY_ORDER: seq<Severity> := [Critical, High, Medium, Low, Info]

  function Rank(s: Severity): nat {
    match s
    case Critical => 0
    case High => 1
    case Medium => 2
    case Low => 3
    case Info => 4
  }

  function LineOrZero(f: Finding): int {
    match f.line
    case None => 0
    case Some(n) => n
  }

  /** Lexicographic order on code points. */
  predicate StringLe(a: string, b: string) {
    a == [] || (b != [] && (a[0] < b[0] || (a[0] == b[0] && StringLe(a[1..], b[1..]))))
  }

  /** Sort key: severity, then file, then line (no line counts as 0). */
  predicate FindingLe(a: Finding, b: Finding) {
    || Rank(a.severity) < Rank(b.severity)
    || (Rank(a.severity) == Rank(b.severity) && a.file != b.file && StringLe(a.file, b.file))
    || (Rank(a.severity) == Rank(b.severity) && a.file == b.file && LineOrZero(a) <= LineOrZero(b))
  }

  lemma {:induction false} StringLeTotal(a: string, b: string)
    ensures StringLe(a, b) || StringLe(b, a)
    ensures StringLe(a, b) && StringLe(b, a) ==> a == b
  {
    if a != [] && b != [] && a[0] == b[0] {
      StringLeTotal(a[1..], b[1..]);
      assert a == [a[0]] + a[1..] && b == [b[0]] + b[1..];
    }
  }

  lemma {:induction false} StringLeTransitive(a: string, b: string, c: string)
    requires StringLe(a, b) && StringLe(b, c)
    ensures StringLe(a, c)
  {
    if a != [] && a[0] == b[0] && b[0] == c[0] {
      StringLeTransitive(a[1..], b[1..], c[1..]);
    }
  }

  /** A string comes before another if it is a prefix of it or has the smaller
      character at their first difference. */
  lemma {:induction false} StringLeIs(a: string, b: string)
    ensures StringLe(a, b) <==> a <= b || exists k :: 0 <= k < |a| && k < |b| && a[..k] == b[..k] && a[k] < b[k]
  {
    if a != [] && b != [] {
      var x, y := a[1..], b[1..];
      StringLeIs(x, y);
      assert a == [a[0]] + x && b == [b[0]] + y;
      if a[0] == b[0] && StringLe(a, b) && !(x <= y) {
        var k :| 0 <= k < |x| && k < |y| && x[..k] == y[..k] && x[k] < y[k];
        assert a[..k + 1] == [a[0]] + x[..k] && b[..k + 1] == [b[0]] + y[..k];
        assert a[k + 1] < b[k + 1];
      } else if a[0] < b[0] {
        assert a[..0] == b[..0];
      }
      if k :| 0 < k < |a| && k < |b| && a[..k] == b[..k] && a[k] < b[k] {
        assert a[0] == a[..k][0] && b[0] == b[..k][0];
        assert x[..k - 1] == a[..k][1..] && y[..k - 1] == b[..k][1..];
        assert x[k - 1] < y[k - 1];
      }
    }
  }

  lemma FindingLeTransitive(x: Finding, y: Finding, z: Finding)
    requires FindingLe(x, y) && FindingLe(y, z)
    ensures FindingLe(x, z)
  {
    if StringLe(x.file, y.file) && StringLe(y.file, z.file) {
      StringLeTransitive(x.file, y.file, z.file);
      StringLeTotal(x.file, y.file);
    }
  }

  lemma FindingLePreorder()
    ensures TotalPreorder(FindingLe)
  {
    forall x: Finding, y: Finding ensures FindingLe(x, y) || FindingLe(y, x) {
      StringLeTotal(x.file, y.file);
    }
    forall x: Finding, y: Finding, z: Finding | FindingLe(x, y) && FindingLe(y, z)
      ensures FindingLe(x, z)
    {
      FindingLeTransitive(x, y, z);
    }
  }
}
