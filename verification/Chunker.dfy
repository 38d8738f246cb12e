/** `ingestion/chunker.py`: splitting a file into pieces. A text is the sequence
    of its lines with their line ends kept, so joining the lines gives the text.
    Which lines start a Python symbol and which characters are white space are
    parameters. */
module Chunker {
  import opened Basics

  datatype Lang = Lang(
    symbolOf: string -> Option<string>,   // the top-level def/class name of a line
    isSpace: char -> bool)

  datatype Piece = Piece(symbol: Option<string>, content: string)

  const LINE_WINDOW: int := 200
  const LINE_OVERLAP: int := 20
  const STEP: int := LINE_WINDOW - LINE_OVERLAP

  function Join(lines: seq<string>): string {
    Flatten(lines)
  }

  predicate Blank(text: string, lang: Lang) {
    forall k :: 0 <= k < |text| ==> lang.isSpace(text[k])
  }

  // ---- line windows ----------------------------------------------------------

  /** 0 for an empty file, else 1 + max(0, ceil((n - 200) / 180)). */
  function WindowCount(n: nat): nat {
    if n == 0 then 0 else if n <= LINE_WINDOW then 1 else 1 + (n - LINE_WINDOW + STEP - 1) / STEP
  }

  function WindowEnd(n: nat, k: nat): nat {
    Min(STEP * k + LINE_WINDOW, n) as nat
  }

  /** The lines of window `k`. */
  function Window(lines: seq<string>, k: nat): seq<string>
    requires STEP * k <= |lines|
  {
    lines[STEP * k..WindowEnd(|lines|, k)]
  }

  lemma WindowsStartInside(n: nat, k: nat)
    requires k < WindowCount(n)
    ensures STEP * k < n
    ensures k + 1 < WindowCount(n) <==> STEP * k + LINE_WINDOW < n
  {
  }

  method SplitByLineWindow(lines: seq<string>) returns (pieces: seq<Piece>)
    ensures |pieces| == WindowCount(|lines|)
    ensures forall k :: 0 <= k < |pieces| ==>
              STEP * k < |lines| && pieces[k] == Piece(None, Join(Window(lines, k)))
  {
    pieces := [];
    if |lines| == 0 {
      return;
    }
    var start := 0;
    while start < |lines|
      invariant start == STEP * |pieces|
      invariant |pieces| < WindowCount(|lines|)
      invariant forall k :: 0 <= k < |pieces| ==>
                  STEP * k < |lines| && pieces[k] == Piece(None, Join(Window(lines, k)))
      decreases |lines| - start
    {
      WindowsStartInside(|lines|, |pieces|);
      pieces := pieces + [Piece(None, Join(lines[start..Min(start + LINE_WINDOW, |lines|)]))];
      if start + LINE_WINDOW >= |lines| {
        break;
      }
      start := start + STEP;
    }
  }

  /** Windows `0..m`, the later ones without their first 20 lines. */
  function Reassemble(lines: seq<string>, m: nat): seq<string>
    requires m <= WindowCount(|lines|)
  {
    if m == 0 then []
    else
      WindowsStartInside(|lines|, m - 1);
      var w := Window(lines, m - 1);
      Reassemble(lines, m - 1) + if m == 1 || |w| < LINE_OVERLAP then w else w[LINE_OVERLAP..]
  }

  lemma {:induction false} ReassemblePrefix(lines: seq<string>, m: nat)
    requires 0 < m <= WindowCount(|lines|)
    ensures Reassemble(lines, m) == lines[..WindowEnd(|lines|, m - 1)]
  {
    WindowsStartInside(|lines|, m - 1);
    if m > 1 {
      WindowsStartInside(|lines|, m - 2);
      ReassemblePrefix(lines, m - 1);
    }
  }

  /** No line is lost and none is added: the windows have at most 200 lines and,
      less the overlap, give the file back. */
  lemma WindowsRebuildFile(lines: seq<string>)
    ensures Reassemble(lines, WindowCount(|lines|)) == lines
    ensures forall k :: 0 <= k < WindowCount(|lines|) ==>
              180 * k < |lines| && 0 < |Window(lines, k)| <= 200
  {
    forall k | 0 <= k < WindowCount(|lines|) ensures 180 * k < |lines| && 0 < |Window(lines, k)| <= 200 {
      WindowsStartInside(|lines|, k);
    }
    if lines != [] {
      var m := WindowCount(|lines|);
      WindowsStartInside(|lines|, m - 1);
      ReassemblePrefix(lines, m);
    }
  }

  // ---- Python symbols -----------------------------------------------------------

  /** The indices, below `n`, of the lines that start a symbol. */
  function Boundaries(lines: seq<string>, lang: Lang, n: nat): seq<nat>
    requires n <= |lines|
  {
    if n == 0 then []
    else
      var before := Boundaries(lines, lang, n - 1);
      if lang.symbolOf(lines[n - 1]).Some? then before + [n - 1] else before
  }

  lemma {:induction false} BoundariesFacts(lines: seq<string>, lang: Lang, n: nat)
    requires n <= |lines|
    ensures var b := Boundaries(lines, lang, n);
      && (forall i, j :: 0 <= i < j < |b| ==> b[i] < b[j])
      && (forall i :: i in b <==> 0 <= i < n && lang.symbolOf(lines[i]).Some?)
  {
    if n > 0 {
      BoundariesFacts(lines, lang, n - 1);
      var before := Boundaries(lines, lang, n - 1);
      assert forall i :: 0 <= i < |before| ==> before[i] in before;
    }
  }

  /** Where the k-th symbol's piece ends. */
  function PieceEnd(bounds: seq<nat>, k: nat, n: nat): nat {
    if k + 1 < |bounds| then bounds[k + 1] else n
  }

  ghost predicate InBounds(bounds: seq<nat>, n: nat) {
    && (forall i, j :: 0 <= i < j < |bounds| ==> bounds[i] < bounds[j])
    && (forall i :: 0 <= i < |bounds| ==> bounds[i] < n)
  }

  function SymbolPieces(lines: seq<string>, lang: Lang, bounds: seq<nat>, k: nat): seq<Piece>
    requires InBounds(bounds, |lines|) && k <= |bounds|
  {
    if k == 0 then []
    else
      var start := bounds[k - 1];
      SymbolPieces(lines, lang, bounds, k - 1)
        + [Piece(lang.symbolOf(lines[start]), Join(lines[start..PieceEnd(bounds, k - 1, |lines|)]))]
  }

  function HeadPieces(lines: seq<string>, lang: Lang, first: nat): seq<Piece>
    requires first <= |lines|
  {
    if Blank(Join(lines[..first]), lang) then [] else [Piece(None, Join(lines[..first]))]
  }

  function PythonPieces(lines: seq<string>, lang: Lang): seq<Piece> {
    var bounds := Boundaries(lines, lang, |lines|);
    BoundariesFacts(lines, lang, |lines|);
    assert forall i :: 0 <= i < |bounds| ==> bounds[i] in bounds;
    if bounds == [] then HeadPieces(lines, lang, |lines|)
    else HeadPieces(lines, lang, bounds[0]) + SymbolPieces(lines, lang, bounds, |bounds|)
  }

  lemma JoinEmpty(lines: seq<string>, lang: Lang)
    ensures Blank(Join(lines[..0]), lang)
  {
    assert lines[..0] == [];
  }

  method FindBoundaries(lines: seq<string>, lang: Lang) returns (bounds: seq<nat>, symbols: seq<Option<string>>)
    ensures bounds == Boundaries(lines, lang, |lines|) && |symbols| == |bounds|
    ensures forall k :: 0 <= k < |bounds| ==> bounds[k] < |lines| && symbols[k] == lang.symbolOf(lines[bounds[k]])
  {
    bounds, symbols := [], [];
    for i := 0 to |lines|
      invariant bounds == Boundaries(lines, lang, i)
      invariant |symbols| == |bounds|
      invariant forall k :: 0 <= k < |bounds| ==> bounds[k] < i && symbols[k] == lang.symbolOf(lines[bounds[k]])
    {
      var symbol := lang.symbolOf(lines[i]);
      if symbol.Some? {
        bounds := bounds + [i];
        symbols := symbols + [symbol];
      }
    }
  }

  lemma BoundsInside(lines: seq<string>, lang: Lang)
    ensures InBounds(Boundaries(lines, lang, |lines|), |lines|)
  {
    var b := Boundaries(lines, lang, |lines|);
    BoundariesFacts(lines, lang, |lines|);
    assert forall i :: 0 <= i < |b| ==> b[i] in b;
  }

  /** What stands before the first symbol, unless it is blank. */
  method SplitHead(lines: seq<string>, lang: Lang, first: nat) returns (heads: seq<Piece>)
    requires first <= |lines|
    ensures heads == HeadPieces(lines, lang, first)
  {
    heads := [];
    JoinEmpty(lines, lang);
    if first > 0 {
      var head := Join(lines[..first]);
      if !Blank(head, lang) {
        heads := [Piece(None, head)];
      }
    }
  }

  method SplitPython(lines: seq<string>, lang: Lang) returns (pieces: seq<Piece>)
    ensures pieces == PythonPieces(lines, lang)
  {
    var bounds, symbols := FindBoundaries(lines, lang);
    BoundsInside(lines, lang);
    if bounds == [] {
      assert lines[..|lines|] == lines;
      var text := Join(lines);
      return if Blank(text, lang) then [] else [Piece(None, text)];
    }
    pieces := SplitHead(lines, lang, bounds[0]);
    for k := 0 to |bounds|
      invariant pieces == HeadPieces(lines, lang, bounds[0]) + SymbolPieces(lines, lang, bounds, k)
    {
      var end := if k + 1 < |bounds| then bounds[k + 1] else |lines|;
      pieces := pieces + [Piece(symbols[k], Join(lines[bounds[k]..end]))];
    }
  }

  // ---- what the pieces say ----------------------------------------------------------

  function Contents(pieces: seq<Piece>): string {
    if pieces == [] then "" else Contents(pieces[..|pieces| - 1]) + pieces[|pieces| - 1].content
  }

  lemma {:induction false} ContentsAppend(a: seq<Piece>, b: seq<Piece>)
    ensures Contents(a + b) == Contents(a) + Contents(b)
  {
    if b == [] {
      assert a + b == a;
    } else {
      assert (a + b)[..|a + b| - 1] == a + b[..|b| - 1];
      ContentsAppend(a, b[..|b| - 1]);
    }
  }

  lemma JoinSplit(lines: seq<string>, i: nat, j: nat, k: nat)
    requires i <= j <= k <= |lines|
    ensures Join(lines[i..k]) == Join(lines[i..j]) + Join(lines[j..k])
  {
    assert lines[i..k] == lines[i..j] + lines[j..k];
    FlattenAppend(lines[i..j], lines[j..k]);
  }

  lemma {:induction false} SymbolPiecesCover(lines: seq<string>, lang: Lang, bounds: seq<nat>, k: nat)
    requires InBounds(bounds, |lines|) && 0 < k <= |bounds|
    ensures Contents(SymbolPieces(lines, lang, bounds, k)) ==
            Join(lines[bounds[0]..PieceEnd(bounds, k - 1, |lines|)])
  {
    var before := SymbolPieces(lines, lang, bounds, k - 1);
    var piece := Piece(lang.symbolOf(lines[bounds[k - 1]]), Join(lines[bounds[k - 1]..PieceEnd(bounds, k - 1, |lines|)]));
    assert (before + [piece])[..|before|] == before;
    if k > 1 {
      SymbolPiecesCover(lines, lang, bounds, k - 1);
      JoinSplit(lines, bounds[0], bounds[k - 1], PieceEnd(bounds, k - 1, |lines|));
    }
  }

  /** The pieces of a Python file, joined, are the file less at most a blank head. */
  lemma PythonPiecesCoverFile(lines: seq<string>, lang: Lang) returns (head: nat)
    ensures head <= |lines| && forall c :: c in Join(lines[..head]) ==> lang.isSpace(c)
    ensures Contents(PythonPieces(lines, lang)) == Join(lines[head..])
  {
    var bounds := Boundaries(lines, lang, |lines|);
    BoundsInside(lines, lang);
    var first := if bounds == [] then |lines| else bounds[0];
    head := HeadCovers(lines, lang, first);
    assert lines[head..|lines|] == lines[head..];
    if bounds != [] {
      SymbolPiecesCover(lines, lang, bounds, |bounds|);
      ContentsAppend(HeadPieces(lines, lang, first), SymbolPieces(lines, lang, bounds, |bounds|));
      JoinSplit(lines, head, first, |lines|);
    }
  }

  /** A head is kept whole, or it is blank. */
  lemma HeadCovers(lines: seq<string>, lang: Lang, first: nat) returns (head: nat)
    requires first <= |lines|
    ensures head <= first && Blank(Join(lines[..head]), lang)
    ensures Contents(HeadPieces(lines, lang, first)) == Join(lines[head..first])
  {
    var heads := HeadPieces(lines, lang, first);
    head := if heads == [] then first else 0;
    if heads != [] {
      assert heads[..0] == [];
      assert lines[..0] == [];
      assert lines[0..first] == lines[..first];
    } else {
      assert lines[first..first] == [];
    }
  }

  /** Piece `p` is a run of lines of which the first, and no other, starts the
      symbol the piece is named after. */
  ghost predicate StartsOneSymbol(p: Piece, lines: seq<string>, lang: Lang, start: nat, end: nat) {
    && start < end <= |lines|
    && p.symbol.Some? && p.symbol == lang.symbolOf(lines[start]) && p.content == Join(lines[start..end])
    && (forall i :: start < i < end ==> lang.symbolOf(lines[i]) == None)
  }

  lemma {:induction false} SymbolPieceAt(lines: seq<string>, lang: Lang, bounds: seq<nat>, k: nat, i: nat)
    requires InBounds(bounds, |lines|) && i < k <= |bounds|
    ensures |SymbolPieces(lines, lang, bounds, k)| == k
    ensures SymbolPieces(lines, lang, bounds, k)[i] ==
            Piece(lang.symbolOf(lines[bounds[i]]), Join(lines[bounds[i]..PieceEnd(bounds, i, |lines|)]))
  {
    if i < k - 1 {
      SymbolPieceAt(lines, lang, bounds, k - 1, i);
    } else if k > 1 {
      SymbolPieceAt(lines, lang, bounds, k - 1, 0);
    }
  }

  /** Every piece but a leading head holds exactly one symbol, at its first line. */
  lemma PythonPiecesHoldOneSymbol(lines: seq<string>, lang: Lang, i: nat) returns (start: nat, end: nat)
    requires i < |PythonPieces(lines, lang)|
    ensures StartsOneSymbol(PythonPieces(lines, lang)[i], lines, lang, start, end) ||
            (i == 0 && PythonPieces(lines, lang)[0].symbol == None)
  {
    var bounds := Boundaries(lines, lang, |lines|);
    BoundsInside(lines, lang);
    start, end := 0, 0;
    if bounds != [] {
      var heads := HeadPieces(lines, lang, bounds[0]);
      SymbolPieceAt(lines, lang, bounds, |bounds|, 0);
      if i >= |heads| {
        var k := i - |heads|;
        SymbolPieceAt(lines, lang, bounds, |bounds|, k);
        BetweenBounds(lines, lang, k);
        start, end := bounds[k], PieceEnd(bounds, k, |lines|);
      }
    }
  }

  /** No symbol starts between one boundary and the next. */
  lemma BetweenBounds(lines: seq<string>, lang: Lang, k: nat)
    requires k < |Boundaries(lines, lang, |lines|)|
    ensures var bounds := Boundaries(lines, lang, |lines|);
      && bounds[k] < PieceEnd(bounds, k, |lines|) <= |lines|
      && lang.symbolOf(lines[bounds[k]]).Some?
      && forall j :: bounds[k] < j < PieceEnd(bounds, k, |lines|) ==> lang.symbolOf(lines[j]).None?
  {
    var bounds := Boundaries(lines, lang, |lines|);
    BoundariesFacts(lines, lang, |lines|);
    BoundsInside(lines, lang);
    assert bounds[k] in bounds;
    forall j | bounds[k] < j < PieceEnd(bounds, k, |lines|) ensures j !in bounds {
    }
  }
}
