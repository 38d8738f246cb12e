/** A fetched source tree and `chunk_repo`: which files are chunked and what
    chunks a file yields. */
module RepoTree {
  import opened Basics
  import opened Chunker

  /** A path as its parts, relative to the repository root. */
  type Path = seq<string>

  /** `lines` is None when the file cannot be read as UTF-8. */
  datatype File = File(size: nat, lines: Option<seq<string>>)

  type Tree = map<Path, File>

  datatype Chunk = Chunk(path: Path, symbol: Option<string>, index: nat, content: string)

  const VENDORED_DIR_NAMES: set<string> := {
    ".git", ".venv", "venv", "node_modules", "vendor", "dist", "build",
    "__pycache__", ".mypy_cache", ".pytest_cache", ".next", "target"
  }

  const LOCKFILE_NAMES: set<string> := {
    "package-lock.json", "yarn.lock", "pnpm-lock.yaml", "poetry.lock",
    "uv.lock", "Pipfile.lock", "go.sum", "Cargo.lock", "composer.lock"
  }

  const BINARY_SUFFIXES: set<string> := {
    ".png", ".jpg", ".jpeg", ".gif", ".ico", ".webp", ".pdf", ".zip", ".gz",
    ".tar", ".whl", ".so", ".dylib", ".dll", ".exe", ".woff", ".woff2",
    ".ttf", ".eot", ".mp3", ".mp4", ".sqlite", ".db", ".bin", ".pyc"
  }

  const MAX_FILE_BYTES: nat := 500_000

  function FileName(path: Path): string {
    if path == [] then "" else path[|path| - 1]
  }

  /** From the last dot on, unless that dot is the first or the last character. */
  function SuffixFrom(name: string, i: nat): string
    requires i <= |name|
    decreases i
  {
    if i == 0 then ""
    else if name[i - 1] == '.' then (if 0 < i - 1 < |name| - 1 then name[i - 1..] else "")
    else SuffixFrom(name, i - 1)
  }

  function Suffix(path: Path): string {
    SuffixFrom(FileName(path), |FileName(path)|)
  }

  /** ASCII lower case, which is all the suffix table needs. */
  function Lower(s: string): string {
    seq(|s|, i requires 0 <= i < |s| => if 'A' <= s[i] <= 'Z' then s[i] + ('a' - 'A') else s[i])
  }

  predicate ShouldSkip(path: Path, size: nat) {
    || (exists part :: part in path && part in VENDORED_DIR_NAMES)
    || FileName(path) in LOCKFILE_NAMES
    || Lower(Suffix(path)) in BINARY_SUFFIXES
    || size > MAX_FILE_BYTES
  }

  function WindowPieces(lines: seq<string>): seq<Piece> {
    seq(WindowCount(|lines|), k requires 0 <= k < WindowCount(|lines|) =>
      WindowsStartInside(|lines|, k);
      Piece(None, Join(Window(lines, k))))
  }

  function FilePieces(path: Path, lines: seq<string>, lang: Lang): seq<Piece> {
    if Suffix(path) == ".py" then PythonPieces(lines, lang) else WindowPieces(lines)
  }

  /** Pieces are numbered before the blank ones are dropped. */
  function NumberPieces(path: Path, pieces: seq<Piece>, lang: Lang): seq<Chunk> {
    if pieces == [] then []
    else
      var n := |pieces| - 1;
      NumberPieces(path, pieces[..n], lang)
        + (if Blank(pieces[n].content, lang) then [] else [Chunk(path, pieces[n].symbol, n, pieces[n].content)])
  }

  function FileChunks(path: Path, file: File, lang: Lang): seq<Chunk> {
    if ShouldSkip(path, file.size) || file.lines == None then []
    else NumberPieces(path, FilePieces(path, file.lines.value, lang), lang)
  }

  predicate Selected(path: Path, only: Option<set<Path>>) {
    only == None || path in only.value
  }

  /** The chunks of the files of `walk`, in that order. */
  function ChunkWalk(tree: Tree, walk: seq<Path>, only: Option<set<Path>>, lang: Lang): seq<Chunk> {
    if walk == [] then []
    else
      var p := walk[|walk| - 1];
      ChunkWalk(tree, walk[..|walk| - 1], only, lang)
        + (if p in tree && Selected(p, only) then FileChunks(p, tree[p], lang) else [])
  }

  /** `walk` visits every file of the tree once. The order does not matter here. */
  ghost predicate Walks(walk: seq<Path>, tree: Tree) {
    NoDuplicates(walk) && forall p :: p in walk <==> p in tree
  }

  // ---- the algorithms ----------------------------------------------------------

  method ChunkFile(path: Path, lines: seq<string>, lang: Lang) returns (chunks: seq<Chunk>)
    ensures chunks == NumberPieces(path, FilePieces(path, lines, lang), lang)
  {
    var pieces: seq<Piece>;
    if Suffix(path) == ".py" {
      pieces := SplitPython(lines, lang);
    } else {
      pieces := SplitByLineWindow(lines);
      assert pieces == WindowPieces(lines);
    }
    chunks := [];
    for i := 0 to |pieces|
      invariant chunks == NumberPieces(path, pieces[..i], lang)
    {
      assert pieces[..i + 1][..i] == pieces[..i];
      if !Blank(pieces[i].content, lang) {
        chunks := chunks + [Chunk(path, pieces[i].symbol, i, pieces[i].content)];
      }
    }
    assert pieces[..|pieces|] == pieces;
  }

  method ChunkRepo(tree: Tree, walk: seq<Path>, only: Option<set<Path>>, lang: Lang) returns (chunks: seq<Chunk>)
    ensures chunks == ChunkWalk(tree, walk, only, lang)
  {
    hide NumberPieces, FilePieces, ShouldSkip;
    chunks := [];
    for k := 0 to |walk|
      invariant chunks == ChunkWalk(tree, walk[..k], only, lang)
    {
      var p := walk[k];
      assert walk[..k + 1][..k] == walk[..k];
      if p in tree && Selected(p, only) && !ShouldSkip(p, tree[p].size) && tree[p].lines.Some? {
        var more := ChunkFile(p, tree[p].lines.value, lang);
        chunks := chunks + more;
      }
    }
    assert walk[..|walk|] == walk;
  }

  // ---- chunk keys are unique -------------------------------------------------------

  lemma {:induction false} NumberedAscend(path: Path, pieces: seq<Piece>, lang: Lang)
    ensures var cs := NumberPieces(path, pieces, lang);
      && (forall c :: c in cs ==> c.path == path && c.index < |pieces|)
      && (forall i, j :: 0 <= i < j < |cs| ==> cs[i].index < cs[j].index)
  {
    if pieces != [] {
      var before := NumberPieces(path, pieces[..|pieces| - 1], lang);
      NumberedAscend(path, pieces[..|pieces| - 1], lang);
      assert forall i :: 0 <= i < |before| ==> before[i] in before;
    }
  }

  lemma FileChunksOfFile(path: Path, file: File, lang: Lang)
    ensures var cs := FileChunks(path, file, lang);
      && (forall c :: c in cs ==> c.path == path)
      && (forall i, j :: 0 <= i < j < |cs| ==> cs[i].index < cs[j].index)
  {
    if file.lines.Some? {
      NumberedAscend(path, FilePieces(path, file.lines.value, lang), lang);
    }
  }

  function ChunkId(c: Chunk): (Path, nat) {
    (c.path, c.index)
  }

  lemma {:induction false} WalkedPaths(tree: Tree, walk: seq<Path>, only: Option<set<Path>>, lang: Lang)
    ensures forall c :: c in ChunkWalk(tree, walk, only, lang) ==> c.path in walk
  {
    if walk != [] {
      var p := walk[|walk| - 1];
      WalkedPaths(tree, walk[..|walk| - 1], only, lang);
      if p in tree {
        FileChunksOfFile(p, tree[p], lang);
      }
    }
  }

  /** No two chunks of a repository share path and index, so the upsert never
      overwrites within one write. */
  lemma {:induction false} ChunkIdsUnique(tree: Tree, walk: seq<Path>, only: Option<set<Path>>, lang: Lang)
    requires NoDuplicates(walk)
    ensures DistinctKeys(ChunkWalk(tree, walk, only, lang), ChunkId)
  {
    if walk != [] {
      var p, rest := walk[|walk| - 1], walk[..|walk| - 1];
      ChunkIdsUnique(tree, rest, only, lang);
      WalkedPaths(tree, rest, only, lang);
      if p in tree {
        FileChunksOfFile(p, tree[p], lang);
        var a, b := ChunkWalk(tree, rest, only, lang), FileChunks(p, tree[p], lang);
        forall i, j | 0 <= i < j < |a + b| ensures ChunkId((a + b)[i]) != ChunkId((a + b)[j]) {
          if i < |a| <= j {
            assert a[i] in a && b[j - |a|] in b;
          }
        }
      }
    }
  }

  lemma WalkSnoc(tree: Tree, walk: seq<Path>, p: Path, only: Option<set<Path>>, lang: Lang)
    ensures ChunkWalk(tree, walk + [p], only, lang) ==
            ChunkWalk(tree, walk, only, lang)
            + (if p in tree && (only == None || p in only.value) then FileChunks(p, tree[p], lang) else [])
  {
    assert (walk + [p])[..|walk|] == walk;
  }

  /** A walk yields the chunks of one file after the other, of selected files of the
      tree only, in the order in which the files are visited. */
  lemma {:induction false} WalkAppends(tree: Tree, a: seq<Path>, b: seq<Path>, only: Option<set<Path>>, lang: Lang)
    ensures ChunkWalk(tree, a + b, only, lang) == ChunkWalk(tree, a, only, lang) + ChunkWalk(tree, b, only, lang)
  {
    if b == [] {
      assert a + b == a;
      assert ChunkWalk(tree, b, only, lang) == [];
    } else {
      hide ChunkWalk, FileChunks;
      var front, last := b[..|b| - 1], b[|b| - 1];
      var more := if last in tree && (only == None || last in only.value) then FileChunks(last, tree[last], lang) else [];
      WalkAppends(tree, a, front, only, lang);
      WalkSnoc(tree, a + front, last, only, lang);
      WalkSnoc(tree, front, last, only, lang);
      assert b == front + [last];
      AppendAssociates(a, front, [last]);
      AppendAssociates(ChunkWalk(tree, a, only, lang), ChunkWalk(tree, front, only, lang), more);
    }
  }

  lemma WalkOne(tree: Tree, p: Path, only: Option<set<Path>>, lang: Lang)
    ensures ChunkWalk(tree, [p], only, lang) ==
            if p in tree && (only == None || p in only.value) then FileChunks(p, tree[p], lang) else []
  {
    WalkSnoc(tree, [], p, only, lang);
    assert [] + [p] == [p];
  }

  // ---- what a chunk is ---------------------------------------------------------------

  lemma {:induction false} SuffixFromDot(name: string, i: nat, d: int)
    requires i <= |name| && -1 <= d < i && (d >= 0 ==> name[d] == '.')
    requires forall j :: d < j < i ==> name[j] != '.'
    ensures SuffixFrom(name, i) == if 0 < d < |name| - 1 then name[d..] else ""
  {
    if i > 0 && d < i - 1 {
      SuffixFromDot(name, i - 1, d);
    }
  }

  /** The suffix starts at the last dot of the file name, unless that is its first
      or last character. */
  lemma SuffixIs(path: Path, name: string, d: int)
    requires path != [] && path[|path| - 1] == name && -1 <= d < |name| && (d >= 0 ==> name[d] == '.')
    requires forall j :: d < j < |name| ==> name[j] != '.'
    ensures Suffix(path) == if 0 < d < |name| - 1 then name[d..] else ""
  {
    SuffixFromDot(name, |name|, d);
  }

  lemma {:induction false} LastDot(name: string, i: nat) returns (d: int)
    requires i <= |name|
    ensures -1 <= d < i && (d >= 0 ==> name[d] == '.') && forall j :: d < j < i ==> name[j] != '.'
  {
    if i == 0 {
      d := -1;
    } else if name[i - 1] == '.' {
      d := i - 1;
    } else {
      d := LastDot(name, i - 1);
    }
  }

  predicate SameLetter(c: char, d: char) {
    c == d || ('A' <= c <= 'Z' && d == c + ' ') || ('A' <= d <= 'Z' && c == d + ' ')
  }

  /** Suffixes are compared without regard to the case of ASCII letters: a text in
      lower case stands for itself and for all its spellings. */
  lemma LowerFoldsCase(a: string, b: string)
    requires |a| == |b| && forall k :: 0 <= k < |a| ==> SameLetter(a[k], b[k])
    requires forall k :: 0 <= k < |b| ==> !('A' <= b[k] <= 'Z')
    ensures Lower(a) == b
  {
  }

  predicate NamesPython(name: string) {
    |name| > 3 && name[|name| - 3] == '.' && name[|name| - 2] == 'p' && name[|name| - 1] == 'y'
  }

  lemma PythonSuffix(path: Path)
    requires path != []
    ensures Suffix(path) == ".py" <==> NamesPython(path[|path| - 1])
  {
    var name := path[|path| - 1];
    var d := LastDot(name, |name|);
    SuffixIs(path, name, d);
    if d >= 0 {
      TailIsPython(name, d);
    }
    assert NamesPython(name) ==> d == |name| - 3;
  }

  lemma TailIsPython(name: string, d: nat)
    requires d < |name|
    ensures name[d..] == ".py" <==> d == |name| - 3 && name[d] == '.' && name[d + 1] == 'p' && name[d + 2] == 'y'
  {
    if |name[d..]| == 3 {
      assert name[d..] == [name[d], name[d + 1], name[d + 2]];
    }
  }

  ghost predicate HasText(text: string, lang: Lang) {
    exists k :: 0 <= k < |text| && !lang.isSpace(text[k])
  }

  /** The chunks of a file are its pieces that are not blank, each with the piece's
      own number, symbol and text. */
  lemma {:induction false} NumberedAre(path: Path, pieces: seq<Piece>, lang: Lang, c: Chunk)
    ensures c in NumberPieces(path, pieces, lang) <==>
            && c.path == path && c.index < |pieces| && pieces[c.index] == Piece(c.symbol, c.content)
            && HasText(c.content, lang)
  {
    if pieces != [] {
      NumberedAre(path, pieces[..|pieces| - 1], lang, c);
    }
  }

  lemma WindowExists(n: nat, k: nat)
    ensures k < WindowCount(n) <==> n > 0 && (k == 0 || 180 * (k - 1) + 200 < n)
  {
  }

  /** Which chunks a file yields: none if it is under a vendored directory, a lock
      file, of a binary type, larger than 500000 bytes or unreadable; otherwise the
      non-blank ones of its Python pieces, if its name says so, or of its windows of
      200 lines, 180 apart. */
  lemma FileChunksAre(path: Path, file: File, lang: Lang, c: Chunk)
    requires path != []
    ensures c in FileChunks(path, file, lang) <==>
            && (forall part :: part in path ==> part !in VENDORED_DIR_NAMES)
            && path[|path| - 1] !in LOCKFILE_NAMES && Lower(Suffix(path)) !in BINARY_SUFFIXES
            && file.size <= 500_000 && file.lines.Some? && c.path == path && HasText(c.content, lang)
            && var lines := file.lines.value;
               if NamesPython(path[|path| - 1]) then
                 c.index < |PythonPieces(lines, lang)| && PythonPieces(lines, lang)[c.index] == Piece(c.symbol, c.content)
               else
                 && 180 * c.index < |lines| && (c.index > 0 ==> 180 * (c.index - 1) + 200 < |lines|)
                 && c.symbol == None && c.content == Join(lines[180 * c.index..Min(180 * c.index + 200, |lines|)])
  {
    hide NumberPieces, PythonPieces, Suffix, WindowCount, Lower, HasText;
    if file.lines.Some? {
      var lines := file.lines.value;
      PythonSuffix(path);
      NumberedAre(path, FilePieces(path, lines, lang), lang, c);
      WindowExists(|lines|, c.index);
    }
  }
}
