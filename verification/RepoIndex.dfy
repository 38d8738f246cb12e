/** The `code_chunks` and `repo_index_state` tables as values: what one write
    transaction does, and why an incremental index agrees with chunking the
    whole tree again. */
module RepoIndex {
  import opened Basics
  import opened Chunker
  import opened RepoTree

  datatype Env = Env(
    lang: Lang,
    embed: string -> seq<real>,
    countTokens: string -> nat)

  datatype Key = Key(repo: string, path: Path, index: nat)

  datatype ChunkRow = ChunkRow(symbol: Option<string>, content: string, embedding: seq<real>, tokens: nat)

  type Rows = map<Key, ChunkRow>

  function RowOf(c: Chunk, env: Env): ChunkRow {
    ChunkRow(c.symbol, c.content, env.embed(c.content), env.countTokens(c.content))
  }

  function Lookup(rows: Rows, key: Key): Option<ChunkRow> {
    if key in rows then Some(rows[key]) else None
  }

  // ---- one write transaction -------------------------------------------------------

  function DeletePaths(rows: Rows, repo: string, paths: set<Path>): Rows {
    map k | k in rows && !(k.repo == repo && k.path in paths) :: rows[k]
  }

  function UpsertChunks(rows: Rows, repo: string, chunks: seq<Chunk>, env: Env): Rows {
    if chunks == [] then rows
    else
      var c := chunks[|chunks| - 1];
      UpsertChunks(rows, repo, chunks[..|chunks| - 1], env)[Key(repo, c.path, c.index) := RowOf(c, env)]
  }

  function TouchedPaths(chunks: seq<Chunk>): set<Path> {
    set c | c in chunks :: c.path
  }

  function WriteRows(rows: Rows, repo: string, chunks: seq<Chunk>, deleted: set<Path>, env: Env): Rows {
    UpsertChunks(DeletePaths(DeletePaths(rows, repo, deleted), repo, TouchedPaths(chunks)), repo, chunks, env)
  }

  function StoredPaths(rows: Rows, repo: string): set<Path> {
    set k | k in rows && k.repo == repo :: k.path
  }

  function FullRows(rows: Rows, repo: string, tree: Tree, walk: seq<Path>, env: Env): Rows {
    var chunks := ChunkWalk(tree, walk, None, env.lang);
    WriteRows(rows, repo, chunks, StoredPaths(rows, repo) - TouchedPaths(chunks), env)
  }

  /** The files a push reports, over all its commits. */
  datatype ChangedFiles = ChangedFiles(added: seq<Path>, modified: seq<Path>, removed: seq<Path>)

  function ToSet(paths: seq<Path>): set<Path> {
    set p | p in paths
  }

  function ToReembed(changed: ChangedFiles): set<Path> {
    ToSet(changed.added) + ToSet(changed.modified)
  }

  function IncrementalChunks(after: Tree, walk: seq<Path>, changed: ChangedFiles, lang: Lang): seq<Chunk> {
    if ToReembed(changed) == {} then [] else ChunkWalk(after, walk, Some(ToReembed(changed)), lang)
  }

  function IncrementalRows(rows: Rows, repo: string, after: Tree, walk: seq<Path>, changed: ChangedFiles, env: Env): Rows {
    WriteRows(rows, repo, IncrementalChunks(after, walk, changed, env.lang), ToSet(changed.removed), env)
  }

  // ---- the reference: the whole tree, chunked ----------------------------------------

  function FindRow(chunks: seq<Chunk>, path: Path, index: nat, env: Env): Option<ChunkRow> {
    if chunks == [] then None
    else
      var c := chunks[|chunks| - 1];
      if c.path == path && c.index == index then Some(RowOf(c, env))
      else FindRow(chunks[..|chunks| - 1], path, index, env)
  }

  function TreeRow(tree: Tree, path: Path, index: nat, env: Env): Option<ChunkRow> {
    if path in tree then FindRow(FileChunks(path, tree[path], env.lang), path, index, env) else None
  }

  /** The repository's rows are exactly the chunks of `tree`. */
  ghost predicate Agrees(rows: Rows, repo: string, tree: Tree, env: Env) {
    forall p: Path, i: nat {:trigger Key(repo, p, i)} :: Lookup(rows, Key(repo, p, i)) == TreeRow(tree, p, i, env)
  }

  ghost predicate OtherReposUntouched(before: Rows, after: Rows, repo: string) {
    forall k: Key :: k.repo != repo ==> Lookup(after, k) == Lookup(before, k)
  }

  // ---- what a write stores -------------------------------------------------------------

  lemma {:induction false} UpsertLookup(rows: Rows, repo: string, chunks: seq<Chunk>, env: Env, key: Key)
    ensures Lookup(UpsertChunks(rows, repo, chunks, env), key) ==
            if key.repo == repo && FindRow(chunks, key.path, key.index, env).Some?
            then FindRow(chunks, key.path, key.index, env) else Lookup(rows, key)
  {
    if chunks != [] {
      UpsertLookup(rows, repo, chunks[..|chunks| - 1], env, key);
    }
  }

  lemma WriteLookup(rows: Rows, repo: string, chunks: seq<Chunk>, deleted: set<Path>, env: Env, key: Key)
    ensures Lookup(WriteRows(rows, repo, chunks, deleted, env), key) ==
            if key.repo != repo then Lookup(rows, key)
            else if FindRow(chunks, key.path, key.index, env).Some? then FindRow(chunks, key.path, key.index, env)
            else if key.path in deleted || key.path in TouchedPaths(chunks) then None
            else Lookup(rows, key)
  {
    UpsertLookup(DeletePaths(DeletePaths(rows, repo, deleted), repo, TouchedPaths(chunks)), repo, chunks, env, key);
  }

  lemma {:induction false} FindRowAppend(a: seq<Chunk>, b: seq<Chunk>, path: Path, index: nat, env: Env)
    ensures FindRow(a + b, path, index, env) ==
            if FindRow(b, path, index, env).Some? then FindRow(b, path, index, env) else FindRow(a, path, index, env)
  {
    if b == [] {
      assert a + b == a;
    } else {
      assert (a + b)[..|a + b| - 1] == a + b[..|b| - 1];
      FindRowAppend(a, b[..|b| - 1], path, index, env);
    }
  }

  lemma {:induction false} FindRowElsewhere(chunks: seq<Chunk>, path: Path, index: nat, env: Env)
    requires forall c :: c in chunks ==> c.path != path
    ensures FindRow(chunks, path, index, env) == None
  {
    if chunks != [] {
      FindRowElsewhere(chunks[..|chunks| - 1], path, index, env);
    }
  }

  ghost predicate Visited(tree: Tree, walk: seq<Path>, only: Option<set<Path>>, path: Path) {
    path in walk && path in tree && Selected(path, only)
  }

  lemma {:induction false} WalkRow(tree: Tree, walk: seq<Path>, only: Option<set<Path>>, path: Path, index: nat, env: Env)
    ensures FindRow(ChunkWalk(tree, walk, only, env.lang), path, index, env) ==
            if Visited(tree, walk, only, path) then TreeRow(tree, path, index, env) else None
  {
    if walk != [] {
      var p, rest := walk[|walk| - 1], walk[..|walk| - 1];
      WalkRow(tree, rest, only, path, index, env);
      assert walk == rest + [p];
      if p in tree && Selected(p, only) {
        var more := FileChunks(p, tree[p], env.lang);
        FileChunksOfFile(p, tree[p], env.lang);
        FindRowAppend(ChunkWalk(tree, rest, only, env.lang), more, path, index, env);
        assert ChunkWalk(tree, walk, only, env.lang) == ChunkWalk(tree, rest, only, env.lang) + more;
        if p != path {
          FindRowElsewhere(more, path, index, env);
          assert Visited(tree, walk, only, path) == Visited(tree, rest, only, path);
        }
      } else {
        assert ChunkWalk(tree, walk, only, env.lang) == ChunkWalk(tree, rest, only, env.lang);
        assert Visited(tree, walk, only, path) == Visited(tree, rest, only, path);
      }
    }
  }

  ghost predicate HasChunks(tree: Tree, path: Path, lang: Lang) {
    path in tree && FileChunks(path, tree[path], lang) != []
  }

  lemma {:induction false} WalkTouches(tree: Tree, walk: seq<Path>, only: Option<set<Path>>, path: Path, lang: Lang)
    ensures path in TouchedPaths(ChunkWalk(tree, walk, only, lang)) <==>
            Visited(tree, walk, only, path) && HasChunks(tree, path, lang)
  {
    if walk != [] {
      var p, rest := walk[|walk| - 1], walk[..|walk| - 1];
      WalkTouches(tree, rest, only, path, lang);
      assert walk == rest + [p];
      if p in tree && Selected(p, only) {
        var before, more := ChunkWalk(tree, rest, only, lang), FileChunks(p, tree[p], lang);
        FileChunksOfFile(p, tree[p], lang);
        assert forall c :: c in before + more <==> c in before || c in more;
        if more != [] {
          assert more[0] in before + more;
        }
      }
    }
  }

  /** A file without chunks has no row; a file with chunks has the row of its first chunk. */
  lemma HasChunksIffRow(tree: Tree, path: Path, env: Env)
    ensures HasChunks(tree, path, env.lang) <==> exists i: nat :: TreeRow(tree, path, i, env).Some?
  {
    if HasChunks(tree, path, env.lang) {
      var cs := FileChunks(path, tree[path], env.lang);
      FileChunksOfFile(path, tree[path], env.lang);
      var c := cs[|cs| - 1];
      assert c in cs;
      assert TreeRow(tree, path, c.index, env).Some?;
    }
  }

  lemma {:induction false} FindRowIs(chunks: seq<Chunk>, c: Chunk, env: Env)
    requires c in chunks && forall d :: d in chunks && d.path == c.path && d.index == c.index ==> d == c
    ensures FindRow(chunks, c.path, c.index, env) == Some(RowOf(c, env))
  {
    var front, last := chunks[..|chunks| - 1], chunks[|chunks| - 1];
    assert chunks == front + [last];
    if last != c {
      FindRowIs(front, c, env);
    }
  }

  /** What agreement means row by row: a chunk of the file, and no other, has a row,
      which holds its symbol and text, the embedding of that text and its token count. */
  lemma RowHoldsChunk(rows: Rows, repo: string, tree: Tree, env: Env, p: Path, i: nat)
    requires Agrees(rows, repo, tree, env)
    ensures Key(repo, p, i) in rows <==> p in tree && exists c :: c in FileChunks(p, tree[p], env.lang) && c.index == i
    ensures p in tree ==> forall c :: c in FileChunks(p, tree[p], env.lang) && c.index == i ==>
              Key(repo, p, i) in rows &&
              rows[Key(repo, p, i)] == ChunkRow(c.symbol, c.content, env.embed(c.content), env.countTokens(c.content))
  {
    assert Lookup(rows, Key(repo, p, i)) == TreeRow(tree, p, i, env);
    if p in tree {
      var chunks := FileChunks(p, tree[p], env.lang);
      FileChunksOfFile(p, tree[p], env.lang);
      if c :| c in chunks && c.index == i {
        forall d | d in chunks && d.index == i ensures d == c {
          var j :| 0 <= j < |chunks| && chunks[j] == d;
          var k :| 0 <= k < |chunks| && chunks[k] == c;
          assert j < k || j == k || k < j;
        }
        FindRowIs(chunks, c, env);
      } else {
        FindNoRow(chunks, p, i, env);
      }
    }
  }

  lemma {:induction false} FindNoRow(chunks: seq<Chunk>, path: Path, index: nat, env: Env)
    requires forall c :: c in chunks ==> c.index != index
    ensures FindRow(chunks, path, index, env) == None
  {
    if chunks != [] {
      assert chunks[|chunks| - 1] in chunks;
      FindNoRow(chunks[..|chunks| - 1], path, index, env);
    }
  }

  // ---- a full index repairs anything -------------------------------------------------

  /** From any earlier contents, a full index makes the repository's rows exactly
      the chunks of the tree and leaves every other repository alone. */
  lemma FullIndexAgrees(rows: Rows, repo: string, tree: Tree, walk: seq<Path>, env: Env)
    requires forall p :: p in walk <==> p in tree
    ensures Agrees(FullRows(rows, repo, tree, walk, env), repo, tree, env)
    ensures OtherReposUntouched(rows, FullRows(rows, repo, tree, walk, env), repo)
  {
    var chunks := ChunkWalk(tree, walk, None, env.lang);
    var stale := StoredPaths(rows, repo) - TouchedPaths(chunks);
    var after := FullRows(rows, repo, tree, walk, env);
    forall p: Path, i: nat ensures Lookup(after, Key(repo, p, i)) == TreeRow(tree, p, i, env) {
      WriteLookup(rows, repo, chunks, stale, env, Key(repo, p, i));
      WalkRow(tree, walk, None, p, i, env);
      if Key(repo, p, i) in rows {
        assert p in StoredPaths(rows, repo);
      }
    }
    forall k: Key | k.repo != repo ensures Lookup(after, k) == Lookup(rows, k) {
      WriteLookup(rows, repo, chunks, stale, env, k);
    }
  }

  // ---- a push ----------------------------------------------------------------------------

  /** `commit` lists exactly what turns `from` into `to`. A modified file may
      keep its content. */
  ghost predicate TrueDelta(from: Tree, to: Tree, commit: ChangedFiles) {
    && (forall p :: p in commit.added <==> p !in from && p in to)
    && (forall p :: p in commit.removed <==> p in from && p !in to)
    && (forall p :: p in commit.modified ==> p in from && p in to)
    && (forall p :: p in from && p in to && from[p] != to[p] ==> p in commit.modified)
  }

  /** The per-commit lists, concatenated. */
  function Aggregate(commits: seq<ChangedFiles>): ChangedFiles {
    if commits == [] then ChangedFiles([], [], [])
    else
      var before := Aggregate(commits[..|commits| - 1]);
      var c := commits[|commits| - 1];
      ChangedFiles(before.added + c.added, before.modified + c.modified, before.removed + c.removed)
  }

  lemma AggregateSnoc(commits: seq<ChangedFiles>, c: ChangedFiles)
    ensures var before, all := Aggregate(commits), Aggregate(commits + [c]);
      all == ChangedFiles(before.added + c.added, before.modified + c.modified, before.removed + c.removed)
  {
    assert (commits + [c])[..|commits|] == commits;
  }

  /** Concatenation, list by list: what a push reports is what its first commits
      report followed by what the others report; one commit reports its own lists. */
  lemma {:induction false} AggregateAppends(a: seq<ChangedFiles>, b: seq<ChangedFiles>)
    ensures Aggregate(a + b).added == Aggregate(a).added + Aggregate(b).added
    ensures Aggregate(a + b).modified == Aggregate(a).modified + Aggregate(b).modified
    ensures Aggregate(a + b).removed == Aggregate(a).removed + Aggregate(b).removed
  {
    if b == [] {
      assert a + b == a;
    } else {
      hide Aggregate;
      var front, last := b[..|b| - 1], b[|b| - 1];
      AggregateAppends(a, front);
      AggregateSnoc(a + front, last);
      AggregateSnoc(front, last);
      assert b == front + [last];
      AppendAssociates(a, front, [last]);
      AppendAssociates(Aggregate(a).added, Aggregate(front).added, last.added);
      AppendAssociates(Aggregate(a).modified, Aggregate(front).modified, last.modified);
      AppendAssociates(Aggregate(a).removed, Aggregate(front).removed, last.removed);
    }
  }

  lemma AggregateOne(c: ChangedFiles)
    ensures Aggregate([c]) == c
  {
    AggregateSnoc([], c);
    assert [] + [c] == [c];
  }

  /** `trees[0]` is the tree before the push, `trees[k + 1]` the tree after commit `k`. */
  ghost predicate PushOf(trees: seq<Tree>, commits: seq<ChangedFiles>) {
    && |trees| == |commits| + 1
    && (forall k :: 0 <= k < |commits| ==> TrueDelta(trees[k], trees[k + 1], commits[k]))
  }

  /** What the concatenated lists say about the whole push, however often files
      were added, removed and added again inside it. */
  ghost predicate Summarises(from: Tree, to: Tree, c: ChangedFiles) {
    && (forall p :: p in from && p !in to ==> p in c.removed)
    && (forall p :: p in to && (p !in from || p in c.removed) ==> p in c.added)
    && (forall p :: p in from && p in to && from[p] != to[p] ==> p in c.added || p in c.modified)
  }

  lemma {:induction false} PushIsSummarised(trees: seq<Tree>, commits: seq<ChangedFiles>)
    requires PushOf(trees, commits)
    ensures Summarises(trees[0], trees[|commits|], Aggregate(commits))
  {
    if commits != [] {
      var n := |commits| - 1;
      PushIsSummarised(trees[..n + 1], commits[..n]);
      assert forall k :: 0 <= k < n ==> commits[..n][k] == commits[k];
      assert TrueDelta(trees[n], trees[n + 1], commits[n]);
    }
  }

  /** Some file is still there, had chunks before and has none now, and is not
      listed as removed: its old rows stay behind. */
  ghost predicate GoesSilent(before: Tree, after: Tree, changed: ChangedFiles, lang: Lang) {
    exists p :: p in after && HasChunks(before, p, lang) && !HasChunks(after, p, lang) && p !in changed.removed
  }

  lemma IncrementalLookup(rows: Rows, repo: string, after: Tree, walk: seq<Path>, changed: ChangedFiles, env: Env,
                          p: Path, i: nat)
    requires forall q :: q in walk <==> q in after
    ensures Lookup(IncrementalRows(rows, repo, after, walk, changed, env), Key(repo, p, i)) ==
            if p in ToReembed(changed) && HasChunks(after, p, env.lang) then TreeRow(after, p, i, env)
            else if p in changed.removed then None
            else Lookup(rows, Key(repo, p, i))
  {
    var only := Some(ToReembed(changed));
    var chunks := IncrementalChunks(after, walk, changed, env.lang);
    WriteLookup(rows, repo, chunks, ToSet(changed.removed), env, Key(repo, p, i));
    if ToReembed(changed) != {} {
      WalkRow(after, walk, only, p, i, env);
      WalkTouches(after, walk, only, p, env.lang);
      if Visited(after, walk, only, p) && !HasChunks(after, p, env.lang) {
        assert TreeRow(after, p, i, env) == None;
      }
    }
  }

  /** Incremental refines full, with its exact condition. If the rows are the
      chunks of the tree before the push, then after the reindex job they are
      the chunks of the tree after it if and only if no file goes silent. Other
      repositories are never touched. */
  lemma IncrementalAgreesIff(rows: Rows, repo: string, trees: seq<Tree>, commits: seq<ChangedFiles>, walk: seq<Path>, env: Env)
    requires PushOf(trees, commits)
    requires Agrees(rows, repo, trees[0], env)
    requires forall p :: p in walk <==> p in trees[|commits|]
    ensures var changed := Aggregate(commits);
      var after := IncrementalRows(rows, repo, trees[|commits|], walk, changed, env);
      && (Agrees(after, repo, trees[|commits|], env) <==> !GoesSilent(trees[0], trees[|commits|], changed, env.lang))
      && OtherReposUntouched(rows, after, repo)
  {
    var before, to, changed := trees[0], trees[|commits|], Aggregate(commits);
    var after := IncrementalRows(rows, repo, to, walk, changed, env);
    PushIsSummarised(trees, commits);
    if !GoesSilent(before, to, changed, env.lang) {
      forall p: Path, i: nat ensures Lookup(after, Key(repo, p, i)) == TreeRow(to, p, i, env) {
        IncrementalLookup(rows, repo, to, walk, changed, env, p, i);
        HasChunksIffRow(before, p, env);
        HasChunksIffRow(to, p, env);
        assert Lookup(rows, Key(repo, p, i)) == TreeRow(before, p, i, env);
      }
    } else {
      var p :| p in to && HasChunks(before, p, env.lang) && !HasChunks(to, p, env.lang) && p !in changed.removed;
      SilentFileKeepsRow(rows, repo, before, to, walk, changed, env, p);
    }
    forall k: Key | k.repo != repo ensures Lookup(after, k) == Lookup(rows, k) {
      WriteLookup(rows, repo, IncrementalChunks(to, walk, changed, env.lang), ToSet(changed.removed), env, k);
    }
  }

  lemma SilentFileKeepsRow(rows: Rows, repo: string, before: Tree, to: Tree, walk: seq<Path>, changed: ChangedFiles,
                           env: Env, p: Path)
    requires Agrees(rows, repo, before, env) && forall q :: q in walk <==> q in to
    requires HasChunks(before, p, env.lang) && !HasChunks(to, p, env.lang) && p !in changed.removed
    ensures !Agrees(IncrementalRows(rows, repo, to, walk, changed, env), repo, to, env)
  {
    HasChunksIffRow(before, p, env);
    HasChunksIffRow(to, p, env);
    var i: nat :| TreeRow(before, p, i, env).Some?;
    IncrementalLookup(rows, repo, to, walk, changed, env, p, i);
    assert Lookup(rows, Key(repo, p, i)) == TreeRow(before, p, i, env);
    assert TreeRow(to, p, i, env).None?;
  }

  // ---- chains of pushes --------------------------------------------------------------------

  datatype Push = Push(trees: seq<Tree>, commits: seq<ChangedFiles>, walk: seq<Path>)

  /** A push that starts at `from`, and whose job leaves nothing behind. */
  ghost predicate CleanPush(push: Push, from: Tree, lang: Lang) {
    && PushOf(push.trees, push.commits) && push.trees[0] == from
    && (forall p :: p in push.walk <==> p in push.trees[|push.commits|])
    && !GoesSilent(from, push.trees[|push.commits|], Aggregate(push.commits), lang)
  }

  ghost function TreeAfter(from: Tree, pushes: seq<Push>): Tree {
    if pushes == [] || |pushes[|pushes| - 1].trees| == 0 then from
    else pushes[|pushes| - 1].trees[|pushes[|pushes| - 1].trees| - 1]
  }

  ghost predicate CleanChain(from: Tree, pushes: seq<Push>, lang: Lang) {
    forall k :: 0 <= k < |pushes| ==> CleanPush(pushes[k], TreeAfter(from, pushes[..k]), lang)
  }

  function RowsAfter(rows: Rows, repo: string, pushes: seq<Push>, env: Env): Rows
    requires forall k :: 0 <= k < |pushes| ==> |pushes[k].trees| > 0
  {
    if pushes == [] then rows
    else
      var push := pushes[|pushes| - 1];
      IncrementalRows(RowsAfter(rows, repo, pushes[..|pushes| - 1], env), repo, push.trees[|push.trees| - 1], push.walk,
                      Aggregate(push.commits), env)
  }

  /** Along any chain of pushes the index keeps agreeing with the latest tree. */
  lemma {:induction false} ChainAgrees(rows: Rows, repo: string, from: Tree, pushes: seq<Push>, env: Env)
    requires Agrees(rows, repo, from, env) && CleanChain(from, pushes, env.lang)
    ensures forall k :: 0 <= k < |pushes| ==> |pushes[k].trees| > 0
    ensures Agrees(RowsAfter(rows, repo, pushes, env), repo, TreeAfter(from, pushes), env)
    ensures OtherReposUntouched(rows, RowsAfter(rows, repo, pushes, env), repo)
  {
    forall k | 0 <= k < |pushes| ensures |pushes[k].trees| > 0 {
      assert CleanPush(pushes[k], TreeAfter(from, pushes[..k]), env.lang);
    }
    if pushes != [] {
      var n := |pushes| - 1;
      var before, push := pushes[..n], pushes[n];
      forall k | 0 <= k < n ensures CleanPush(before[k], TreeAfter(from, before[..k]), env.lang) {
        assert before[..k] == pushes[..k] && before[k] == pushes[k];
      }
      ChainAgrees(rows, repo, from, before, env);
      assert CleanPush(push, TreeAfter(from, before), env.lang);
      IncrementalAgreesIff(RowsAfter(rows, repo, before, env), repo, push.trees, push.commits, push.walk, env);
    }
  }

  // ---- the exception happens ------------------------------------------------------------------

  const SMALL: Path := ["a"]

  lemma SmallFileIsKept(size: nat)
    requires size <= MAX_FILE_BYTES
    ensures !ShouldSkip(SMALL, size)
  {
    assert FileName(SMALL) == "a";
    assert SuffixFrom("a", 1) == SuffixFrom("a", 0) == "";
    assert |Lower("")| == 0;
    assert |"a"| == 1;
    forall part | part in SMALL ensures part !in VENDORED_DIR_NAMES {
      assert part == "a";
    }
  }

  /** One modified file that outgrows the size limit: the push reports it as
      modified, it yields no chunks any more, and its old row stays. */
  lemma FileCanGoSilent() returns (before: Tree, after: Tree, commit: ChangedFiles, lang: Lang)
    ensures TrueDelta(before, after, commit) && GoesSilent(before, after, commit, lang)
  {
    lang := Lang(line => None, c => c == ' ');
    before := map[SMALL := File(1, Some(["x"]))];
    after := map[SMALL := File(MAX_FILE_BYTES + 1, Some(["x"]))];
    commit := ChangedFiles([], [SMALL], []);
    SmallFileIsKept(1);
    var pieces := WindowPieces(["x"]);
    assert |pieces| == 1;
    assert Window(["x"], 0) == ["x"];
    assert Join(["x"]) == "x" + Join([]);
    assert pieces[0].content == "x";
    assert !Blank("x", lang) by { assert "x"[0] == 'x'; }
    assert FileName(SMALL) == "a" && SuffixFrom("a", 1) == SuffixFrom("a", 0);
    assert FilePieces(SMALL, ["x"], lang) == pieces;
    assert pieces[..0] == [];
    assert NumberPieces(SMALL, pieces, lang) != [];
    assert HasChunks(before, SMALL, lang) && !HasChunks(after, SMALL, lang);
  }
}
