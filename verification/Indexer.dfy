/** The indexer and its two tables as an object, its jobs, and what the
    `repo_index_state` row says after any history of jobs. */
module Indexer {
  import opened Basics
  import opened RepoTree
  import opened RepoIndex

  datatype IndexStatus = Pending | Done | Failed

  datatype RepoState = RepoState(commit: Option<string>, chunkCount: nat, status: IndexStatus, error: Option<string>)

  type States = map<string, RepoState>

  function PendingState(states: States, repo: string): States {
    if repo in states then states[repo := states[repo].(status := Pending)]
    else states[repo := RepoState(None, 0, Pending, None)]
  }

  function FailedState(states: States, repo: string, error: string): States {
    if repo in states then states[repo := states[repo].(status := Failed, error := Some(error))]
    else states[repo := RepoState(None, 0, Failed, Some(error))]
  }

  function DoneState(states: States, repo: string, commit: string, count: nat): States {
    states[repo := RepoState(Some(commit), count, Done, None)]
  }

  function CommitIn(states: States, repo: string): Option<string> {
    if repo in states then states[repo].commit else None
  }

  function CountIn(states: States, repo: string): nat {
    if repo in states then states[repo].chunkCount else 0
  }

  function ErrorIn(states: States, repo: string): Option<string> {
    if repo in states then states[repo].error else None
  }

  /** No other repository's row differs. */
  ghost predicate OnlyRepo(before: States, after: States, repo: string) {
    forall r :: r != repo ==> (r in after <==> r in before) && (r in before ==> after[r] == before[r])
  }

  function RepoKeys(rows: Rows, repo: string): set<Key> {
    set k | k in rows && k.repo == repo
  }

  /** SELECT count(*) FROM code_chunks WHERE repo = … */
  function CountRows(rows: Rows, repo: string): nat {
    |RepoKeys(rows, repo)|
  }

  // ---- the object ---------------------------------------------------------------------

  datatype IndexResult = IndexResult(commit: string, chunkCount: nat, filesEmbedded: nat)

  /** What fetching a tarball gives: a tree with the order its files are walked
      in, or the exception any step before the write raised. */
  datatype Fetch = Fetched(tree: Tree, walk: seq<Path>, commit: string) | Raised(error: string)

  class Indexer {
    var chunks: Rows
    var states: States

    constructor ()
      ensures chunks == map[] && states == map[]
    {
      chunks, states := map[], map[];
    }

    /** One transaction: delete, upsert chunk by chunk, count, record. */
    method Write(repo: string, embedded: seq<Chunk>, deletePaths: set<Path>, commit: string, env: Env)
      modifies this
      ensures chunks == WriteRows(old(chunks), repo, embedded, deletePaths, env)
      ensures states == DoneState(old(states), repo, commit, CountRows(chunks, repo))
      ensures repo in states && states[repo] == RepoState(Some(commit), CountRows(chunks, repo), Done, None)
      ensures OnlyRepo(old(states), states, repo)
    {
      if deletePaths != {} {
        chunks := DeletePaths(chunks, repo, deletePaths);
      }
      assert chunks == DeletePaths(old(chunks), repo, deletePaths);
      var touched := TouchedPaths(embedded);
      if touched != {} {
        chunks := DeletePaths(chunks, repo, touched);
      }
      ghost var start := chunks;
      assert start == DeletePaths(DeletePaths(old(chunks), repo, deletePaths), repo, touched);
      for i := 0 to |embedded|
        invariant chunks == UpsertChunks(start, repo, embedded[..i], env)
        invariant states == old(states)
      {
        assert embedded[..i + 1][..i] == embedded[..i];
        var c := embedded[i];
        chunks := chunks[Key(repo, c.path, c.index) := RowOf(c, env)];
      }
      assert embedded[..|embedded|] == embedded;
      states := DoneState(states, repo, commit, CountRows(chunks, repo));
    }

    method FullIndex(repo: string, tree: Tree, walk: seq<Path>, commit: string, env: Env) returns (result: IndexResult)
      modifies this
      ensures chunks == FullRows(old(chunks), repo, tree, walk, env)
      ensures states == DoneState(old(states), repo, commit, CountRows(chunks, repo))
      ensures repo in states && states[repo] == RepoState(Some(commit), CountRows(chunks, repo), Done, None)
      ensures OnlyRepo(old(states), states, repo)
      ensures var found := ChunkWalk(tree, walk, None, env.lang);
        result == IndexResult(commit, |found|, |TouchedPaths(found)|)
    {
      var found := ChunkRepo(tree, walk, None, env.lang);
      var retained := TouchedPaths(found);
      var stale := StoredPaths(chunks, repo) - retained;
      Write(repo, found, stale, commit, env);
      result := IndexResult(commit, |found|, |retained|);
    }

    method IncrementalIndex(repo: string, after: Tree, walk: seq<Path>, commit: string, changed: ChangedFiles, env: Env)
      returns (result: IndexResult)
      modifies this
      ensures chunks == IncrementalRows(old(chunks), repo, after, walk, changed, env)
      ensures states == DoneState(old(states), repo, commit, CountRows(chunks, repo))
      ensures repo in states && states[repo] == RepoState(Some(commit), CountRows(chunks, repo), Done, None)
      ensures OnlyRepo(old(states), states, repo)
      ensures result == IndexResult(commit, |IncrementalChunks(after, walk, changed, env.lang)|, |ToReembed(changed)|)
      ensures result.filesEmbedded == |(set p | p in changed.added) + (set p | p in changed.modified)|
    {
      var reembed := ToReembed(changed);
      var found: seq<Chunk> := [];
      if reembed != {} {
        found := ChunkRepo(after, walk, Some(reembed), env.lang);
      }
      Write(repo, found, ToSet(changed.removed), commit, env);
      result := IndexResult(commit, |found|, |reembed|);
    }

    /** The repository is shown as failed with this error; what was indexed for it
        stays on record. */
    method MarkFailed(repo: string, error: string)
      modifies this`states
      ensures repo in states && states[repo].status == Failed && states[repo].error == Some(error)
      ensures states[repo].commit == CommitIn(old(states), repo) && states[repo].chunkCount == CountIn(old(states), repo)
      ensures OnlyRepo(old(states), states, repo) && states == FailedState(old(states), repo, error)
    {
      if repo in states {
        states := states[repo := states[repo].(status := Failed, error := Some(error))];
      } else {
        states := states[repo := RepoState(None, 0, Failed, Some(error))];
      }
    }

    /** The repository is shown as pending; its last commit, count and error stay. */
    method MarkPending(repo: string)
      modifies this`states
      ensures repo in states && states[repo].status == Pending && states[repo].error == ErrorIn(old(states), repo)
      ensures states[repo].commit == CommitIn(old(states), repo) && states[repo].chunkCount == CountIn(old(states), repo)
      ensures OnlyRepo(old(states), states, repo)
      ensures forall env :: Db(chunks, states) == StepDb(old(Db(chunks, states)), WebhookSeen(repo), env)
    {
      if repo in states {
        states := states[repo := states[repo].(status := Pending)];
      } else {
        states := states[repo := RepoState(None, 0, Pending, None)];
      }
    }

    /** The `index_repo` job. */
    method IndexRepo(repo: string, fetch: Fetch, env: Env) returns (result: Option<IndexResult>)
      modifies this
      ensures Db(chunks, states) == StepDb(old(Db(chunks, states)), FullJob(repo, fetch), env)
      ensures result.Some? <==> fetch.Fetched?
      ensures fetch.Fetched? ==>
                var found := ChunkWalk(fetch.tree, fetch.walk, None, env.lang);
                result.value == IndexResult(fetch.commit, |found|, |set c | c in found :: c.path|)
    {
      match fetch
      case Raised(error) =>
        MarkFailed(repo, error);
        result := None;
      case Fetched(tree, walk, commit) =>
        var r := FullIndex(repo, tree, walk, commit, env);
        result := Some(r);
    }

    /** The `reindex_repo` job. */
    method ReindexRepo(repo: string, fetch: Fetch, changed: ChangedFiles, env: Env) returns (result: Option<IndexResult>)
      modifies this
      ensures Db(chunks, states) == StepDb(old(Db(chunks, states)), PushJob(repo, fetch, changed), env)
      ensures result.Some? <==> fetch.Fetched?
      ensures fetch.Fetched? ==>
                result.value == IndexResult(fetch.commit, |IncrementalChunks(fetch.tree, fetch.walk, changed, env.lang)|,
                                            |(set p | p in changed.added) + (set p | p in changed.modified)|)
    {
      match fetch
      case Raised(error) =>
        MarkFailed(repo, error);
        result := None;
      case Fetched(tree, walk, commit) =>
        var r := IncrementalIndex(repo, tree, walk, commit, changed, env);
        result := Some(r);
    }
  }

  /** `_build_enqueue_ops` for a push: the lists of all commits, one after the
      other; nothing to do when they are all empty. */
  method AggregatePush(commits: seq<ChangedFiles>) returns (changed: Option<ChangedFiles>)
    ensures var all := Aggregate(commits);
      changed == if all.added == [] && all.modified == [] && all.removed == [] then None else Some(all)
  {
    var added: seq<Path>, modified: seq<Path>, removed: seq<Path> := [], [], [];
    for k := 0 to |commits|
      invariant ChangedFiles(added, modified, removed) == Aggregate(commits[..k])
    {
      assert commits[..k + 1][..k] == commits[..k];
      added := added + commits[k].added;
      modified := modified + commits[k].modified;
      removed := removed + commits[k].removed;
    }
    assert commits[..|commits|] == commits;
    changed := if added == [] && modified == [] && removed == [] then None else Some(ChangedFiles(added, modified, removed));
  }

  // ---- histories of jobs ------------------------------------------------------------------

  datatype Db = Db(rows: Rows, states: States)

  datatype Job =
    | WebhookSeen(repo: string)
    | FullJob(repo: string, fetch: Fetch)
    | PushJob(repo: string, fetch: Fetch, changed: ChangedFiles)

  function StepDb(db: Db, job: Job, env: Env): Db {
    match job
    case WebhookSeen(repo) => db.(states := PendingState(db.states, repo))
    case FullJob(repo, Raised(error)) => db.(states := FailedState(db.states, repo, error))
    case PushJob(repo, Raised(error), _) => db.(states := FailedState(db.states, repo, error))
    case FullJob(repo, Fetched(tree, walk, commit)) =>
      var rows := FullRows(db.rows, repo, tree, walk, env);
      Db(rows, DoneState(db.states, repo, commit, CountRows(rows, repo)))
    case PushJob(repo, Fetched(tree, walk, commit), changed) =>
      var rows := IncrementalRows(db.rows, repo, tree, walk, changed, env);
      Db(rows, DoneState(db.states, repo, commit, CountRows(rows, repo)))
  }

  function RunJobs(jobs: seq<Job>, env: Env): Db {
    if jobs == [] then Db(map[], map[]) else StepDb(RunJobs(jobs[..|jobs| - 1], env), jobs[|jobs| - 1], env)
  }

  /** The status row tells the truth about the rows. */
  ghost predicate Truthful(db: Db, repo: string) {
    && (repo !in db.states ==> CountRows(db.rows, repo) == 0)
    && (repo in db.states ==>
          var s := db.states[repo];
          && s.chunkCount == CountRows(db.rows, repo)
          && (s.status == Done ==> s.error == None && s.commit.Some?)
          && (s.status == Failed ==> s.error.Some?)
          && (s.commit == None ==> s.chunkCount == 0))
  }

  lemma WriteKeepsOtherCounts(rows: Rows, repo: string, chunks: seq<Chunk>, deleted: set<Path>, env: Env, other: string)
    requires other != repo
    ensures CountRows(WriteRows(rows, repo, chunks, deleted, env), other) == CountRows(rows, other)
  {
    var after := WriteRows(rows, repo, chunks, deleted, env);
    forall k: Key | k.repo == other ensures k in after <==> k in rows {
      WriteLookup(rows, repo, chunks, deleted, env, k);
    }
    assert RepoKeys(after, other) == RepoKeys(rows, other);
  }

  lemma TruthfulStep(db: Db, job: Job, env: Env, repo: string)
    requires Truthful(db, repo)
    ensures Truthful(StepDb(db, job, env), repo)
  {
    if repo != job.repo {
      match job
      case FullJob(r, Fetched(tree, walk, commit)) =>
        var chunks := ChunkWalk(tree, walk, None, env.lang);
        WriteKeepsOtherCounts(db.rows, r, chunks, StoredPaths(db.rows, r) - TouchedPaths(chunks), env, repo);
      case PushJob(r, Fetched(tree, walk, commit), changed) =>
        WriteKeepsOtherCounts(db.rows, r, IncrementalChunks(tree, walk, changed, env.lang), ToSet(changed.removed), env, repo);
      case _ =>
    }
  }

  /** After any history of webhooks, full, incremental and failed jobs over any
      repositories, every status row is truthful. */
  lemma {:induction false} StatesAreTruthful(jobs: seq<Job>, env: Env, repo: string)
    ensures Truthful(RunJobs(jobs, env), repo)
  {
    if jobs == [] {
      assert RepoKeys(map[], repo) == {};
    } else {
      StatesAreTruthful(jobs[..|jobs| - 1], env, repo);
      TruthfulStep(RunJobs(jobs[..|jobs| - 1], env), jobs[|jobs| - 1], env, repo);
    }
  }

  /** The repository's last job is number `k`. */
  ghost predicate IsLast(jobs: seq<Job>, repo: string, k: nat) {
    k < |jobs| && jobs[k].repo == repo && forall j :: k < j < |jobs| ==> jobs[j].repo != repo
  }

  /** The fetch of a job, None for a webhook. */
  function FetchOf(job: Job): Option<Fetch> {
    if job.WebhookSeen? then None else Some(job.fetch)
  }

  /** What the status row says is what the repository's last job did: `pending`
      exactly when it was a webhook, `failed` exactly when it raised, and with its
      error, `done` exactly when it was fetched and written, with its commit and no
      error. */
  lemma {:induction false} StateTellsHistory(jobs: seq<Job>, env: Env, repo: string, k: nat)
    requires IsLast(jobs, repo, k)
    ensures repo in RunJobs(jobs, env).states
    ensures var s, fetch := RunJobs(jobs, env).states[repo], FetchOf(jobs[k]);
      && (s.status == Pending <==> jobs[k].WebhookSeen?)
      && (s.status == Failed <==> fetch.Some? && fetch.value.Raised?)
      && (s.status == Done <==> fetch.Some? && fetch.value.Fetched?)
      && (s.status == Failed ==> s.error == Some(fetch.value.error))
      && (s.status == Done ==> s.error == None && s.commit == Some(fetch.value.commit))
  {
    hide FullRows, IncrementalRows, CountRows;
    if k < |jobs| - 1 {
      StateTellsHistory(jobs[..|jobs| - 1], env, repo, k);
    }
  }

  /** Without a job there is no row. */
  lemma {:induction false} NoJobNoRow(jobs: seq<Job>, env: Env, repo: string)
    ensures repo in RunJobs(jobs, env).states <==> exists job :: job in jobs && job.repo == repo
  {
    if jobs != [] {
      hide FullRows, IncrementalRows, CountRows;
      var front, last := jobs[..|jobs| - 1], jobs[|jobs| - 1];
      NoJobNoRow(front, env, repo);
      assert jobs == front + [last];
      assert last in jobs;
    }
  }

  predicate Succeeded(job: Job) {
    !job.WebhookSeen? && job.fetch.Fetched?
  }

  /** The recorded commit is that of the last successful job, whatever webhooks and
      failures came after it. */
  lemma {:induction false} CommitIsLastIndexed(jobs: seq<Job>, env: Env, repo: string, k: nat)
    requires k < |jobs| && jobs[k].repo == repo && Succeeded(jobs[k])
    requires forall j :: k < j < |jobs| && jobs[j].repo == repo ==> !Succeeded(jobs[j])
    ensures CommitIn(RunJobs(jobs, env).states, repo) == Some(jobs[k].fetch.commit)
  {
    hide FullRows, IncrementalRows, CountRows;
    if k < |jobs| - 1 {
      CommitIsLastIndexed(jobs[..|jobs| - 1], env, repo, k);
    }
  }

  /** And there is none without a success. */
  lemma {:induction false} NoSuccessNoCommit(jobs: seq<Job>, env: Env, repo: string)
    ensures CommitIn(RunJobs(jobs, env).states, repo) == None <==>
            forall job :: job in jobs && job.repo == repo ==> !Succeeded(job)
  {
    if jobs != [] {
      hide FullRows, IncrementalRows, CountRows;
      var front, last := jobs[..|jobs| - 1], jobs[|jobs| - 1];
      NoSuccessNoCommit(front, env, repo);
      assert jobs == front + [last];
      assert last in jobs;
    }
  }

  /** A new webhook leaves the error of the last finished job on the row. */
  lemma {:induction false} ErrorIsLastFailure(jobs: seq<Job>, env: Env, repo: string, k: nat)
    requires k < |jobs| && jobs[k].repo == repo && !jobs[k].WebhookSeen?
    requires forall j :: k < j < |jobs| && jobs[j].repo == repo ==> jobs[j].WebhookSeen?
    ensures ErrorIn(RunJobs(jobs, env).states, repo) == if jobs[k].fetch.Raised? then Some(jobs[k].fetch.error) else None
  {
    hide FullRows, IncrementalRows, CountRows;
    if k < |jobs| - 1 {
      ErrorIsLastFailure(jobs[..|jobs| - 1], env, repo, k);
    }
  }

  // ---- the counts agree -----------------------------------------------------------------

  function KeysOf(chunks: seq<Chunk>, repo: string): set<Key> {
    set c | c in chunks :: Key(repo, c.path, c.index)
  }

  lemma LastKeyIsNew(chunks: seq<Chunk>, repo: string)
    requires chunks != [] && DistinctKeys(chunks, ChunkId)
    ensures var n := |chunks| - 1;
      var key := Key(repo, chunks[n].path, chunks[n].index);
      KeysOf(chunks, repo) == KeysOf(chunks[..n], repo) + {key} && key !in KeysOf(chunks[..n], repo)
  {
    var n := |chunks| - 1;
    var key := Key(repo, chunks[n].path, chunks[n].index);
    assert chunks == chunks[..n] + [chunks[n]];
    forall c | c in chunks[..n] ensures Key(repo, c.path, c.index) != key {
      var i :| 0 <= i < n && chunks[..n][i] == c;
      assert ChunkId(chunks[i]) != ChunkId(chunks[n]);
    }
  }

  lemma {:induction false} DistinctChunksCount(chunks: seq<Chunk>, repo: string)
    requires DistinctKeys(chunks, ChunkId)
    ensures |KeysOf(chunks, repo)| == |chunks|
  {
    if chunks != [] {
      DistinctChunksCount(chunks[..|chunks| - 1], repo);
      LastKeyIsNew(chunks, repo);
    }
  }

  lemma {:induction false} FindRowIffKey(chunks: seq<Chunk>, repo: string, path: Path, index: nat, env: Env)
    ensures FindRow(chunks, path, index, env).Some? <==> Key(repo, path, index) in KeysOf(chunks, repo)
  {
    if chunks != [] {
      FindRowIffKey(chunks[..|chunks| - 1], repo, path, index, env);
      assert chunks == chunks[..|chunks| - 1] + [chunks[|chunks| - 1]];
    }
  }

  /** After a full index the recorded `chunk_count` is the number of chunks
      embedded: none was lost to another with the same key. */
  lemma FullIndexCountsChunks(rows: Rows, repo: string, tree: Tree, walk: seq<Path>, env: Env)
    requires Walks(walk, tree)
    ensures CountRows(FullRows(rows, repo, tree, walk, env), repo) == |ChunkWalk(tree, walk, None, env.lang)|
  {
    var chunks := ChunkWalk(tree, walk, None, env.lang);
    var after := FullRows(rows, repo, tree, walk, env);
    ChunkIdsUnique(tree, walk, None, env.lang);
    DistinctChunksCount(chunks, repo);
    FullIndexAgrees(rows, repo, tree, walk, env);
    forall k: Key ensures k in RepoKeys(after, repo) <==> k in KeysOf(chunks, repo) {
      if k.repo == repo {
        assert Lookup(after, Key(repo, k.path, k.index)) == TreeRow(tree, k.path, k.index, env);
        WalkRow(tree, walk, None, k.path, k.index, env);
        FindRowIffKey(chunks, repo, k.path, k.index, env);
      }
    }
    assert RepoKeys(after, repo) == KeysOf(chunks, repo);
  }
}
