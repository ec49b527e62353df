/** Commits of internal/registry/store.go: file trees over reference-counted blobs, with the tables as maps and a commit
    transaction as one step. */
module Registry {
  import opened Text

  datatype Blob = Blob(size: int, refs: nat)

  /** A row of file_revisions; the size comes from the blob. */
  datatype Entry = Entry(oid: string, lfs: bool)

  type Tree = map<string, Entry>

  /** A FileRevision as CommitTx handles it. */
  datatype Revision = Revision(oid: string, size: int, lfs: bool)

  datatype Pointer = Pointer(oid: string, size: int)

  datatype CommitKey = CommitKey(repo: string, sha: string)

  datatype BranchKey = BranchKey(repo: string, name: string)

  datatype State = State(blobs: map<string, Blob>, commits: map<CommitKey, Tree>, branches: map<BranchKey, string>)

  datatype Input = Input(repo: string, branch: string, deletes: seq<string>,
                         inline: map<string, Pointer>, lfs: map<string, Pointer>)

  /** Database stands for a constraint, a serialization failure or a lost connection: the transaction is rolled back. */
  datatype Error = InvalidInput | PathInvalid | SizeMismatch | BlobMissing | Database

  datatype Result = Committed(sha: string, branch: string) | Refused(err: Error)

  // ---- checks ----------------------------------------------------------------------

  predicate IsOid(s: string) {
    |s| == 64 && forall i :: 0 <= i < |s| ==> '0' <= s[i] <= '9' || 'a' <= s[i] <= 'f'
  }

  const MAX_PATH: nat := 1024

  /** ValidateCommitFilePath. */
  predicate ValidPath(p: string) {
    && 0 < |p| <= MAX_PATH && p[0] != '/'
    && (forall i :: 0 <= i < |p| ==> p[i] != '\0' && p[i] != '\\' && p[i] != '\r' && p[i] != '\n')
    && ".." !in Split(p, '/')
  }

  predicate ValidPaths(input: Input) {
    && (forall d :: d in input.deletes ==> ValidPath(d))
    && (forall p :: p in input.inline ==> ValidPath(p))
    && (forall p :: p in input.lfs ==> ValidPath(p))
  }

  // ---- UpsertBlob -------------------------------------------------------------------

  function Upserted(st: State, oid: string, size: int): State {
    if oid in st.blobs then st else st.(blobs := st.blobs[oid := Blob(size, 0)])
  }

  // ---- CommitTx ----------------------------------------------------------------------

  function BranchOf(input: Input): string {
    if input.branch == "" then "main" else input.branch
  }

  /** The tree the branch points at; a branch that does not exist yet starts empty. */
  function ParentTree(st: State, input: Input): Tree {
    var b := BranchKey(input.repo, BranchOf(input));
    if b in st.branches && CommitKey(input.repo, st.branches[b]) in st.commits
    then st.commits[CommitKey(input.repo, st.branches[b])] else map[]
  }

  /** The parent's rows joined with their blobs. */
  function Joined(blobs: map<string, Blob>, tree: Tree): map<string, Revision> {
    map p | p in tree && tree[p].oid in blobs :: Revision(tree[p].oid, blobs[tree[p].oid].size, tree[p].lfs)
  }

  function NewFiles(parent: map<string, Revision>, input: Input): map<string, Revision> {
    (parent - (set d | d in input.deletes))
    + Revisions(input.inline, false) + Revisions(input.lfs, true)
  }

  function Revisions(from: map<string, Pointer>, lfs: bool): map<string, Revision> {
    map p | p in from :: Revision(from[p].oid, from[p].size, lfs)
  }

  predicate Missing(blobs: map<string, Blob>, files: map<string, Revision>) {
    exists p :: p in files && files[p].oid !in blobs
  }

  predicate Mismatched(blobs: map<string, Blob>, f: Revision) {
    f.oid in blobs && f.lfs && f.size > 0 && f.size != blobs[f.oid].size
  }

  predicate SomeMismatch(blobs: map<string, Blob>, files: map<string, Revision>) {
    exists p :: p in files && Mismatched(blobs, files[p])
  }

  /** Blobs that some path of the new tree holds and the parent did not hold there. */
  function Added(files: map<string, Revision>, parent: map<string, Revision>): set<string> {
    set p | p in files && !(p in parent && parent[p].oid == files[p].oid) :: files[p].oid
  }

  function Bumped(blobs: map<string, Blob>, oids: set<string>): map<string, Blob> {
    map o | o in blobs :: if o in oids then blobs[o].(refs := blobs[o].refs + 1) else blobs[o]
  }

  function Rows(files: map<string, Revision>): Tree {
    map p | p in files :: Entry(files[p].oid, files[p].lfs)
  }

  function ParentFiles(st: State, input: Input): map<string, Revision> {
    Joined(st.blobs, ParentTree(st, input))
  }

  function FilesOf(st: State, input: Input): map<string, Revision> {
    NewFiles(ParentFiles(st, input), input)
  }

  /** sha is the name drawn for the new commit, dbOk whether the database goes along. */
  function Verdict(st: State, input: Input, sha: string, dbOk: bool): Result {
    if input.repo == "" then Refused(InvalidInput)
    else if !ValidPaths(input) then Refused(PathInvalid)
    else if SomeMismatch(st.blobs, FilesOf(st, input)) then Refused(SizeMismatch)
    else if Missing(st.blobs, FilesOf(st, input)) then Refused(BlobMissing)
    else if !dbOk || CommitKey(input.repo, sha) in st.commits then Refused(Database)
    else Committed(sha, BranchOf(input))
  }

  /** The writes of the transaction: the commit with its rows, the counts, the branch. */
  function Written(st: State, c: CommitKey, branch: string, parent: map<string, Revision>,
                   files: map<string, Revision>): State
  {
    State(Bumped(st.blobs, Added(files, parent)), st.commits[c := Rows(files)],
          st.branches[BranchKey(c.repo, branch) := c.sha])
  }

  function Commit(st: State, input: Input, sha: string, dbOk: bool): State {
    if Verdict(st, input, sha, dbOk).Refused? then st
    else Written(st, CommitKey(input.repo, sha), BranchOf(input), ParentFiles(st, input), FilesOf(st, input))
  }

  // ---- the loops of CommitTx ------------------------------------------------------------

  /** Deletes, then inline files, then LFS pointers, each path checked as it comes up. */
  method BuildTree(parent: map<string, Revision>, input: Input) returns (ok: bool, files: map<string, Revision>)
    ensures ok == ValidPaths(input)
    ensures ok ==> files == NewFiles(parent, input)
  {
    files := parent;
    for i := 0 to |input.deletes|
      invariant forall k :: 0 <= k < i ==> ValidPath(input.deletes[k])
      invariant files == parent - (set d | d in input.deletes[..i])
    {
      if !ValidPath(input.deletes[i]) { return false, files; }
      assert input.deletes[..i + 1] == input.deletes[..i] + [input.deletes[i]];
      files := files - {input.deletes[i]};
    }
    assert input.deletes[..|input.deletes|] == input.deletes;
    ok, files := Overlay(files, input.inline, false, ValidPath);
    if !ok { return; }
    ok, files := Overlay(files, input.lfs, true, ValidPath);
  }

  method Overlay(files: map<string, Revision>, from: map<string, Pointer>, lfs: bool, valid: string -> bool)
    returns (ok: bool, r: map<string, Revision>)
    ensures ok == forall p :: p in from ==> valid(p)
    ensures ok ==> r == files + Revisions(from, lfs)
  {
    r := files;
    var todo := from.Keys;
    while todo != {}
      invariant todo <= from.Keys
      invariant forall p :: p in from && p !in todo ==> valid(p)
      invariant forall p :: p in r <==> p in files || (p in from && p !in todo)
      invariant forall p :: p in r && p in from && p !in todo ==> r[p] == Revision(from[p].oid, from[p].size, lfs)
      invariant forall p :: p in r && (p !in from || p in todo) ==> r[p] == files[p]
      decreases |todo|
    {
      var p :| p in todo;
      if !valid(p) { return false, r; }
      r := r[p := Revision(from[p].oid, from[p].size, lfs)];
      todo := todo - {p};
    }
    ok := true;
    SameMap(r, files, from, lfs);
  }

  lemma {:induction false} SameMap(r: map<string, Revision>, files: map<string, Revision>, from: map<string, Pointer>,
                                   lfs: bool)
    requires forall p :: p in r <==> p in files || p in from
    requires forall p :: p in r && p in from ==> r[p] == Revision(from[p].oid, from[p].size, lfs)
    requires forall p :: p in r && p !in from ==> r[p] == files[p]
    ensures r == files + Revisions(from, lfs)
  {
  }

  /** A size mismatch ends the loop at once; missing blobs are only counted, so a mismatch anywhere wins. */
  method CheckBlobs(blobs: map<string, Blob>, files: map<string, Revision>) returns (mismatch: bool, missing: bool)
    ensures mismatch == SomeMismatch(blobs, files)
    ensures !mismatch ==> missing == Missing(blobs, files)
  {
    missing := false;
    var todo := files.Keys;
    while todo != {}
      invariant todo <= files.Keys
      invariant forall p :: p in files && p !in todo ==> !Mismatched(blobs, files[p])
      invariant missing <==> exists p :: p in files && p !in todo && files[p].oid !in blobs
      decreases |todo|
    {
      var p :| p in todo;
      var f := files[p];
      if f.oid !in blobs {
        missing := true;
      } else if f.lfs && f.size > 0 && f.size != blobs[f.oid].size {
        return true, missing;
      }
      todo := todo - {p};
    }
    mismatch := false;
  }

  /** Each blob once, however many paths it newly appears at. */
  method CollectAdded(files: map<string, Revision>, parent: map<string, Revision>) returns (added: set<string>)
    ensures added == Added(files, parent)
  {
    added := {};
    var todo := files.Keys;
    while todo != {}
      invariant todo <= files.Keys
      invariant added ==
                set p | p in files && p !in todo && !(p in parent && parent[p].oid == files[p].oid) :: files[p].oid
      decreases |todo|
    {
      var p :| p in todo;
      ghost var before := added;
      if files[p].oid !in added && !(p in parent && parent[p].oid == files[p].oid) {
        added := added + {files[p].oid};
      }
      assert added <= before + {files[p].oid};
      todo := todo - {p};
    }
  }

  class Store {
    var blobs: map<string, Blob>
    var commits: map<CommitKey, Tree>
    var branches: map<BranchKey, string>

    function Value(): State
      reads this
    {
      State(blobs, commits, branches)
    }

    constructor ()
      ensures Value() == State(map[], map[], map[])
    {
      blobs, commits, branches := map[], map[], map[];
    }

    method UpsertBlob(oid: string, size: int) returns (ok: bool)
      modifies this
      ensures ok == IsOid(oid)
      ensures Value() == if ok then Upserted(old(Value()), oid, size) else old(Value())
    {
      if !IsOid(oid) { return false; }
      if oid !in blobs { blobs := blobs[oid := Blob(size, 0)]; }
      return true;
    }

    method CommitTx(input: Input, sha: string, dbOk: bool) returns (r: Result)
      modifies this
      ensures r == Verdict(old(Value()), input, sha, dbOk)
      ensures Value() == Commit(old(Value()), input, sha, dbOk)
    {
      hide ValidPaths, SomeMismatch, Missing, NewFiles, Joined, ParentTree, Added, Bumped, Rows;
      if input.repo == "" { return Refused(InvalidInput); }
      var branch := BranchOf(input);
      var parent := Joined(blobs, ParentTree(Value(), input));
      var ok, files := BuildTree(parent, input);
      if !ok { return Refused(PathInvalid); }
      var mismatch, missing := CheckBlobs(blobs, files);
      if mismatch { return Refused(SizeMismatch); }
      if missing { return Refused(BlobMissing); }
      if !dbOk || CommitKey(input.repo, sha) in commits { return Refused(Database); }
      var added := CollectAdded(files, parent);
      commits := commits[CommitKey(input.repo, sha) := Rows(files)];
      blobs := Bumped(blobs, added);
      branches := branches[BranchKey(input.repo, branch) := sha];
      return Committed(sha, branch);
    }
  }
}

/** What every run of uploads and commits keeps. */
module RegistrySafety {
  import opened Registry

  predicate Holds(tree: Tree, oid: string) {
    exists p :: p in tree && tree[p].oid == oid
  }

  /** The commits whose tree contains the blob. */
  function Holders(commits: map<CommitKey, Tree>, oid: string): set<CommitKey> {
    set c | c in commits && Holds(commits[c], oid)
  }

  /** Every file points at a blob that exists and is counted at least once; no blob is counted more often than there are
      commits that contain it; every branch points at a commit of its repository. */
  ghost predicate Safe(st: State) {
    && (forall c, p :: c in st.commits && p in st.commits[c] ==> Counted(st.blobs, st.commits[c][p].oid))
    && (forall o :: o in st.blobs ==> st.blobs[o].refs <= |Holders(st.commits, o)|)
    && (forall b :: b in st.branches ==> CommitKey(b.repo, st.branches[b]) in st.commits)
  }

  predicate Counted(blobs: map<string, Blob>, oid: string) {
    oid in blobs && blobs[oid].refs >= 1
  }

  // ---- the tree of a commit --------------------------------------------------------------

  /** Parent minus deletes, overridden by inline files, overridden by LFS pointers. */
  function ExpectedEntry(parent: Tree, input: Input, p: string): (bool, Entry) {
    if p in input.lfs then (true, Entry(input.lfs[p].oid, true))
    else if p in input.inline then (true, Entry(input.inline[p].oid, false))
    else if p in input.deletes || p !in parent then (false, Entry("", false))
    else (true, parent[p])
  }

  lemma {:induction false} ParentCounted(st: State, input: Input, p: string)
    requires Safe(st) && p in ParentTree(st, input)
    ensures Counted(st.blobs, ParentTree(st, input)[p].oid)
  {
    var c := CommitKey(input.repo, st.branches[BranchKey(input.repo, BranchOf(input))]);
    assert st.commits[c] == ParentTree(st, input);
  }

  lemma {:induction false} JoinedTree(blobs: map<string, Blob>, tree: Tree)
    requires forall p :: p in tree ==> Counted(blobs, tree[p].oid)
    ensures Rows(Joined(blobs, tree)) == tree
    ensures forall p :: p in Joined(blobs, tree) ==> Counted(blobs, Joined(blobs, tree)[p].oid)
  {
  }

  lemma {:induction false} RowsOfNew(parent: map<string, Revision>, input: Input, p: string)
    ensures var want := ExpectedEntry(Rows(parent), input, p);
            && (p in Rows(NewFiles(parent, input))) == want.0
            && (want.0 ==> Rows(NewFiles(parent, input))[p] == want.1)
  {
  }

  lemma {:induction false} ParentRows(st: State, input: Input)
    requires Safe(st)
    ensures forall p :: p in ParentFiles(st, input) ==> Counted(st.blobs, ParentFiles(st, input)[p].oid)
    ensures Rows(ParentFiles(st, input)) == ParentTree(st, input)
  {
    forall p | p in ParentTree(st, input) ensures Counted(st.blobs, ParentTree(st, input)[p].oid) {
      ParentCounted(st, input, p);
    }
    JoinedTree(st.blobs, ParentTree(st, input));
  }

  lemma {:induction false} NoneMissing(blobs: map<string, Blob>, files: map<string, Revision>)
    requires !Missing(blobs, files)
    ensures forall p :: p in files ==> files[p].oid in blobs
  {
  }

  lemma {:induction false} Accepted(st: State, input: Input, sha: string, dbOk: bool)
    requires Verdict(st, input, sha, dbOk).Committed?
    ensures !Missing(st.blobs, FilesOf(st, input)) && CommitKey(input.repo, sha) !in st.commits
  {
  }

  /** What an accepted commit writes, and what is known by then. */
  lemma {:induction false} CommittedMeans(st: State, input: Input, sha: string, dbOk: bool)
    requires Safe(st) && Verdict(st, input, sha, dbOk).Committed?
    ensures var parent, files := ParentFiles(st, input), FilesOf(st, input);
            && CommitKey(input.repo, sha) !in st.commits
            && (forall p :: p in files ==> files[p].oid in st.blobs)
            && (forall p :: p in parent ==> Counted(st.blobs, parent[p].oid))
            && Rows(parent) == ParentTree(st, input)
  {
    Accepted(st, input, sha, dbOk);
    NoneMissing(st.blobs, FilesOf(st, input));
    ParentRows(st, input);
  }

  /** The new commit's tree is the expected one, path by path. */
  lemma {:induction false} CommitTree(st: State, input: Input, sha: string, dbOk: bool, p: string)
    requires Safe(st) && Verdict(st, input, sha, dbOk).Committed?
    ensures var c := CommitKey(input.repo, sha);
            var want := ExpectedEntry(ParentTree(st, input), input, p);
            && c in Commit(st, input, sha, dbOk).commits
            && (p in Commit(st, input, sha, dbOk).commits[c]) == want.0
            && (want.0 ==> Commit(st, input, sha, dbOk).commits[c][p] == want.1)
  {
    CommittedMeans(st, input, sha, dbOk);
    RowsOfNew(ParentFiles(st, input), input, p);
  }

  // ---- what a commit leaves alone ---------------------------------------------------------

  /** before and after differ by one more commit, one moved branch, and blobs counted at most once more. */
  ghost predicate OneCommitMore(before: State, after: State, c: CommitKey, branch: string) {
    && c !in before.commits && after.commits.Keys == before.commits.Keys + {c}
    && (forall d :: d in before.commits ==> after.commits[d] == before.commits[d])
    && after.branches == before.branches[BranchKey(c.repo, branch) := c.sha]
    && after.blobs.Keys == before.blobs.Keys
    && (forall o :: o in before.blobs ==> after.blobs[o].size == before.blobs[o].size
                                          && before.blobs[o].refs <= after.blobs[o].refs <= before.blobs[o].refs + 1)
  }

  lemma {:induction false} WrittenFrame(st: State, c: CommitKey, branch: string,
                                        parent: map<string, Revision>, files: map<string, Revision>)
    requires c !in st.commits
    ensures OneCommitMore(st, Written(st, c, branch, parent, files), c, branch)
  {
  }

  /** A refused commit changes nothing; an accepted one makes one commit more. */
  lemma {:induction false} CommitFrame(st: State, input: Input, sha: string, dbOk: bool)
    requires Safe(st)
    ensures Verdict(st, input, sha, dbOk).Refused? ==> Commit(st, input, sha, dbOk) == st
    ensures Verdict(st, input, sha, dbOk).Committed? ==>
              OneCommitMore(st, Commit(st, input, sha, dbOk), CommitKey(input.repo, sha), BranchOf(input))
  {
    if Verdict(st, input, sha, dbOk).Committed? {
      CommittedMeans(st, input, sha, dbOk);
      WrittenFrame(st, CommitKey(input.repo, sha), BranchOf(input), ParentFiles(st, input), FilesOf(st, input));
    }
  }

  // ---- the invariant ----------------------------------------------------------------------

  lemma {:induction false} UpsertSafe(st: State, oid: string, size: int)
    requires Safe(st)
    ensures Safe(Upserted(st, oid, size))
  {
    var after := Upserted(st, oid, size);
    forall c, p | c in after.commits && p in after.commits[c] ensures Counted(after.blobs, after.commits[c][p].oid) {
      assert Counted(st.blobs, st.commits[c][p].oid);
    }
  }

  /** Each file of a new tree is counted: newly added blobs by this commit, carried-over ones already before. */
  lemma {:induction false} FileCounted(blobs: map<string, Blob>, parent: map<string, Revision>,
                                       files: map<string, Revision>, p: string)
    requires p in files && files[p].oid in blobs
    requires p in parent ==> Counted(blobs, parent[p].oid)
    ensures Counted(Bumped(blobs, Added(files, parent)), files[p].oid)
  {
    if !(p in parent && parent[p].oid == files[p].oid) {
      assert files[p].oid in Added(files, parent);
    }
  }

  lemma {:induction false} StillCounted(blobs: map<string, Blob>, oids: set<string>, oid: string)
    requires Counted(blobs, oid)
    ensures Counted(Bumped(blobs, oids), oid)
  {
  }

  /** The holders of a blob after a commit. */
  lemma {:induction false} HoldersAfter(commits: map<CommitKey, Tree>, c: CommitKey, tree: Tree, oid: string)
    requires c !in commits
    ensures |Holders(commits[c := tree], oid)| == |Holders(commits, oid)| + if Holds(tree, oid) then 1 else 0
  {
    var after := commits[c := tree];
    assert Holders(after, oid) == Holders(commits, oid) + if Holds(tree, oid) then {c} else {} by {
      forall d ensures d in Holders(after, oid) <==> d in Holders(commits, oid) || (d == c && Holds(tree, oid)) {
      }
    }
  }

  lemma {:induction false} AddedIsHeld(files: map<string, Revision>, parent: map<string, Revision>, oid: string)
    requires oid in Added(files, parent)
    ensures Holds(Rows(files), oid)
  {
    var p :| p in files && files[p].oid == oid;
    assert p in Rows(files) && Rows(files)[p].oid == oid;
  }

  /** A blob's count grows only when its holders do. */
  lemma {:induction false} CountBounded(st: State, c: CommitKey, parent: map<string, Revision>,
                                        files: map<string, Revision>, o: string)
    requires c !in st.commits && o in st.blobs && st.blobs[o].refs <= |Holders(st.commits, o)|
    ensures Bumped(st.blobs, Added(files, parent))[o].refs <= |Holders(st.commits[c := Rows(files)], o)|
  {
    HoldersAfter(st.commits, c, Rows(files), o);
    if o in Added(files, parent) { AddedIsHeld(files, parent, o); }
  }

  lemma {:induction false} WrittenSafe(st: State, c: CommitKey, branch: string,
                                       parent: map<string, Revision>, files: map<string, Revision>)
    requires Safe(st) && c !in st.commits
    requires forall p :: p in files ==> files[p].oid in st.blobs
    requires forall p :: p in parent ==> Counted(st.blobs, parent[p].oid)
    ensures Safe(Written(st, c, branch, parent, files))
  {
    var after := Written(st, c, branch, parent, files);
    forall d, p | d in after.commits && p in after.commits[d] ensures Counted(after.blobs, after.commits[d][p].oid) {
      if d == c {
        FileCounted(st.blobs, parent, files, p);
      } else {
        assert Counted(st.blobs, st.commits[d][p].oid);
        StillCounted(st.blobs, Added(files, parent), st.commits[d][p].oid);
      }
    }
    forall o | o in after.blobs ensures after.blobs[o].refs <= |Holders(after.commits, o)| {
      CountBounded(st, c, parent, files, o);
    }
  }

  lemma {:induction false} CommitSafe(st: State, input: Input, sha: string, dbOk: bool)
    requires Safe(st)
    ensures Safe(Commit(st, input, sha, dbOk))
  {
    if Verdict(st, input, sha, dbOk).Committed? {
      CommittedMeans(st, input, sha, dbOk);
      WrittenSafe(st, CommitKey(input.repo, sha), BranchOf(input), ParentFiles(st, input), FilesOf(st, input));
    }
  }

  // ---- runs -------------------------------------------------------------------------------

  datatype Step = Upload(oid: string, size: int) | Push(input: Input, sha: string, dbOk: bool)

  function Next(st: State, step: Step): State {
    match step
    case Upload(oid, size) => if IsOid(oid) then Upserted(st, oid, size) else st
    case Push(input, sha, dbOk) => Commit(st, input, sha, dbOk)
  }

  function Run(st: State, steps: seq<Step>): State
    decreases |steps|
  {
    if steps == [] then st else Next(Run(st, steps[..|steps| - 1]), steps[|steps| - 1])
  }

  lemma {:induction false} RunSafe(st: State, steps: seq<Step>)
    requires Safe(st)
    ensures Safe(Run(st, steps))
    decreases |steps|
  {
    if steps != [] {
      RunSafe(st, steps[..|steps| - 1]);
      var before := Run(st, steps[..|steps| - 1]);
      match steps[|steps| - 1]
      case Upload(oid, size) => UpsertSafe(before, oid, size);
      case Push(input, sha, dbOk) => CommitSafe(before, input, sha, dbOk);
    }
  }

  /** From empty tables every reachable state is safe. */
  lemma {:induction false} ReachableSafe(steps: seq<Step>)
    ensures Safe(Run(State(map[], map[], map[]), steps))
  {
    RunSafe(State(map[], map[], map[]), steps);
  }

  /** Some path of the new tree holds the blob where the parent did not. */
  predicate NewlyHeld(files: map<string, Revision>, parent: map<string, Revision>, o: string) {
    exists p :: p in files && files[p].oid == o && !(p in parent && parent[p].oid == o)
  }

  lemma {:induction false} AddedIsNewlyHeld(files: map<string, Revision>, parent: map<string, Revision>, o: string)
    ensures o in Added(files, parent) <==> NewlyHeld(files, parent, o)
  {
    if o in Added(files, parent) {
      var p :| p in files && !(p in parent && parent[p].oid == files[p].oid) && files[p].oid == o;
    }
    if NewlyHeld(files, parent, o) {
      var p :| p in files && files[p].oid == o && !(p in parent && parent[p].oid == o);
      assert files[p].oid in Added(files, parent);
    }
  }

  /** A commit raises a blob's count by one exactly when some path newly holds it, and leaves every other count
      alone. */
  lemma {:induction false} CountRises(st: State, input: Input, sha: string, dbOk: bool, o: string)
    requires o in st.blobs && Verdict(st, input, sha, dbOk).Committed?
    ensures o in Commit(st, input, sha, dbOk).blobs
    ensures Commit(st, input, sha, dbOk).blobs[o].refs ==
            st.blobs[o].refs + if NewlyHeld(FilesOf(st, input), ParentFiles(st, input), o) then 1 else 0
  {
    AddedIsNewlyHeld(FilesOf(st, input), ParentFiles(st, input), o);
    BumpedCount(st.blobs, Added(FilesOf(st, input), ParentFiles(st, input)), o);
  }

  lemma {:induction false} BumpedCount(blobs: map<string, Blob>, oids: set<string>, o: string)
    requires o in blobs
    ensures o in Bumped(blobs, oids) && Bumped(blobs, oids)[o].refs == blobs[o].refs + if o in oids then 1 else 0
  {
  }

  // ---- counts over whole runs ---------------------------------------------------------------

  /** The commit a new one was built on, as commits.parent_sha records it. */
  datatype Parent = NoParent | Parent(c: CommitKey)

  function ParentOf(st: State, input: Input): Parent {
    var b := BranchKey(input.repo, BranchOf(input));
    if b in st.branches && CommitKey(input.repo, st.branches[b]) in st.commits
    then Parent.Parent(CommitKey(input.repo, st.branches[b])) else NoParent
  }

  function TreeOf(commits: map<CommitKey, Tree>, p: Parent): Tree {
    if p.Parent? && p.c in commits then commits[p.c] else map[]
  }

  const EMPTY: State := State(map[], map[], map[])

  /** The recorded parents after a run from empty tables. */
  function Parents(steps: seq<Step>): map<CommitKey, Parent>
    decreases |steps|
  {
    if steps == [] then map[]
    else
      var front, last := steps[..|steps| - 1], steps[|steps| - 1];
      if last.Push? && Verdict(Run(EMPTY, front), last.input, last.sha, last.dbOk).Committed?
      then Parents(front)[CommitKey(last.input.repo, last.sha) := ParentOf(Run(EMPTY, front), last.input)]
      else Parents(front)
  }

  /** Some path of the tree holds the blob where the parent does not. */
  predicate NewlyHolds(tree: Tree, parent: Tree, o: string) {
    exists p :: p in tree && tree[p].oid == o && !(p in parent && parent[p].oid == o)
  }

  /** The commits that newly hold the blob against their recorded parents. */
  function Introducers(commits: map<CommitKey, Tree>, parents: map<CommitKey, Parent>, o: string): set<CommitKey> {
    set c | c in commits && c in parents && NewlyHolds(commits[c], TreeOf(commits, parents[c]), o)
  }

  /** Every commit has its parent recorded, and that is a commit. */
  predicate Rooted(commits: map<CommitKey, Tree>, parents: map<CommitKey, Parent>) {
    parents.Keys == commits.Keys && forall c :: c in parents && parents[c].Parent? ==> parents[c].c in commits
  }

  lemma {:induction false} NewlyHeldRows(files: map<string, Revision>, parent: map<string, Revision>, o: string)
    ensures NewlyHeld(files, parent, o) <==> NewlyHolds(Rows(files), Rows(parent), o)
  {
    if NewlyHeld(files, parent, o) {
      var p :| p in files && files[p].oid == o && !(p in parent && parent[p].oid == o);
      assert p in Rows(files) && Rows(files)[p].oid == o && !(p in Rows(parent) && Rows(parent)[p].oid == o);
    }
    if NewlyHolds(Rows(files), Rows(parent), o) {
      var p :| p in Rows(files) && Rows(files)[p].oid == o && !(p in Rows(parent) && Rows(parent)[p].oid == o);
      assert p in files && files[p].oid == o && !(p in parent && parent[p].oid == o);
    }
  }

  lemma {:induction false} SameTree(commits: map<CommitKey, Tree>, c: CommitKey, tree: Tree, p: Parent)
    requires c !in commits && (p.Parent? ==> p.c in commits)
    ensures TreeOf(commits[c := tree], p) == TreeOf(commits, p)
  {
  }

  /** One more commit is one more introducer, or none; the older ones stay what they were. */
  lemma {:induction false} IntroducersAfter(commits: map<CommitKey, Tree>, parents: map<CommitKey, Parent>,
                                            c: CommitKey, tree: Tree, parent: Parent, o: string)
    requires Rooted(commits, parents) && c !in commits && (parent.Parent? ==> parent.c in commits)
    ensures Rooted(commits[c := tree], parents[c := parent])
    ensures |Introducers(commits[c := tree], parents[c := parent], o)| ==
            |Introducers(commits, parents, o)| + if NewlyHolds(tree, TreeOf(commits, parent), o) then 1 else 0
  {
    hide NewlyHolds, TreeOf;
    var now, them := commits[c := tree], parents[c := parent];
    SameTree(commits, c, tree, parent);
    var more := if NewlyHolds(tree, TreeOf(commits, parent), o) then {c} else {};
    forall d
      ensures d in Introducers(now, them, o) <==> d in Introducers(commits, parents, o) || d in more
    {
      if d != c && d in commits { SameTree(commits, c, tree, parents[d]); }
    }
    assert Introducers(now, them, o) == Introducers(commits, parents, o) + more;
  }

  lemma {:induction false} NobodyIntroduces(st: State, parents: map<CommitKey, Parent>, o: string)
    requires Safe(st) && o !in st.blobs
    ensures Introducers(st.commits, parents, o) == {}
  {
    forall c, p | c in st.commits && p in st.commits[c]
      ensures st.commits[c][p].oid != o
    {
      assert Counted(st.blobs, st.commits[c][p].oid);
    }
  }

  /** The count of every blob is what the recorded history says. */
  ghost predicate CountsExact(st: State, parents: map<CommitKey, Parent>) {
    && Rooted(st.commits, parents)
    && forall o :: o in st.blobs ==> st.blobs[o].refs == |Introducers(st.commits, parents, o)|
  }

  lemma {:induction false} PushExact(st: State, parents: map<CommitKey, Parent>, input: Input, sha: string, dbOk: bool)
    requires Safe(st) && CountsExact(st, parents) && Verdict(st, input, sha, dbOk).Committed?
    ensures CountsExact(Commit(st, input, sha, dbOk), parents[CommitKey(input.repo, sha) := ParentOf(st, input)])
  {
    hide Verdict, FilesOf, ParentFiles, NewlyHeld, NewlyHolds, Introducers, Safe, Bumped, Rooted;
    var c, files := CommitKey(input.repo, sha), FilesOf(st, input);
    var after, them := Commit(st, input, sha, dbOk), parents[c := ParentOf(st, input)];
    CommittedMeans(st, input, sha, dbOk);
    CommitKeeps(st, input, sha, dbOk);
    IntroducersAfter(st.commits, parents, c, Rows(files), ParentOf(st, input), "");
    forall o | o in after.blobs
      ensures after.blobs[o].refs == |Introducers(after.commits, them, o)|
    {
      CountRises(st, input, sha, dbOk, o);
      NewlyHeldRows(files, ParentFiles(st, input), o);
      IntroducersAfter(st.commits, parents, c, Rows(files), ParentOf(st, input), o);
    }
  }

  lemma {:induction false} CommitKeeps(st: State, input: Input, sha: string, dbOk: bool)
    requires Verdict(st, input, sha, dbOk).Committed?
    ensures var after := Commit(st, input, sha, dbOk);
            after.blobs.Keys == st.blobs.Keys
            && after.commits == st.commits[CommitKey(input.repo, sha) := Rows(FilesOf(st, input))]
  {
    hide Verdict, FilesOf, ParentFiles, Rows, Added;
  }

  /** Over every run: a blob's count is the number of commits that newly hold it against their recorded parents. */
  lemma {:induction false} RunCountsExact(steps: seq<Step>)
    ensures CountsExact(Run(EMPTY, steps), Parents(steps))
    decreases |steps|
  {
    if steps != [] {
      var front, last := steps[..|steps| - 1], steps[|steps| - 1];
      var st, parents := Run(EMPTY, front), Parents(front);
      RunCountsExact(front);
      ReachableSafe(front);
      match last
      case Upload(oid, size) =>
        if IsOid(oid) && oid !in st.blobs { NobodyIntroduces(st, parents, oid); }
      case Push(input, sha, dbOk) =>
        if Verdict(st, input, sha, dbOk).Committed? { PushExact(st, parents, input, sha, dbOk); }
    }
  }

  /** The double count: a blob that an older commit holds, and that the branch does not, is pushed inline at a valid
      path. The commit goes through and the blob, already counted for the older commit, is counted a second time. */
  lemma {:induction false} ReturnCountsTwice(st: State, older: CommitKey, o: string, p: string,
                                             repo: string, sha: string)
    requires Safe(st) && older in st.commits && Holds(st.commits[older], o)
    requires repo != "" && ValidPath(p) && CommitKey(repo, sha) !in st.commits
    requires var input := Input(repo, "", [], map[p := Pointer(o, 0)], map[]);
             !Holds(ParentTree(st, input), o)
    ensures var input := Input(repo, "", [], map[p := Pointer(o, 0)], map[]);
            && Verdict(st, input, sha, true).Committed?
            && o in st.blobs && st.blobs[o].refs >= 1
            && o in Commit(st, input, sha, true).blobs
            && Commit(st, input, sha, true).blobs[o].refs == st.blobs[o].refs + 1 >= 2
  {
    var input := Input(repo, "", [], map[p := Pointer(o, 0)], map[]);
    var q :| q in st.commits[older] && st.commits[older][q].oid == o;
    assert Counted(st.blobs, st.commits[older][q].oid);
    ReturnAccepted(st, o, p, input, sha);
    var files, parent := FilesOf(st, input), ParentFiles(st, input);
    assert p in files && files[p].oid == o;
    assert p in parent ==> parent[p].oid != o;
    assert NewlyHeld(files, parent, o);
    CountRises(st, input, sha, true, o);
  }

  lemma {:induction false} ReturnAccepted(st: State, o: string, p: string, input: Input, sha: string)
    requires Safe(st) && o in st.blobs && ValidPath(p) && input.repo != "" && CommitKey(input.repo, sha) !in st.commits
    requires input.deletes == [] && input.inline == map[p := Pointer(o, 0)] && input.lfs == map[]
    ensures Verdict(st, input, sha, true).Committed?
    ensures p in FilesOf(st, input) && FilesOf(st, input)[p].oid == o
    ensures p in ParentFiles(st, input) ==> p in ParentTree(st, input)
                                            && ParentFiles(st, input)[p].oid == ParentTree(st, input)[p].oid
  {
    ParentRows(st, input);
    CarriedFiles(st, input, p);
    OnePath(input, p);
    Accepts(st, input, sha);
    JoinedAt(st.blobs, ParentTree(st, input), p);
  }

  lemma {:induction false} OnePath(input: Input, p: string)
    requires ValidPath(p) && input.deletes == [] && input.lfs == map[] && input.inline.Keys == {p}
    ensures ValidPaths(input)
  {
  }

  lemma {:induction false} Accepts(st: State, input: Input, sha: string)
    requires input.repo != "" && ValidPaths(input) && CommitKey(input.repo, sha) !in st.commits
    requires !SomeMismatch(st.blobs, FilesOf(st, input)) && !Missing(st.blobs, FilesOf(st, input))
    ensures Verdict(st, input, sha, true).Committed?
  {
  }

  lemma {:induction false} JoinedAt(blobs: map<string, Blob>, tree: Tree, p: string)
    ensures p in Joined(blobs, tree) ==> p in tree && Joined(blobs, tree)[p].oid == tree[p].oid
  {
  }

  /** Besides the pushed path the new tree is the parent's, so nothing is missing and no size is contradicted. */
  lemma {:induction false} CarriedFiles(st: State, input: Input, p: string)
    requires input.deletes == [] && input.lfs == map[] && input.inline.Keys == {p} && input.inline[p].oid in st.blobs
    requires forall q :: q in ParentFiles(st, input) ==> ParentFiles(st, input)[q].oid in st.blobs
    ensures !Missing(st.blobs, FilesOf(st, input)) && !SomeMismatch(st.blobs, FilesOf(st, input))
    ensures p in FilesOf(st, input) && FilesOf(st, input)[p].oid == input.inline[p].oid
  {
    var parent, files := ParentFiles(st, input), FilesOf(st, input);
    forall q | q in files ensures files[q].oid in st.blobs && !Mismatched(st.blobs, files[q]) {
      assert q == p || (q in parent && files[q] == parent[q]);
    }
  }

  /** ListFiles. */
  function ListFiles(st: State, repo: string, sha: string): map<string, Revision> {
    if CommitKey(repo, sha) in st.commits then Joined(st.blobs, st.commits[CommitKey(repo, sha)]) else map[]
  }

  lemma {:induction false} SameListing(before: State, after: State, c: CommitKey)
    requires c in before.commits && c in after.commits && after.commits[c] == before.commits[c]
    requires forall o :: o in before.blobs ==> o in after.blobs && after.blobs[o].size == before.blobs[o].size
    requires forall p :: p in before.commits[c] ==> before.commits[c][p].oid in before.blobs
    ensures ListFiles(after, c.repo, c.sha) == ListFiles(before, c.repo, c.sha)
    ensures ListFiles(before, c.repo, c.sha).Keys == before.commits[c].Keys
  {
  }

  /** after has all commits of before, and all its blobs with their sizes. */
  ghost predicate Extends(before: State, after: State) {
    && (forall c :: c in before.commits ==> c in after.commits && after.commits[c] == before.commits[c])
    && (forall o :: o in before.blobs ==> o in after.blobs && after.blobs[o].size == before.blobs[o].size)
  }

  lemma {:induction false} MoreExtends(before: State, after: State, c: CommitKey, branch: string)
    requires OneCommitMore(before, after, c, branch)
    ensures Extends(before, after)
  {
  }

  lemma {:induction false} UploadExtends(st: State, oid: string, size: int)
    ensures Extends(st, Upserted(st, oid, size))
  {
  }

  lemma {:induction false} PushExtends(st: State, input: Input, sha: string, dbOk: bool)
    requires Safe(st)
    ensures Extends(st, Commit(st, input, sha, dbOk))
  {
    CommitFrame(st, input, sha, dbOk);
    if Verdict(st, input, sha, dbOk).Committed? {
      MoreExtends(st, Commit(st, input, sha, dbOk), CommitKey(input.repo, sha), BranchOf(input));
    }
  }

  /** One step keeps every commit and the size of every blob. */
  lemma {:induction false} StepExtends(st: State, step: Step)
    requires Safe(st)
    ensures Extends(st, Next(st, step))
  {
    match step
    case Upload(oid, size) => UploadExtends(st, oid, size);
    case Push(input, sha, dbOk) => PushExtends(st, input, sha, dbOk);
  }

  /** What a sha lists never changes again: neither the files nor their blobs nor their sizes. */
  lemma {:induction false} HistoryFixed(st: State, steps: seq<Step>, repo: string, sha: string)
    requires Safe(st) && CommitKey(repo, sha) in st.commits
    ensures var c := CommitKey(repo, sha);
            && c in Run(st, steps).commits && Run(st, steps).commits[c] == st.commits[c]
            && ListFiles(Run(st, steps), repo, sha) == ListFiles(st, repo, sha)
    decreases |steps|
  {
    if steps != [] {
      var front, last := steps[..|steps| - 1], steps[|steps| - 1];
      var c, before := CommitKey(repo, sha), Run(st, front);
      HistoryFixed(st, front, repo, sha);
      RunSafe(st, front);
      StepExtends(before, last);
      forall p | p in before.commits[c] ensures before.commits[c][p].oid in before.blobs {
        assert Counted(before.blobs, before.commits[c][p].oid);
      }
      SameListing(before, Next(before, last), c);
    }
  }

  /** LookupFile for a branch name. */
  function LookupFile(st: State, repo: string, branch: string, p: string): (bool, Revision) {
    var b := BranchKey(repo, branch);
    if b in st.branches && p in ListFiles(st, repo, st.branches[b]) then (true, ListFiles(st, repo, st.branches[b])[p])
    else (false, Revision("", 0, false))
  }

  /** Right after a commit the branch shows the expected tree. */
  lemma {:induction false} LookupAfterCommit(st: State, input: Input, sha: string, dbOk: bool, p: string)
    requires Safe(st) && Verdict(st, input, sha, dbOk).Committed?
    ensures var found := LookupFile(Commit(st, input, sha, dbOk), input.repo, BranchOf(input), p);
            var want := ExpectedEntry(ParentTree(st, input), input, p);
            found.0 == want.0 && (found.0 ==> found.1.oid == want.1.oid && found.1.lfs == want.1.lfs)
  {
    CommitTree(st, input, sha, dbOk, p);
    CommitFrame(st, input, sha, dbOk);
    CommitSafe(st, input, sha, dbOk);
    ListedEntry(Commit(st, input, sha, dbOk), CommitKey(input.repo, sha), p);
  }

  lemma {:induction false} ListedEntry(st: State, c: CommitKey, p: string)
    requires Safe(st) && c in st.commits
    ensures var files := ListFiles(st, c.repo, c.sha);
            && (p in files <==> p in st.commits[c])
            && (p in files ==> files[p].oid == st.commits[c][p].oid && files[p].lfs == st.commits[c][p].lfs)
  {
    if p in st.commits[c] { assert Counted(st.blobs, st.commits[c][p].oid); }
  }
}
