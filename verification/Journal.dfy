/**
 Commits and their undoing: crates/aa-core/src/rollback.rs over the journal of crates/aa-core/src/journal.rs, with what
 `patch.apply` records (crates/aa-core/src/handlers.rs). First what one commit and one rollback do to the files and the
 journal, then the methods that do it, then whole runs.
 */
module Journal {
  import opened Wrappers
  import opened Apply

  /** What the journal keeps of a commit. */
  datatype CommitEntry = CommitEntry(id: string, title: string, files: seq<Change>)

  datatype World = World(files: Files, journal: map<string, CommitEntry>)

  /** The changes of an apply: one per file, and each a real one. */
  predicate Recorded(changes: seq<Change>) {
    DistinctPaths(changes) && forall c :: c in changes ==> c.before != c.after
  }

  predicate Sound(journal: map<string, CommitEntry>) {
    forall id :: id in journal ==> journal[id].id == id && Recorded(journal[id].files)
  }

  /** An undisturbed commit: refused when a file no longer reads as it did. */
  function CommitTo(w: World, e: CommitEntry): Option<World> {
    if Matches(w.files, e.files) then Some(World(w.files + After(e.files), w.journal[e.id := e])) else None
  }

  /** An undisturbed rollback: refused for an unknown commit or when a file no longer reads as it was left. */
  function RollBack(w: World, id: string): Option<World> {
    if id in w.journal && Matches(w.files, Inverse(w.journal[id].files)) then
      Some(World(w.files + After(Inverse(w.journal[id].files)), w.journal - {id}))
    else None
  }

  // ----- the operations -----

  datatype RollbackError = NotFound | Drifted(path: string) | NotApplied(error: ApplyError) | NotDeleted

  /** File `i` of the commit is the first that does not read as the commit left it. */
  ghost predicate FirstDrift(now: Files, run: seq<Event>, files: seq<Change>, i: nat) {
    && i < |files| && |run| == i + 1 && Calm(run[..i]) && (forall k :: 0 <= k < i ==> Holds(now, Inverse(files)[k]))
    && (!run[i].fate.Works? || files[i].path !in now || now[files[i].path] != files[i].after)
  }

  ghost predicate DriftedAt(now: Files, run: seq<Event>, files: seq<Change>, path: string) {
    exists i: nat :: FirstDrift(now, run, files, i) && path == files[i].path
  }

  datatype RollbackOutcome = RollbackOutcome(id: string, filesRestored: nat, title: string)

  function Befores(changes: seq<Change>): (shadow: seq<Entry>)
    ensures |shadow| == |changes| && forall i :: 0 <= i < |changes| ==> shadow[i] == Entry(changes[i].path, changes[i].before)
  {
    seq(|changes|, i requires 0 <= i < |changes| => Entry(changes[i].path, changes[i].before))
  }

  /** Writing the recorded old texts over the recorded new ones is the inverse of the commit. */
  lemma {:induction false} TargetsOfBefores(changes: seq<Change>, original: Files)
    requires Recorded(changes)
    requires forall c :: c in changes ==> c.path in original && original[c.path] == c.after
    ensures Targets(Befores(changes), original) == Inverse(changes)
  {
    if changes == [] {
      assert Befores(changes) == [] && Inverse(changes) == [];
    } else {
      var n := |changes| - 1;
      TargetsOfBefores(changes[..n], original);
      var shadow, c := Befores(changes), changes[n];
      assert shadow[..n] == Befores(changes[..n]) && shadow[n] == Entry(c.path, c.before);
      assert c in changes;
      assert Targets(shadow, original) == Targets(shadow[..n], original) + [Change(c.path, c.after, c.before)];
      assert Inverse(changes) == Inverse(changes[..n]) + [Change(c.path, c.after, c.before)];
    }
  }

  lemma TargetsRecorded(shadow: seq<Entry>, original: Files)
    requires DistinctEntries(shadow)
    ensures Recorded(Targets(shadow, original))
  {
    TargetsDistinct(shadow, original);
  }

  class Workspace {
    const fs: FileSystem
    var journal: map<string, CommitEntry>

    constructor (fs: FileSystem)
      ensures this.fs == fs && journal == map[]
    {
      this.fs, journal := fs, map[];
    }

    ghost function Now(): World
      reads this, fs
    {
      World(fs.files, journal)
    }

    /**
     `patch.apply` from the plan's shadow files on: apply, then record what changed. A journal that cannot be written
     (`recorded` false) leaves the commit applied and unrecorded.
     */
    method Commit(title: string, shadow: seq<Entry>, original: Files, nonce: string, recorded: bool)
      returns (r: Result<Outcome, ApplyError>)
      requires Sound(journal) && DistinctEntries(shadow)
      requires FreshNonce(fs.files, Targets(shadow, original), nonce)
      modifies this`journal, fs
      ensures Sound(journal) && old(fs.log) <= fs.log
      ensures AllOrNothing(old(fs.files), fs.files, fs.log[|old(fs.log)|..], Targets(shadow, original), nonce, r)
      ensures r.Failure? || !recorded ==> journal == old(journal)
      ensures r.Success? && recorded ==>
                CommitTo(old(Now()), CommitEntry(nonce, title, Targets(shadow, original))) == Some(Now())
    {
      TargetsRecorded(shadow, original);
      r := ApplyTransactional(fs, shadow, original, nonce);
      if r.Success? && recorded {
        journal := journal[nonce := CommitEntry(nonce, title, Targets(shadow, original))];
      }
    }

    /** The check of a rollback: every file still reads as the commit left it. */
    method CheckAfter(files: seq<Change>) returns (drift: Option<RollbackError>, ghost run: seq<Event>)
      modifies fs`calls, fs`log
      ensures fs.log == old(fs.log) + run && Untouched(fs.files, run)
      ensures drift.None? ==> Matches(fs.files, Inverse(files)) && |run| == |files| && Calm(run)
      ensures drift.Some? ==> drift.value.Drifted? && (Calm(run) ==> !Matches(fs.files, Inverse(files)))
      ensures drift.Some? ==> DriftedAt(fs.files, run, files, drift.value.path)
    {
      run := [];
      for i := 0 to |files|
        invariant fs.log == old(fs.log) + run && Untouched(fs.files, run)
        invariant forall k :: 0 <= k < i ==> Holds(fs.files, Inverse(files)[k])
        invariant |run| == i && Calm(run)
      {
        var onDisk := fs.Read(files[i].path);
        ghost var calm := run;
        run := run + [fs.log[|fs.log| - 1]];
        assert Inverse(files)[i] in Inverse(files) && run[|run| - 1] in run;
        if onDisk != Some(files[i].after) {
          assert run[..i] == calm && FirstDrift(fs.files, run, files, i);
          return Some(Drifted(files[i].path)), run;
        }
      }
      drift := None;
    }

    method AftersOf(files: seq<Change>) returns (original: Files)
      requires DistinctPaths(files)
      ensures forall c :: c in files ==> c.path in original && original[c.path] == c.after
    {
      original := map[];
      for i := 0 to |files|
        invariant forall k :: 0 <= k < i ==> files[k].path in original && original[files[k].path] == files[k].after
      {
        original := original[files[i].path := files[i].after];
      }
    }

    /** The check and the apply of a rollback. */
    method WriteBack(files: seq<Change>, nonce: string) returns (r: Result<Outcome, RollbackError>)
      requires Recorded(files) && FreshNonce(fs.files, files, nonce)
      modifies fs
      ensures old(fs.log) <= fs.log
      ensures WrittenBack(old(fs.files), fs.files, fs.log[|old(fs.log)|..], files, r)
    {
      ghost var start, base := fs.files, fs.log;
      var drift, run := CheckAfter(files);
      if drift.Some? {
        assert fs.log[|base|..] == run;
        return Failure(drift.value);
      }
      var original := AftersOf(files);
      TargetsOfBefores(files, original);
      SameTmps(start, files, nonce);
      var out := ApplyTransactional(fs, Befores(files), original, nonce);
      ghost var more := fs.log[|base + run|..];
      LogTail(fs.log, base, run, more);
      RepairsConcat(run, more, Inverse(files));
      r := if out.Success? then Success(out.value) else Failure(NotApplied(out.error));
      CheckThenApply(run, more);
    }

    /** `rollback`; `deletable` says whether the journal entry can be removed. */
    method Rollback(id: string, nonce: string, deletable: bool) returns (r: Result<RollbackOutcome, RollbackError>)
      requires Sound(journal)
      requires id in journal ==> FreshNonce(fs.files, journal[id].files, nonce)
      modifies this`journal, fs
      ensures Sound(journal) && old(fs.log) <= fs.log
      ensures RollbackResult(old(Now()), Now(), fs.log[|old(fs.log)|..], id, deletable, r)
    {
      if id !in journal {
        return Failure(NotFound);
      }
      var entry := journal[id];
      var out := WriteBack(entry.files, nonce);
      if out.Failure? {
        return Failure(out.error);
      }
      if !deletable {
        return Failure(NotDeleted);
      }
      journal := journal - {id};
      r := Success(RollbackOutcome(entry.id, out.value.filesWritten, entry.title));
    }
  }

  lemma CheckThenApply(run: seq<Event>, more: seq<Event>)
    ensures (run + more)[..|run|] == run && (run + more)[|run|..] == more
  {}

  /** The error names the first file that does not read as the commit left it, or the file the apply failed at. */
  ghost predicate RollbackBlames(start: Files, run: seq<Event>, files: seq<Change>, error: RollbackError) {
    match error
    case Drifted(path) => DriftedAt(start, run, files, path)
    case NotApplied(e) =>
      && |run| >= |files| && Calm(run[..|files|]) && Matches(start, Inverse(files))
      && Blames(start, run[|files|..], Inverse(files), e)
    case _ => false
  }

  ghost predicate WrittenBack(start: Files, end: Files, run: seq<Event>, files: seq<Change>,
                              r: Result<Outcome, RollbackError>) {
    var back := Inverse(files);
    && (r.Success? ==> Matches(start, back) && end == start + After(back) && r.value.filesWritten == |files|)
    && (r.Failure? ==> RollbackBlames(start, run, files, r.error))
    && (r.Failure? && RepairsWork(run, back) ==> end == start)
    && (Calm(run) ==> (r.Success? <==> Matches(start, back)))
  }

  /**
   What a rollback of `id` at `w` may come to. Accepted, it is exactly `RollBack`; refused, the journal is kept, and
   the files are too if only the repairing calls went through, unless just the entry could not be removed.
   */
  ghost predicate RollbackResult(w: World, v: World, run: seq<Event>, id: string, deletable: bool,
                                 r: Result<RollbackOutcome, RollbackError>) {
    if id !in w.journal then r == Failure(NotFound) && v == w
    else
      var e := w.journal[id];
      && (r.Success? ==> RollBack(w, id) == Some(v) && r.value == RollbackOutcome(id, |e.files|, e.title))
      && (r.Failure? ==> v.journal == w.journal)
      && (r.Failure? && r.error != NotDeleted && RepairsWork(run, Inverse(e.files)) ==> v == w)
      && (r == Failure(NotDeleted) ==> !deletable)
      && (r.Failure? && r.error != NotDeleted ==> RollbackBlames(w.files, run, e.files, r.error))
      && (Calm(run) && deletable ==> (r.Success? <==> RollBack(w, id).Some?))
  }

  lemma LogTail(log: seq<Event>, base: seq<Event>, run: seq<Event>, more: seq<Event>)
    requires base + run <= log && more == log[|base + run|..]
    ensures base <= log && log[|base|..] == run + more
  {}

  lemma SameTmps(files: Files, changes: seq<Change>, nonce: string)
    requires FreshNonce(files, changes, nonce)
    ensures FreshNonce(files, Inverse(changes), nonce)
  {
    forall d | d in Inverse(changes) ensures TmpFor(d.path, nonce) !in files {
      var i :| 0 <= i < |changes| && Inverse(changes)[i] == d;
      assert changes[i] in changes;
    }
  }

  // ----- one commit and its rollback -----

  lemma ReadsAsLeft(files: Files, changes: seq<Change>)
    requires DistinctPaths(changes)
    ensures Matches(files + After(changes), Inverse(changes))
  {
    forall d | d in Inverse(changes) ensures Holds(files + After(changes), d) {
      var i :| 0 <= i < |changes| && Inverse(changes)[i] == d;
      assert changes[i] in changes;
      AfterAt(changes, changes[i]);
    }
  }

  lemma ForgetNew(journal: map<string, CommitEntry>, e: CommitEntry)
    requires e.id !in journal
    ensures journal[e.id := e] - {e.id} == journal
  {}

  /** Rolling a commit back at once is accepted and gives files and journal back. */
  lemma RollbackUndoesCommit(w: World, e: CommitEntry)
    requires Recorded(e.files) && e.id !in w.journal && CommitTo(w, e).Some?
    ensures RollBack(CommitTo(w, e).value, e.id) == Some(w)
  {
    ReadsAsLeft(w.files, e.files);
    Undone(w.files, e.files);
    ForgetNew(w.journal, e);
  }

  // ----- runs -----

  /** The live commits, oldest first, applied to a world. */
  function Replay(w: World, live: seq<CommitEntry>): Option<World> {
    if live == [] then Some(w)
    else
      match Replay(w, live[..|live| - 1])
      case None => None
      case Some(v) => CommitTo(v, live[|live| - 1])
  }

  /** The live commits rolled back, newest first. */
  function UndoAll(w: World, live: seq<CommitEntry>): Option<World>
    decreases |live|
  {
    if live == [] then Some(w)
    else
      match RollBack(w, live[|live| - 1].id)
      case None => None
      case Some(v) => UndoAll(v, live[..|live| - 1])
  }

  /** Recorded commits under ids that are new and their own. */
  ghost predicate Fresh(w: World, live: seq<CommitEntry>) {
    && (forall i :: 0 <= i < |live| ==> Recorded(live[i].files) && live[i].id !in w.journal)
    && (forall i, j :: 0 <= i < j < |live| ==> live[i].id != live[j].id)
  }

  /** The journal has the live commits beside the entries it started with. */
  lemma {:induction false} ReplayJournal(w: World, live: seq<CommitEntry>)
    requires Fresh(w, live) && Replay(w, live).Some?
    ensures forall i :: 0 <= i < |live| ==>
                          live[i].id in Replay(w, live).value.journal && Replay(w, live).value.journal[live[i].id] == live[i]
    ensures forall id :: id in Replay(w, live).value.journal ==>
                           id in w.journal || exists i :: 0 <= i < |live| && live[i].id == id
  {
    if live != [] {
      var n := |live| - 1;
      ReplayJournal(w, live[..n]);
      JournalOneMore(w, live, Replay(w, live[..n]).value, Replay(w, live).value);
    }
  }

  lemma JournalOneMore(w: World, live: seq<CommitEntry>, v: World, u: World)
    requires live != [] && u.journal == v.journal[live[|live| - 1].id := live[|live| - 1]]
    requires forall i, j :: 0 <= i < j < |live| ==> live[i].id != live[j].id
    requires var init := live[..|live| - 1];
             && (forall i :: 0 <= i < |init| ==> init[i].id in v.journal && v.journal[init[i].id] == init[i])
             && (forall id :: id in v.journal ==> id in w.journal || exists i :: 0 <= i < |init| && init[i].id == id)
    ensures forall i :: 0 <= i < |live| ==> live[i].id in u.journal && u.journal[live[i].id] == live[i]
    ensures forall id :: id in u.journal ==> id in w.journal || exists i :: 0 <= i < |live| && live[i].id == id
  {
    var n := |live| - 1;
    forall i | 0 <= i < n ensures live[i].id in u.journal && u.journal[live[i].id] == live[i] {
      assert live[..n][i] == live[i];
    }
    forall id | id in u.journal && id !in w.journal ensures exists i :: 0 <= i < |live| && live[i].id == id {
      if id != live[n].id {
        var i :| 0 <= i < n && live[..n][i].id == id;
        assert live[i].id == id;
      }
    }
  }

  /** Undoing every live commit, newest first, is accepted throughout and restores the initial files and journal. */
  lemma {:induction false} UndoAllRestores(w: World, live: seq<CommitEntry>)
    requires Fresh(w, live) && Replay(w, live).Some?
    ensures UndoAll(Replay(w, live).value, live) == Some(w)
  {
    if live != [] {
      var n := |live| - 1;
      var v := Replay(w, live[..n]).value;
      ReplayJournal(w, live[..n]);
      assert forall i :: 0 <= i < n ==> live[..n][i] == live[i];
      RollbackUndoesCommit(v, live[n]);
      UndoAllRestores(w, live[..n]);
    }
  }

  datatype Step = Commit(e: CommitEntry) | UndoNewest

  /** A run from `w` with `live` commits standing: `None` as soon as a rollback of the newest live commit is refused. */
  function Run(w: World, live: seq<CommitEntry>, steps: seq<Step>): Option<(World, seq<CommitEntry>)>
    decreases |steps|
  {
    if steps == [] then Some((w, live))
    else
      match steps[0]
      case Commit(e) =>
        (match CommitTo(w, e)
         case None => Run(w, live, steps[1..])
         case Some(v) => Run(v, live + [e], steps[1..]))
      case UndoNewest =>
        if live == [] then Run(w, live, steps[1..])
        else
          match RollBack(w, live[|live| - 1].id)
          case None => None
          case Some(v) => Run(v, live[..|live| - 1], steps[1..])
  }

  /** Every commit of a run is recorded under an id of its own, new to the journal and to the live commits. */
  ghost predicate FreshSteps(w0: World, live: seq<CommitEntry>, steps: seq<Step>) {
    && (forall i :: 0 <= i < |steps| && steps[i].Commit? ==> Recorded(steps[i].e.files) && steps[i].e.id !in w0.journal)
    && (forall i, k :: 0 <= i < |steps| && steps[i].Commit? && 0 <= k < |live| ==> live[k].id != steps[i].e.id)
    && (forall i, j :: 0 <= i < j < |steps| && steps[i].Commit? && steps[j].Commit? ==> steps[i].e.id != steps[j].e.id)
  }

  lemma CommitStands(w0: World, live: seq<CommitEntry>, steps: seq<Step>)
    requires Fresh(w0, live) && FreshSteps(w0, live, steps) && steps != [] && steps[0].Commit?
    ensures Fresh(w0, live + [steps[0].e]) && FreshSteps(w0, live + [steps[0].e], steps[1..])
    ensures forall w :: Replay(w0, live) == Some(w) ==> Replay(w0, live + [steps[0].e]) == CommitTo(w, steps[0].e)
  {
    assert (live + [steps[0].e])[..|live|] == live;
  }

  /** The rollback of the newest live commit is accepted and gives the world before that commit. */
  lemma NewestUndone(w0: World, live: seq<CommitEntry>, w: World)
    requires Fresh(w0, live) && Replay(w0, live) == Some(w) && live != []
    ensures Fresh(w0, live[..|live| - 1]) && RollBack(w, live[|live| - 1].id).Some?
    ensures Replay(w0, live[..|live| - 1]) == RollBack(w, live[|live| - 1].id)
  {
    var n := |live| - 1;
    var v := Replay(w0, live[..n]).value;
    ReplayJournal(w0, live[..n]);
    RollbackUndoesCommit(v, live[n]);
  }

  /**
   In a run without outside edits that undoes only newest live commits, every rollback is accepted; it ends where
   replaying the live commits ends, and undoing those restores the initial files and journal.
   */
  lemma {:induction false} LastInFirstOut(w0: World, live: seq<CommitEntry>, w: World, steps: seq<Step>)
    requires Fresh(w0, live) && Replay(w0, live) == Some(w) && FreshSteps(w0, live, steps)
    ensures Run(w, live, steps).Some?
    ensures var (v, left) := Run(w, live, steps).value;
            Fresh(w0, left) && Replay(w0, left) == Some(v) && UndoAll(v, left) == Some(w0)
    decreases |steps|
  {
    if steps == [] {
      UndoAllRestores(w0, live);
    } else if steps[0].Commit? && CommitTo(w, steps[0].e).Some? {
      CommitStands(w0, live, steps);
      LastInFirstOut(w0, live + [steps[0].e], CommitTo(w, steps[0].e).value, steps[1..]);
    } else if steps[0].UndoNewest? && live != [] {
      NewestUndone(w0, live, w);
      LastInFirstOut(w0, live[..|live| - 1], RollBack(w, live[|live| - 1].id).value, steps[1..]);
    } else {
      LastInFirstOut(w0, live, w, steps[1..]);
    }
  }

  // ----- rolling back a commit that is not the newest -----

  /** What later commits leave of a text: that of the last one to change the file. */
  function LastText(later: seq<CommitEntry>, path: string, text: string): string {
    if later == [] then text
    else
      var e := later[|later| - 1];
      if path in After(e.files) then After(e.files)[path] else LastText(later[..|later| - 1], path, text)
  }

  lemma {:induction false} ReplayText(w: World, later: seq<CommitEntry>, path: string)
    requires Replay(w, later).Some? && path in w.files
    ensures path in Replay(w, later).value.files
    ensures Replay(w, later).value.files[path] == LastText(later, path, w.files[path])
  {
    if later != [] {
      ReplayText(w, later[..|later| - 1], path);
    }
  }

  lemma {:induction false} ReplayConcat(w: World, a: seq<CommitEntry>, b: seq<CommitEntry>)
    requires Replay(w, a + b).Some?
    ensures Replay(w, a).Some? && Replay(Replay(w, a).value, b) == Replay(w, a + b)
  {
    if b == [] {
      assert a + b == a;
    } else {
      var n := |b| - 1;
      assert (a + b)[..|a + b| - 1] == a + b[..n];
      ReplayConcat(w, a, b[..n]);
    }
  }

  lemma StandsAfter(w0: World, live: seq<CommitEntry>, i: nat)
    requires Replay(w0, live).Some? && i < |live|
    ensures Replay(w0, live[..i]).Some? && Replay(w0, live[..i + 1]).Some?
    ensures Replay(w0, live[..i + 1]) == CommitTo(Replay(w0, live[..i]).value, live[i])
    ensures Replay(Replay(w0, live[..i + 1]).value, live[i + 1..]) == Replay(w0, live)
  {
    assert live == live[..i + 1] + live[i + 1..] && live[..i + 1][..i] == live[..i];
    ReplayConcat(w0, live[..i + 1], live[i + 1..]);
  }

  /** After a live commit and `later` ones, each of its files holds what the later ones left of its text. */
  lemma TextAfterLater(w0: World, live: seq<CommitEntry>, i: nat, c: Change)
    requires Fresh(w0, live) && Replay(w0, live).Some? && i < |live| && c in live[i].files
    ensures var files := Replay(w0, live).value.files;
            c.path in files && files[c.path] == LastText(live[i + 1..], c.path, c.after)
  {
    StandsAfter(w0, live, i);
    AfterAt(live[i].files, c);
    ReplayText(Replay(w0, live[..i + 1]).value, live[i + 1..], c.path);
  }

  /**
   A live commit can be rolled back exactly when, for each of its files, the later live commits left the text it wrote:
   none changed the file, or the last to change it wrote that same text.
   */
  lemma RollbackAcceptedExactly(w0: World, live: seq<CommitEntry>, i: nat)
    requires Fresh(w0, live) && Replay(w0, live).Some? && i < |live|
    ensures RollBack(Replay(w0, live).value, live[i].id).Some?
            <==> forall c :: c in live[i].files ==> LastText(live[i + 1..], c.path, c.after) == c.after
  {
    var w := Replay(w0, live).value;
    ReplayJournal(w0, live);
    forall c | c in live[i].files
      ensures c.path in w.files && w.files[c.path] == LastText(live[i + 1..], c.path, c.after) {
      TextAfterLater(w0, live, i, c);
    }
    MatchesInverse(w.files, live[i].files);
  }

  lemma MatchesInverse(files: Files, changes: seq<Change>)
    ensures Matches(files, Inverse(changes)) <==>
            forall c :: c in changes ==> c.path in files && files[c.path] == c.after
  {
    forall i | 0 <= i < |changes| ensures Inverse(changes)[i] in Inverse(changes) && changes[i] in changes {}
    if Matches(files, Inverse(changes)) {
      forall c | c in changes ensures c.path in files && files[c.path] == c.after {
        var i :| 0 <= i < |changes| && changes[i] == c;
        assert Holds(files, Inverse(changes)[i]);
      }
    }
  }

  /** The next commit to change a file found the text the one before wrote. */
  lemma FoundAsLeft(w0: World, live: seq<CommitEntry>, i: nat, j: nat, c: Change, d: Change)
    requires Fresh(w0, live) && Replay(w0, live).Some? && i < j < |live|
    requires c in live[i].files && d in live[j].files && c.path == d.path
    requires forall k :: i < k < j ==> !IsTarget(c.path, live[k].files)
    ensures d.before == c.after
  {
    StandsBefore(w0, live, j);
    var mid := Replay(w0, live[..j]).value;
    assert Holds(mid.files, d);
    TextAfterLater(w0, live[..j], i, c);
    assert live[..j][i + 1..] == live[i + 1..j];
    Untouching(live[i + 1..j], c.path, c.after);
  }

  lemma StandsBefore(w0: World, live: seq<CommitEntry>, j: nat)
    requires Fresh(w0, live) && Replay(w0, live).Some? && j < |live|
    ensures Fresh(w0, live[..j]) && Replay(w0, live[..j]).Some?
    ensures Matches(Replay(w0, live[..j]).value.files, live[j].files)
  {
    StandsAfter(w0, live, j);
  }

  /** A commit whose file exactly one later live commit changed is refused. */
  lemma RefusedAfterOneChange(w0: World, live: seq<CommitEntry>, i: nat, j: nat, c: Change, d: Change)
    requires Fresh(w0, live) && Replay(w0, live).Some? && i < j < |live|
    requires c in live[i].files && d in live[j].files && c.path == d.path
    requires forall k :: i < k < |live| && k != j ==> !IsTarget(c.path, live[k].files)
    ensures RollBack(Replay(w0, live).value, live[i].id).None?
  {
    FoundAsLeft(w0, live, i, j, c, d);
    TextAfterLater(w0, live, i, c);
    TextAfterLater(w0, live, j, d);
    Untouching(live[j + 1..], d.path, d.after);
    RollbackAcceptedExactly(w0, live, i);
  }

  lemma {:induction false} Untouching(later: seq<CommitEntry>, path: string, text: string)
    requires forall k :: 0 <= k < |later| ==> !IsTarget(path, later[k].files)
    ensures LastText(later, path, text) == text
  {
    if later != [] {
      Untouching(later[..|later| - 1], path, text);
    }
  }

  function OneChange(id: string, before: string, after: string): CommitEntry {
    CommitEntry(id, "", [Change("f", before, after)])
  }

  lemma OneChangeDone(w: World, id: string, before: string, after: string)
    requires w.files == map["f" := before] && before != after
    ensures CommitTo(w, OneChange(id, before, after)) ==
            Some(World(map["f" := after], w.journal[id := OneChange(id, before, after)]))
  {
    assert Holds(w.files, Change("f", before, after));
    assert w.files + After([Change("f", before, after)]) == map["f" := after];
  }

  lemma OneChangeUndone(w: World, id: string, before: string, after: string)
    requires id in w.journal && w.journal[id] == OneChange(id, before, after) && before != after
    requires "f" in w.files && w.files == map["f" := w.files["f"]]
    ensures RollBack(w, id) ==
            if w.files["f"] == after then Some(World(map["f" := before], w.journal - {id})) else None
  {
    var back := [Change("f", after, before)];
    assert Inverse([Change("f", before, after)]) == back;
    assert back[0] in back;
    assert w.files + After(back) == map["f" := before];
  }

  lemma ReplayNext(w: World, live: seq<CommitEntry>, e: CommitEntry)
    requires Replay(w, live).Some?
    ensures Replay(w, live + [e]) == CommitTo(Replay(w, live).value, e)
  {
    assert (live + [e])[..|live|] == live;
  }

  /**
   A commit whose file a still-live commit changed next can nevertheless be accepted: when a third one has put the text
   back. The later commits can then no longer be rolled back.
   */
  lemma AcceptedUnderLiveChange()
    ensures var w0 := World(map["f" := "A"], map[]);
            var live := ABCB();
            && Fresh(w0, live) && Replay(w0, live).Some?
            && var w := RollBack(Replay(w0, live).value, "1");
               && w.Some? && w.value.files == map["f" := "A"] && w.value.journal.Keys == {"2", "3"}
               && RollBack(w.value, "2").None? && RollBack(w.value, "3").None?
  {
    ABCBFresh();
    ABCBStands();
    ABCBFirstUndone();
    ABCBLaterStuck();
  }

  function ABCB(): seq<CommitEntry> {
    [OneChange("1", "A", "B"), OneChange("2", "B", "C"), OneChange("3", "C", "B")]
  }

  function ABCBDone(): World {
    World(map["f" := "B"], map["1" := ABCB()[0], "2" := ABCB()[1], "3" := ABCB()[2]])
  }

  function ABCBUndone(): World {
    World(map["f" := "A"], map["2" := ABCB()[1], "3" := ABCB()[2]])
  }

  lemma ABCBFirstUndone()
    ensures RollBack(ABCBDone(), "1") == Some(ABCBUndone())
  {
    OneChangeUndone(ABCBDone(), "1", "A", "B");
    assert ABCBDone().journal - {"1"} == ABCBUndone().journal;
  }

  lemma ABCBLaterStuck()
    ensures RollBack(ABCBUndone(), "2").None? && RollBack(ABCBUndone(), "3").None?
  {
    OneChangeUndone(ABCBUndone(), "2", "B", "C");
    OneChangeUndone(ABCBUndone(), "3", "C", "B");
  }

  lemma ABCBFresh()
    ensures Fresh(World(map["f" := "A"], map[]), ABCB())
  {
    assert forall i :: 0 <= i < 3 ==> |ABCB()[i].files| == 1;
    assert "1"[0] != "2"[0] && "1"[0] != "3"[0] && "2"[0] != "3"[0];
  }

  lemma ABCBStands()
    ensures Replay(World(map["f" := "A"], map[]), ABCB()) == Some(ABCBDone())
  {
    var w0 := World(map["f" := "A"], map[]);
    var e1, e2, e3 := ABCB()[0], ABCB()[1], ABCB()[2];
    var w1 := World(map["f" := "B"], map["1" := e1]);
    var w2 := World(map["f" := "C"], map["1" := e1, "2" := e2]);
    OneChangeDone(w0, "1", "A", "B");
    OneChangeDone(w1, "2", "B", "C");
    OneChangeDone(w2, "3", "C", "B");
    assert Replay(w0, []) == Some(w0);
    ReplayNext(w0, [], e1);
    assert [] + [e1] == [e1];
    ReplayNext(w0, [e1], e2);
    assert [e1] + [e2] == [e1, e2];
    ReplayNext(w0, [e1, e2], e3);
    assert [e1, e2] + [e3] == ABCB();
  }

  // ----- runs with rollbacks of any commits -----

  datatype Try = TryCommit(e: CommitEntry) | TryUndo(id: string)

  /** What was accepted, with what it was about. */
  datatype Done = Committed(e: CommitEntry) | Reverted(e: CommitEntry)

  /** The texts a step wrote. */
  function Wrote(d: Done): Files {
    match d
    case Committed(e) => After(e.files)
    case Reverted(e) => After(Inverse(e.files))
  }

  /** One step after the accepted ones `h`; refused, it changes nothing. */
  function TryOne(w: World, h: seq<Done>, step: Try): (World, seq<Done>) {
    match step
    case TryCommit(e) => (match CommitTo(w, e) case None => (w, h) case Some(v) => (v, h + [Committed(e)]))
    case TryUndo(id) => (match RollBack(w, id) case None => (w, h) case Some(v) => (v, h + [Reverted(w.journal[id])]))
  }

  function TryAll(w: World, h: seq<Done>, steps: seq<Try>): (World, seq<Done>)
    decreases |steps|
  {
    if steps == [] then (w, h) else var (v, g) := TryOne(w, h, steps[0]); TryAll(v, g, steps[1..])
  }

  /** The accepted steps since the commit `id`. */
  function Since(h: seq<Done>, id: string): seq<Done> {
    if h == [] then []
    else
      var n := |h| - 1;
      if h[n].Committed? && h[n].e.id == id then [] else Since(h[..n], id) + [h[n]]
  }

  /** What steps leave of a text: that of the last one to write the file. */
  function TextLeft(steps: seq<Done>, path: string, text: string): string {
    if steps == [] then text
    else
      var n := |steps| - 1;
      if path in Wrote(steps[n]) then Wrote(steps[n])[path] else TextLeft(steps[..n], path, text)
  }

  /** Each file of a commit of the run that is still in the journal holds what the steps since then left of its text. */
  ghost predicate Tracked(w0: World, w: World, h: seq<Done>) {
    && Sound(w.journal)
    && forall id, c :: id in w.journal && id !in w0.journal && c in w.journal[id].files ==>
         c.path in w.files && w.files[c.path] == TextLeft(Since(h, id), c.path, c.after)
  }

  lemma SinceOneMore(h: seq<Done>, d: Done, id: string)
    ensures Since(h + [d], id) == if d.Committed? && d.e.id == id then [] else Since(h, id) + [d]
  {
    assert (h + [d])[..|h|] == h;
  }

  lemma TextOneMore(steps: seq<Done>, d: Done, path: string, text: string)
    ensures TextLeft(steps + [d], path, text) == if path in Wrote(d) then Wrote(d)[path] else TextLeft(steps, path, text)
  {
    assert (steps + [d])[..|steps|] == steps;
  }

  lemma StepTracked(w0: World, w: World, h: seq<Done>, step: Try)
    requires Tracked(w0, w, h) && (step.TryCommit? ==> Recorded(step.e.files))
    ensures Tracked(w0, TryOne(w, h, step).0, TryOne(w, h, step).1)
  {
    var (v, g) := TryOne(w, h, step);
    if g != h {
      var d := g[|h|];
      assert v.files == w.files + Wrote(d) && g == h + [d];
      forall id, c | id in v.journal && id !in w0.journal && c in v.journal[id].files
        ensures c.path in v.files && v.files[c.path] == TextLeft(Since(g, id), c.path, c.after) {
        SinceOneMore(h, d, id);
        if d.Committed? && d.e.id == id {
          AfterAt(d.e.files, c);
        } else {
          TextOneMore(Since(h, id), d, c.path, c.after);
        }
      }
    }
  }

  lemma {:induction false} RunTracked(w0: World, w: World, h: seq<Done>, steps: seq<Try>)
    requires Tracked(w0, w, h) && forall i :: 0 <= i < |steps| && steps[i].TryCommit? ==> Recorded(steps[i].e.files)
    ensures Tracked(w0, TryAll(w, h, steps).0, TryAll(w, h, steps).1)
    decreases |steps|
  {
    if steps != [] {
      StepTracked(w0, w, h, steps[0]);
      var (v, g) := TryOne(w, h, steps[0]);
      RunTracked(w0, v, g, steps[1..]);
    }
  }

  /**
   After any run of commits and rollbacks in any order, accepted or refused, a commit of the run can be rolled back
   exactly when it is in the journal and the steps since then left, of each of its files, the text it wrote.
   */
  lemma AcceptedAfterAnyRun(w0: World, steps: seq<Try>, id: string)
    requires Sound(w0.journal) && id !in w0.journal
    requires forall i :: 0 <= i < |steps| && steps[i].TryCommit? ==> Recorded(steps[i].e.files)
    ensures var (w, h) := TryAll(w0, [], steps);
            RollBack(w, id).Some? <==>
            id in w.journal && forall c :: c in w.journal[id].files ==> TextLeft(Since(h, id), c.path, c.after) == c.after
  {
    RunTracked(w0, w0, [], steps);
    var (w, h) := TryAll(w0, [], steps);
    if id in w.journal {
      MatchesInverse(w.files, w.journal[id].files);
    }
  }

  // ----- disjoint commits -----

  function Both(w: World, a: string, b: string): Option<World> {
    match RollBack(w, a) case None => None case Some(v) => RollBack(v, b)
  }

  /** Rollbacks of commits without a common file commute, also in whether they are accepted. */
  lemma DisjointRollbacksCommute(w: World, a: string, b: string)
    requires a != b
    requires a in w.journal && b in w.journal ==>
               forall p :: !(IsTarget(p, w.journal[a].files) && IsTarget(p, w.journal[b].files))
    ensures Both(w, a, b) == Both(w, b, a)
  {
    if a in w.journal && b in w.journal {
      var x, y := Inverse(w.journal[a].files), Inverse(w.journal[b].files);
      forall p ensures !(IsTarget(p, x) && IsTarget(p, y)) {
        InverseTarget(w.journal[a].files, p);
        InverseTarget(w.journal[b].files, p);
      }
      Elsewhere(w.files, x, y);
      Elsewhere(w.files, y, x);
      Apart(w.files, x, y);
      ForgetBoth(w.journal, a, b);
    }
  }

  lemma Apart(files: Files, x: seq<Change>, y: seq<Change>)
    requires forall p :: !(IsTarget(p, x) && IsTarget(p, y))
    ensures files + After(x) + After(y) == files + After(y) + After(x)
  {
    forall p ensures SameAt(files + After(x) + After(y), files + After(y) + After(x), p) {
      assert p in After(x) ==> IsTarget(p, x);
      assert p in After(y) ==> IsTarget(p, y);
    }
    SameEverywhere(files + After(x) + After(y), files + After(y) + After(x));
  }

  lemma ForgetBoth(journal: map<string, CommitEntry>, a: string, b: string)
    ensures journal - {a} - {b} == journal - {b} - {a}
  {}

  lemma Elsewhere(files: Files, x: seq<Change>, y: seq<Change>)
    requires forall p :: !(IsTarget(p, x) && IsTarget(p, y))
    ensures Matches(files + After(x), y) <==> Matches(files, y)
  {
    forall c | c in y ensures c.path !in After(x) {
      assert IsTarget(c.path, y);
    }
    assert forall c :: c in y ==> (Holds(files + After(x), c) <==> Holds(files, c));
  }
}
