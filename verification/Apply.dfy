/**
 The transactional apply of crates/aa-core/src/apply.rs over a file map in which any call may fail.
 Paths are normalised, so that different strings are different files; one writer.
 */
module Apply {
  import opened Wrappers

  type Files = map<string, string>

  // ----- the disk -----

  /** What the surroundings do to one call: let it through, refuse it, or break it off having left `content`. */
  datatype Fate = Works | Fails | BreaksOff(content: string)

  datatype Op = Read | Write | Rename | Remove

  /** A finished call: its path (the target of a rename), its fate and the file map it left. */
  datatype Event = Event(op: Op, path: string, fate: Fate, files: Files)

  class FileSystem {
    const fates: nat -> Fate
    var files: Files
    var calls: nat
    ghost var log: seq<Event>

    constructor (files: Files, fates: nat -> Fate)
      ensures this.files == files && this.fates == fates && log == []
    {
      this.files, this.fates, calls, log := files, fates, 0, [];
    }

    /** `fs::read_to_string`: fails on a missing file. */
    method Read(path: string) returns (r: Option<string>)
      modifies this`calls, this`log
      ensures var fate := fates(old(calls));
              && log == old(log) + [Event(Op.Read, path, fate, files)]
              && r == if fate.Works? && path in files then Some(files[path]) else None
    {
      r := if fates(calls).Works? && path in files then Some(files[path]) else None;
      log := log + [Event(Op.Read, path, fates(calls), files)];
      calls := calls + 1;
    }

    /** `fs::write`: a write that breaks off leaves what it got to. */
    method Write(path: string, content: string) returns (ok: bool)
      modifies this
      ensures var fate := fates(old(calls));
              && log == old(log) + [Event(Op.Write, path, fate, files)] && ok == fate.Works?
              && files == Written(old(files), path, content, fate)
    {
      files := Written(files, path, content, fates(calls));
      ok := fates(calls).Works?;
      log := log + [Event(Op.Write, path, fates(calls), files)];
      calls := calls + 1;
    }

    /** `fs::rename`: atomic, so it happens or it does not. */
    method Rename(from: string, to: string) returns (ok: bool)
      modifies this
      ensures var fate := fates(old(calls));
              && log == old(log) + [Event(Op.Rename, to, fate, files)]
              && ok == (fate.Works? && from in old(files))
              && files == if ok then (old(files) - {from})[to := old(files)[from]] else old(files)
    {
      ok := fates(calls).Works? && from in files;
      if ok {
        files := (files - {from})[to := files[from]];
      }
      log := log + [Event(Op.Rename, to, fates(calls), files)];
      calls := calls + 1;
    }

    /** `fs::remove_file`, its outcome ignored. */
    method Remove(path: string)
      modifies this
      ensures var fate := fates(old(calls));
              && log == old(log) + [Event(Op.Remove, path, fate, files)]
              && files == if fate.Works? then old(files) - {path} else old(files)
    {
      if fates(calls).Works? {
        files := files - {path};
      }
      log := log + [Event(Op.Remove, path, fates(calls), files)];
      calls := calls + 1;
    }
  }

  function Written(files: Files, path: string, content: string, fate: Fate): Files {
    match fate
    case Works => files[path := content]
    case Fails => files
    case BreaksOff(partial) => files[path := partial]
  }

  // ----- what is to be changed -----

  /** An entry of the shadow map; the map is handed over in the order it iterates in. */
  datatype Entry = Entry(path: string, text: string)

  datatype Change = Change(path: string, before: string, after: string)

  predicate DistinctEntries(shadow: seq<Entry>) {
    forall i, j :: 0 <= i < j < |shadow| ==> shadow[i].path != shadow[j].path
  }

  predicate DistinctPaths(changes: seq<Change>) {
    forall i, j :: 0 <= i < j < |changes| ==> changes[i].path != changes[j].path
  }

  /** The shadow entries that have an original and differ from it. */
  function Targets(shadow: seq<Entry>, original: Files): (changes: seq<Change>)
    ensures forall c :: c in changes ==>
                          Entry(c.path, c.after) in shadow && c.path in original && original[c.path] == c.before != c.after
    ensures forall e :: e in shadow && e.path in original && original[e.path] != e.text ==>
                          Change(e.path, original[e.path], e.text) in changes
  {
    if shadow == [] then []
    else
      var e := shadow[|shadow| - 1];
      Targets(shadow[..|shadow| - 1], original)
      + if e.path in original && original[e.path] != e.text then [Change(e.path, original[e.path], e.text)] else []
  }

  lemma {:induction false} TargetsDistinct(shadow: seq<Entry>, original: Files)
    requires DistinctEntries(shadow)
    ensures DistinctPaths(Targets(shadow, original))
  {
    if shadow != [] {
      var n := |shadow| - 1;
      TargetsDistinct(shadow[..n], original);
      var init := Targets(shadow[..n], original);
      forall i | 0 <= i < |init| ensures init[i].path != shadow[n].path {
        assert init[i] in init;
        var k :| 0 <= k < n && shadow[..n][k] == Entry(init[i].path, init[i].after);
      }
    }
  }

  predicate Holds(files: Files, c: Change) {
    c.path in files && files[c.path] == c.before
  }

  /** Every file still reads as it did when the change was made up. */
  predicate Matches(files: Files, changes: seq<Change>) {
    forall c :: c in changes ==> Holds(files, c)
  }

  /** The new texts by path. */
  function After(changes: seq<Change>): (m: Files)
    ensures forall p :: p in m ==> exists c :: c in changes && c.path == p && c.after == m[p]
    ensures forall c :: c in changes ==> c.path in m
  {
    if changes == [] then map[]
    else
      var c := changes[|changes| - 1];
      After(changes[..|changes| - 1])[c.path := c.after]
  }

  lemma AfterAt(changes: seq<Change>, c: Change)
    requires DistinctPaths(changes) && c in changes
    ensures After(changes)[c.path] == c.after
  {}

  function TextLength(changes: seq<Change>): nat {
    if changes == [] then 0 else TextLength(changes[..|changes| - 1]) + |changes[|changes| - 1].after|
  }

  function TmpFor(target: string, nonce: string): string {
    target + (".aa-tmp-" + nonce)
  }

  /** The nonce is fresh: no temporary name is taken. */
  predicate FreshNonce(files: Files, changes: seq<Change>, nonce: string) {
    forall c :: c in changes ==> TmpFor(c.path, nonce) !in files
  }

  // ----- what a run of calls kept -----

  predicate IsTarget(path: string, changes: seq<Change>) {
    exists c :: c in changes && c.path == path
  }

  predicate IsTmp(path: string, changes: seq<Change>, nonce: string) {
    exists c :: c in changes && TmpFor(c.path, nonce) == path
  }

  /** Writing to a target in place, which only restoring does. */
  predicate IsRestore(e: Event, changes: seq<Change>) {
    e.op.Write? && IsTarget(e.path, changes)
  }

  /** No restoring or cleaning call was refused or broken off. */
  predicate RepairsWork(run: seq<Event>, changes: seq<Change>) {
    forall e :: e in run && (IsRestore(e, changes) || e.op.Remove?) ==> e.fate.Works?
  }

  /** Every target holds wholly its old or wholly its new text. */
  predicate Whole(files: Files, changes: seq<Change>) {
    forall c :: c in changes ==> c.path in files && (files[c.path] == c.before || files[c.path] == c.after)
  }

  predicate SameAt(start: Files, files: Files, p: string) {
    (p in files <==> p in start) && (p in start ==> p in files && files[p] == start[p])
  }

  /** Only targets and temporary files differ from the start. */
  ghost predicate OthersUntouched(start: Files, files: Files, changes: seq<Change>, nonce: string) {
    forall p :: !IsTarget(p, changes) && !IsTmp(p, changes, nonce) ==> SameAt(start, files, p)
  }

  predicate NoRestore(run: seq<Event>, changes: seq<Change>) {
    forall e :: e in run ==> !IsRestore(e, changes)
  }

  /** After every call other files are untouched, and until the first restoring call every target is whole. */
  ghost predicate Careful(start: Files, run: seq<Event>, changes: seq<Change>, nonce: string) {
    && (forall e :: e in run ==> OthersUntouched(start, e.files, changes, nonce))
    && (forall i :: 0 <= i < |run| && NoRestore(run[..i + 1], changes) ==> Whole(run[i].files, changes))
  }

  predicate OnlyReads(run: seq<Event>) {
    forall e :: e in run ==> e.op.Read?
  }

  /** Nothing was refused or broken off. */
  predicate Calm(run: seq<Event>) {
    forall e :: e in run ==> e.fate.Works?
  }

  /** Call `k` is the first that did not go through. */
  predicate FailsFirst(run: seq<Event>, k: nat) {
    k < |run| && !run[k].fate.Works? && Calm(run[..k])
  }

  /** A careful run that has come to `files`. */
  ghost predicate Reached(start: Files, run: seq<Event>, files: Files, changes: seq<Change>, nonce: string) {
    && Careful(start, run, changes, nonce)
    && OthersUntouched(start, files, changes, nonce)
    && (NoRestore(run, changes) ==> Whole(files, changes))
  }

  lemma ReachedSnoc(start: Files, run: seq<Event>, e: Event, changes: seq<Change>, nonce: string)
    requires Careful(start, run, changes, nonce)
    requires OthersUntouched(start, e.files, changes, nonce)
    requires NoRestore(run + [e], changes) ==> Whole(e.files, changes)
    ensures Reached(start, run + [e], e.files, changes, nonce)
  {
    var all := run + [e];
    forall i | 0 <= i < |all| && NoRestore(all[..i + 1], changes) ensures Whole(all[i].files, changes) {
      if i < |run| {
        assert all[..i + 1] == run[..i + 1];
      } else {
        assert all[..i + 1] == all;
      }
    }
  }

  datatype ApplyError = Unreadable(path: string) | Changed(path: string) | Io(path: string) | RolledBack(path: string)

  datatype Outcome = Outcome(filesWritten: nat, bytesWritten: nat)

  // ----- preflight and backup -----

  ghost predicate Untouched(start: Files, run: seq<Event>) {
    OnlyReads(run) && forall e :: e in run ==> e.files == start
  }

  /** Target `i` is the first that does not read as it did, and the error names it. */
  ghost predicate Drifts(files: Files, run: seq<Event>, targets: seq<Change>, i: nat, error: ApplyError) {
    && i < |targets| && |run| == i + 1 && Calm(run[..i]) && (forall k :: 0 <= k < i ==> Holds(files, targets[k]))
    && error.path == targets[i].path
    && match error
       case Unreadable(path) => path !in files || !run[i].fate.Works?
       case Changed(path) => path in files && run[i].fate.Works? && files[path] != targets[i].before
       case _ => false
  }

  /** The first target that does not read as it did is reported; undisturbed, nothing else is. */
  method Preflight(fs: FileSystem, targets: seq<Change>) returns (r: Option<ApplyError>, ghost run: seq<Event>)
    modifies fs`calls, fs`log
    ensures fs.log == old(fs.log) + run && Untouched(fs.files, run)
    ensures r.None? ==> Matches(fs.files, targets) && |run| == |targets| && Calm(run)
    ensures r.Some? ==> (r.value.Unreadable? || r.value.Changed?) && (Calm(run) ==> !Matches(fs.files, targets))
    ensures r.Some? ==> exists i :: Drifts(fs.files, run, targets, i, r.value)
  {
    run := [];
    for i := 0 to |targets|
      invariant fs.log == old(fs.log) + run && Untouched(fs.files, run)
      invariant Matches(fs.files, targets[..i]) && |run| == i && Calm(run)
    {
      var onDisk := fs.Read(targets[i].path);
      ghost var calm := run;
      run := run + [fs.log[|fs.log| - 1]];
      assert run[..i] == calm && forall k :: 0 <= k < i ==> targets[..i][k] == targets[k];
      if onDisk.None? {
        assert targets[i] in targets;
        assert run[|run| - 1] in run;
        assert Drifts(fs.files, run, targets, i, Unreadable(targets[i].path));
        return Some(Unreadable(targets[i].path)), run;
      }
      if onDisk.value != targets[i].before {
        assert targets[i] in targets;
        assert Drifts(fs.files, run, targets, i, Changed(targets[i].path));
        return Some(Changed(targets[i].path)), run;
      }
      assert targets[..i + 1] == targets[..i] + [targets[i]];
    }
    assert targets[..|targets|] == targets;
    r := None;
  }

  ghost predicate BacksUp(backups: seq<Entry>, targets: seq<Change>) {
    |backups| == |targets| && forall i :: 0 <= i < |targets| ==> backups[i] == Entry(targets[i].path, targets[i].before)
  }

  method Backup(fs: FileSystem, targets: seq<Change>) returns (r: Result<seq<Entry>, ApplyError>, ghost run: seq<Event>)
    requires Matches(fs.files, targets)
    modifies fs`calls, fs`log
    ensures fs.log == old(fs.log) + run && Untouched(fs.files, run)
    ensures r.Success? ==> BacksUp(r.value, targets) && |run| == |targets| && Calm(run)
    ensures r.Failure? ==> r.error.Io? && !Calm(run)
    ensures r.Failure? ==> exists i :: 0 <= i < |targets| && r.error.path == targets[i].path && FailsFirst(run, i)
  {
    run := [];
    var backups := [];
    for i := 0 to |targets|
      invariant fs.log == old(fs.log) + run && Untouched(fs.files, run)
      invariant BacksUp(backups, targets[..i]) && |run| == i && Calm(run)
    {
      assert Holds(fs.files, targets[i]);
      var bytes := fs.Read(targets[i].path);
      ghost var calm := run;
      run := run + [fs.log[|fs.log| - 1]];
      if bytes.None? {
        assert run[|run| - 1] in run;
        assert run[..i] == calm && FailsFirst(run, i);
        return Failure(Io(targets[i].path)), run;
      }
      backups := backups + [Entry(targets[i].path, bytes.value)];
    }
    r := Success(backups);
  }

  // ----- rolling back -----

  function Inverse(changes: seq<Change>): (r: seq<Change>)
    ensures |r| == |changes|
    ensures forall i :: 0 <= i < |changes| ==> r[i] == Change(changes[i].path, changes[i].after, changes[i].before)
  {
    seq(|changes|, i requires 0 <= i < |changes| => Change(changes[i].path, changes[i].after, changes[i].before))
  }

  method Lookup(backups: seq<Entry>) returns (m: Files)
    requires DistinctEntries(backups)
    ensures forall b :: b in backups ==> b.path in m && m[b.path] == b.text
  {
    m := map[];
    for i := 0 to |backups|
      invariant forall j :: 0 <= j < i ==> backups[j].path in m && m[backups[j].path] == backups[j].text
    {
      m := m[backups[i].path := backups[i].text];
    }
  }

  ghost predicate OnlyTargetsDiffer(start: Files, files: Files, changes: seq<Change>) {
    forall p :: !IsTarget(p, changes) ==> SameAt(start, files, p)
  }

  /** Nothing but restoring calls, which touch nothing but targets. */
  ghost predicate Restoring(start: Files, run: seq<Event>, changes: seq<Change>) {
    forall e :: e in run ==> IsRestore(e, changes) && OnlyTargetsDiffer(start, e.files, changes)
  }

  lemma RestoringSnoc(start: Files, run: seq<Event>, e: Event, changes: seq<Change>)
    requires Restoring(start, run, changes)
    requires IsRestore(e, changes) && OnlyTargetsDiffer(start, e.files, changes)
    ensures Restoring(start, run + [e], changes)
    ensures RepairsWork(run + [e], changes) <==> RepairsWork(run, changes) && e.fate.Works?
  {}

  /** The paths written so far. */
  ghost predicate AreFirst(written: seq<string>, targets: seq<Change>) {
    |written| <= |targets| && forall i :: 0 <= i < |written| ==> written[i] == targets[i].path
  }

  /**
   `rollback`: writes the old text over every target written so far. When no write is disturbed the targets hold
   their old texts again; in any case nothing else is touched.
   */
  method Restore(fs: FileSystem, written: seq<string>, backups: seq<Entry>, ghost targets: seq<Change>)
    returns (ghost run: seq<Event>)
    requires BacksUp(backups, targets) && DistinctPaths(targets)
    requires AreFirst(written, targets)
    modifies fs
    ensures fs.log == old(fs.log) + run && |run| == |written|
    ensures Restoring(old(fs.files), run, targets) && OnlyTargetsDiffer(old(fs.files), fs.files, targets)
    ensures RepairsWork(run, targets) ==> fs.files == old(fs.files) + After(Inverse(targets[..|written|]))
  {
    run := [];
    var lookup := Lookup(backups);
    assert targets[..0] == [];
    for i := 0 to |written|
      invariant fs.log == old(fs.log) + run && |run| == i
      invariant Restoring(old(fs.files), run, targets) && OnlyTargetsDiffer(old(fs.files), fs.files, targets)
      invariant RepairsWork(run, targets) ==> fs.files == old(fs.files) + After(Inverse(targets[..i]))
    {
      assert backups[i] in backups && backups[i].path == written[i] == targets[i].path;
      if written[i] in lookup {
        ghost var e := RestoreOne(fs, written[i], lookup[written[i]], targets, i);
        RestoringSnoc(old(fs.files), run, e, targets);
        AfterInverseSnoc(targets, i);
        PlusUpdate(old(fs.files), After(Inverse(targets[..i])), targets[i].path, targets[i].before);
        LogSnoc(old(fs.log), run, e);
        run := run + [e];
      }
    }
  }

  method RestoreOne(fs: FileSystem, path: string, text: string, ghost targets: seq<Change>, ghost i: nat)
    returns (ghost e: Event)
    requires i < |targets| && targets[i].path == path && targets[i].before == text
    modifies fs
    ensures fs.log == old(fs.log) + [e] && e.files == fs.files && IsRestore(e, targets)
    ensures forall start :: OnlyTargetsDiffer(start, old(fs.files), targets) ==> OnlyTargetsDiffer(start, fs.files, targets)
    ensures e.fate.Works? ==> fs.files == old(fs.files)[targets[i].path := targets[i].before]
  {
    assert targets[i] in targets;
    ghost var ok := fs.Write(path, text);
    e := fs.log[|fs.log| - 1];
  }

  lemma LogSnoc(log: seq<Event>, run: seq<Event>, e: Event)
    ensures log + run + [e] == log + (run + [e])
  {}

  lemma PlusUpdate(m: Files, n: Files, path: string, text: string)
    ensures (m + n)[path := text] == m + n[path := text]
  {}

  lemma AfterInverseSnoc(targets: seq<Change>, i: nat)
    requires i < |targets|
    ensures After(Inverse(targets[..i + 1])) == After(Inverse(targets[..i]))[targets[i].path := targets[i].before]
  {
    assert Inverse(targets[..i + 1])[..i] == Inverse(targets[..i]);
  }

  lemma InverseTarget(changes: seq<Change>, p: string)
    ensures IsTarget(p, Inverse(changes)) <==> IsTarget(p, changes)
  {}

  /** The old texts are those of the start. */
  lemma OldTexts(start: Files, changes: seq<Change>, p: string)
    requires Matches(start, changes) && p in After(Inverse(changes))
    ensures p in start && After(Inverse(changes))[p] == start[p]
  {
    var inverse := Inverse(changes);
    var d :| d in inverse && d.path == p && d.after == After(inverse)[p];
    var i :| 0 <= i < |inverse| && inverse[i] == d;
    assert changes[i] in changes && Holds(start, changes[i]);
  }

  /** Writing the old texts back over the new ones gives the start. */
  lemma Undone(start: Files, done: seq<Change>)
    requires Matches(start, done)
    ensures start + After(done) + After(Inverse(done)) == start
  {
    var back := After(Inverse(done));
    forall p ensures SameAt(start, start + After(done) + back, p) {
      InverseTarget(done, p);
      if p in back {
        OldTexts(start, done, p);
      }
    }
    SameEverywhere(start, start + After(done) + back);
  }

  lemma SameEverywhere(m: Files, n: Files)
    requires forall p :: SameAt(m, n, p)
    ensures m == n
  {
    forall p ensures p in m <==> p in n {
      assert SameAt(m, n, p);
    }
    forall p | p in m ensures m[p] == n[p] {
      assert SameAt(m, n, p);
    }
  }

  // ----- writing -----

  /** What the loop has reached when `i` targets are written. */
  ghost function Stage(start: Files, targets: seq<Change>, i: nat): Files
    requires i <= |targets|
  {
    start + After(targets[..i])
  }

  lemma StageWhole(start: Files, targets: seq<Change>, i: nat)
    requires i <= |targets| && Matches(start, targets) && DistinctPaths(targets)
    ensures Whole(Stage(start, targets, i), targets)
    ensures forall p :: !IsTarget(p, targets) ==> SameAt(start, Stage(start, targets, i), p)
  {}

  lemma StageNext(start: Files, targets: seq<Change>, i: nat)
    requires i < |targets|
    ensures Stage(start, targets, i + 1) == Stage(start, targets, i)[targets[i].path := targets[i].after]
  {
    assert targets[..i + 1][..i] == targets[..i];
  }

  lemma TakeAwayFirst(m: Files, n: Files, p: string)
    requires p !in n
    ensures (m + n) - {p} == (m - {p}) + n
  {}

  /** Taking away one temporary file and putting the old texts back gives the start, in either order. */
  lemma CleanedUp(start: Files, files: Files, targets: seq<Change>, i: nat, tmp: string)
    requires i <= |targets| && Matches(start, targets) && !IsTarget(tmp, targets)
    requires files - {tmp} == Stage(start, targets, i)
    ensures (files + After(Inverse(targets[..i]))) - {tmp} == start
    ensures (files - {tmp}) + After(Inverse(targets[..i])) == start
  {
    InverseTarget(targets[..i], tmp);
    assert IsTarget(tmp, targets[..i]) ==> IsTarget(tmp, targets);
    TakeAwayFirst(files, After(Inverse(targets[..i])), tmp);
    Undone(start, targets[..i]);
  }

  lemma RepairsConcat(a: seq<Event>, b: seq<Event>, changes: seq<Change>)
    ensures RepairsWork(a + b, changes) <==> RepairsWork(a, changes) && RepairsWork(b, changes)
    ensures Calm(a + b) <==> Calm(a) && Calm(b)
  {}

  lemma LogConcat(base: seq<Event>, a: seq<Event>, b: seq<Event>)
    ensures base + a + b == base + (a + b)
  {}

  lemma ReachedRestoring(start: Files, run: seq<Event>, files: Files, more: seq<Event>, end: Files, changes: seq<Change>,
                         nonce: string)
    requires Reached(start, run, files, changes, nonce)
    requires Restoring(files, more, changes) && OnlyTargetsDiffer(files, end, changes)
    requires more == [] ==> end == files
    ensures Reached(start, run + more, end, changes, nonce)
  {
    var all := run + more;
    assert forall e :: e in all <==> e in run || e in more;
    forall e | e in more ensures OthersUntouched(start, e.files, changes, nonce) {
    }
    forall i | 0 <= i < |all| && NoRestore(all[..i + 1], changes) ensures Whole(all[i].files, changes) {
      if i < |run| {
        assert all[..i + 1] == run[..i + 1];
      }
    }
    assert more != [] ==> more[0] in more && more[0] in all && !NoRestore(all, changes);
    assert more == [] ==> all == run;
  }

  /** `tmp` is the temporary file of target `i` and no other file's name. */
  ghost predicate TmpOf(start: Files, targets: seq<Change>, i: nat, tmp: string, nonce: string) {
    && i < |targets| && tmp == TmpFor(targets[i].path, nonce)
    && tmp !in start && !IsTarget(tmp, targets) && IsTmp(tmp, targets, nonce)
  }

  lemma TmpIsFree(start: Files, targets: seq<Change>, i: nat, nonce: string)
    requires i < |targets| && Matches(start, targets) && FreshNonce(start, targets, nonce)
    ensures TmpOf(start, targets, i, TmpFor(targets[i].path, nonce), nonce)
  {}

  lemma TmpNotStaged(start: Files, targets: seq<Change>, i: nat, tmp: string)
    requires i <= |targets| && tmp !in start && !IsTarget(tmp, targets)
    ensures tmp !in Stage(start, targets, i)
  {}

  lemma WrittenAside(m: Files, tmp: string, text: string, fate: Fate)
    requires tmp !in m
    ensures Written(m, tmp, text, fate) - {tmp} == m
  {}

  lemma RenamedOver(m: Files, tmp: string, path: string, text: string)
    requires tmp !in m && tmp != path
    ensures (m[tmp := text] - {tmp})[path := text] == m[path := text]
  {}

  lemma AreFirstSnoc(written: seq<string>, targets: seq<Change>)
    requires AreFirst(written, targets) && |written| < |targets|
    ensures AreFirst(written + [targets[|written|].path], targets)
  {}

  lemma TextLengthNext(targets: seq<Change>, i: nat)
    requires i < |targets|
    ensures TextLength(targets[..i + 1]) == TextLength(targets[..i]) + |targets[i].after|
  {
    assert targets[..i + 1][..i] == targets[..i];
  }

  lemma NoRestoreSnoc(run: seq<Event>, e: Event, changes: seq<Change>)
    ensures NoRestore(run + [e], changes) <==> NoRestore(run, changes) && !IsRestore(e, changes)
  {}

  lemma Extends(run0: seq<Event>, more: seq<Event>, run: seq<Event>)
    requires run0 + more <= run
    ensures run0 <= run
  {}

  lemma FirstFailure(run0: seq<Event>, run: seq<Event>)
    requires Calm(run0) && run0 <= run && |run| == |run0| + 1 && !run[|run0|].fate.Works?
    ensures FailsFirst(run, |run0|)
  {
    assert run[..|run0|] == run0;
  }

  lemma OneMoreWorks(run0: seq<Event>, run: seq<Event>)
    requires Calm(run0) && run0 <= run && |run| == |run0| + 1 && run[|run0|].fate.Works?
    ensures Calm(run)
  {
    assert run == run0 + [run[|run0|]];
  }

  lemma FailureStays(run0: seq<Event>, run: seq<Event>, k: nat)
    requires FailsFirst(run0, k) && run0 <= run
    ensures FailsFirst(run, k)
  {
    assert run[..k] == run0[..k];
  }

  lemma FailsLater(calm: seq<Event>, run: seq<Event>, k: nat)
    requires Calm(calm) && FailsFirst(run, k)
    ensures FailsFirst(calm + run, |calm| + k)
  {
    assert (calm + run)[..|calm| + k] == calm + run[..k];
  }

  /** A failed temporary write: restore, then remove what it may have left. */
  method UndoTmp(fs: FileSystem, written: seq<string>, backups: seq<Entry>, tmpPath: string, ghost start: Files,
                 ghost targets: seq<Change>, ghost nonce: string, ghost base: seq<Event>, ghost run0: seq<Event>)
    returns (ghost run: seq<Event>)
    requires fs.log == base + run0 && Reached(start, run0, fs.files, targets, nonce)
    requires Matches(start, targets) && DistinctPaths(targets) && BacksUp(backups, targets)
    requires AreFirst(written, targets)
    requires IsTmp(tmpPath, targets, nonce) && !IsTarget(tmpPath, targets)
    requires fs.files - {tmpPath} == Stage(start, targets, |written|)
    modifies fs
    ensures fs.log == base + run && Reached(start, run, fs.files, targets, nonce)
    ensures run0 <= run && (Calm(run) ==> Calm(run0))
    ensures RepairsWork(run, targets) ==> fs.files == start
  {
    CleanedUp(start, fs.files, targets, |written|, tmpPath);
    ghost var more := Restore(fs, written, backups, targets);
    ReachedRestoring(start, run0, old(fs.files), more, fs.files, targets, nonce);
    LogConcat(base, run0, more);
    RepairsConcat(run0, more, targets);
    run := RemoveTmp(fs, tmpPath, start, targets, nonce, base, run0 + more);
    Extends(run0, more, run);
  }

  /** A failed rename: remove the temporary file, then restore. */
  method UndoRename(fs: FileSystem, written: seq<string>, backups: seq<Entry>, tmpPath: string, ghost start: Files,
                    ghost targets: seq<Change>, ghost nonce: string, ghost base: seq<Event>, ghost run0: seq<Event>)
    returns (ghost run: seq<Event>)
    requires fs.log == base + run0 && Reached(start, run0, fs.files, targets, nonce)
    requires Matches(start, targets) && DistinctPaths(targets) && BacksUp(backups, targets)
    requires AreFirst(written, targets)
    requires IsTmp(tmpPath, targets, nonce) && !IsTarget(tmpPath, targets)
    requires fs.files - {tmpPath} == Stage(start, targets, |written|)
    modifies fs
    ensures fs.log == base + run && Reached(start, run, fs.files, targets, nonce)
    ensures run0 <= run && (Calm(run) ==> Calm(run0))
    ensures RepairsWork(run, targets) ==> fs.files == start
  {
    CleanedUp(start, fs.files, targets, |written|, tmpPath);
    ghost var cleaned := RemoveTmp(fs, tmpPath, start, targets, nonce, base, run0);
    ghost var files := fs.files;
    ghost var more := Restore(fs, written, backups, targets);
    ReachedRestoring(start, cleaned, files, more, fs.files, targets, nonce);
    LogConcat(base, cleaned, more);
    RepairsConcat(cleaned, more, targets);
    run := cleaned + more;
  }

  method RemoveTmp(fs: FileSystem, tmpPath: string, ghost start: Files, ghost targets: seq<Change>, ghost nonce: string,
                   ghost base: seq<Event>, ghost run0: seq<Event>)
    returns (ghost run: seq<Event>)
    requires fs.log == base + run0 && Reached(start, run0, fs.files, targets, nonce)
    requires IsTmp(tmpPath, targets, nonce) && !IsTarget(tmpPath, targets)
    modifies fs
    ensures fs.log == base + run && Reached(start, run, fs.files, targets, nonce)
    ensures run0 <= run && (Calm(run) ==> Calm(run0))
    ensures RepairsWork(run, targets) ==> RepairsWork(run0, targets) && fs.files == old(fs.files) - {tmpPath}
  {
    fs.Remove(tmpPath);
    ghost var e := fs.log[|fs.log| - 1];
    assert NoRestore(run0 + [e], targets) ==> NoRestore(run0, targets) by {
      assert forall d :: d in run0 ==> d in run0 + [e];
    }
    ReachedSnoc(start, run0, e, targets, nonce);
    LogConcat(base, run0, [e]);
    RepairsConcat(run0, [e], targets);
    assert e in [e];
    run := run0 + [e];
  }

  method WriteTmp(fs: FileSystem, tmpPath: string, text: string, ghost start: Files, ghost targets: seq<Change>,
                  ghost i: nat, ghost nonce: string, ghost base: seq<Event>, ghost run0: seq<Event>)
    returns (ok: bool, ghost run: seq<Event>)
    requires fs.log == base + run0 && Reached(start, run0, fs.files, targets, nonce)
    requires TmpOf(start, targets, i, tmpPath, nonce)
    requires fs.files == Stage(start, targets, i)
    modifies fs
    ensures fs.log == base + run && Reached(start, run, fs.files, targets, nonce)
    ensures fs.files - {tmpPath} == Stage(start, targets, i)
    ensures if ok then fs.files == Stage(start, targets, i)[tmpPath := text] else !Calm(run)
    ensures run0 <= run && |run| == |run0| + 1 && (ok <==> run[|run0|].fate.Works?)
  {
    TmpNotStaged(start, targets, i, tmpPath);
    ok := fs.Write(tmpPath, text);
    ghost var e := fs.log[|fs.log| - 1];
    run := run0 + [e];
    assert e in run;
    WrittenAside(old(fs.files), tmpPath, text, e.fate);
    NoRestoreSnoc(run0, e, targets);
    ReachedSnoc(start, run0, e, targets, nonce);
    LogSnoc(base, run0, e);
  }

  method RenameTmp(fs: FileSystem, tmpPath: string, path: string, ghost start: Files, ghost targets: seq<Change>,
                   ghost i: nat, ghost nonce: string, ghost base: seq<Event>, ghost run0: seq<Event>)
    returns (ok: bool, ghost run: seq<Event>)
    requires fs.log == base + run0 && Reached(start, run0, fs.files, targets, nonce)
    requires TmpOf(start, targets, i, tmpPath, nonce) && path == targets[i].path
    requires Matches(start, targets) && DistinctPaths(targets)
    requires fs.files == Stage(start, targets, i)[tmpPath := targets[i].after]
    modifies fs
    ensures fs.log == base + run && Reached(start, run, fs.files, targets, nonce)
    ensures if ok then fs.files == Stage(start, targets, i + 1)
            else fs.files - {tmpPath} == Stage(start, targets, i) && !Calm(run)
    ensures run0 <= run && |run| == |run0| + 1 && (ok <==> run[|run0|].fate.Works?)
  {
    TmpNotStaged(start, targets, i, tmpPath);
    ok := fs.Rename(tmpPath, path);
    ghost var e := fs.log[|fs.log| - 1];
    run := run0 + [e];
    assert e in run && targets[i] in targets;
    RenamedOver(Stage(start, targets, i), tmpPath, path, targets[i].after);
    WrittenAside(Stage(start, targets, i), tmpPath, targets[i].after, Works);
    StageNext(start, targets, i);
    StageWhole(start, targets, i + 1);
    NoRestoreSnoc(run0, e, targets);
    ReachedSnoc(start, run0, e, targets, nonce);
    LogSnoc(base, run0, e);
  }

  /** The first half of a target: its temporary file is written, or everything is back at the start. */
  method StageTarget(fs: FileSystem, i: nat, targets: seq<Change>, written: seq<string>, backups: seq<Entry>, tmpPath: string,
                     nonce: string, ghost start: Files, ghost base: seq<Event>, ghost run0: seq<Event>)
    returns (ok: bool, ghost run: seq<Event>)
    requires TmpOf(start, targets, i, tmpPath, nonce) && Matches(start, targets) && DistinctPaths(targets)
    requires BacksUp(backups, targets) && AreFirst(written, targets) && |written| == i
    requires fs.log == base + run0 && Reached(start, run0, fs.files, targets, nonce)
    requires fs.files == Stage(start, targets, i) && |run0| == 2 * i && Calm(run0)
    modifies fs
    ensures fs.log == base + run && Reached(start, run, fs.files, targets, nonce)
    ensures ok ==> fs.files == Stage(start, targets, i)[tmpPath := targets[i].after] && |run| == 2 * i + 1 && Calm(run)
    ensures !ok ==> FailsFirst(run, 2 * i) && (RepairsWork(run, targets) ==> fs.files == start)
  {
    ok, run := WriteTmp(fs, tmpPath, targets[i].after, start, targets, i, nonce, base, run0);
    if ok {
      OneMoreWorks(run0, run);
    } else {
      ghost var wrote := run;
      FirstFailure(run0, wrote);
      run := UndoTmp(fs, written, backups, tmpPath, start, targets, nonce, base, run);
      FailureStays(wrote, run, |run0|);
    }
  }

  /** The second half: the temporary file takes the place of the target, or everything is back at the start. */
  method SwapTarget(fs: FileSystem, i: nat, targets: seq<Change>, written: seq<string>, backups: seq<Entry>, tmpPath: string,
                    nonce: string, ghost start: Files, ghost base: seq<Event>, ghost run0: seq<Event>)
    returns (ok: bool, ghost run: seq<Event>)
    requires TmpOf(start, targets, i, tmpPath, nonce) && Matches(start, targets) && DistinctPaths(targets)
    requires BacksUp(backups, targets) && AreFirst(written, targets) && |written| == i
    requires fs.log == base + run0 && Reached(start, run0, fs.files, targets, nonce)
    requires fs.files == Stage(start, targets, i)[tmpPath := targets[i].after] && |run0| == 2 * i + 1 && Calm(run0)
    modifies fs
    ensures fs.log == base + run && Reached(start, run, fs.files, targets, nonce)
    ensures ok ==> fs.files == Stage(start, targets, i + 1) && |run| == 2 * i + 2 && Calm(run)
    ensures !ok ==> FailsFirst(run, 2 * i + 1) && (RepairsWork(run, targets) ==> fs.files == start)
  {
    ok, run := RenameTmp(fs, tmpPath, targets[i].path, start, targets, i, nonce, base, run0);
    if ok {
      OneMoreWorks(run0, run);
    } else {
      ghost var renamed := run;
      FirstFailure(run0, renamed);
      run := UndoRename(fs, written, backups, tmpPath, start, targets, nonce, base, run);
      FailureStays(renamed, run, |run0|);
    }
  }

  /** One target: through its temporary file, or back to the start. */
  method WriteTarget(fs: FileSystem, i: nat, targets: seq<Change>, written: seq<string>, backups: seq<Entry>,
                     nonce: string, ghost start: Files, ghost base: seq<Event>, ghost run0: seq<Event>)
    returns (ok: bool, ghost run: seq<Event>)
    requires i < |targets| && Matches(start, targets) && DistinctPaths(targets) && FreshNonce(start, targets, nonce)
    requires BacksUp(backups, targets) && AreFirst(written, targets) && |written| == i
    requires fs.log == base + run0 && Reached(start, run0, fs.files, targets, nonce)
    requires fs.files == Stage(start, targets, i) && |run0| == 2 * i && Calm(run0)
    modifies fs
    ensures fs.log == base + run && Careful(start, run, targets, nonce)
    ensures if ok then |run| == 2 * i + 2 && Calm(run) else FailsFirst(run, 2 * i) || FailsFirst(run, 2 * i + 1)
    ensures ok ==> Reached(start, run, fs.files, targets, nonce) && fs.files == Stage(start, targets, i + 1)
    ensures !ok ==> !Calm(run) && (RepairsWork(run, targets) ==> fs.files == start)
  {
    var tmpPath := TmpFor(targets[i].path, nonce);
    TmpIsFree(start, targets, i, nonce);
    ok, run := StageTarget(fs, i, targets, written, backups, tmpPath, nonce, start, base, run0);
    if ok {
      ok, run := SwapTarget(fs, i, targets, written, backups, tmpPath, nonce, start, base, run);
    }
    if !ok {
      NotCalm(run, i);
    }
  }

  lemma NotCalm(run: seq<Event>, i: nat)
    requires FailsFirst(run, 2 * i) || FailsFirst(run, 2 * i + 1)
    ensures !Calm(run)
  {
    assert forall k :: 0 <= k < |run| ==> run[k] in run;
  }

  /** The write to the temporary file of the target `path`, or its rename, is the first call that did not go through. */
  ghost predicate BrokeAt(run: seq<Event>, targets: seq<Change>, path: string) {
    exists i :: 0 <= i < |targets| && path == targets[i].path && (FailsFirst(run, 2 * i) || FailsFirst(run, 2 * i + 1))
  }

  lemma Broke(run: seq<Event>, targets: seq<Change>, i: nat)
    requires i < |targets| && (FailsFirst(run, 2 * i) || FailsFirst(run, 2 * i + 1))
    ensures BrokeAt(run, targets, targets[i].path) && !Calm(run)
  {
    assert forall k :: 0 <= k < |run| ==> run[k] in run;
  }

  method WriteAll(fs: FileSystem, targets: seq<Change>, backups: seq<Entry>, nonce: string)
    returns (r: Result<Outcome, ApplyError>, ghost run: seq<Event>)
    requires Matches(fs.files, targets) && DistinctPaths(targets) && FreshNonce(fs.files, targets, nonce)
    requires BacksUp(backups, targets)
    modifies fs
    ensures fs.log == old(fs.log) + run && Careful(old(fs.files), run, targets, nonce)
    ensures r.Success? ==> fs.files == old(fs.files) + After(targets)
    ensures r.Success? ==> r.value == Outcome(|targets|, TextLength(targets))
    ensures r.Failure? ==> r.error.RolledBack? && !Calm(run) && BrokeAt(run, targets, r.error.path)
    ensures r.Failure? && RepairsWork(run, targets) ==> fs.files == old(fs.files)
  {
    ghost var start, base := fs.files, fs.log;
    run := [];
    var written, totalBytes := [], 0;
    StageWhole(start, targets, 0);
    for i := 0 to |targets|
      invariant fs.log == base + run && Reached(start, run, fs.files, targets, nonce)
      invariant fs.files == Stage(start, targets, i)
      invariant AreFirst(written, targets) && |written| == i
      invariant totalBytes == TextLength(targets[..i]) && |run| == 2 * i && Calm(run)
    {
      var ok;
      ok, run := WriteTarget(fs, i, targets, written, backups, nonce, start, base, run);
      if !ok {
        Broke(run, targets, i);
        return Failure(RolledBack(targets[i].path)), run;
      }
      totalBytes := totalBytes + |targets[i].after|;
      AreFirstSnoc(written, targets);
      TextLengthNext(targets, i);
      written := written + [targets[i].path];
    }
    assert targets[..|targets|] == targets;
    r := Success(Outcome(|written|, totalBytes));
  }

  lemma ReadsBefore(start: Files, looks: seq<Event>, run: seq<Event>, changes: seq<Change>, nonce: string)
    requires Untouched(start, looks)
    requires Matches(start, changes) && Careful(start, run, changes, nonce)
    ensures Careful(start, looks + run, changes, nonce)
    ensures RepairsWork(looks + run, changes) <==> RepairsWork(run, changes)
  {
    var all := looks + run;
    assert forall e :: e in all <==> e in looks || e in run;
    forall i | 0 <= i < |all| && NoRestore(all[..i + 1], changes) ensures Whole(all[i].files, changes) {
      if i < |looks| {
        assert looks[i] in looks;
        assert Whole(start, changes);
      } else {
        assert all[..i + 1] == looks + run[..i - |looks| + 1];
      }
    }
  }

  /**
   What one apply of `targets` at `start` may come to, given the calls it made. Accepted, the disk is the start
   overlaid with exactly the new texts; refused, it is the start again if only the repairing calls went through.
   */
  ghost predicate AllOrNothing(start: Files, end: Files, run: seq<Event>, targets: seq<Change>, nonce: string,
                               r: Result<Outcome, ApplyError>) {
    && (r.Success? ==> Matches(start, targets) && end == start + After(targets)
                       && r.value == Outcome(|targets|, TextLength(targets)))
    && (r.Failure? && RepairsWork(run, targets) ==> end == start)
    && (r.Failure? && !r.error.RolledBack? ==> Untouched(start, run) && end == start)
    && (Calm(run) ==> (r.Success? <==> Matches(start, targets)))
    && (Matches(start, targets) ==> Careful(start, run, targets, nonce))
    && (r.Failure? ==> Blames(start, run, targets, r.error))
  }

  /** The error names the first target that does not read as it did, or the one of the first call that did not go through. */
  ghost predicate Blames(start: Files, run: seq<Event>, targets: seq<Change>, error: ApplyError) {
    var n := |targets|;
    match error
    case Unreadable(_) => exists i :: Drifts(start, run, targets, i, error)
    case Changed(_) => exists i :: Drifts(start, run, targets, i, error)
    case Io(path) => exists i :: 0 <= i < n && path == targets[i].path && FailsFirst(run, n + i)
    case RolledBack(path) => |run| >= 2 * n && Calm(run[..2 * n]) && BrokeAt(run[2 * n..], targets, path)
  }

  lemma BlamesBackup(start: Files, preflight: seq<Event>, looks: seq<Event>, targets: seq<Change>, error: ApplyError)
    requires |preflight| == |targets| && Calm(preflight) && error.Io?
    requires exists i :: 0 <= i < |targets| && error.path == targets[i].path && FailsFirst(looks, i)
    ensures Blames(start, preflight + looks, targets, error)
  {
    var i :| 0 <= i < |targets| && error.path == targets[i].path && FailsFirst(looks, i);
    FailsLater(preflight, looks, i);
  }

  lemma BlamesWrite(start: Files, all: seq<Event>, run: seq<Event>, targets: seq<Change>, error: ApplyError)
    requires |all| == 2 * |targets| && Calm(all) && error.RolledBack? && BrokeAt(run, targets, error.path)
    ensures Blames(start, all + run, targets, error)
  {
    assert (all + run)[2 * |targets|..] == run && (all + run)[..2 * |targets|] == all;
  }

  lemma CalmConcat(a: seq<Event>, b: seq<Event>)
    requires Calm(a) && Calm(b)
    ensures Calm(a + b)
  {}

  /** `apply_transactional`. */
  method ApplyTransactional(fs: FileSystem, shadow: seq<Entry>, original: Files, nonce: string)
    returns (r: Result<Outcome, ApplyError>)
    requires DistinctEntries(shadow) && FreshNonce(fs.files, Targets(shadow, original), nonce)
    modifies fs
    ensures old(fs.log) <= fs.log
    ensures AllOrNothing(old(fs.files), fs.files, fs.log[|old(fs.log)|..], Targets(shadow, original), nonce, r)
  {
    ghost var start, base := fs.files, fs.log;
    var targets := Targets(shadow, original);
    TargetsDistinct(shadow, original);
    var drift, preflight := Preflight(fs, targets);
    if drift.Some? {
      assert fs.log[|base|..] == preflight;
      if Matches(start, targets) {
        ReadsBefore(start, preflight, [], targets, nonce);
        assert preflight + [] == preflight;
      }
      return Failure(drift.value);
    }
    var backups, looks := Backup(fs, targets);
    LogConcat(base, preflight, looks);
    RepairsConcat(preflight, looks, targets);
    ghost var all := preflight + looks;
    if backups.Failure? {
      ReadsBefore(start, all, [], targets, nonce);
      assert all + [] == all && fs.log[|base|..] == all;
      BlamesBackup(start, preflight, looks, targets, backups.error);
      return Failure(backups.error);
    }
    ghost var run;
    r, run := WriteAll(fs, targets, backups.value, nonce);
    ReadsBefore(start, all, run, targets, nonce);
    RepairsConcat(all, run, targets);
    LogConcat(base, all, run);
    assert fs.log[|base|..] == all + run;
    if r.Failure? {
      CalmConcat(preflight, looks);
      BlamesWrite(start, all, run, targets, r.error);
    }
  }

  /** Accepted, a file reads anew exactly if its shadow entry differs from its original. */
  lemma OverlayExact(start: Files, shadow: seq<Entry>, original: Files, p: string)
    requires DistinctEntries(shadow) && Matches(start, Targets(shadow, original))
    ensures var end := start + After(Targets(shadow, original));
            && (p in end <==> p in start)
            && (p in start && (forall e :: e in shadow && e.path == p && p in original ==> e.text == original[p]) ==>
                  end[p] == start[p])
            && (forall e :: e in shadow && e.path == p && p in original && e.text != original[p] ==>
                  p in start && end[p] == e.text)
  {}
}
