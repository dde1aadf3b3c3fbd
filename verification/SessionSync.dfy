/**
 Document sync of crates/aa-ra-client/src/session.rs: what a session believes of each file, what is on its disk and what
 it told the server. The server reads files it was told nothing about from the disk it started on.
 */
module SessionSync {
  import opened Wrappers

  datatype File = File(path: string, text: string)

  datatype FileState = FileState(version: nat, content: string)

  datatype Notification =
    | DidOpen(path: string, text: string, version: nat)
    | DidChange(path: string, text: string, version: nat)

  /** A session: what it started on, what it knows, its disk, and what it sent. */
  datatype Docs = Docs(
    start: map<string, string>,
    known: map<string, FileState>,
    disk: map<string, string>,
    sent: seq<Notification>)

  predicate DistinctFiles(files: seq<File>) {
    forall i, j :: 0 <= i < j < |files| ==> files[i].path != files[j].path
  }

  function AsMap(files: seq<File>): (m: map<string, string>)
    ensures forall f :: f in files ==> f.path in m
    ensures forall p :: p in m ==> File(p, m[p]) in files
  {
    if files == [] then map[]
    else AsMap(files[..|files| - 1])[files[|files| - 1].path := files[|files| - 1].text]
  }

  // ----- what syncing does -----

  function Spawned(files: seq<File>): Docs {
    var disk := AsMap(files);
    Docs(disk, map p | p in disk :: FileState(0, disk[p]), disk, [])
  }

  /** One file: nothing if the text is the known one, otherwise disk, known text and version, and the server follow. */
  function SyncOne(d: Docs, f: File): Docs {
    if f.path in d.known && d.known[f.path].content == f.text then d
    else
      var version := if f.path in d.known then d.known[f.path].version + 1 else 1;
      Docs(d.start, d.known[f.path := FileState(version, f.text)], d.disk[f.path := f.text],
           d.sent + [if f.path in d.known then DidChange(f.path, f.text, version) else DidOpen(f.path, f.text, version)])
  }

  function SyncAll(d: Docs, files: seq<File>): Docs {
    if files == [] then d else SyncOne(SyncAll(d, files[..|files| - 1]), files[|files| - 1])
  }

  /**
   What a failing call leaves: the file was not written, or only `left` of it; or it was written and the server was not
   told, which is known as if it had been, except of a new file.
   */
  datatype Breakage = NotWritten(left: Option<string>) | NotTold

  function BrokenOne(d: Docs, f: File, how: Breakage): Docs {
    match how
    case NotWritten(left) => if left.Some? then d.(disk := d.disk[f.path := left.value]) else d
    case NotTold =>
      var e := d.(disk := d.disk[f.path := f.text]);
      if f.path in d.known then e.(known := d.known[f.path := FileState(d.known[f.path].version + 1, f.text)]) else e
  }

  // ----- what the server has -----

  /** The last text and version the server was told of a file; before that, what it started on, as version 0. */
  function Seen(d: Docs, sent: seq<Notification>, path: string): Option<FileState> {
    if sent == [] then if path in d.start then Some(FileState(0, d.start[path])) else None
    else
      var n := sent[|sent| - 1];
      if n.path == path then Some(FileState(n.version, n.text)) else Seen(d, sent[..|sent| - 1], path)
  }

  lemma {:induction false} SeenStart(d: Docs, e: Docs, sent: seq<Notification>, path: string)
    requires d.start == e.start
    ensures Seen(d, sent, path) == Seen(e, sent, path)
  {
    if sent != [] {
      SeenStart(d, e, sent[..|sent| - 1], path);
    }
  }

  /** Known content is disk content and the text and version the server last saw; nothing else was ever opened. */
  ghost predicate Agreed(d: Docs) {
    && d.known.Keys == d.disk.Keys
    && forall p :: p in d.disk || Seen(d, d.sent, p).Some? ==> AgreedAt(d, p)
  }

  predicate AgreedAt(d: Docs, p: string) {
    p in d.known && p in d.disk && d.known[p].content == d.disk[p] && Seen(d, d.sent, p) == Some(d.known[p])
  }

  lemma SpawnAgrees(files: seq<File>)
    ensures Agreed(Spawned(files))
  {}

  lemma SyncOneAgrees(d: Docs, f: File)
    requires Agreed(d)
    ensures Agreed(SyncOne(d, f))
  {
    var e := SyncOne(d, f);
    if e != d {
      assert e.sent[..|e.sent| - 1] == d.sent;
      forall p | p in e.disk || Seen(e, e.sent, p).Some? ensures AgreedAt(e, p) {
        SeenStart(d, e, d.sent, p);
        assert p != f.path ==> p in d.disk || Seen(d, d.sent, p).Some?;
      }
    }
  }

  /** Synced, every file agrees. */
  lemma {:induction false} SyncAllAgrees(d: Docs, files: seq<File>)
    requires Agreed(d)
    ensures Agreed(SyncAll(d, files))
  {
    if files != [] {
      SyncAllAgrees(d, files[..|files| - 1]);
      SyncOneAgrees(SyncAll(d, files[..|files| - 1]), files[|files| - 1]);
    }
  }

  // ----- versions -----

  function VersionOf(d: Docs, p: string): int {
    if p in d.known then d.known[p].version else 0
  }

  predicate Changes(d: Docs, f: File) {
    f.path !in d.known || d.known[f.path].content != f.text
  }

  lemma {:induction false} SyncElsewhere(d: Docs, files: seq<File>, p: string)
    requires forall f :: f in files ==> f.path != p
    ensures p in SyncAll(d, files).known <==> p in d.known
    ensures p in d.known ==> SyncAll(d, files).known[p] == d.known[p]
  {
    if files != [] {
      assert forall f :: f in files[..|files| - 1] ==> f in files;
      SyncElsewhere(d, files[..|files| - 1], p);
    }
  }

  /**
   After a sync every file of it is known with its text, at a version one higher than before exactly when its text is
   not the one known before.
   */
  lemma {:induction false} SyncedVersion(d: Docs, files: seq<File>, i: nat)
    requires DistinctFiles(files) && i < |files|
    ensures var e := SyncAll(d, files);
            && files[i].path in e.known && e.known[files[i].path].content == files[i].text
            && VersionOf(e, files[i].path) == VersionOf(d, files[i].path) + if Changes(d, files[i]) then 1 else 0
  {
    var n := |files| - 1;
    if i == n {
      SyncElsewhere(d, files[..n], files[n].path);
    } else {
      SyncedVersion(d, files[..n], i);
    }
  }

  /** `f` is known, on disk and seen by the server with its text; its version rose by one exactly if that was new. */
  predicate InAgreement(base: Docs, d: Docs, f: File) {
    && f.path in d.known && d.known[f.path].content == f.text
    && f.path in d.disk && d.disk[f.path] == f.text
    && Seen(d, d.sent, f.path) == Some(d.known[f.path])
    && VersionOf(d, f.path) == VersionOf(base, f.path) + if Changes(base, f) then 1 else 0
  }

  lemma SyncedInAgreement(base: Docs, files: seq<File>, f: File)
    requires DistinctFiles(files) && f in files && Agreed(SyncAll(base, files))
    ensures InAgreement(base, SyncAll(base, files), f)
  {
    var i :| 0 <= i < |files| && files[i] == f;
    SyncedVersion(base, files, i);
    assert f.path in SyncAll(base, files).disk;
    assert AgreedAt(SyncAll(base, files), f.path);
  }

  /** Syncing the same files again sends nothing and changes nothing. */
  lemma {:induction false} SyncedAgain(d: Docs, files: seq<File>, e: Docs)
    requires forall f :: f in files ==> f.path in e.known && e.known[f.path].content == f.text
    ensures SyncAll(e, files) == e
  {
    if files != [] {
      assert forall f :: f in files[..|files| - 1] ==> f in files;
      SyncedAgain(d, files[..|files| - 1], e);
    }
  }

  lemma ResyncIsSilent(d: Docs, files: seq<File>)
    requires DistinctFiles(files)
    ensures SyncAll(SyncAll(d, files), files) == SyncAll(d, files)
  {
    forall f | f in files
      ensures f.path in SyncAll(d, files).known && SyncAll(d, files).known[f.path].content == f.text {
      var i :| 0 <= i < |files| && files[i] == f;
      SyncedVersion(d, files, i);
    }
    SyncedAgain(d, files, SyncAll(d, files));
  }

  /** The versions told of a file rise up to the known one; `didOpen` is version 1 of a file the server did not start on. */
  ghost predicate WireInOrder(d: Docs) {
    && (forall i :: 0 <= i < |d.sent| ==> d.sent[i].path in d.known && 1 <= d.sent[i].version <= VersionOf(d, d.sent[i].path))
    && (forall i, j :: 0 <= i < j < |d.sent| && d.sent[i].path == d.sent[j].path ==> d.sent[i].version < d.sent[j].version)
    && (forall i :: 0 <= i < |d.sent| ==> (d.sent[i].DidOpen? <==> d.sent[i].version == 1 && d.sent[i].path !in d.start))
    && (forall p :: p in d.start ==> p in d.known)
    && (forall p :: p in d.known && d.known[p].version == 0 ==> p in d.start)
  }

  lemma {:induction false} WireStaysInOrder(d: Docs, files: seq<File>)
    requires WireInOrder(d)
    ensures WireInOrder(SyncAll(d, files)) && d.sent <= SyncAll(d, files).sent
    ensures forall p :: p in d.known ==> p in SyncAll(d, files).known && VersionOf(d, p) <= VersionOf(SyncAll(d, files), p)
  {
    if files != [] {
      var n := |files| - 1;
      WireStaysInOrder(d, files[..n]);
      OneMoreInOrder(SyncAll(d, files[..n]), files[n]);
    }
  }

  lemma OneMoreInOrder(d: Docs, f: File)
    requires WireInOrder(d)
    ensures WireInOrder(SyncOne(d, f)) && d.sent <= SyncOne(d, f).sent
    ensures forall p :: p in d.known ==> p in SyncOne(d, f).known && VersionOf(d, p) <= VersionOf(SyncOne(d, f), p)
  {}

  lemma BrokenInOrder(d: Docs, f: File, how: Breakage)
    requires WireInOrder(d)
    ensures WireInOrder(BrokenOne(d, f, how)) && BrokenOne(d, f, how).sent == d.sent
    ensures forall p :: p in d.known ==> VersionOf(d, p) <= VersionOf(BrokenOne(d, f, how), p)
  {}

  /**
   A change the server was not told of is never told again: the session knows the text already. So the server keeps the
   old one.
   */
  lemma NotToldStays(d: Docs, f: File)
    requires Agreed(d) && f.path in d.known && Changes(d, f)
    ensures var e := BrokenOne(d, f, NotTold);
            SyncOne(e, f) == e && !AgreedAt(e, f.path) && Seen(e, e.sent, f.path) == Some(d.known[f.path])
  {
    assert AgreedAt(d, f.path);
    SeenStart(d, BrokenOne(d, f, NotTold), d.sent, f.path);
  }

  predicate Mentions(files: seq<File>, p: string) {
    exists f :: f in files && f.path == p
  }

  // ----- the session -----

  /** Which of the calls to the disk and to the server go through. */
  class Session {
    const works: nat -> bool
    const start: map<string, string>
    var known: map<string, FileState>
    var disk: map<string, string>
    var sent: seq<Notification>
    var calls: nat

    ghost function Now(): Docs
      reads this
    {
      Docs(start, known, disk, sent)
    }

    constructor Started(files: seq<File>, works: nat -> bool, calls: nat)
      ensures Now() == Spawned(files) && this.works == works && this.calls == calls
    {
      var written := AsMap(files);
      this.works, start, disk, sent, this.calls := works, written, written, [], calls;
      known := map p | p in written :: FileState(0, written[p]);
    }

    method Write(path: string, text: string) returns (ok: bool)
      modifies this`disk, this`calls
      ensures ok == works(old(calls)) && calls == old(calls) + 1
      ensures disk == if ok then old(disk)[path := text] else old(disk)
    {
      ok := works(calls);
      calls := calls + 1;
      if ok {
        disk := disk[path := text];
      }
    }

    method Notify(n: Notification) returns (ok: bool)
      modifies this`sent, this`calls
      ensures ok == works(old(calls)) && calls == old(calls) + 1
      ensures sent == if ok then old(sent) + [n] else old(sent)
    {
      ok := works(calls);
      calls := calls + 1;
      if ok {
        sent := sent + [n];
      }
    }

    method SyncFile(f: File) returns (ok: bool)
      modifies this`known, this`disk, this`sent, this`calls
      ensures ok ==> Now() == SyncOne(old(Now()), f)
      ensures !ok ==> Changes(old(Now()), f) && exists how :: Now() == BrokenOne(old(Now()), f, how)
      ensures !ok ==> exists k :: old(calls) <= k < calls && !works(k)
      ensures calls >= old(calls)
      ensures forall p :: p != f.path ==> KeptAt(old(Now()), Now(), p)
    {
      if f.path in known && known[f.path].content == f.text {
        return true;
      }
      ghost var before := Now();
      ok := Write(f.path, f.text);
      if !ok {
        assert Now() == BrokenOne(before, f, NotWritten(None));
        return;
      }
      if f.path in known {
        var version := known[f.path].version + 1;
        known := known[f.path := FileState(version, f.text)];
        ok := Notify(DidChange(f.path, f.text, version));
      } else {
        ok := Notify(DidOpen(f.path, f.text, 1));
        if ok {
          known := known[f.path := FileState(1, f.text)];
        }
      }
      assert !ok ==> Now() == BrokenOne(before, f, NotTold);
    }

    /** `sync`: exactly `SyncAll`, unless a call to the disk or the server fails. */
    method Sync(files: seq<File>) returns (ok: bool)
      modifies this`known, this`disk, this`sent, this`calls
      ensures ok ==> Now() == SyncAll(old(Now()), files)
      ensures !ok ==> exists k :: old(calls) <= k < calls && !works(k)
      ensures forall p :: !Mentions(files, p) ==> KeptAt(old(Now()), Now(), p)
    {
      for i := 0 to |files|
        invariant Now() == SyncAll(old(Now()), files[..i]) && calls >= old(calls)
        invariant forall p :: !Mentions(files, p) ==> KeptAt(old(Now()), Now(), p)
      {
        assert files[..i + 1][..i] == files[..i] && files[i] in files && Mentions(files, files[i].path);
        ghost var before := Now();
        ok := SyncFile(files[i]);
        assert forall p :: !Mentions(files, p) ==> KeptAt(before, Now(), p);
        if !ok {
          return;
        }
      }
      assert files[..|files|] == files;
      ok := true;
    }
  }

  /** `spawn`: writes the files, then shakes hands with the server; nothing starts when one of these calls fails. */
  method Spawn(files: seq<File>, works: nat -> bool) returns (s: Session?)
    ensures s != null <==> forall k :: 0 <= k <= |files| ==> works(k)
    ensures s != null ==> fresh(s) && s.Now() == Spawned(files)
  {
    for i := 0 to |files|
      invariant forall k :: 0 <= k < i ==> works(k)
    {
      if !works(i) {
        return null;
      }
    }
    if !works(|files|) {
      return null;
    }
    s := new Session.Started(files, works, |files| + 1);
  }

  predicate KeptAt(d: Docs, e: Docs, p: string) {
    && (p in e.known <==> p in d.known) && (p in d.known ==> p in e.known && e.known[p] == d.known[p])
    && (p in e.disk <==> p in d.disk) && (p in d.disk ==> p in e.disk && e.disk[p] == d.disk[p])
  }
}
