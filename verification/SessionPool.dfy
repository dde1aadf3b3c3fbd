/**
 Every interleaving of `resolve_inner` calls on the session pool of crates/aa-core/src/ra_pool.rs: threads that look a
 key up under the read lock, look again under the write lock before they spawn and store a session, and then sync
 under the session's own lock, rename, and sync once more. A spawn may be refused, and a sync may break off at any file.
 */
module SessionPool {
  import opened Wrappers
  import opened SessionSync

  /** Where a call is. Read lock: Reading. Write lock: Writing, Created, Leaving. Session lock: Syncing. */
  datatype Pc =
    | WantRead | Reading
    | WantWrite | Writing | Created(id: nat) | Leaving(id: nat)
    | Holding(id: nat) | Syncing(id: nat, next: nat, base: Docs)
    | Done(id: nat) | Failed

  /** `acking`: the rename is done and `files` are the edited ones. */
  datatype Thread = Thread(key: string, files: seq<File>, pc: Pc, acking: bool)

  datatype Pool = Pool(
    threads: map<nat, Thread>,
    readers: set<nat>,
    writer: Option<nat>,
    sessions: map<string, nat>,
    stored: seq<(string, nat)>,
    docs: map<nat, Docs>,
    owner: map<nat, nat>,
    hurt: set<nat>,  // sessions on which a sync broke off
    nextId: nat)

  /** What the surroundings decide in a step. */
  datatype Choice = Go | Refuse | Edited(files: seq<File>) | Break(how: Breakage)

  // ----- steps -----

  function At(p: Pool, t: nat, pc: Pc): Pool
    requires t in p.threads
  {
    p.(threads := p.threads[t := p.threads[t].(pc := pc)])
  }

  function BeginRead(p: Pool, t: nat): Pool
    requires t in p.threads
  {
    At(p, t, Reading).(readers := p.readers + {t})
  }

  /** The look-up under the read lock. */
  function EndRead(p: Pool, t: nat): Pool
    requires t in p.threads
  {
    var key := p.threads[t].key;
    At(p, t, if key in p.sessions then Holding(p.sessions[key]) else WantWrite).(readers := p.readers - {t})
  }

  function BeginWrite(p: Pool, t: nat): Pool
    requires t in p.threads
  {
    At(p, t, Writing).(writer := Some(t))
  }

  /** The spawn after the second look found nothing either. */
  function Create(p: Pool, t: nat): Pool
    requires t in p.threads
  {
    At(p, t, Created(p.nextId)).(docs := p.docs[p.nextId := Spawned(p.threads[t].files)], nextId := p.nextId + 1)
  }

  function Store(p: Pool, t: nat, id: nat): Pool
    requires t in p.threads
  {
    var key := p.threads[t].key;
    At(p, t, Leaving(id)).(sessions := p.sessions[key := id], stored := p.stored + [(key, id)])
  }

  function EndWrite(p: Pool, t: nat, pc: Pc): Pool
    requires t in p.threads
  {
    At(p, t, pc).(writer := None)
  }

  function Enter(p: Pool, t: nat, id: nat): Pool
    requires t in p.threads && id in p.docs
  {
    At(p, t, Syncing(id, 0, p.docs[id])).(owner := p.owner[id := t])
  }

  function SyncNext(p: Pool, t: nat, id: nat, next: nat, base: Docs): Pool
    requires t in p.threads && id in p.docs && next < |p.threads[t].files|
  {
    At(p, t, Syncing(id, next + 1, base)).(docs := p.docs[id := SyncOne(p.docs[id], p.threads[t].files[next])])
  }

  /** A call to the disk or the server fails. The first sync passes the error on, the second ignores it. */
  function BreakOff(p: Pool, t: nat, id: nat, next: nat, how: Breakage): Pool
    requires t in p.threads && id in p.docs && next < |p.threads[t].files|
  {
    var thread := p.threads[t];
    Leave(p, t, id, thread.(pc := if thread.acking then Done(id) else Failed))
      .(docs := p.docs[id := BrokenOne(p.docs[id], thread.files[next], how)], hurt := p.hurt + {id})
  }

  function Leave(p: Pool, t: nat, id: nat, thread: Thread): Pool
    requires t in p.threads
  {
    p.(threads := p.threads[t := thread], owner := p.owner - {id})
  }

  /** After the first sync the rename gives edited files or fails; after the second the call is over. */
  function AfterSync(thread: Thread, id: nat, choice: Choice): Thread {
    if thread.acking then thread.(pc := Done(id))
    else if choice.Edited? && DistinctFiles(choice.files) then Thread(thread.key, choice.files, Holding(id), true)
    else thread.(pc := Failed)
  }

  /** One step of one call, or None when it has to wait or is over. */
  function Step(p: Pool, t: nat, choice: Choice): Option<Pool> {
    if t !in p.threads then None
    else
      var thread := p.threads[t];
      match thread.pc
      case WantRead => if p.writer.None? then Some(BeginRead(p, t)) else None
      case Reading => Some(EndRead(p, t))
      case WantWrite => if p.writer.None? && p.readers == {} then Some(BeginWrite(p, t)) else None
      case Writing =>
        if thread.key in p.sessions then Some(At(p, t, Leaving(p.sessions[thread.key])))
        else if choice.Refuse? then Some(EndWrite(p, t, Failed))
        else Some(Create(p, t))
      case Created(id) => Some(Store(p, t, id))
      case Leaving(id) => Some(EndWrite(p, t, Holding(id)))
      case Holding(id) => if id in p.owner || id !in p.docs then None else Some(Enter(p, t, id))
      case Syncing(id, next, base) =>
        if id !in p.docs then None
        else if next < |thread.files| then
          if choice.Break? && Changes(p.docs[id], thread.files[next]) then Some(BreakOff(p, t, id, next, choice.how))
          else Some(SyncNext(p, t, id, next, base))
        else Some(Leave(p, t, id, AfterSync(thread, id, choice)))
      case Done(_) => None
      case Failed => None
  }

  function Run(p: Pool, schedule: seq<(nat, Choice)>): Pool
    decreases |schedule|
  {
    if schedule == [] then p
    else
      match Step(p, schedule[0].0, schedule[0].1)
      case None => Run(p, schedule[1..])
      case Some(q) => Run(q, schedule[1..])
  }

  // ----- the invariant -----

  ghost predicate Initial(p: Pool) {
    && (forall t :: t in p.threads ==> p.threads[t].pc == WantRead && DistinctFiles(p.threads[t].files) && !p.threads[t].acking)
    && p == Pool(p.threads, {}, None, map[], [], map[], map[], {}, 0)
  }

  predicate Writes(pc: Pc) {
    pc.Writing? || pc.Created? || pc.Leaving?
  }

  /** Has the handle of a stored session. */
  predicate Has(pc: Pc, id: nat) {
    (pc.Leaving? || pc.Holding? || pc.Syncing? || pc.Done?) && pc.id == id
  }

  predicate HasSome(pc: Pc) {
    pc.Leaving? || pc.Holding? || pc.Syncing? || pc.Done?
  }

  /** The read lock is held by those reading, the write lock by the one writing, and never both. */
  ghost predicate Locks(p: Pool) {
    && (forall t :: t in p.threads ==> (p.threads[t].pc.Reading? <==> t in p.readers))
    && (forall t :: t in p.threads ==> (Writes(p.threads[t].pc) <==> p.writer == Some(t)))
    && p.readers <= p.threads.Keys
    && (p.writer.Some? ==> p.writer.value in p.threads && p.readers == {})
  }

  /** A handle is the session stored under the call's key; a session just created is stored nowhere. */
  predicate HandleOk(thread: Thread, sessions: map<string, nat>) {
    && (HasSome(thread.pc) ==> thread.key in sessions && sessions[thread.key] == thread.pc.id)
    && (thread.pc.Created? ==> thread.key !in sessions && thread.pc.id !in sessions.Values)
  }

  ghost predicate Handles(p: Pool) {
    forall t :: t in p.threads ==> HandleOk(p.threads[t], p.sessions)
  }

  /** Stored once, and still what the key leads to; different keys lead to different sessions. */
  ghost predicate Stored(p: Pool) {
    && (forall i :: 0 <= i < |p.stored| ==> p.stored[i].0 in p.sessions && p.sessions[p.stored[i].0] == p.stored[i].1)
    && (forall i, j :: 0 <= i < j < |p.stored| ==> p.stored[i].0 != p.stored[j].0)
    && (forall k :: k in p.sessions ==> (k, p.sessions[k]) in p.stored)
    && (forall k, l :: k in p.sessions && l in p.sessions && p.sessions[k] == p.sessions[l] ==> k == l)
  }

  /** Sessions in existence: those stored and those being created. */
  ghost predicate Existing(p: Pool) {
    && (forall id :: id in p.docs ==> id < p.nextId && WireInOrder(p.docs[id]))
    && (forall id :: id in p.docs && id !in p.hurt ==> Agreed(p.docs[id]))
    && (forall k :: k in p.sessions ==> p.sessions[k] in p.docs)
    && (forall t :: t in p.threads && p.threads[t].pc.Created? ==> p.threads[t].pc.id in p.docs)
  }

  /** Who syncs a session holds its lock, and has so far done exactly its first files to it. */
  predicate SyncOk(thread: Thread, docs: map<nat, Docs>) {
    && DistinctFiles(thread.files)
    && (thread.pc.Syncing? ==>
          && thread.pc.next <= |thread.files|
          && thread.pc.id in docs && docs[thread.pc.id] == SyncAll(thread.pc.base, thread.files[..thread.pc.next]))
  }

  ghost predicate Syncs(p: Pool) {
    && (forall t :: t in p.threads ==> SyncOk(p.threads[t], p.docs))
    && (forall t :: t in p.threads && p.threads[t].pc.Syncing? ==>
                      p.threads[t].pc.id in p.owner && p.owner[p.threads[t].pc.id] == t)
    && (forall id :: id in p.owner ==> HeldBy(p, id, p.owner[id]))
  }

  /** Call `t` is syncing session `id`. */
  predicate HeldBy(p: Pool, id: nat, t: nat) {
    t in p.threads && p.threads[t].pc.Syncing? && p.threads[t].pc.id == id
  }

  datatype Aspect = OfLocks | OfHandles | OfStored | OfExisting | OfSyncs

  ghost predicate Holds(p: Pool, a: Aspect) {
    match a
    case OfLocks => Locks(p)
    case OfHandles => Handles(p)
    case OfStored => Stored(p)
    case OfExisting => Existing(p)
    case OfSyncs => Syncs(p)
  }

  ghost predicate Inv(p: Pool) {
    forall a: Aspect :: Holds(p, a)
  }

  lemma Aspects(p: Pool)
    requires Inv(p)
    ensures Locks(p) && Handles(p) && Stored(p) && Existing(p) && Syncs(p)
  {
    assert Holds(p, OfLocks) && Holds(p, OfHandles) && Holds(p, OfStored) && Holds(p, OfExisting) && Holds(p, OfSyncs);
  }

  lemma FromAspects(p: Pool)
    requires Locks(p) && Handles(p) && Stored(p) && Existing(p) && Syncs(p)
    ensures Inv(p)
  {}

  // ----- what a step leaves alone stays in order -----

  /** Only call `t` moved. */
  ghost predicate Moved(p: Pool, q: Pool, t: nat) {
    t in p.threads && t in q.threads && q.threads == p.threads[t := q.threads[t]]
  }

  lemma LocksFrame(p: Pool, q: Pool, t: nat)
    requires Locks(p) && Moved(p, q, t)
    requires q.threads[t].pc.Reading? <==> t in q.readers
    requires Writes(q.threads[t].pc) <==> q.writer == Some(t)
    requires q.readers - {t} == p.readers - {t}
    requires forall u: nat :: u != t ==> (q.writer == Some(u) <==> p.writer == Some(u))
    requires q.writer.Some? ==> q.readers == {}
    ensures Locks(q)
  {
    forall u | u in q.threads && u != t ensures u in q.readers <==> u in p.readers {
      assert u in q.readers - {t} <==> u in p.readers - {t};
    }
    forall u | u in q.readers ensures u in q.threads {
      assert u != t ==> u in p.readers - {t};
    }
    if q.writer.Some? && q.writer.value != t {
      assert p.writer == Some(q.writer.value);
    }
  }

  lemma HandlesFrame(p: Pool, q: Pool, t: nat)
    requires Handles(p) && Stored(p) && Moved(p, q, t) && q.sessions == p.sessions && q.stored == p.stored
    requires HandleOk(q.threads[t], q.sessions)
    ensures Handles(q) && Stored(q)
  {}

  lemma ExistingFrame(p: Pool, q: Pool, t: nat)
    requires Existing(p) && Moved(p, q, t) && q.sessions == p.sessions && q.docs == p.docs && q.nextId == p.nextId
    requires q.hurt == p.hurt
    requires !q.threads[t].pc.Created?
    ensures Existing(q)
  {}

  lemma SyncsFrame(p: Pool, q: Pool, t: nat)
    requires Syncs(p) && Moved(p, q, t) && q.owner == p.owner
    requires forall id :: id in p.docs ==> id in q.docs && q.docs[id] == p.docs[id]
    requires !p.threads[t].pc.Syncing? && !q.threads[t].pc.Syncing? && q.threads[t].files == p.threads[t].files
    ensures Syncs(q)
  {
    forall u | u in q.threads ensures SyncOk(q.threads[u], q.docs) {
      assert SyncOk(p.threads[u], p.docs);
    }
  }

  /** A step that only takes or gives up the lock of the pool. */
  lemma LockStepKeeps(p: Pool, q: Pool, t: nat)
    requires Inv(p) && Locks(q) && Moved(p, q, t)
    requires q == p.(threads := q.threads, readers := q.readers, writer := q.writer)
    requires q.threads[t].files == p.threads[t].files && HandleOk(q.threads[t], q.sessions)
    requires !p.threads[t].pc.Syncing? && !q.threads[t].pc.Syncing? && !q.threads[t].pc.Created?
    ensures Inv(q)
  {
    Aspects(p);
    HandlesFrame(p, q, t);
    ExistingFrame(p, q, t);
    SyncsFrame(p, q, t);
    FromAspects(q);
  }

  // ----- every step keeps the invariant -----

  lemma ReadStepsKeep(p: Pool, t: nat)
    requires Inv(p) && t in p.threads
    ensures p.threads[t].pc.WantRead? && p.writer.None? ==> Inv(BeginRead(p, t))
    ensures p.threads[t].pc.Reading? ==> Inv(EndRead(p, t))
  {
    Aspects(p);
    if p.threads[t].pc.WantRead? && p.writer.None? {
      LocksFrame(p, BeginRead(p, t), t);
      LockStepKeeps(p, BeginRead(p, t), t);
    }
    if p.threads[t].pc.Reading? {
      LocksFrame(p, EndRead(p, t), t);
      LockStepKeeps(p, EndRead(p, t), t);
    }
  }

  lemma BeginWriteKeeps(p: Pool, t: nat)
    requires Inv(p) && t in p.threads && p.threads[t].pc.WantWrite? && p.writer.None? && p.readers == {}
    ensures Inv(BeginWrite(p, t))
  {
    Aspects(p);
    LocksFrame(p, BeginWrite(p, t), t);
    LockStepKeeps(p, BeginWrite(p, t), t);
  }

  /** The second look finds a session. */
  lemma FindKeeps(p: Pool, t: nat)
    requires Inv(p) && t in p.threads && p.threads[t].pc.Writing? && p.threads[t].key in p.sessions
    ensures Inv(At(p, t, Leaving(p.sessions[p.threads[t].key])))
  {
    Aspects(p);
    var q := At(p, t, Leaving(p.sessions[p.threads[t].key]));
    LocksFrame(p, q, t);
    LockStepKeeps(p, q, t);
  }

  lemma EndWriteKeeps(p: Pool, t: nat, pc: Pc)
    requires Inv(p) && t in p.threads && Writes(p.threads[t].pc) && !p.threads[t].pc.Created?
    requires pc.Failed? || (pc.Holding? && p.threads[t].pc == Leaving(pc.id))
    ensures Inv(EndWrite(p, t, pc))
  {
    Aspects(p);
    assert HandleOk(p.threads[t], p.sessions);
    LocksFrame(p, EndWrite(p, t, pc), t);
    LockStepKeeps(p, EndWrite(p, t, pc), t);
  }

  lemma SpawnInOrder(files: seq<File>)
    ensures WireInOrder(Spawned(files))
  {}

  lemma CreateExisting(p: Pool, t: nat)
    requires Existing(p) && t in p.threads
    ensures Existing(Create(p, t))
  {
    SpawnAgrees(p.threads[t].files);
    SpawnInOrder(p.threads[t].files);
  }

  lemma CreateKeeps(p: Pool, t: nat)
    requires Inv(p) && t in p.threads && p.threads[t].pc.Writing? && p.threads[t].key !in p.sessions
    ensures Inv(Create(p, t))
  {
    Aspects(p);
    CreateExisting(p, t);
    CreateHandles(p, t);
    CreateLocksAndSyncs(p, t);
    FromAspects(Create(p, t));
  }

  lemma CreateHandles(p: Pool, t: nat)
    requires Locks(p) && Handles(p) && Stored(p) && Existing(p)
    requires t in p.threads && p.threads[t].pc.Writing? && p.threads[t].key !in p.sessions
    ensures Handles(Create(p, t)) && Stored(Create(p, t))
  {
    assert p.nextId !in p.docs && p.nextId !in p.sessions.Values;
    HandlesFrame(p, Create(p, t), t);
  }

  lemma CreateLocksAndSyncs(p: Pool, t: nat)
    requires Locks(p) && Existing(p) && Syncs(p) && t in p.threads && p.threads[t].pc.Writing?
    ensures Locks(Create(p, t)) && Syncs(Create(p, t))
  {
    assert p.nextId !in p.docs;
    LocksFrame(p, Create(p, t), t);
    SyncsFrame(p, Create(p, t), t);
  }

  /** Nobody else is creating a session, since this call holds the write lock. */
  lemma StoreHandles(p: Pool, t: nat, id: nat)
    requires Locks(p) && Handles(p) && t in p.threads && p.threads[t].pc == Created(id)
    ensures Handles(Store(p, t, id))
  {
    var q := Store(p, t, id);
    forall u | u in q.threads ensures HandleOk(q.threads[u], q.sessions) {
      assert HandleOk(p.threads[u], p.sessions) && HandleOk(p.threads[t], p.sessions);
      assert u != t ==> !p.threads[u].pc.Created?;
    }
  }

  lemma StoreExisting(p: Pool, t: nat, id: nat)
    requires Existing(p) && t in p.threads && p.threads[t].pc == Created(id)
    ensures Existing(Store(p, t, id))
  {}

  lemma StoreKeeps(p: Pool, t: nat, id: nat)
    requires Inv(p) && t in p.threads && p.threads[t].pc == Created(id)
    ensures Inv(Store(p, t, id))
  {
    Aspects(p);
    assert HandleOk(p.threads[t], p.sessions);
    LocksFrame(p, Store(p, t, id), t);
    SyncsFrame(p, Store(p, t, id), t);
    StoredSnoc(p, p.threads[t].key, id);
    StoreHandles(p, t, id);
    StoreExisting(p, t, id);
    FromAspects(Store(p, t, id));
  }

  lemma StoredSnoc(p: Pool, key: string, id: nat)
    requires Stored(p) && key !in p.sessions && id !in p.sessions.Values
    ensures Stored(p.(sessions := p.sessions[key := id], stored := p.stored + [(key, id)]))
  {
    var q := p.(sessions := p.sessions[key := id], stored := p.stored + [(key, id)]);
    assert q.stored[|p.stored|] == (key, id);
    forall k | k in q.sessions ensures (k, q.sessions[k]) in q.stored {
      assert k != key ==> (k, p.sessions[k]) in p.stored;
    }
  }

  /** A step under the lock of a session leaves the pool's lock and what it stores alone. */
  lemma QuietFrame(p: Pool, q: Pool, t: nat)
    requires Locks(p) && Handles(p) && Stored(p) && Moved(p, q, t)
    requires q.sessions == p.sessions && q.stored == p.stored && q.readers == p.readers && q.writer == p.writer
    requires p.threads[t].pc.Holding? || p.threads[t].pc.Syncing?
    requires q.threads[t].key == p.threads[t].key
    requires q.threads[t].pc.Failed? || (Has(q.threads[t].pc, p.threads[t].pc.id) && !q.threads[t].pc.Leaving?)
    ensures Locks(q) && Handles(q) && Stored(q)
  {
    assert HandleOk(p.threads[t], p.sessions);
    LocksFrame(p, q, t);
    HandlesFrame(p, q, t);
  }

  lemma SameElsewhere(m: map<nat, nat>, n: map<nat, nat>, id: nat)
    requires m - {id} == n - {id}
    ensures forall i :: i != id ==> (i in n <==> i in m) && (i in m ==> n[i] == m[i])
  {
    forall i | i != id ensures (i in n <==> i in m) && (i in m ==> n[i] == m[i]) {
      assert i in n - {id} <==> i in m - {id};
      assert i in m ==> (n - {id})[i] == (m - {id})[i];
    }
  }

  /** Call `t` takes, keeps or gives up the lock of session `id`; every other lock stays with its holder. */
  lemma SyncsMove(p: Pool, q: Pool, t: nat, id: nat)
    requires Syncs(p) && Moved(p, q, t)
    requires forall u :: u in q.threads ==> SyncOk(q.threads[u], q.docs)
    requires q.owner - {id} == p.owner - {id}
    requires id in p.owner ==> p.owner[id] == t
    requires id in q.owner ==> q.owner[id] == t
    requires q.threads[t].pc.Syncing? <==> id in q.owner
    requires q.threads[t].pc.Syncing? ==> q.threads[t].pc.id == id
    requires p.threads[t].pc.Syncing? ==> p.threads[t].pc.id == id
    ensures Syncs(q)
  {
    SameElsewhere(p.owner, q.owner, id);
    forall u | u in q.threads && q.threads[u].pc.Syncing?
      ensures q.threads[u].pc.id in q.owner && q.owner[q.threads[u].pc.id] == u
    {
      assert u != t ==> q.threads[u].pc.id in p.owner && p.owner[q.threads[u].pc.id] == u;
    }
    forall i | i in q.owner ensures HeldBy(q, i, q.owner[i]) {
      assert i != id ==> HeldBy(p, i, p.owner[i]);
    }
  }

  lemma EnterSyncs(p: Pool, t: nat, id: nat)
    requires Syncs(p) && t in p.threads && p.threads[t].pc == Holding(id) && id !in p.owner && id in p.docs
    ensures Syncs(Enter(p, t, id))
  {
    var q := Enter(p, t, id);
    assert p.threads[t].files[..0] == [];
    forall u | u in q.threads ensures SyncOk(q.threads[u], q.docs) {
      assert SyncOk(p.threads[u], p.docs);
    }
    SyncsMove(p, q, t, id);
  }

  lemma EnterKeeps(p: Pool, t: nat, id: nat)
    requires Inv(p) && t in p.threads && p.threads[t].pc == Holding(id) && id !in p.owner && id in p.docs
    ensures Inv(Enter(p, t, id))
  {
    Aspects(p);
    var q := Enter(p, t, id);
    QuietFrame(p, q, t);
    ExistingFrame(p, q, t);
    EnterSyncs(p, t, id);
    FromAspects(q);
  }

  /** Nobody else touches the session, since this call holds its lock. */
  lemma SyncNextSyncs(p: Pool, t: nat, id: nat, next: nat, base: Docs)
    requires Syncs(p) && t in p.threads && p.threads[t].pc == Syncing(id, next, base) && next < |p.threads[t].files|
    requires id in p.docs
    ensures Syncs(SyncNext(p, t, id, next, base))
  {
    var q, files := SyncNext(p, t, id, next, base), p.threads[t].files;
    assert files[..next + 1][..next] == files[..next];
    forall u | u in q.threads ensures SyncOk(q.threads[u], q.docs) {
      assert SyncOk(p.threads[u], p.docs);
      assert u != t && p.threads[u].pc.Syncing? ==> p.threads[u].pc.id != id;
    }
    SyncsMove(p, q, t, id);
  }

  lemma SyncNextExisting(p: Pool, t: nat, id: nat, next: nat, base: Docs)
    requires Existing(p) && t in p.threads && p.threads[t].pc == Syncing(id, next, base) && next < |p.threads[t].files|
    requires id in p.docs
    ensures Existing(SyncNext(p, t, id, next, base))
  {
    if id !in p.hurt {
      SyncOneAgrees(p.docs[id], p.threads[t].files[next]);
    }
    OneMoreInOrder(p.docs[id], p.threads[t].files[next]);
  }

  lemma SyncNextKeeps(p: Pool, t: nat, id: nat, next: nat, base: Docs)
    requires Inv(p) && t in p.threads && p.threads[t].pc == Syncing(id, next, base) && next < |p.threads[t].files|
    requires id in p.docs
    ensures Inv(SyncNext(p, t, id, next, base))
  {
    Aspects(p);
    var q := SyncNext(p, t, id, next, base);
    QuietFrame(p, q, t);
    SyncNextExisting(p, t, id, next, base);
    SyncNextSyncs(p, t, id, next, base);
    FromAspects(q);
  }

  lemma BreakOffExisting(p: Pool, t: nat, id: nat, next: nat, how: Breakage)
    requires Existing(p) && t in p.threads && id in p.docs && next < |p.threads[t].files|
    ensures Existing(BreakOff(p, t, id, next, how))
  {
    BrokenInOrder(p.docs[id], p.threads[t].files[next], how);
  }

  lemma BreakOffSyncs(p: Pool, t: nat, id: nat, next: nat, how: Breakage)
    requires Syncs(p) && t in p.threads && p.threads[t].pc.Syncing? && p.threads[t].pc.id == id
    requires id in p.docs && next < |p.threads[t].files|
    ensures Syncs(BreakOff(p, t, id, next, how))
  {
    var q := BreakOff(p, t, id, next, how);
    forall u | u in q.threads ensures SyncOk(q.threads[u], q.docs) {
      assert SyncOk(p.threads[u], p.docs);
      assert u != t && p.threads[u].pc.Syncing? ==> p.threads[u].pc.id != id;
    }
    SyncsMove(p, q, t, id);
  }

  lemma BreakOffKeeps(p: Pool, t: nat, id: nat, next: nat, how: Breakage)
    requires Inv(p) && t in p.threads && p.threads[t].pc.Syncing? && p.threads[t].pc.id == id
    requires id in p.docs && next < |p.threads[t].files|
    ensures Inv(BreakOff(p, t, id, next, how))
  {
    Aspects(p);
    var q := BreakOff(p, t, id, next, how);
    QuietFrame(p, q, t);
    BreakOffExisting(p, t, id, next, how);
    BreakOffSyncs(p, t, id, next, how);
    FromAspects(q);
  }

  lemma LeaveSyncs(p: Pool, t: nat, id: nat, thread: Thread)
    requires Syncs(p) && t in p.threads && p.threads[t].pc.Syncing? && p.threads[t].pc.id == id
    requires DistinctFiles(thread.files) && !thread.pc.Syncing?
    ensures Syncs(Leave(p, t, id, thread))
  {
    var q := Leave(p, t, id, thread);
    forall u | u in q.threads ensures SyncOk(q.threads[u], q.docs) {
      assert SyncOk(p.threads[u], p.docs);
    }
    SyncsMove(p, q, t, id);
  }

  lemma LeaveKeeps(p: Pool, t: nat, id: nat, thread: Thread)
    requires Inv(p) && t in p.threads && p.threads[t].pc.Syncing? && p.threads[t].pc.id == id
    requires thread.key == p.threads[t].key && DistinctFiles(thread.files)
    requires thread.pc == Done(id) || thread.pc == Failed || thread.pc == Holding(id)
    ensures Inv(Leave(p, t, id, thread))
  {
    Aspects(p);
    var q := Leave(p, t, id, thread);
    QuietFrame(p, q, t);
    ExistingFrame(p, q, t);
    LeaveSyncs(p, t, id, thread);
    FromAspects(q);
  }

  lemma FindingKeeps(p: Pool, t: nat, choice: Choice, q: Pool)
    requires Inv(p) && Step(p, t, choice) == Some(q) && !p.threads[t].pc.Holding? && !p.threads[t].pc.Syncing?
    ensures Inv(q)
  {
    var thread := p.threads[t];
    if thread.pc.WantRead? || thread.pc.Reading? {
      ReadStepsKeep(p, t);
    } else if thread.pc.Created? {
      StoreKeeps(p, t, thread.pc.id);
    } else if thread.pc.Leaving? {
      EndWriteKeeps(p, t, Holding(thread.pc.id));
    } else if thread.pc.WantWrite? {
      BeginWriteKeeps(p, t);
    } else if thread.key in p.sessions {
      FindKeeps(p, t);
    } else if choice.Refuse? {
      EndWriteKeeps(p, t, Failed);
    } else {
      CreateKeeps(p, t);
    }
  }

  lemma EnteringKeeps(p: Pool, t: nat, choice: Choice, q: Pool)
    requires Inv(p) && Step(p, t, choice) == Some(q) && p.threads[t].pc.Holding?
    ensures Inv(q)
  {
    EnterKeeps(p, t, p.threads[t].pc.id);
  }

  lemma SyncingKeeps(p: Pool, t: nat, choice: Choice, q: Pool)
    requires Inv(p) && Step(p, t, choice) == Some(q) && p.threads[t].pc.Syncing?
    requires p.threads[t].pc.next < |p.threads[t].files|
    ensures Inv(q)
  {
    var pc := p.threads[t].pc;
    if choice.Break? && Changes(p.docs[pc.id], p.threads[t].files[pc.next]) {
      BreakOffKeeps(p, t, pc.id, pc.next, choice.how);
    } else {
      SyncNextKeeps(p, t, pc.id, pc.next, pc.base);
    }
  }

  lemma AfterSyncIs(thread: Thread, id: nat, choice: Choice)
    requires DistinctFiles(thread.files)
    ensures AfterSync(thread, id, choice).key == thread.key && DistinctFiles(AfterSync(thread, id, choice).files)
    ensures AfterSync(thread, id, choice).pc in {Done(id), Failed, Holding(id)}
  {}

  lemma ReleasingKeeps(p: Pool, t: nat, choice: Choice, q: Pool)
    requires Inv(p) && Step(p, t, choice) == Some(q) && p.threads[t].pc.Syncing?
    requires p.threads[t].pc.next >= |p.threads[t].files|
    ensures Inv(q)
  {
    var thread := p.threads[t];
    ThreadSyncs(p, t);
    AfterSyncIs(thread, thread.pc.id, choice);
    LeaveKeeps(p, t, thread.pc.id, AfterSync(thread, thread.pc.id, choice));
  }

  lemma ThreadSyncs(p: Pool, t: nat)
    requires Inv(p) && t in p.threads
    ensures SyncOk(p.threads[t], p.docs) && HandleOk(p.threads[t], p.sessions)
  {
    Aspects(p);
  }

  /** Every step of every call, in whatever order they come. */
  lemma StepKeeps(p: Pool, t: nat, choice: Choice, q: Pool)
    requires Inv(p) && Step(p, t, choice) == Some(q)
    ensures Inv(q)
  {
    var thread := p.threads[t];
    if thread.pc.Holding? {
      EnteringKeeps(p, t, choice, q);
    } else if !thread.pc.Syncing? {
      FindingKeeps(p, t, choice, q);
    } else if thread.pc.next < |thread.files| {
      SyncingKeeps(p, t, choice, q);
    } else {
      ReleasingKeeps(p, t, choice, q);
    }
  }

  lemma {:induction false} RunKeeps(p: Pool, schedule: seq<(nat, Choice)>)
    requires Inv(p)
    ensures Inv(Run(p, schedule))
    decreases |schedule|
  {
    if schedule != [] {
      var (t, choice) := schedule[0];
      match Step(p, t, choice)
      case None =>
        RunKeeps(p, schedule[1..]);
      case Some(q) =>
        StepKeeps(p, t, choice, q);
        RunKeeps(q, schedule[1..]);
    }
  }

  // ----- what follows for every interleaving -----

  lemma InitialOk(p: Pool)
    requires Initial(p)
    ensures Inv(p)
  {
    FromAspects(p);
  }

  predicate Together(a: Pc, b: Pc) {
    a.Syncing? && b.Syncing? && a.id == b.id
  }

  /** What can be said of any state an interleaving reaches. */
  ghost predicate Safe(p: Pool) {
    // at most one session is ever stored for a key
    && (forall i, j :: 0 <= i < j < |p.stored| ==> p.stored[i].0 != p.stored[j].0)
    // all calls of a key that got a session share it, and calls of different keys never do
    && (forall t, u :: t in p.threads && u in p.threads && HasSome(p.threads[t].pc) && HasSome(p.threads[u].pc) ==>
                         (p.threads[t].key == p.threads[u].key <==> p.threads[t].pc.id == p.threads[u].pc.id))
    // no two calls use a session at once
    && (forall t, u :: t in p.threads && u in p.threads && Together(p.threads[t].pc, p.threads[u].pc) ==> t == u)
    // in every session versions went up on the wire, and unless a sync broke off on it, what is known, what is on disk and
    // what the server saw agree
    && (forall id :: id in p.docs ==> WireInOrder(p.docs[id]) && (id !in p.hurt ==> Agreed(p.docs[id])))
  }

  lemma InvIsSafe(p: Pool)
    requires Inv(p)
    ensures Safe(p)
  {
    Aspects(p);
    forall t, u | t in p.threads && u in p.threads && HasSome(p.threads[t].pc) && HasSome(p.threads[u].pc)
      ensures p.threads[t].key == p.threads[u].key <==> p.threads[t].pc.id == p.threads[u].pc.id {
      assert HandleOk(p.threads[t], p.sessions) && HandleOk(p.threads[u], p.sessions);
    }
  }

  /** Every interleaving of any calls is safe throughout: stop the schedule anywhere. */
  lemma EveryInterleavingIsSafe(p: Pool, schedule: seq<(nat, Choice)>)
    requires Initial(p)
    ensures Safe(Run(p, schedule))
  {
    InitialOk(p);
    RunKeeps(p, schedule);
    InvIsSafe(Run(p, schedule));
  }

  lemma StepKeepsSessions(p: Pool, t: nat, choice: Choice, q: Pool, key: string)
    requires Inv(p) && Step(p, t, choice) == Some(q) && key in p.sessions
    ensures key in q.sessions && q.sessions[key] == p.sessions[key]
  {
    ThreadSyncs(p, t);
    if p.threads[t].pc.Created? {
      assert q.sessions == p.sessions[p.threads[t].key := p.threads[t].pc.id];
    } else {
      assert q.sessions == p.sessions;
    }
  }

  /** A stored session stays the key's session. */
  lemma {:induction false} SessionsStay(p: Pool, schedule: seq<(nat, Choice)>, key: string)
    requires Inv(p) && key in p.sessions
    ensures key in Run(p, schedule).sessions && Run(p, schedule).sessions[key] == p.sessions[key]
    decreases |schedule|
  {
    if schedule != [] {
      var (t, choice) := schedule[0];
      match Step(p, t, choice)
      case None =>
        SessionsStay(p, schedule[1..], key);
      case Some(q) =>
        StepKeeps(p, t, choice, q);
        StepKeepsSessions(p, t, choice, q, key);
        SessionsStay(q, schedule[1..], key);
    }
  }

  /**
   A call about to give a session up has synced all its files and nothing else to it since it took it. Unless a sync broke
   off on it, each is known, on disk and seen by the server with its text, at a version one higher exactly when its text
   was another before.
   */
  lemma ReleasedInAgreement(p: Pool, t: nat, f: File)
    requires Inv(p) && t in p.threads && p.threads[t].pc.Syncing?
    requires p.threads[t].pc.next == |p.threads[t].files| && f in p.threads[t].files
    ensures p.threads[t].pc.id in p.docs
    ensures p.docs[p.threads[t].pc.id] == SyncAll(p.threads[t].pc.base, p.threads[t].files)
    ensures p.threads[t].pc.id !in p.hurt ==> InAgreement(p.threads[t].pc.base, p.docs[p.threads[t].pc.id], f)
  {
    var files := p.threads[t].files;
    ThreadSyncs(p, t);
    assert files[..|files|] == files;
    if p.threads[t].pc.id !in p.hurt {
      assert Agreed(p.docs[p.threads[t].pc.id]) by {
        Aspects(p);
      }
      SyncedInAgreement(p.threads[t].pc.base, files, f);
    }
  }

  predicate Over(pc: Pc) {
    pc.Done? || pc.Failed?
  }

  lemma NeverWaits(p: Pool, t: nat)
    requires Inv(p) && t in p.threads
    requires Writes(p.threads[t].pc) || p.threads[t].pc.Reading? || p.threads[t].pc.Syncing?
    ensures Step(p, t, Go).Some?
  {
    ThreadSyncs(p, t);
  }

  lemma WaitsOnlyForLocks(p: Pool, t: nat)
    requires Inv(p) && t in p.threads && !Over(p.threads[t].pc) && p.writer.None? && p.readers == {}
    requires p.threads[t].pc.Holding? ==> p.threads[t].pc.id !in p.owner
    ensures Step(p, t, Go).Some?
  {
    ThreadSyncs(p, t);
    if p.threads[t].pc.Holding? {
      Aspects(p);
      assert p.sessions[p.threads[t].key] in p.docs;
    }
  }

  /** No deadlock: while a call is not over, some call can take a step. */
  lemma SomeoneCanStep(p: Pool, t: nat) returns (u: nat)
    requires Inv(p) && t in p.threads && !Over(p.threads[t].pc)
    ensures u in p.threads && Step(p, u, Go).Some?
  {
    Aspects(p);
    if p.writer.Some? {
      u := p.writer.value;
      NeverWaits(p, u);
    } else if p.readers != {} {
      u :| u in p.readers;
      NeverWaits(p, u);
    } else if p.threads[t].pc.Holding? && p.threads[t].pc.id in p.owner {
      u := p.owner[p.threads[t].pc.id];
      NeverWaits(p, u);
    } else {
      u := t;
      WaitsOnlyForLocks(p, u);
    }
  }
}
