/**
 The JSON-RPC client of adapters/vscode/src/client.js: a buffer drained on every chunk of output, and promises kept
 by request id. Parsing a body is a parameter; settling a promise is recorded. Two kinds of bodies throw behind the guard
 around the parse, and so end the drain loop: the JSON text `null`, which has no id to look at, and an error reply to a
 pending request whose message has no string form, which costs the request its promise.
 */
module RpcClient {
  import opened Wrappers
  import opened Framing
  import opened Text

  /** What a reply carries: a result, an error, or an error whose message cannot be made a string. */
  datatype Reply = Result | Error | Unprintable

  /** A parsed body: its id, if it has one, and what it carries. */
  datatype Body = BadJson | JsonNull | Message(id: Option<int>, reply: Reply)

  /** One call of `resolve` or `reject`. */
  datatype Settlement = Settlement(id: int, ok: bool)

  /** `lost` are the requests that were taken out of the pending ones without a settlement. */
  datatype Promises = Promises(pending: set<int>, settled: seq<Settlement>, lost: set<int>)

  /** The body throws, given what is pending. */
  predicate Throws(m: Body, pending: set<int>) {
    m.JsonNull? || (m.Message? && m.id.Some? && m.id.value in pending && m.reply.Unprintable?)
  }

  /** What one delivered body does: bodies that do not parse, have no id or come late do nothing. */
  function Handle(s: Promises, m: Body): Handled<Promises> {
    if !m.Message? || m.id.None? || m.id.value !in s.pending then Handled(s, m.JsonNull?)
    else
      var id := m.id.value;
      match m.reply
      case Unprintable => Handled(s.(pending := s.pending - {id}, lost := s.lost + {id}), true)
      case Result => Handled(s.(pending := s.pending - {id}, settled := s.settled + [Settlement(id, true)]), false)
      case Error => Handled(s.(pending := s.pending - {id}, settled := s.settled + [Settlement(id, false)]), false)
  }

  function Act(parse: string -> Body): (Promises, string) -> Handled<Promises> {
    (s: Promises, body: string) => Handle(s, parse(body))
  }

  ghost predicate Settled(s: Promises, id: int) {
    exists i :: 0 <= i < |s.settled| && s.settled[i].id == id
  }

  /** Of the ids handed out so far, each one is pending, settled once, or lost; and only one of these. */
  ghost predicate SettledOnce(s: Promises, nextId: int) {
    && (forall id :: 1 <= id < nextId <==> id in s.pending || Settled(s, id) || id in s.lost)
    && (forall id :: id in s.pending ==> !Settled(s, id) && id !in s.lost)
    && (forall id :: id in s.lost ==> !Settled(s, id))
    && (forall i, j :: 0 <= i < j < |s.settled| ==> s.settled[i].id != s.settled[j].id)
  }

  lemma SettleOne(s: Promises, id: int, ok: bool, nextId: int)
    requires SettledOnce(s, nextId) && id in s.pending
    ensures SettledOnce(s.(pending := s.pending - {id}, settled := s.settled + [Settlement(id, ok)]), nextId)
  {
    var s' := s.(pending := s.pending - {id}, settled := s.settled + [Settlement(id, ok)]);
    forall x ensures Settled(s', x) <==> x == id || Settled(s, x) {
      if x == id {
        assert s'.settled[|s.settled|].id == id;
      }
      if Settled(s, x) {
        var i :| 0 <= i < |s.settled| && s.settled[i].id == x;
        assert s'.settled[i].id == x;
      }
    }
    assert forall i :: 0 <= i < |s.settled| ==> Settled(s, s.settled[i].id);
  }

  lemma LoseOne(s: Promises, id: int, nextId: int)
    requires SettledOnce(s, nextId) && id in s.pending
    ensures SettledOnce(s.(pending := s.pending - {id}, lost := s.lost + {id}), nextId)
  {
    var s' := s.(pending := s.pending - {id}, lost := s.lost + {id});
    assert forall x :: Settled(s', x) == Settled(s, x);
  }

  // ----- what delivered bodies settle -----

  predicate RepliesTo(m: Body, id: int) {
    m.Message? && m.id == Some(id)
  }

  ghost predicate NoReply(parse: string -> Body, bodies: seq<string>, id: int) {
    forall j :: 0 <= j < |bodies| ==> !RepliesTo(parse(bodies[j]), id)
  }

  /** Body `i` is the first one with this id. */
  ghost predicate FirstReply(parse: string -> Body, bodies: seq<string>, i: nat, id: int) {
    && i < |bodies| && RepliesTo(parse(bodies[i]), id)
    && forall j :: 0 <= j < i ==> !RepliesTo(parse(bodies[j]), id)
  }

  /** Body `i` is the first reply to the request `id`, pending before the first body, and settles it as `ok` says. */
  ghost predicate Answers(parse: string -> Body, bodies: seq<string>, pending: set<int>, i: nat, how: Settlement) {
    && how.id in pending && FirstReply(parse, bodies, i, how.id)
    && (if how.ok then parse(bodies[i]).reply.Result? else parse(bodies[i]).reply.Error?)
  }

  /** `added` are the settlements that the bodies at the positions `at` stand for, and no other body stands for one. */
  ghost predicate AnsweredAt(parse: string -> Body, bodies: seq<string>, pending: set<int>, added: seq<Settlement>, at: seq<nat>) {
    && |at| == |added|
    && (forall k, l :: 0 <= k < l < |at| ==> at[k] < at[l])
    && (forall k :: 0 <= k < |at| ==> Answers(parse, bodies, pending, at[k], added[k]))
    && forall i: nat, how :: Answers(parse, bodies, pending, i, how) ==> i in at
  }

  /** The settlements a list of bodies adds are, in order, those of the first replies to the requests pending before it. */
  ghost predicate Answered(parse: string -> Body, bodies: seq<string>, pending: set<int>, added: seq<Settlement>) {
    exists at: seq<nat> :: AnsweredAt(parse, bodies, pending, added, at)
  }

  /** What is pending, settled and lost at `t`, in terms of the bodies delivered since `s`. */
  ghost predicate RunFrom(parse: string -> Body, bodies: seq<string>, s: Promises, t: Promises) {
    && (forall id :: id in t.pending <==> id in s.pending && NoReply(parse, bodies, id))
    && (forall id :: id in t.lost <==>
          || id in s.lost
          || (id in s.pending && exists i: nat :: FirstReply(parse, bodies, i, id) && parse(bodies[i]).reply.Unprintable?))
    && s.settled <= t.settled
    && Answered(parse, bodies, s.pending, t.settled[|s.settled|..])
  }

  lemma FirstReplySnoc(parse: string -> Body, bodies: seq<string>, body: string, i: nat, id: int)
    ensures FirstReply(parse, bodies + [body], i, id) <==>
            || FirstReply(parse, bodies, i, id)
            || (i == |bodies| && RepliesTo(parse(body), id) && NoReply(parse, bodies, id))
    ensures NoReply(parse, bodies + [body], id) <==> NoReply(parse, bodies, id) && !RepliesTo(parse(body), id)
  {
    var all := bodies + [body];
    assert all[|bodies|] == body && forall j :: 0 <= j < |bodies| ==> all[j] == bodies[j];
    if NoReply(parse, all, id) {
      forall j | 0 <= j < |bodies| ensures !RepliesTo(parse(bodies[j]), id) {
        assert !RepliesTo(parse(all[j]), id);
      }
    }
    if FirstReply(parse, all, i, id) {
      forall j | 0 <= j < i ensures !RepliesTo(parse(bodies[j]), id) {
        assert !RepliesTo(parse(all[j]), id);
      }
    }
  }

  lemma AnswersSnoc(parse: string -> Body, bodies: seq<string>, body: string, pending: set<int>, i: nat, how: Settlement)
    ensures Answers(parse, bodies + [body], pending, i, how) <==>
            || Answers(parse, bodies, pending, i, how)
            || (i == |bodies| && how.id in pending && RepliesTo(parse(body), how.id)
                && NoReply(parse, bodies, how.id)
                && (if how.ok then parse(body).reply.Result? else parse(body).reply.Error?))
  {
    FirstReplySnoc(parse, bodies, body, i, how.id);
  }

  /** A body that settles nothing. */
  lemma AnsweredIdle(parse: string -> Body, bodies: seq<string>, body: string, pending: set<int>, added: seq<Settlement>)
    requires Answered(parse, bodies, pending, added)
    requires forall how :: !Answers(parse, bodies + [body], pending, |bodies|, how)
    ensures Answered(parse, bodies + [body], pending, added)
  {
    var at: seq<nat> :| AnsweredAt(parse, bodies, pending, added, at);
    forall i: nat, how ensures Answers(parse, bodies + [body], pending, i, how) <==> Answers(parse, bodies, pending, i, how) {
      AnswersSnoc(parse, bodies, body, pending, i, how);
    }
    assert AnsweredAt(parse, bodies + [body], pending, added, at);
  }

  /** A body that settles a request. */
  lemma AnsweredOne(parse: string -> Body, bodies: seq<string>, body: string, pending: set<int>, added: seq<Settlement>,
                    how: Settlement)
    requires Answered(parse, bodies, pending, added)
    requires Answers(parse, bodies + [body], pending, |bodies|, how)
    ensures Answered(parse, bodies + [body], pending, added + [how])
  {
    var at: seq<nat> :| AnsweredAt(parse, bodies, pending, added, at);
    var all, added', at' := bodies + [body], added + [how], at + [|bodies|];
    forall k | 0 <= k < |at| ensures at[k] < |bodies| && Answers(parse, all, pending, at[k], added[k]) {
      assert Answers(parse, bodies, pending, at[k], added[k]);
      AnswersSnoc(parse, bodies, body, pending, at[k], added[k]);
    }
    forall k | 0 <= k < |at'| ensures Answers(parse, all, pending, at'[k], added'[k]) {
      assert k < |at| ==> at'[k] == at[k] && added'[k] == added[k];
    }
    forall i: nat, h | Answers(parse, all, pending, i, h) ensures i in at' {
      AnswersSnoc(parse, bodies, body, pending, i, h);
      InEither(at, |bodies|, i);
    }
    assert AnsweredAt(parse, all, pending, added', at');
  }

  lemma InEither(at: seq<nat>, n: nat, i: nat)
    ensures i in at + [n] <==> i in at || i == n
  {}

  lemma {:induction false} RunSnoc(parse: string -> Body, bodies: seq<string>, body: string, s: Promises, t: Promises)
    requires RunFrom(parse, bodies, s, t)
    ensures RunFrom(parse, bodies + [body], s, Handle(t, parse(body)).state)
  {
    var m, u, all := parse(body), Handle(t, parse(body)).state, bodies + [body];
    var added := t.settled[|s.settled|..];
    forall id ensures id in u.pending <==> id in s.pending && NoReply(parse, all, id) {
      FirstReplySnoc(parse, bodies, body, 0, id);
    }
    forall i: nat, id
      ensures FirstReply(parse, all, i, id) <==>
              || FirstReply(parse, bodies, i, id)
              || (i == |bodies| && RepliesTo(m, id) && NoReply(parse, bodies, id))
    {
      FirstReplySnoc(parse, bodies, body, i, id);
    }
    LostSnoc(parse, bodies, body, s, t);
    forall how ensures Answers(parse, all, s.pending, |bodies|, how) <==>
                       && RepliesTo(m, how.id) && how.id in t.pending
                       && (if how.ok then m.reply.Result? else m.reply.Error?)
    {
      AnswersSnoc(parse, bodies, body, s.pending, |bodies|, how);
    }
    if m.Message? && m.id.Some? && m.id.value in t.pending && !m.reply.Unprintable? {
      var how := Settlement(m.id.value, m.reply.Result?);
      AnsweredOne(parse, bodies, body, s.pending, added, how);
      assert u.settled[|s.settled|..] == added + [how];
    } else {
      AnsweredIdle(parse, bodies, body, s.pending, added);
    }
  }

  lemma LostSnoc(parse: string -> Body, bodies: seq<string>, body: string, s: Promises, t: Promises)
    requires RunFrom(parse, bodies, s, t)
    ensures var u, all := Handle(t, parse(body)).state, bodies + [body];
            forall id :: id in u.lost <==>
              || id in s.lost
              || (id in s.pending && exists i: nat :: FirstReply(parse, all, i, id) && parse(all[i]).reply.Unprintable?)
  {
    var m, u, all := parse(body), Handle(t, parse(body)).state, bodies + [body];
    forall id
      ensures id in u.lost <==>
              || id in s.lost
              || (id in s.pending && exists i: nat :: FirstReply(parse, all, i, id) && parse(all[i]).reply.Unprintable?)
    {
      forall i: nat ensures FirstReply(parse, all, i, id) <==>
                       || FirstReply(parse, bodies, i, id)
                       || (i == |bodies| && RepliesTo(m, id) && NoReply(parse, bodies, id))
      {
        FirstReplySnoc(parse, bodies, body, i, id);
      }
      if id in t.lost && id !in s.lost {
        var i: nat :| FirstReply(parse, bodies, i, id) && parse(bodies[i]).reply.Unprintable?;
        assert all[i] == bodies[i] && FirstReply(parse, all, i, id);
      }
      if id in u.lost && id !in t.lost {
        assert FirstReply(parse, all, |bodies|, id) && all[|bodies|] == body;
      }
    }
  }

  /** Whatever bodies are delivered: each pending request is settled by its first reply, in the order of the replies. */
  lemma {:induction false} FirstReplyDecides(parse: string -> Body, bodies: seq<string>, s: Promises)
    ensures RunFrom(parse, bodies, s, StateAfter(s, bodies, Act(parse)))
    decreases |bodies|
  {
    if bodies == [] {
      assert AnsweredAt(parse, bodies, s.pending, [], []);
      assert s.settled[|s.settled|..] == [];
    } else {
      var n := |bodies| - 1;
      FirstReplyDecides(parse, bodies[..n], s);
      assert bodies == bodies[..n] + [bodies[n]];
      StateAfterConcat(s, bodies[..n], [bodies[n]], Act(parse));
      RunSnoc(parse, bodies[..n], bodies[n], s, StateAfter(s, bodies[..n], Act(parse)));
    }
  }

  lemma {:induction false} DrainedState(buffer: string, s: Promises, act: (Promises, string) -> Handled<Promises>)
    ensures var d := DrainWith(buffer, s, act); d.state == StateAfter(s, d.bodies, act)
    decreases |buffer|
  {
    match NextStep(buffer)
    case Wait =>
    case Drop(rest) => DrainedState(rest, s, act);
    case Deliver(body, rest) =>
      DrainWithDelivers(buffer, body, rest, s, act);
      DrainedState(rest, act(s, body).state, act);
      assert StateAfter(s, [body], act) == act(s, body).state;
  }

  lemma {:induction false} FedState(buffer: string, chunks: seq<string>, s: Promises,
                                    act: (Promises, string) -> Handled<Promises>)
    ensures var d := FeedAll(buffer, chunks, s, act); d.state == StateAfter(s, d.bodies, act)
    decreases |chunks|
  {
    if chunks != [] {
      var now := DrainWith(buffer + chunks[0], s, act);
      var later := FeedAll(now.left, chunks[1..], now.state, act);
      DrainedState(buffer + chunks[0], s, act);
      FedState(now.left, chunks[1..], now.state, act);
      StateAfterConcat(s, now.bodies, later.bodies, act);
    }
  }

  lemma OneBodyRun(parse: string -> Body, body: string, s: Promises)
    ensures RunFrom(parse, [body], s, Handle(s, parse(body)).state)
  {
    FirstReplyDecides(parse, [body], s);
    assert StateAfter(s, [body], Act(parse)) == Handle(s, parse(body)).state;
  }

  lemma DrainRun(parse: string -> Body, buffer: string, s: Promises)
    ensures var d := DrainWith(buffer, s, Act(parse)); RunFrom(parse, d.bodies, s, d.state)
  {
    DrainedState(buffer, s, Act(parse));
    FirstReplyDecides(parse, DrainWith(buffer, s, Act(parse)).bodies, s);
  }

  lemma FedRun(parse: string -> Body, buffer: string, chunks: seq<string>, s: Promises)
    ensures var d := FeedAll(buffer, chunks, s, Act(parse)); RunFrom(parse, d.bodies, s, d.state)
  {
    FedState(buffer, chunks, s, Act(parse));
    FirstReplyDecides(parse, FeedAll(buffer, chunks, s, Act(parse)).bodies, s);
  }

  lemma NotEmpty(s: set<int>)
    requires s != {}
    ensures exists id :: id in s
  {
    assert (forall id :: id !in s) ==> s == {};
  }

  class Client {
    const parse: string -> Body
    var buffer: string
    var nextId: int
    var pending: set<int>
    var settled: seq<Settlement>  // every settlement so far
    var handed: seq<string>       // every body handed to the parser so far
    ghost var lost: set<int>      // every id dropped without a settlement

    ghost function State(): Promises
      reads this
    {
      Promises(pending, settled, lost)
    }

    ghost predicate Valid()
      reads this
    {
      SettledOnce(State(), nextId) && nextId >= 1
    }

    constructor (parse: string -> Body)
      ensures Valid() && buffer == "" && State() == Promises({}, [], {}) && handed == [] && this.parse == parse
    {
      this.parse := parse;
      buffer, nextId, pending, settled, handed, lost := "", 1, {}, [], [], {};
    }

    /** `request`: refused when no process runs; otherwise a fresh id, which a failing write rejects at once. */
    method Request(running: bool, writeOk: bool) returns (id: Option<int>)
      requires Valid()
      modifies this`nextId, this`pending, this`settled
      ensures Valid()
      ensures !running ==> id == None && nextId == old(nextId) && State() == old(State())
      ensures running ==>
                && id == Some(old(nextId)) && nextId == old(nextId) + 1
                && pending == (if writeOk then old(pending) + {id.value} else old(pending))
                && settled == old(settled) + if writeOk then [] else [Settlement(id.value, false)]
    {
      if !running {
        return None;
      }
      id := Some(nextId);
      nextId := nextId + 1;
      pending := pending + {id.value};
      ghost var s := State();
      assert forall x :: Settled(s, x) == Settled(old(State()), x);
      assert SettledOnce(s, nextId);
      if !writeOk {
        SettleOne(s, id.value, false, nextId);
        pending := pending - {id.value};
        settled := settled + [Settlement(id.value, false)];
        assert pending == old(pending);
      }
    }

    /** The timer of a request: rejects it if it is still pending. So a lost one is not rejected either. */
    method Timeout(id: int)
      requires Valid()
      modifies this`pending, this`settled
      ensures Valid()
      ensures State() == if id in old(pending) then
                           Promises(old(pending) - {id}, old(settled) + [Settlement(id, false)], lost)
                         else old(State())
    {
      if id in pending {
        SettleOne(State(), id, false, nextId);
        pending := pending - {id};
        settled := settled + [Settlement(id, false)];
      }
    }

    /** Calls `resolve` or `reject` of a pending promise. */
    method Settle(id: int, ok: bool)
      requires SettledOnce(State(), nextId) && id in pending
      modifies this`pending, this`settled
      ensures SettledOnce(State(), nextId)
      ensures pending == old(pending) - {id} && settled == old(settled) + [Settlement(id, ok)]
    {
      SettleOne(State(), id, ok, nextId);
      pending := pending - {id};
      settled := settled + [Settlement(id, ok)];
    }

    /** One delivered body. */
    method OnBody(body: string) returns (threw: bool)
      requires SettledOnce(State(), nextId)
      modifies this`pending, this`settled, this`handed, this`lost
      ensures SettledOnce(State(), nextId)
      ensures handed == old(handed) + [body] && Handled(State(), threw) == Handle(old(State()), parse(body))
      ensures threw <==> Throws(parse(body), old(pending))
      ensures RunFrom(parse, [body], old(State()), State())
    {
      OneBodyRun(parse, body, State());
      handed := handed + [body];
      match parse(body)
      case BadJson =>
        return false;
      case JsonNull =>
        return true;
      case Message(id, reply) =>
        if id.None? || id.value !in pending {
          return false;
        }
        if reply.Unprintable? {
          LoseOne(State(), id.value, nextId);
          pending, lost := pending - {id.value}, lost + {id.value};
          return true;
        }
        Settle(id.value, reply.Result?);
        return false;
    }

    /**
     `_onStdoutData`: drains complete messages and settles the promises they answer, until none is left or one throws.
     */
    method OnStdoutData(chunk: string) returns (threw: bool)
      requires Valid()
      modifies this`buffer, this`pending, this`settled, this`handed, this`lost
      ensures Valid()
      ensures var d := DrainWith(old(buffer) + chunk, old(State()), Act(parse));
              buffer == d.left && handed == old(handed) + d.bodies && State() == d.state
      ensures RunFrom(parse, handed[|old(handed)|..], old(State()), State())
      ensures threw ==> handed != old(handed)
      ensures !threw ==> NextStep(buffer).Wait?
    {
      ghost var start, first, all, act := State(), handed, buffer + chunk, Act(parse);
      ghost var done: seq<string> := [];
      buffer := buffer + chunk;
      threw := false;
      DrainRun(parse, all, start);
      assert first + done == first && done + DrainWith(all, start, act).bodies == DrainWith(all, start, act).bodies;
      while !threw
        invariant if threw then DrainWith(all, start, act) == Drained(done, buffer, State())
                  else DrainedSoFar(all, start, done, buffer, State(), act)
        invariant handed == first + done && (threw ==> done != [])
        invariant SettledOnce(State(), nextId)
        decreases |buffer|, !threw
      {
        DrainStep(all, start, done, buffer, State(), act);
        var step := NextStep(buffer);
        match step
        case Wait =>
          break;
        case Drop(rest) =>
          buffer := rest;
        case Deliver(body, rest) =>
          buffer := rest;
          threw := OnBody(body);
          PartsAssoc(first, done, [body]);
          done := done + [body];
      }
    }

    /** `_failAllPending`: rejects every pending promise, in any order. */
    method FailAllPending()
      requires Valid()
      modifies this`pending, this`settled
      ensures Valid() && pending == {}
      ensures old(settled) <= settled && |settled| == |old(settled)| + |old(pending)|
      ensures forall id :: id in old(pending) ==> Settlement(id, false) in settled
    {
      while pending != {}
        invariant SettledOnce(State(), nextId) && pending <= old(pending)
        invariant old(settled) <= settled && |settled| + |pending| == |old(settled)| + |old(pending)|
        invariant forall id :: id in old(pending) - pending ==> Settlement(id, false) in settled
        decreases pending
      {
        var todo := pending;
        NotEmpty(todo);
        var id :| id in todo;
        Settle(id, false);
      }
    }

    /**
     A run of chunks; and unless a body that throws keeps the loop from another step, it has the effect of the bytes in
     them, however they were cut.
     */
    method OnChunks(chunks: seq<string>)
      requires Valid()
      modifies this`buffer, this`pending, this`settled, this`handed, this`lost
      ensures Valid()
      ensures var d := FeedAll(old(buffer), chunks, old(State()), Act(parse));
              buffer == d.left && handed == old(handed) + d.bodies && State() == d.state
      ensures RunFrom(parse, handed[|old(handed)|..], old(State()), State())
      ensures NextStep(old(buffer)).Wait? && !Interrupted(old(buffer) + Concat(chunks), old(State()), Act(parse)) ==>
                FeedAll(old(buffer), chunks, old(State()), Act(parse))
                == DrainedAll(old(buffer) + Concat(chunks), old(State()), Act(parse))
      decreases |chunks|
    {
      if NextStep(buffer).Wait? && !Interrupted(buffer + Concat(chunks), State(), Act(parse)) {
        ChunksDoNotMatter(buffer, chunks, State(), Act(parse));
      }
      FedRun(parse, buffer, chunks, State());
      if chunks == [] {
        assert handed + [] == handed;
        return;
      }
      ghost var now := DrainWith(buffer + chunks[0], State(), Act(parse));
      ghost var later := FeedAll(now.left, chunks[1..], now.state, Act(parse));
      PartsAssoc(handed, now.bodies, later.bodies);
      var _ := OnStdoutData(chunks[0]);
      OnChunks(chunks[1..]);
    }
  }

  ghost predicate DrainedSoFar(all: string, start: Promises, done: seq<string>, buffer: string, s: Promises,
                               act: (Promises, string) -> Handled<Promises>) {
    var d := DrainWith(buffer, s, act);
    DrainWith(all, start, act) == d.(bodies := done + d.bodies)
  }

  lemma DrainStep(all: string, start: Promises, done: seq<string>, buffer: string, s: Promises,
                  act: (Promises, string) -> Handled<Promises>)
    requires DrainedSoFar(all, start, done, buffer, s, act)
    ensures var step := NextStep(buffer);
            && (step.Wait? ==> DrainWith(all, start, act) == Drained(done, buffer, s))
            && (step.Drop? ==> DrainedSoFar(all, start, done, step.rest, s, act))
            && (step.Deliver? && act(s, step.body).stops ==>
                  DrainWith(all, start, act) == Drained(done + [step.body], step.rest, act(s, step.body).state))
            && (step.Deliver? && !act(s, step.body).stops ==>
                  DrainedSoFar(all, start, done + [step.body], step.rest, act(s, step.body).state, act))
  {
    match NextStep(buffer)
    case Wait => assert done + [] == done;
    case Drop(_) =>
    case Deliver(body, rest) =>
      DrainWithDelivers(buffer, body, rest, s, act);
      PartsAssoc(done, [body], DrainWith(rest, act(s, body).state, act).bodies);
  }

  /**
   In whatever state the client is, it hands out the bodies of a framed stream, in the same way for every cut into chunks,
   if and only if no body but the last is the JSON text `null` or an unprintable error reply to a request pending then.
   */
  lemma DecodesExactly(bodies: seq<string>, s: Promises, parse: string -> Body)
    ensures (forall chunks :: Concat(chunks) == Stream(bodies) ==>
                                FeedAll("", chunks, s, Act(parse)) == Drained(bodies, "", StateAfter(s, bodies, Act(parse))))
            <==> forall i :: 0 <= i < |bodies| - 1 ==>
                               !Throws(parse(bodies[i]), StateAfter(s, bodies[..i], Act(parse)).pending)
  {
    FramedStreamDecodes(bodies, s, Act(parse));
    forall i | 0 <= i < |bodies| - 1
      ensures Stops(bodies, i, s, Act(parse)) <==> Throws(parse(bodies[i]), StateAfter(s, bodies[..i], Act(parse)).pending) {}
  }

  lemma {:induction false} NothingPending(s: Promises, bodies: seq<string>, parse: string -> Body)
    requires s.pending == {}
    ensures StateAfter(s, bodies, Act(parse)) == s
    decreases |bodies|
  {
    if bodies != [] {
      NothingPending(s, bodies[1..], parse);
    }
  }

  /**
   A client that has just started, fed any cut of a framed stream in which no body but the last is the JSON text `null`,
   hands out exactly the bodies.
   */
  method DecodeStream(bodies: seq<string>, chunks: seq<string>, parse: string -> Body) returns (c: Client)
    requires Concat(chunks) == Stream(bodies)
    ensures (forall i :: 0 <= i < |bodies| - 1 ==> !parse(bodies[i]).JsonNull?) ==> c.handed == bodies && c.buffer == ""
  {
    c := new Client(parse);
    ghost var s := c.State();
    forall i | 0 <= i < |bodies| ensures StateAfter(s, bodies[..i], Act(parse)) == s {
      NothingPending(s, bodies[..i], parse);
    }
    DecodesExactly(bodies, s, parse);
    c.OnChunks(chunks);
    assert [] + bodies == bodies;
  }

  // ----- bodies that throw -----

  lemma OneFrame(body: string, s: Promises, act: (Promises, string) -> Handled<Promises>)
    ensures DrainWith("" + Frame(body), s, act) == Drained([body], "", act(s, body).state)
  {
    FrameStep(body, "");
    assert "" + Frame(body) == Frame(body) + "" && [body] + [] == [body];
    DrainWithDelivers(Frame(body) + "", body, "", s, act);
  }

  lemma TwoFramesTogether(a: string, b: string, s: Promises, act: (Promises, string) -> Handled<Promises>)
    requires act(s, a).stops
    ensures FeedAll("", [Frame(a) + Frame(b)], s, act) == Drained([a], Frame(b), act(s, a).state)
  {
    var both := Frame(a) + Frame(b);
    FrameStep(a, Frame(b));
    DrainWithDelivers(both, a, Frame(b), s, act);
    OneChunk("", both, s, act);
    assert "" + both == both;
  }

  lemma TwoFramesApart(a: string, b: string, s: Promises, act: (Promises, string) -> Handled<Promises>)
    ensures FeedAll("", [Frame(a), Frame(b)], s, act) == Drained([a, b], "", act(act(s, a).state, b).state)
  {
    OneFrame(a, s, act);
    OneFrame(b, act(s, a).state, act);
    OneChunk("", Frame(b), act(s, a).state, act);
    assert [Frame(a), Frame(b)][1..] == [Frame(b)] && [a] + [b] == [a, b];
  }

  lemma TwoFrames(a: string, b: string, s: Promises, act: (Promises, string) -> Handled<Promises>)
    requires act(s, a).stops
    ensures FeedAll("", [Frame(a) + Frame(b)], s, act) == Drained([a], Frame(b), act(s, a).state)
    ensures FeedAll("", [Frame(a), Frame(b)], s, act) == Drained([a, b], "", act(act(s, a).state, b).state)
  {
    TwoFramesTogether(a, b, s, act);
    TwoFramesApart(a, b, s, act);
  }

  /** The bodies `null` and `{}`: in one chunk only the first comes out, in two both do. */
  lemma NullEndsTheLoop(s: Promises, parse: string -> Body, null_: string, object_: string)
    requires null_ == "null" && parse(null_).JsonNull? && object_ == "{}" && parse(object_) == Message(None, Result)
    ensures FeedAll("", [Frame(null_) + Frame(object_)], s, Act(parse)) == Drained([null_], Frame(object_), s)
    ensures FeedAll("", [Frame(null_), Frame(object_)], s, Act(parse)) == Drained([null_, object_], "", s)
  {
    TwoFrames(null_, object_, s, Act(parse));
  }

  const UNPRINTABLE := "{\"id\":1,\"error\":{\"message\":{\"toString\":0}}}"

  /**
   An error reply to the pending request 1 whose message has no string form, with `{}` behind it: in one chunk only the
   first comes out, in two both do, and request 1 is lost either way. When request 1 is not pending, both come out.
   */
  lemma UnprintableLosesTheRequest(s: Promises, parse: string -> Body, reply: string, object_: string)
    requires reply == UNPRINTABLE && parse(reply) == Message(Some(1), Unprintable)
    requires object_ == "{}" && parse(object_) == Message(None, Result)
    ensures var both, t := [Frame(reply) + Frame(object_)], s.(pending := s.pending - {1}, lost := s.lost + {1});
            if 1 in s.pending then
              && FeedAll("", both, s, Act(parse)) == Drained([reply], Frame(object_), t)
              && FeedAll("", [Frame(reply), Frame(object_)], s, Act(parse)) == Drained([reply, object_], "", t)
            else FeedAll("", both, s, Act(parse)) == Drained([reply, object_], "", s)
  {
    if 1 in s.pending {
      TwoFrames(reply, object_, s, Act(parse));
    } else {
      TwoHandled(reply, object_, s, Act(parse));
    }
  }

  lemma NoPrefix(s: string)
    ensures "" + s == s
  {}

  lemma TwoHandled(a: string, b: string, s: Promises, act: (Promises, string) -> Handled<Promises>)
    requires !act(s, a).stops && !act(act(s, a).state, b).stops
    ensures FeedAll("", [Frame(a) + Frame(b)], s, act) == Drained([a, b], "", act(act(s, a).state, b).state)
  {
    var both := Frame(a) + Frame(b);
    FrameStep(a, Frame(b));
    DrainWithDelivers(both, a, Frame(b), s, act);
    OneFrame(b, act(s, a).state, act);
    NoPrefix(Frame(b));
    NoPrefix(both);
    assert [a] + [b] == [a, b];
    OneChunk("", both, s, act);
  }

  /** A request that is lost is never settled afterwards, whatever bodies come. */
  lemma {:induction false} LostForGood(s: Promises, nextId: int, bodies: seq<string>, parse: string -> Body, id: int)
    requires SettledOnce(s, nextId) && id in s.lost
    ensures var t := StateAfter(s, bodies, Act(parse)); SettledOnce(t, nextId) && id in t.lost && !Settled(t, id)
    decreases |bodies|
  {
    if bodies != [] {
      var m := parse(bodies[0]);
      if m.Message? && m.id.Some? && m.id.value in s.pending {
        if m.reply.Unprintable? {
          LoseOne(s, m.id.value, nextId);
        } else {
          SettleOne(s, m.id.value, m.reply.Result?, nextId);
        }
      }
      LostForGood(Handle(s, m).state, nextId, bodies[1..], parse, id);
    }
  }
}
