/**
 The bounded LLM loop: `propose` (crates/aa-llm/src/propose.rs) and `refine` (crates/aa-llm/src/refine.rs) over the
 response cache of crates/aa-llm/src/cache.rs. The provider answers anything at any time; an answer is what parsing it
 against the schema gives. Cache keys are assumed not to collide.
 */
module LlmLoop {
  import opened Wrappers
  import opened Graph
  import opened ContextWalk
  import opened Proposals

  datatype LlmRequest =
    LlmRequest(system: string, user: string, schemaId: string, maxTokens: nat, temperature: nat)

  /** `candidates` is None when the text does not fit the schema. */
  datatype LlmResponse = LlmResponse(candidates: Option<seq<Proposal>>, tokensIn: nat, tokensOut: nat)

  datatype LlmError = Unavailable | InvalidResponse

  datatype Diagnostic = Diagnostic(severity: string, file: Option<string>, message: string)

  /** The surroundings: the provider's answer to its nth call, and how prompts read. */
  datatype Env = Env(
    name: string,
    answer: (nat, LlmRequest) -> Result<LlmResponse, LlmError>,
    proposePrompt: (string, seq<Fact>) -> (string, string),
    refinePrompt: (string, seq<Fact>, seq<Outcome>, seq<Diagnostic>) -> (string, string))

  datatype ProposeRequest =
    ProposeRequest(intent: string, anchor: string, hops: nat, maxFacts: nat, maxTokens: nat, temperature: nat)

  datatype ProposeResult =
    ProposeResult(accepted: nat, rejected: nat, cacheHit: bool, tokensIn: nat, tokensOut: nat, outcomes: seq<Outcome>)

  datatype RefineRequest =
    RefineRequest(intent: string, anchor: string, hops: nat, maxFacts: nat, maxRounds: nat, maxTokens: nat,
                  temperature: nat, priorOutcomes: seq<Outcome>, priorDiagnostics: seq<Diagnostic>)

  datatype RoundSummary =
    RoundSummary(round: nat, accepted: nat, rejected: nat, cacheHit: bool, tokensIn: nat, tokensOut: nat)

  datatype RefineResult =
    RefineResult(rounds: nat, converged: bool, accepted: nat, rejected: nat, tokensIn: nat, tokensOut: nat,
                 outcomes: seq<Outcome>, summaries: seq<RoundSummary>)

  type Key = (string, LlmRequest)

  type Cache = map<Key, LlmResponse>

  datatype State = State(store: Store, cache: Cache, calls: nat)

  // ----- asking -----

  datatype Asked = Asked(state: State, raw: Result<LlmResponse, LlmError>, hit: bool)

  /** From the cache, or from the provider and then into the cache unless it failed. */
  function Ask(s: State, env: Env, request: LlmRequest): Asked {
    var key := (env.name, request);
    if key in s.cache then Asked(s, Success(s.cache[key]), true)
    else
      var r := env.answer(s.calls, request);
      Asked(State(s.store, if r.Success? then s.cache[key := r.value] else s.cache, s.calls + 1), r, false)
  }

  function Rejections(outcomes: seq<Outcome>): (r: seq<Outcome>)
    ensures |r| <= |outcomes|
  {
    if outcomes == [] then []
    else if outcomes[0].Accepted() then Rejections(outcomes[1..])
    else [outcomes[0]] + Rejections(outcomes[1..])
  }

  /** What is carried into the next round are the outcomes that were not accepted. */
  lemma {:induction false} RejectionsAre(outcomes: seq<Outcome>, o: Outcome)
    ensures o in Rejections(outcomes) <==> o in outcomes && !o.Accepted()
  {
    if outcomes != [] {
      RejectionsAre(outcomes[1..], o);
      assert outcomes == [outcomes[0]] + outcomes[1..];
    }
  }

  lemma {:induction false} RejectionsConcat(a: seq<Outcome>, b: seq<Outcome>)
    ensures Rejections(a + b) == Rejections(a) + Rejections(b)
  {
    if a == [] {
      assert a + b == b;
    } else {
      assert a + b == [a[0]] + (a[1..] + b);
      RejectionsConcat(a[1..], b);
    }
  }

  ghost function RejectedAt(outcomes: seq<Outcome>): set<nat> {
    set i: nat | i < |outcomes| && !outcomes[i].Accepted()
  }

  ghost function AcceptedAt(outcomes: seq<Outcome>): set<nat> {
    set i: nat | i < |outcomes| && outcomes[i].Accepted()
  }

  /** The rejections are as many as the positions of outcomes that were not accepted; the rest were. */
  lemma {:induction false} RejectionsCounted(outcomes: seq<Outcome>)
    ensures |Rejections(outcomes)| == |RejectedAt(outcomes)|
    ensures |outcomes| - |Rejections(outcomes)| == |AcceptedAt(outcomes)|
  {
    if outcomes == [] {
      assert RejectedAt(outcomes) == {} && AcceptedAt(outcomes) == {};
    } else {
      var n := |outcomes| - 1;
      var init, last := outcomes[..n], outcomes[n];
      RejectionsCounted(init);
      assert outcomes == init + [last];
      RejectionsConcat(init, [last]);
      OneRejection(last);
      OneMorePosition(init, last);
    }
  }

  lemma OneRejection(o: Outcome)
    ensures Rejections([o]) == if o.Accepted() then [] else [o]
  {
    assert [o][1..] == [];
  }

  lemma OneMorePosition(init: seq<Outcome>, last: Outcome)
    ensures RejectedAt(init + [last]) == RejectedAt(init) + (if last.Accepted() then {} else {|init|})
    ensures AcceptedAt(init + [last]) == AcceptedAt(init) + (if last.Accepted() then {|init|} else {})
  {}

  ghost function ContextFor(s: State, anchor: string, hops: nat, maxFacts: nat): seq<Fact>
    requires Filed(s.store.buckets)
  {
    Capped(Found(Context(s.store.buckets), anchor, hops), maxFacts)
  }

  lemma SoundIsFiled(s: Store)
    requires s.Sound()
    ensures Filed(s.buckets)
  {}

  // ----- propose -----

  function ProposeLlmRequest(env: Env, req: ProposeRequest, facts: seq<Fact>): LlmRequest {
    var (system, user) := env.proposePrompt(req.intent, facts);
    LlmRequest(system, user, "propose.v1", req.maxTokens, req.temperature)
  }

  function ProposalsTaken(s: State, raw: LlmResponse, hit: bool): (State, Result<ProposeResult, LlmError>) {
    if raw.candidates.None? then (s, Failure(InvalidResponse))
    else
      var known := KnownIds(s.store);
      var outcomes := JudgeAll(s.store, known, raw.candidates.value);
      var rejected := |Rejections(outcomes)|;
      (s.(store := AbsorbAll(s.store, known, raw.candidates.value)),
       Success(ProposeResult(|outcomes| - rejected, rejected, hit, raw.tokensIn, raw.tokensOut, outcomes)))
  }

  /** What a successful proposal reports of its answer, and what the answer leaves in the store. */
  ghost predicate ReportedFrom(s: Store, candidates: seq<Proposal>, r: ProposeResult, t: Store) {
    && |r.outcomes| == |candidates| && (forall i :: 0 <= i < |candidates| ==> r.outcomes[i].proposal == candidates[i])
    && Fared(s, KnownIds(s), r.outcomes, t)
    && r.accepted == |AcceptedAt(r.outcomes)| && r.rejected == |RejectedAt(r.outcomes)|
  }

  lemma TakenReported(s: State, raw: LlmResponse, hit: bool)
    requires raw.candidates.Some?
    ensures var (t, r) := ProposalsTaken(s, raw, hit);
            && r.Success? && ReportedFrom(s.store, raw.candidates.value, r.value, t.store)
            && t == s.(store := t.store)
            && r.value.cacheHit == hit && r.value.tokensIn == raw.tokensIn && r.value.tokensOut == raw.tokensOut
  {
    EachProposalFares(s.store, KnownIds(s.store), raw.candidates.value);
    RejectionsCounted(JudgeAll(s.store, KnownIds(s.store), raw.candidates.value));
  }

  /** What `propose` does. */
  ghost function Proposed(s: State, env: Env, req: ProposeRequest): (State, Result<ProposeResult, LlmError>)
    requires s.store.Sound()
  {
    SoundIsFiled(s.store);
    var asked := Ask(s, env, ProposeLlmRequest(env, req, ContextFor(s, req.anchor, req.hops, req.maxFacts)));
    match asked.raw
    case Failure(e) => (asked.state, Failure(e))
    case Success(raw) => ProposalsTaken(asked.state, raw, asked.hit)
  }

  // ----- refine -----

  const U32_MAX: nat := 0xFFFF_FFFF

  function SaturatingAdd(a: nat, b: nat): nat {
    if a + b > U32_MAX then U32_MAX else a + b
  }

  function Cap(maxRounds: nat): nat {
    if maxRounds == 0 then 1 else maxRounds
  }

  function RefineLlmRequest(env: Env, req: RefineRequest, facts: seq<Fact>, carried: seq<Outcome>): LlmRequest {
    var (system, user) := env.refinePrompt(req.intent, facts, carried, req.priorDiagnostics);
    LlmRequest(system, user, "refine.v1", req.maxTokens, req.temperature)
  }

  /** A round's summary and outcomes added to the result so far. */
  function AddRound(r: RefineResult, round: nat, raw: LlmResponse, hit: bool, outcomes: seq<Outcome>): RefineResult {
    var rejected := |Rejections(outcomes)|;
    RefineResult(round, rejected == 0, r.accepted + |outcomes| - rejected, r.rejected + rejected,
                 SaturatingAdd(r.tokensIn, raw.tokensIn), SaturatingAdd(r.tokensOut, raw.tokensOut),
                 r.outcomes + outcomes,
                 r.summaries + [RoundSummary(round, |outcomes| - rejected, rejected, hit, raw.tokensIn, raw.tokensOut)])
  }

  /** The result after a round and the round's rejections. */
  datatype Round = Round(state: State, result: Result<RefineResult, LlmError>, rejections: seq<Outcome>)

  function OneRound(s: State, env: Env, req: RefineRequest, facts: seq<Fact>, carried: seq<Outcome>, done: nat,
                    r: RefineResult): Round {
    var asked := Ask(s, env, RefineLlmRequest(env, req, facts, carried));
    match asked.raw
    case Failure(e) => Round(asked.state, Failure(e), [])
    case Success(raw) =>
      if raw.candidates.None? then Round(asked.state, Failure(InvalidResponse), [])
      else
        var known := KnownIds(asked.state.store);
        var outcomes := JudgeAll(asked.state.store, known, raw.candidates.value);
        Round(asked.state.(store := AbsorbAll(asked.state.store, known, raw.candidates.value)),
              Success(AddRound(r, done + 1, raw, asked.hit, outcomes)), Rejections(outcomes))
  }

  /** The rounds from `done` on. */
  function RoundsFrom(s: State, env: Env, req: RefineRequest, facts: seq<Fact>, carried: seq<Outcome>, done: nat,
                      r: RefineResult): (State, Result<RefineResult, LlmError>)
    decreases Cap(req.maxRounds) - done
  {
    if done >= Cap(req.maxRounds) then (s, Success(r))
    else
      var round := OneRound(s, env, req, facts, carried, done, r);
      if round.result.Failure? || round.result.value.converged then (round.state, round.result)
      else RoundsFrom(round.state, env, req, facts, carried + round.rejections, done + 1, round.result.value)
  }

  const NO_ROUNDS := RefineResult(0, false, 0, 0, 0, 0, [], [])

  /** What `refine` does. */
  ghost function Refined(s: State, env: Env, req: RefineRequest): (State, Result<RefineResult, LlmError>)
    requires s.store.Sound()
  {
    SoundIsFiled(s.store);
    RoundsFrom(s, env, req, ContextFor(s, req.anchor, req.hops, req.maxFacts), Rejections(req.priorOutcomes), 0, NO_ROUNDS)
  }

  // ----- the methods -----

  class Session {
    const env: Env
    const graph: GraphStore
    var cache: Cache
    var calls: nat

    constructor (env: Env, graph: GraphStore)
      ensures this.env == env && this.graph == graph && cache == map[] && calls == 0
    {
      this.env, this.graph, cache, calls := env, graph, map[], 0;
    }

    ghost function Now(): State
      reads this, graph
    {
      State(Contents(graph), cache, calls)
    }

    method AskOrLookUp(request: LlmRequest) returns (raw: Result<LlmResponse, LlmError>, hit: bool)
      modifies this
      ensures Asked(Now(), raw, hit) == Ask(old(Now()), env, request)
      ensures hit <==> (env.name, request) in old(cache)
      ensures hit ==> raw == Success(old(cache)[(env.name, request)]) && cache == old(cache) && calls == old(calls)
      ensures !hit ==> raw == env.answer(old(calls), request) && calls == old(calls) + 1
      ensures !hit && raw.Failure? ==> cache == old(cache)
      ensures !hit && raw.Success? ==> cache == old(cache)[(env.name, request) := raw.value]
    {
      var key := (env.name, request);
      if key in cache {
        return Success(cache[key]), true;
      }
      raw, hit := env.answer(calls, request), false;
      calls := calls + 1;
      if raw.Success? {
        cache := cache[key := raw.value];
      }
    }

    method Propose(req: ProposeRequest) returns (r: Result<ProposeResult, LlmError>)
      requires graph.Valid()
      modifies this, graph
      ensures graph.Valid() && (Now(), r) == Proposed(old(Now()), env, req)
      ensures r.Failure? ==> Contents(graph) == old(Contents(graph))
      ensures r.Success? ==> exists candidates :: ReportedFrom(old(Contents(graph)), candidates, r.value, Contents(graph))
    {
      var facts := KHop(graph, req.maxFacts, req.anchor, req.hops);
      var raw, hit := AskOrLookUp(ProposeLlmRequest(env, req, facts));
      if raw.Failure? {
        return Failure(raw.error);
      }
      if raw.value.candidates.None? {
        return Failure(InvalidResponse);
      }
      TakenReported(Now(), raw.value, hit);
      var known := KnownEntityIds(graph);
      var outcomes := TakeAll(graph, known, raw.value.candidates.value);
      var rejected := |Rejections(outcomes)|;
      r := Success(ProposeResult(|outcomes| - rejected, rejected, hit, raw.value.tokensIn, raw.value.tokensOut, outcomes));
    }

    method Refine(req: RefineRequest) returns (r: Result<RefineResult, LlmError>)
      requires graph.Valid()
      modifies this, graph
      ensures graph.Valid() && (Now(), r) == Refined(old(Now()), env, req)
    {
      var facts := KHop(graph, req.maxFacts, req.anchor, req.hops);
      var carried, result, round := Rejections(req.priorOutcomes), NO_ROUNDS, 0;
      ghost var want := Refined(Now(), env, req);
      while round < Cap(req.maxRounds)
        invariant graph.Valid() && RoundsFrom(Now(), env, req, facts, carried, round, result) == want
        decreases Cap(req.maxRounds) - round
      {
        var raw, hit := AskOrLookUp(RefineLlmRequest(env, req, facts, carried));
        if raw.Failure? {
          return Failure(raw.error);
        }
        if raw.value.candidates.None? {
          return Failure(InvalidResponse);
        }
        var known := KnownEntityIds(graph);
        var outcomes := TakeAll(graph, known, raw.value.candidates.value);
        round := round + 1;
        result := AddRound(result, round, raw.value, hit, outcomes);
        if result.converged {
          break;
        }
        carried := carried + Rejections(outcomes);
      }
      r := Success(result);
    }
  }

  // ----- isolation over whole runs -----

  /** From `s` to `t` only harmless candidates were added, and answers only joined the cache. */
  ghost predicate Later(s: State, t: State) {
    && t.store.Sound() && Isolated(s.store, t.store)
    && forall k :: k in s.cache ==> k in t.cache && t.cache[k] == s.cache[k]
  }

  lemma LaterOn(s: State, t: State, u: State)
    requires Later(s, t) && Later(t, u)
    ensures Later(s, u)
  {
    IsolatedOn(s.store, t.store, u.store);
  }

  lemma AskLater(s: State, env: Env, request: LlmRequest)
    requires s.store.Sound()
    ensures var asked := Ask(s, env, request);
            && Later(s, asked.state) && asked.state.store == s.store
            && (asked.raw.Success? ==>
                  (env.name, request) in asked.state.cache && asked.state.cache[(env.name, request)] == asked.raw.value)
  {}

  lemma TakenLater(s: State, cs: seq<Proposal>)
    requires s.store.Sound()
    ensures Later(s, s.(store := AbsorbAll(s.store, KnownIds(s.store), cs)))
  {
    AbsorbAllIsolated(s.store, KnownIds(s.store), cs);
  }

  lemma ProposedLater(s: State, env: Env, req: ProposeRequest)
    requires s.store.Sound()
    ensures Later(s, Proposed(s, env, req).0)
  {
    SoundIsFiled(s.store);
    var asked := Ask(s, env, ProposeLlmRequest(env, req, ContextFor(s, req.anchor, req.hops, req.maxFacts)));
    AskLater(s, env, ProposeLlmRequest(env, req, ContextFor(s, req.anchor, req.hops, req.maxFacts)));
    if asked.raw.Success? && asked.raw.value.candidates.Some? {
      TakenLater(asked.state, asked.raw.value.candidates.value);
      LaterOn(s, asked.state, Proposed(s, env, req).0);
    }
  }

  lemma OneRoundLater(s: State, env: Env, req: RefineRequest, facts: seq<Fact>, carried: seq<Outcome>, done: nat,
                      r: RefineResult)
    requires s.store.Sound()
    ensures Later(s, OneRound(s, env, req, facts, carried, done, r).state)
  {
    var request := RefineLlmRequest(env, req, facts, carried);
    var asked := Ask(s, env, request);
    AskLater(s, env, request);
    if asked.raw.Success? && asked.raw.value.candidates.Some? {
      TakenLater(asked.state, asked.raw.value.candidates.value);
      LaterOn(s, asked.state, OneRound(s, env, req, facts, carried, done, r).state);
    }
  }

  lemma {:induction false} RoundsLater(s: State, env: Env, req: RefineRequest, facts: seq<Fact>, carried: seq<Outcome>,
                                       done: nat, r: RefineResult)
    requires s.store.Sound()
    ensures Later(s, RoundsFrom(s, env, req, facts, carried, done, r).0)
    decreases Cap(req.maxRounds) - done
  {
    if done < Cap(req.maxRounds) {
      var round := OneRound(s, env, req, facts, carried, done, r);
      OneRoundLater(s, env, req, facts, carried, done, r);
      if round.result.Success? && !round.result.value.converged {
        RoundsLater(round.state, env, req, facts, carried + round.rejections, done + 1, round.result.value);
        LaterOn(s, round.state, RoundsFrom(s, env, req, facts, carried, done, r).0);
      }
    }
  }

  datatype Call = Propose(propose: ProposeRequest) | Refine(refine: RefineRequest)

  ghost function AfterCall(s: State, env: Env, call: Call): (t: State)
    requires s.store.Sound()
    ensures Later(s, t)
  {
    match call
    case Propose(req) =>
      ProposedLater(s, env, req);
      Proposed(s, env, req).0
    case Refine(req) =>
      SoundIsFiled(s.store);
      RoundsLater(s, env, req, ContextFor(s, req.anchor, req.hops, req.maxFacts), Rejections(req.priorOutcomes), 0, NO_ROUNDS);
      Refined(s, env, req).0
  }

  ghost function AfterCalls(s: State, env: Env, calls: seq<Call>): State
    requires s.store.Sound()
    decreases |calls|
  {
    if calls == [] then s else AfterCalls(AfterCall(s, env, calls[0]), env, calls[1..])
  }

  lemma {:induction false} CallsLater(s: State, env: Env, calls: seq<Call>)
    requires s.store.Sound()
    ensures Later(s, AfterCalls(s, env, calls))
    decreases |calls|
  {
    if calls != [] {
      var t := AfterCall(s, env, calls[0]);
      CallsLater(t, env, calls[1..]);
      LaterOn(s, t, AfterCalls(t, env, calls[1..]));
    }
  }

  /**
   Over any run of proposals and refinements, whatever the provider answers: facts of other layers never change, every
   added fact is a candidate about known ids, the set of known ids stays the same, and so does every context.
   */
  lemma RunsAreIsolated(s: State, env: Env, calls: seq<Call>)
    requires s.store.Sound()
    ensures var t := AfterCalls(s, env, calls);
            && t.store.Sound()
            && (forall f: Fact :: !f.layer.Candidate? ==> (f in t.store.Bucket(f.pred) <==> f in s.store.Bucket(f.pred)))
            && (forall p, f :: f in t.store.Bucket(p) && f !in s.store.Bucket(p) ==> Harmless(f, KnownIds(s.store)))
            && KnownIds(t.store) == KnownIds(s.store)
            && Filed(s.store.buckets) && Filed(t.store.buckets)
            && forall anchor, hops, max :: ContextFor(t, anchor, hops, max) == ContextFor(s, anchor, hops, max)
  {
    var t := AfterCalls(s, env, calls);
    CallsLater(s, env, calls);
    SoundIsFiled(s.store);
    SoundIsFiled(t.store);
    KnownIdsKept(s.store, t.store);
    ContextKept(s.store, t.store);
    forall f: Fact | !f.layer.Candidate? ensures f in t.store.Bucket(f.pred) <==> f in s.store.Bucket(f.pred) {
      OtherLayersKept(s.store, t.store, f);
    }
    forall p, f | f in t.store.Bucket(p) && f !in s.store.Bucket(p) ensures Harmless(f, KnownIds(s.store)) {
      AddedHarmless(s.store, t.store, p, f);
    }
  }

  // ----- the same call again -----

  lemma AskedAgain(s: State, env: Env, request: LlmRequest, u: State)
    requires s.store.Sound() && Ask(s, env, request).raw.Success? && Later(Ask(s, env, request).state, u)
    ensures Ask(u, env, request) == Asked(u, Ask(s, env, request).raw, true)
  {
    AskLater(s, env, request);
    assert (env.name, request) in Ask(s, env, request).state.cache;
  }

  lemma TakenAgain(s: State, cs: seq<Proposal>, u: State)
    requires s.store.Sound() && Later(s.(store := AbsorbAll(s.store, KnownIds(s.store), cs)), u)
    ensures KnownIds(u.store) == KnownIds(s.store)
    ensures JudgeAll(u.store, KnownIds(u.store), cs) == JudgeAll(s.store, KnownIds(s.store), cs)
    ensures AbsorbAll(u.store, KnownIds(u.store), cs) == u.store
  {
    var known := KnownIds(s.store);
    AbsorbAllIsolated(s.store, known, cs);
    IsolatedOn(s.store, AbsorbAll(s.store, known, cs), u.store);
    KnownIdsKept(s.store, u.store);
    AllJudgedAgain(s.store, known, cs, u.store);
  }

  /**
   An identical proposal, after any further calls, is answered from the cache with the same outcomes and changes
   nothing.
   */
  lemma ProposedAgain(s: State, env: Env, req: ProposeRequest, calls: seq<Call>)
    requires s.store.Sound() && Proposed(s, env, req).1.Success?
    ensures Proposed(s, env, req).0.store.Sound()
    ensures var u := AfterCalls(Proposed(s, env, req).0, env, calls);
            && u.store.Sound()
            && Proposed(u, env, req) == (u, Success(Proposed(s, env, req).1.value.(cacheHit := true)))
  {
    var t := Proposed(s, env, req).0;
    ProposedLater(s, env, req);
    CallsLater(t, env, calls);
    ProposedLaterAgain(s, env, req, AfterCalls(t, env, calls));
  }

  lemma ProposedLaterAgain(s: State, env: Env, req: ProposeRequest, u: State)
    requires s.store.Sound() && Proposed(s, env, req).1.Success? && Later(Proposed(s, env, req).0, u)
    ensures Proposed(u, env, req) == (u, Success(Proposed(s, env, req).1.value.(cacheHit := true)))
  {
    var t := Proposed(s, env, req).0;
    ProposedLater(s, env, req);
    LaterOn(s, t, u);
    SameContext(s, u, req.anchor, req.hops, req.maxFacts);
    var request := ProposeLlmRequest(env, req, ContextFor(s, req.anchor, req.hops, req.maxFacts));
    var asked := Ask(s, env, request);
    AskLater(s, env, request);
    TakenLater(asked.state, asked.raw.value.candidates.value);
    LaterOn(asked.state, t, u);
    AskedAgain(s, env, request, u);
    TakenAgain(asked.state, asked.raw.value.candidates.value, u);
    assert u.(store := u.store) == u;
  }

  lemma SameContext(s: State, u: State, anchor: string, hops: nat, maxFacts: nat)
    requires s.store.Sound() && Later(s, u)
    ensures Filed(s.store.buckets) && Filed(u.store.buckets)
    ensures ContextFor(u, anchor, hops, maxFacts) == ContextFor(s, anchor, hops, maxFacts)
  {
    SoundIsFiled(s.store);
    SoundIsFiled(u.store);
    ContextKept(s.store, u.store);
  }

  /** The same result with every round answered from the cache. */
  function AllHits(summaries: seq<RoundSummary>): seq<RoundSummary> {
    seq(|summaries|, i requires 0 <= i < |summaries| => summaries[i].(cacheHit := true))
  }

  function Hits(r: RefineResult): RefineResult {
    r.(summaries := AllHits(r.summaries))
  }

  lemma HitsRound(r: RefineResult, round: nat, raw: LlmResponse, hit: bool, outcomes: seq<Outcome>)
    ensures AddRound(Hits(r), round, raw, true, outcomes) == Hits(AddRound(r, round, raw, hit, outcomes))
  {
    var a, b := AddRound(Hits(r), round, raw, true, outcomes), Hits(AddRound(r, round, raw, hit, outcomes));
    assert a.summaries == b.summaries;
  }

  lemma OneRoundAgain(s: State, env: Env, req: RefineRequest, facts: seq<Fact>, carried: seq<Outcome>, done: nat,
                      r: RefineResult, u: State)
    requires s.store.Sound() && OneRound(s, env, req, facts, carried, done, r).result.Success?
    requires Later(OneRound(s, env, req, facts, carried, done, r).state, u)
    ensures var round := OneRound(s, env, req, facts, carried, done, r);
            OneRound(u, env, req, facts, carried, done, Hits(r)) ==
            Round(u, Success(Hits(round.result.value)), round.rejections)
  {
    var request := RefineLlmRequest(env, req, facts, carried);
    var asked := Ask(s, env, request);
    var cs := asked.raw.value.candidates.value;
    AskLater(s, env, request);
    TakenLater(asked.state, cs);
    LaterOn(asked.state, OneRound(s, env, req, facts, carried, done, r).state, u);
    AskedAgain(s, env, request, u);
    TakenAgain(asked.state, cs, u);
    HitsRound(r, done + 1, asked.raw.value, asked.hit, JudgeAll(asked.state.store, KnownIds(asked.state.store), cs));
    assert u.(store := u.store) == u;
  }

  lemma NextRounds(s: State, env: Env, req: RefineRequest, facts: seq<Fact>, carried: seq<Outcome>, done: nat,
                   r: RefineResult, round: Round)
    requires done < Cap(req.maxRounds) && round == OneRound(s, env, req, facts, carried, done, r)
    requires round.result.Success?
    ensures RoundsFrom(s, env, req, facts, carried, done, r) ==
            if round.result.value.converged then (round.state, round.result)
            else RoundsFrom(round.state, env, req, facts, carried + round.rejections, done + 1, round.result.value)
  {}

  lemma {:induction false} RoundsAgain(s: State, env: Env, req: RefineRequest, facts: seq<Fact>, carried: seq<Outcome>,
                                       done: nat, r: RefineResult, end: RefineResult, u: State)
    requires s.store.Sound() && RoundsFrom(s, env, req, facts, carried, done, r).1 == Success(end)
    requires Later(RoundsFrom(s, env, req, facts, carried, done, r).0, u)
    ensures RoundsFrom(u, env, req, facts, carried, done, Hits(r)) == (u, Success(Hits(end)))
    decreases Cap(req.maxRounds) - done, 1
  {
    if done < Cap(req.maxRounds) {
      MoreRoundsAgain(s, env, req, facts, carried, done, r, end, u);
    }
  }

  lemma {:induction false} MoreRoundsAgain(s: State, env: Env, req: RefineRequest, facts: seq<Fact>, carried: seq<Outcome>,
                                           done: nat, r: RefineResult, end: RefineResult, u: State)
    requires s.store.Sound() && RoundsFrom(s, env, req, facts, carried, done, r).1 == Success(end)
    requires Later(RoundsFrom(s, env, req, facts, carried, done, r).0, u)
    requires done < Cap(req.maxRounds)
    ensures RoundsFrom(u, env, req, facts, carried, done, Hits(r)) == (u, Success(Hits(end)))
    decreases Cap(req.maxRounds) - done, 0
  {
    var round := OneRound(s, env, req, facts, carried, done, r);
    NextRounds(s, env, req, facts, carried, done, r, round);
    LaterThanRound(s, env, req, facts, carried, done, r, u);
    OneRoundAgain(s, env, req, facts, carried, done, r, u);
    var next := round.result.value;
    NextRounds(u, env, req, facts, carried, done, Hits(r), Round(u, Success(Hits(next)), round.rejections));
    if !next.converged {
      RoundsAgain(round.state, env, req, facts, carried + round.rejections, done + 1, next, end, u);
      assert RoundsFrom(u, env, req, facts, carried, done, Hits(r)) ==
             RoundsFrom(u, env, req, facts, carried + round.rejections, done + 1, Hits(next)) == (u, Success(Hits(end)));
    }
  }

  lemma LaterThanRound(s: State, env: Env, req: RefineRequest, facts: seq<Fact>, carried: seq<Outcome>, done: nat,
                       r: RefineResult, u: State)
    requires s.store.Sound() && done < Cap(req.maxRounds)
    requires RoundsFrom(s, env, req, facts, carried, done, r).1.Success?
    requires Later(RoundsFrom(s, env, req, facts, carried, done, r).0, u)
    ensures var round := OneRound(s, env, req, facts, carried, done, r);
            round.result.Success? && Later(s, round.state) && Later(round.state, u)
  {
    var round := OneRound(s, env, req, facts, carried, done, r);
    OneRoundLater(s, env, req, facts, carried, done, r);
    if !round.result.value.converged {
      var end := RoundsFrom(round.state, env, req, facts, carried + round.rejections, done + 1, round.result.value);
      RoundsLater(round.state, env, req, facts, carried + round.rejections, done + 1, round.result.value);
      LaterOn(round.state, end.0, u);
    }
  }

  /** So is an identical refinement, in every round. */
  lemma RefinedAgain(s: State, env: Env, req: RefineRequest, calls: seq<Call>)
    requires s.store.Sound() && Refined(s, env, req).1.Success?
    ensures Refined(s, env, req).0.store.Sound()
    ensures var u := AfterCalls(Refined(s, env, req).0, env, calls);
            && u.store.Sound()
            && Refined(u, env, req) == (u, Success(Hits(Refined(s, env, req).1.value)))
  {
    SoundIsFiled(s.store);
    var facts := ContextFor(s, req.anchor, req.hops, req.maxFacts);
    var t := Refined(s, env, req).0;
    RoundsLater(s, env, req, facts, Rejections(req.priorOutcomes), 0, NO_ROUNDS);
    var u := AfterCalls(t, env, calls);
    CallsLater(t, env, calls);
    LaterOn(s, t, u);
    SameContext(s, u, req.anchor, req.hops, req.maxFacts);
    RoundsAgain(s, env, req, facts, Rejections(req.priorOutcomes), 0, NO_ROUNDS, Refined(s, env, req).1.value, u);
    assert Hits(NO_ROUNDS) == NO_ROUNDS;
  }

  // ----- what a refinement reports -----

  /** The counts of a result fit its outcomes and rounds; only the last round can have been without rejections. */
  ghost predicate Tallied(r: RefineResult) {
    && r.rounds == |r.summaries| && r.accepted + r.rejected == |r.outcomes| && r.rejected == |Rejections(r.outcomes)|
    && (forall i :: 0 <= i < |r.summaries| ==> r.summaries[i].round == i + 1)
    && (forall i :: 0 <= i < |r.summaries| - 1 ==> r.summaries[i].rejected > 0)
    && (r.converged <==> r.summaries != [] && r.summaries[|r.summaries| - 1].rejected == 0)
  }

  /** It ends within `cap` rounds, earlier only by converging. */
  ghost predicate Reported(r: RefineResult, done: nat, cap: nat) {
    && Tallied(r) && done <= r.rounds <= cap && (done < cap ==> done < r.rounds)
    && (!r.converged ==> r.rounds == cap)
  }

  lemma RoundTallied(r: RefineResult, raw: LlmResponse, hit: bool, outcomes: seq<Outcome>)
    requires Tallied(r) && !r.converged
    ensures Tallied(AddRound(r, r.rounds + 1, raw, hit, outcomes))
  {
    var r' := AddRound(r, r.rounds + 1, raw, hit, outcomes);
    RejectionsConcat(r.outcomes, outcomes);
    var n := |r.summaries|;
    assert |r'.summaries| == n + 1 && r'.summaries[..n] == r.summaries;
    assert r'.summaries[n].round == n + 1 && r'.summaries[n].rejected == |Rejections(outcomes)|;
    assert r'.rejected == |Rejections(r'.outcomes)|;
    assert r.summaries != [] ==> r.summaries[n - 1].rejected > 0;
    assert forall i :: 0 <= i < n ==> r'.summaries[i] == r.summaries[i];
    assert |r'.outcomes| == |r.outcomes| + |outcomes|;
  }

  lemma {:induction false} RoundsTallied(s: State, env: Env, req: RefineRequest, facts: seq<Fact>, carried: seq<Outcome>,
                                         done: nat, r: RefineResult, end: RefineResult)
    requires Tallied(r) && r.rounds == done <= Cap(req.maxRounds) && !r.converged
    requires RoundsFrom(s, env, req, facts, carried, done, r).1 == Success(end)
    ensures Reported(end, done, Cap(req.maxRounds))
    decreases Cap(req.maxRounds) - done
  {
    if done < Cap(req.maxRounds) {
      var round := OneRound(s, env, req, facts, carried, done, r);
      var asked := Ask(s, env, RefineLlmRequest(env, req, facts, carried));
      RoundTallied(r, asked.raw.value, asked.hit,
                   JudgeAll(asked.state.store, KnownIds(asked.state.store), asked.raw.value.candidates.value));
      if !round.result.value.converged {
        RoundsTallied(round.state, env, req, facts, carried + round.rejections, done + 1, round.result.value, end);
      }
    }
  }

  lemma NothingTallied()
    ensures Tallied(NO_ROUNDS)
  {}

  /**
   A refinement, whatever its context and whatever is carried into it, ends after at most max(1, `maxRounds`) rounds,
   earlier only by converging; it has converged exactly when its last round had no rejections; its counts are those of
   its outcomes.
   */
  lemma RefinementTallied(s: State, env: Env, req: RefineRequest, facts: seq<Fact>, carried: seq<Outcome>,
                          end: RefineResult, cap: nat)
    requires RoundsFrom(s, env, req, facts, carried, 0, NO_ROUNDS).1 == Success(end)
    requires cap == if req.maxRounds == 0 then 1 else req.maxRounds
    ensures Reported(end, 0, cap)
  {
    NothingTallied();
    CapIs(req.maxRounds);
    AllRoundsTallied(s, env, req, facts, carried, NO_ROUNDS, end);
  }

  lemma CapIs(maxRounds: nat)
    ensures Cap(maxRounds) == if maxRounds == 0 then 1 else maxRounds
  {}

  lemma AllRoundsTallied(s: State, env: Env, req: RefineRequest, facts: seq<Fact>, carried: seq<Outcome>, r: RefineResult,
                         end: RefineResult)
    requires Tallied(r) && r.rounds == 0 && !r.converged
    requires RoundsFrom(s, env, req, facts, carried, 0, r).1 == Success(end)
    ensures Reported(end, 0, Cap(req.maxRounds))
  {
    RoundsTallied(s, env, req, facts, carried, 0, r, end);
  }

  // ----- a refinement, round by round -----

  /** One finished round: the state before it, what was asked, the outcomes, and the state after it. */
  datatype Step = Step(before: State, asked: Asked, outcomes: seq<Outcome>, after: State)

  function OutcomesOf(steps: seq<Step>): seq<Outcome> {
    if steps == [] then [] else steps[0].outcomes + OutcomesOf(steps[1..])
  }

  function TokensInOf(steps: seq<Step>): nat {
    if steps == [] then 0
    else (if steps[0].asked.raw.Success? then steps[0].asked.raw.value.tokensIn else 0) + TokensInOf(steps[1..])
  }

  function TokensOutOf(steps: seq<Step>): nat {
    if steps == [] then 0
    else (if steps[0].asked.raw.Success? then steps[0].asked.raw.value.tokensOut else 0) + TokensOutOf(steps[1..])
  }

  /** The round asks with the outcomes carried into it, and what is proposed fares on the store as it is then. */
  ghost predicate IsRound(env: Env, req: RefineRequest, facts: seq<Fact>, carried: seq<Outcome>, x: Step) {
    && x.asked == Ask(x.before, env, RefineLlmRequest(env, req, facts, carried))
    && x.asked.raw.Success? && x.asked.raw.value.candidates.Some?
    && x.after == x.asked.state.(store := x.after.store)
    && var candidates := x.asked.raw.value.candidates.value;
       && |x.outcomes| == |candidates| && (forall i :: 0 <= i < |candidates| ==> x.outcomes[i].proposal == candidates[i])
       && Fared(x.before.store, KnownIds(x.before.store), x.outcomes, x.after.store)
  }

  /** The rounds follow each other from `s` to `u`; into each go the rejections carried before and all since. */
  ghost predicate AreRounds(s: State, env: Env, req: RefineRequest, facts: seq<Fact>, carried: seq<Outcome>,
                            steps: seq<Step>, u: State)
  {
    && u == (if steps == [] then s else steps[|steps| - 1].after)
    && forall k :: 0 <= k < |steps| ==> IsRoundAt(s, env, req, facts, carried, steps, k)
  }

  ghost predicate IsRoundAt(s: State, env: Env, req: RefineRequest, facts: seq<Fact>, carried: seq<Outcome>,
                            steps: seq<Step>, k: nat)
    requires k < |steps|
  {
    && steps[k].before == (if k == 0 then s else steps[k - 1].after)
    && IsRound(env, req, facts, carried + Rejections(OutcomesOf(steps[..k])), steps[k])
  }

  /** The summary of round `n`. */
  ghost predicate Summarises(x: Step, n: nat, y: RoundSummary) {
    && x.asked.raw.Success?
    && y.round == n && y.accepted == |AcceptedAt(x.outcomes)| && y.rejected == |RejectedAt(x.outcomes)|
    && y.cacheHit == x.asked.hit && y.tokensIn == x.asked.raw.value.tokensIn && y.tokensOut == x.asked.raw.value.tokensOut
  }

  function Saturated(n: nat): nat {
    if n > U32_MAX then U32_MAX else n
  }

  /** A result that adds rounds to `r`. */
  ghost predicate Adds(r: RefineResult, steps: seq<Step>, end: RefineResult)
  {
    && end.outcomes == r.outcomes + OutcomesOf(steps)
    && |end.summaries| == |r.summaries| + |steps| && r.summaries <= end.summaries
    && (forall k :: 0 <= k < |steps| ==>
                      Summarises(steps[k], |r.summaries| + k + 1, end.summaries[|r.summaries| + k]))
    && end.tokensIn == Saturated(r.tokensIn + TokensInOf(steps)) && end.tokensOut == Saturated(r.tokensOut + TokensOutOf(steps))
  }

  /** How a refinement ends after its finished rounds. */
  ghost predicate Ends(env: Env, req: RefineRequest, facts: seq<Fact>, carried: seq<Outcome>, r: RefineResult,
                       steps: seq<Step>, u: State, end: (State, Result<RefineResult, LlmError>))
  {
    match end.1
    case Success(result) => end.0 == u && Adds(r, steps, result)
    case Failure(e) =>
      var asked := Ask(u, env, RefineLlmRequest(env, req, facts, carried + Rejections(OutcomesOf(steps))));
      && end.0 == asked.state
      && (asked.raw == Failure(e) || (asked.raw.Success? && asked.raw.value.candidates.None? && e == InvalidResponse))
  }

  lemma RoundIsStep(s: State, env: Env, req: RefineRequest, facts: seq<Fact>, carried: seq<Outcome>, done: nat,
                    r: RefineResult) returns (x: Step)
    requires OneRound(s, env, req, facts, carried, done, r).result.Success?
    ensures var round := OneRound(s, env, req, facts, carried, done, r);
            && x.before == s && x.after == round.state && IsRound(env, req, facts, carried, x)
            && round.rejections == Rejections(x.outcomes)
            && round.result.value == AddRound(r, done + 1, x.asked.raw.value, x.asked.hit, x.outcomes)
  {
    var asked := Ask(s, env, RefineLlmRequest(env, req, facts, carried));
    var cs, known := asked.raw.value.candidates.value, KnownIds(asked.state.store);
    EachProposalFares(asked.state.store, known, cs);
    x := Step(s, asked, JudgeAll(asked.state.store, known, cs), OneRound(s, env, req, facts, carried, done, r).state);
  }

  lemma FirstRound(x: Step, later: seq<Step>)
    ensures OutcomesOf([x] + later) == x.outcomes + OutcomesOf(later)
    ensures x.asked.raw.Success? ==>
              && TokensInOf([x] + later) == x.asked.raw.value.tokensIn + TokensInOf(later)
              && TokensOutOf([x] + later) == x.asked.raw.value.tokensOut + TokensOutOf(later)
  {
    assert ([x] + later)[1..] == later;
  }

  lemma CarriedOn(carried: seq<Outcome>, x: Step, later: seq<Step>)
    ensures carried + Rejections(OutcomesOf([x] + later)) ==
            carried + Rejections(x.outcomes) + Rejections(OutcomesOf(later))
  {
    FirstRound(x, later);
    RejectionsConcat(x.outcomes, OutcomesOf(later));
  }

  lemma RoundsCons(s: State, env: Env, req: RefineRequest, facts: seq<Fact>, carried: seq<Outcome>, x: Step,
                   later: seq<Step>, u: State)
    requires x.before == s && IsRound(env, req, facts, carried, x)
    requires AreRounds(x.after, env, req, facts, carried + Rejections(x.outcomes), later, u)
    ensures AreRounds(s, env, req, facts, carried, [x] + later, u)
  {
    var steps := [x] + later;
    LastOf(x, later, s, u);
    assert steps[..0] == [] && carried + [] == carried;
    forall k | 0 <= k < |steps| ensures IsRoundAt(s, env, req, facts, carried, steps, k) {
      if k > 0 {
        assert IsRoundAt(x.after, env, req, facts, carried + Rejections(x.outcomes), later, k - 1);
        RoundLater(s, env, req, facts, carried, x, later, k);
      }
    }
  }

  lemma RoundLater(s: State, env: Env, req: RefineRequest, facts: seq<Fact>, carried: seq<Outcome>, x: Step,
                   later: seq<Step>, k: nat)
    requires 0 < k <= |later|
    requires IsRoundAt(x.after, env, req, facts, carried + Rejections(x.outcomes), later, k - 1)
    ensures IsRoundAt(s, env, req, facts, carried, [x] + later, k)
  {
    TakeCons(x, later, k);
    CarriedOn(carried, x, later[..k - 1]);
  }

  lemma LastOf(x: Step, later: seq<Step>, s: State, u: State)
    requires u == if later == [] then x.after else later[|later| - 1].after
    ensures u == ([x] + later)[|later|].after
  {}

  lemma TakeCons(x: Step, later: seq<Step>, k: nat)
    requires 0 < k <= |later|
    ensures ([x] + later)[..k] == [x] + later[..k - 1]
    ensures ([x] + later)[k] == later[k - 1] && ([x] + later)[k - 1] == if k == 1 then x else later[k - 2]
  {}

  lemma AddsCons(r: RefineResult, done: nat, x: Step, later: seq<Step>, end: RefineResult)
    requires x.asked.raw.Success? && |r.summaries| == done
    requires Adds(AddRound(r, done + 1, x.asked.raw.value, x.asked.hit, x.outcomes), later, end)
    ensures Adds(r, [x] + later, end)
  {
    var steps, next := [x] + later, AddRound(r, done + 1, x.asked.raw.value, x.asked.hit, x.outcomes);
    FirstRound(x, later);
    RejectionsCounted(x.outcomes);
    assert end.outcomes == r.outcomes + OutcomesOf(steps);
    assert next.summaries[done] == end.summaries[done];
    forall k | 0 <= k < |steps| ensures Summarises(steps[k], done + k + 1, end.summaries[done + k]) {
      if k > 0 {
        assert steps[k] == later[k - 1];
        assert Summarises(later[k - 1], |next.summaries| + (k - 1) + 1, end.summaries[|next.summaries| + (k - 1)]);
      }
    }
    assert r.summaries <= next.summaries <= end.summaries;
  }

  /**
   Whatever the provider answers: a refinement is a chain of rounds, each asking with the rejections before it; it reports
   exactly these rounds, or fails where the next round gets no answer or one that does not fit the schema.
   */
  lemma {:induction false} RefinementUnrolls(s: State, env: Env, req: RefineRequest, facts: seq<Fact>, carried: seq<Outcome>,
                                             done: nat, r: RefineResult) returns (steps: seq<Step>, u: State)
    requires |r.summaries| == done && r.tokensIn <= U32_MAX && r.tokensOut <= U32_MAX
    ensures AreRounds(s, env, req, facts, carried, steps, u)
    ensures Ends(env, req, facts, carried, r, steps, u, RoundsFrom(s, env, req, facts, carried, done, r))
    decreases Cap(req.maxRounds) - done
  {
    steps, u := [], s;
    if done >= Cap(req.maxRounds) {
      assert Adds(r, [], r);
    } else {
      var round := OneRound(s, env, req, facts, carried, done, r);
      if round.result.Failure? {
        assert carried + [] == carried;
      } else {
        NextRounds(s, env, req, facts, carried, done, r, round);
        var x := RoundIsStep(s, env, req, facts, carried, done, r);
        var next, later := round.result.value, [];
        u := x.after;
        if next.converged {
          assert Adds(next, later, next);
        } else {
          later, u := RefinementUnrolls(round.state, env, req, facts, carried + round.rejections, done + 1, next);
        }
        steps := [x] + later;
        RoundsCons(s, env, req, facts, carried, x, later, u);
        CarriedOn(carried, x, later);
        var end := RoundsFrom(s, env, req, facts, carried, done, r).1;
        if end.Success? {
          AddsCons(r, done, x, later, end.value);
        }
      }
    }
  }
}
