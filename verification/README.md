# Proofs about AYE-AYE

A Dafny model of the symbolic core of AYE-AYE, the neuro-symbolic development runtime: its Datalog engine, its
refactorings, its text-edit engine, its transactional apply with journal and rollback, its bounded LLM loop, and its
wire and session protocols. `dafny verify dfyconfig.toml` checks all of it.

What changes state in the program changes state here: stores, parsers, readers, clients, file systems, journals and
sessions are classes whose methods are proved against specification functions, and the results below are lemmas about
those functions or contracts of those methods. Calls whose outcome the program does not control (file operations,
writes to a server, answers of a provider) take their outcome from an arbitrary parameter. Interleavings of the session
pool are runs of a step machine.

## What is proved

- **Datalog engine** (`Graph`, `Datalog`, `Evaluator`, `Trace`). `evaluate` always terminates, succeeds exactly when a
  model exists and then leaves the least one, after exactly the passes it needs; what it adds is exactly what has a finite
  proof tree, and the tracer finds the derivations.
- **Refactorings on text and meaning** (`MiniRust`, `Parts`, `Source`, `Inline`, `InlineText`, `ChangeSig`,
  `ChangeSigText`). A call-by-value language with ordered effects, early exits, recursion, blocks and one namespace for
  locals and functions; the byte splices of both operations are shown to realise a transformation of programs, and that
  transformation to preserve outcomes in both directions. What the gates accept is stated of the expressions that occur in
  a program (`Parts`). The conditions the gates do not check are named, each with a program that shows it is needed.
- **Rename and derives** (`RustRename`, `Derive`). Token trees and attribute text with exact round trips.
- **Edits and positions** (`Splice`, `Positions`, `Encoding`, `TypedRename`). Descending splices equal simultaneous
  replacement, and positions in UTF-16 columns address UTF-8 text without ever splitting a character.
- **Apply, journal, rollback** (`Apply`, `Journal`). All or nothing under any failure; undoing over whole runs.
- **LLM loop** (`ContextWalk`, `Proposals`, `LlmLoop`). Exact bounded walks, isolation of the candidate layer over all
  runs, repeated requests answered from the cache.
- **Wire and sessions** (`Framing`, `Headers`, `RpcClient`, `DatalogParser`, `DatalogLayout`, `DatalogCursor`,
  `SessionSync`, `SessionPool`). Exactly when decoding does not depend on chunks (LSP 3.17, Base Protocol, Header Part),
  what the readers make of a foreign peer's headers, which reply settles which request, exactly which texts parse and to
  what, and agreement of document versions over every interleaving, failing calls included.

## Where the program and its documentation differ

The model follows the program.

- Inlining is documented as free of name capture (crates/aa-patch/src/inline.rs:30-31). It is not, see
  `Inline.CapturedArgument`, `Inline.ShadowedConstant` and `Inline.ShadowedCallee`; nor does the guard against `return`
  cover `?` (`Inline.EscapingTry`, `InlineText.EscapingTryAccepted`).
- The editor's client guards the parse of a body but not what follows. The JSON text `null`, and an error reply to a
  pending request whose message has no string form, throw out of the drain loop (`RpcClient.NullEndsTheLoop`,
  `RpcClient.UnprintableLosesTheRequest`); decoding then depends on the chunks, and in the second case the request is
  never settled. `RpcClient.DecodesExactly` and `Framing.ChunksMatterExactly` have the exact conditions.
- Adding a derive attribute puts it above the line of the keyword, whatever else stands there
  (`Derive.AttributeOfModule`); `Derive.AddedThenRemoved` and `Derive.AddedTwice` have the exact condition.
- The position look-up counts a supplementary character as two columns (crates/aa-patch/src/typed_rename.rs:248-281),
  although a comment calls such characters unsupported.
- The grammar of rules asks for at least one term and for digits in an integer (crates/aa-rules/src/parser.rs:7-10); the
  parser accepts `p()` and takes a lone `-` for a number.
- A commit whose file a live commit changed next is not always refused (`Journal.AcceptedUnderLiveChange`);
  `Journal.RollbackAcceptedExactly` has the exact condition.
- Renaming back is not always the identity: a macro renamed to `macro_rules` hides its body, and the check of the new name
  accepts reserved words, which are identifiers at some places only (`RustRename.UnderscoreStays`,
  `RustRename.TryBlockStays`, `RustRename.UnderscoreLifetimeComesBack`). `RustRename.RenamedBack` has the exact condition
  for names that are no reserved words, `RustRename.RenamedBackAnyName` for all, and `RustRename.NoneLeft` that for
  leaving no occurrence.
- A sync whose notification fails leaves session and server apart for good (`SessionSync.NotToldStays`).
- A failed temporary write is repaired by restoring and then removing, a failed rename by removing and then restoring;
  `Apply.CleanedUp` covers both orders.
- The derive round trip on an existing list normalises the list; `Derive.AddedToListThenRemoved` has the exact
  condition.

## Model

| member | source | states |
|---|---|---|
| Evaluator.Evaluate | crates/aa-rules/src/eval.rs:20-43 | Succeeds exactly when some arity-consistent, closed superset without unbound heads exists; then leaves the least such set. `iterations` is the number of the first pass that adds nothing, a pass being everything that fires from a set of facts; `derived` is the growth and at most the sum over head predicates of D to the power of the arity, D being the number of constants in store and heads. The error is that of the last pass: the leftmost open variable of the first rule that fires with one, or the arity clash of a fact that fires. Even on failure it adds only consequences, each ranked after the facts it rests on |
| Evaluator.LastPassUnique | crates/aa-rules/src/eval.rs:20-43 | Rules and start facts fix which pass is the first to add nothing, and what has been found by then |
| Evaluator.WellFormedProgramHasModel | crates/aa-rules/src/eval.rs:20-43 | Range-restricted rules with one arity per predicate always have a model, so on them evaluation cannot fail |
| Evaluator.EvaluateTwice | crates/aa-rules/src/eval.rs:20-43 | A second run derives 0 facts in 1 iteration and leaves the same least model |
| Evaluator.EvaluateAddEvaluate | crates/aa-rules/src/eval.rs:20-43 | Evaluating, adding facts and evaluating again succeeds throughout exactly when the union of start and added facts has a model, hence when one evaluation of the union succeeds, and then leaves its least model |
| Evaluator.EvaluateModel | crates/aa-rules/src/eval.rs:20-43 | A run over a model changes nothing and reports 0 derived in 1 iteration |
| Datalog.LeastModelOfRuleSet | crates/aa-rules/src/eval.rs:20-43 | The result depends on the set of rules only, not on their order or repetition |
| Datalog.LeastModelIncremental | crates/aa-rules/src/eval.rs:20-43 | Evaluating, adding facts and evaluating again gives the same set as one evaluation of the union |
| Datalog.LeastModelMonotone | crates/aa-rules/src/eval.rs:20-43 | More start facts never lose a conclusion |
| Datalog.SatisfiesMonotone | crates/aa-rules/src/eval.rs:56-71 | A body satisfied by some facts stays satisfied when facts are added |
| Datalog.ConclusionUnique | crates/aa-rules/src/eval.rs:108-122 | A rule and a binding have at most one conclusion |
| Datalog.ConclusionInBase | crates/aa-rules/src/eval.rs:20-43 | No rule leaves the finite universe built from the constants of store and heads |
| Datalog.BaseSize | crates/aa-rules/src/eval.rs:20-43 | That universe has at most as many facts as the sum, over head predicates, of the number of constants to the power of the arity: the bound that makes the loop end |
| Evaluator.GrowthBounded | crates/aa-rules/src/eval.rs:20-43 | Growth within the universe is bounded by the universe size |
| Evaluator.SolveBody | crates/aa-rules/src/eval.rs:56-71 | Returns all bindings that satisfy the whole body in any layer, and no others |
| Evaluator.ExtendBinding | crates/aa-rules/src/eval.rs:56-71 | One join step: exactly the merges of a binding with the matches of the next atom |
| Evaluator.SatisfiesSnoc | crates/aa-rules/src/eval.rs:56-71 | Joining atom by atom is the declarative meaning of a conjunction |
| Evaluator.Merge | crates/aa-rules/src/eval.rs:73-88 | The union when the bindings agree, nothing otherwise |
| Evaluator.InstantiateHead | crates/aa-rules/src/eval.rs:108-122 | Gives the Inferred conclusion; fails exactly on a head variable the binding leaves open, and names the leftmost |
| Evaluator.FireRule | crates/aa-rules/src/eval.rs:20-43 | One rule of a pass collects each of its conclusions not yet in store or batch; fails exactly when one binding leaves a head variable open, and names the leftmost |
| Evaluator.CollectBatch | crates/aa-rules/src/eval.rs:20-43 | One pass collects every new conclusion of every rule, none twice, or fails exactly on an unbound head variable, that of the first rule with one |
| Evaluator.InsertBatch | crates/aa-rules/src/eval.rs:20-43 | Inserts in order; a mismatch means no model exists, is reported with both arities, and leaves the facts before it in place |
| Graph.GraphStore.constructor | crates/aa-graph/src/lib.rs:63-65 | A new store is empty |
| Graph.GraphStore.Contains | crates/aa-graph/src/lib.rs:87-91 | Membership in the abstract set of facts, layer included |
| Graph.GraphStore.FactsOf | crates/aa-graph/src/lib.rs:93-98 | The facts of a predicate, each once |
| Graph.GraphStore.Insert | crates/aa-graph/src/lib.rs:68-85 | Refuses exactly a second arity and then changes nothing; otherwise adds the fact and tells whether it was new |
| Graph.Unify | crates/aa-graph/src/lib.rs:148-167 | Finds the one binding that makes the pattern equal to the arguments, and none exactly when there is none |
| Graph.Matches | crates/aa-graph/src/lib.rs:135-146 | One binding for each fact that unifies, in whatever layer |
| Trace.TraceDerivations | crates/aa-rules/src/trace.rs:39-61 | Lists every rule activation with a ground head and nothing else |
| Trace.TraceRule | crates/aa-rules/src/trace.rs:39-61 | The activations of one rule |
| Trace.TraceBinding | crates/aa-rules/src/trace.rs:39-61 | The activation under one binding; skipped when its head stays open |
| Trace.ProvenanceWellFounded | crates/aa-rules/src/trace.rs:39-61 | After evaluation every traced head and premise is in the store, and every added fact has a traced derivation whose premises appeared in strictly earlier iterations |
| Trace.RankedHasProof | crates/aa-rules/src/trace.rs:133-147 | Such ranks unfold into a finite proof tree for every fact |
| Trace.ProofSound | crates/aa-rules/src/eval.rs:20-43 | What has a proof tree is in every closed set above the start facts |
| Trace.LeastModelIsProvable | crates/aa-rules/src/trace.rs:39-61 | The least model is exactly the set of facts that have a finite proof tree |
| Trace.EvaluateAndTrace | crates/aa-rules/src/trace.rs:39-61 | Both in a row: the trace explains every added fact, and the store holds exactly the provable facts |
| Inline.InliningPreservesMeaning | crates/aa-patch/src/inline.rs:245-308 | Under the named conditions every expression has the same outcome (value and ordered effects) before and after, in both directions, so divergence is kept too. The conditions: each call reaches the function, no later argument mentions a parameter bound before it (unless that is bound to the local of the same name), no local hides a constant or a function the body uses, no call of the target inside its own arguments, no early exit in the body |
| Inline.InlinableIs | crates/aa-patch/src/inline.rs:245-308 | The conditions hold of an expression exactly if they hold of every call in it with the locals around that call |
| Inline.RemovedFunctionIsGone | crates/aa-patch/src/inline.rs:245-308 | The new program neither defines nor calls the function |
| MiniRust.EvaluatesToUnique | crates/aa-patch/src/inline.rs:245-308 | An expression has at most one outcome, so equal outcomes before and after mean equal behaviour |
| Parts.FreeIs | crates/aa-patch/src/inline.rs:245-308 | A name is free in an expression exactly if some part reads or calls it where no local of that name is around |
| Inline.CapturedArgument | crates/aa-patch/src/inline.rs:264-274 | Counterexample to unconditional preservation: a sequential `let` captures a later argument |
| Inline.ShadowedConstant | crates/aa-patch/src/inline.rs:264-274 | Counterexample: a local of the call site hides a constant that is private to the module of the function and that its body reads |
| Inline.ShadowedCallee | crates/aa-patch/src/inline.rs:264-274 | Counterexample: a local of the call site hides a function the body calls, and the new program is stuck |
| Inline.EscapingTry | crates/aa-patch/src/inline.rs:616-626 | Counterexample: the body guard lets `?` through, which then leaves the caller |
| InlineText.InlineFunction | crates/aa-patch/src/inline.rs:59-322 | Accepts exactly the programs in which no expression inside the body is a `return` or a call of the function itself, no expression mentions or binds the name other than as a callee, and every call has as many arguments as there are parameters; then the new text is the printed transformed program and the count is the number of calls plus one. Otherwise the first of these that fails is the error; an unknown name leaves the text alone |
| InlineText.HasReturnIs | crates/aa-patch/src/inline.rs:616-626 | The guard finds a `return` exactly if some expression inside the body is one |
| InlineText.OnlyCalledIs | crates/aa-patch/src/inline.rs:170-196 | The name is only called exactly if no expression reads, operates by or binds it |
| InlineText.AritiesOkIs | crates/aa-patch/src/inline.rs:249-257 | The arity check accepts exactly if every expression that calls the function has one argument for each parameter |
| Parts.NoCallsIs | crates/aa-patch/src/inline.rs:626-637 | The call counter finds nothing exactly if no expression is a call of the name |
| InlineText.DefsNamedCounted | crates/aa-patch/src/inline.rs:88-111 | Definitions of the name are found as often as they occur |
| InlineText.EscapingTryAccepted | crates/aa-patch/src/inline.rs:616-626 | The gates accept `fn f(x) { x? }` called in `fn g() { let y = f(1); 2 }`, and afterwards `g()` is 1 instead of 2 where `?` leaves on 1 |
| InlineText.ReferenceGate | crates/aa-patch/src/inline.rs:170-196 | Comparing the two counts accepts exactly the programs in which every other occurrence of the name is a bare call |
| InlineText.SitesRealise | crates/aa-patch/src/inline.rs:245-278 | Splicing the replacement texts at the collected call sites gives the text of the inlined expression |
| InlineText.StaleOuterSite | crates/aa-patch/src/inline.rs:245-278 | Counterexample to nested sites: replacing the inner call first leaves the outer range stale, and text of the inner replacement is left over |
| InlineText.RewriteText | crates/aa-patch/src/inline.rs:245-308 | Descending splices followed by finding and removing the definition give the printed transformed program |
| InlineText.RemoveItem | crates/aa-patch/src/inline.rs:294-306 | Removes the item with the blanks and one newline behind it |
| InlineText.AcceptedKeepsMeaning | crates/aa-patch/src/inline.rs:59-322 | Acceptance by the gates, no `?` in the body, and the unchecked conditions at every call imply preservation and that no call is left |
| ChangeSig.ChangedSignaturePreservesMeaning | crates/aa-patch/src/change_sig.rs:275-403 | Every expression has the same outcomes before and after permuting the signature and all calls and renaming in the body at once, swaps included. Arguments that keep their order may do anything; of two that are moved past each other neither exits and one has no effect, calls of effect-free functions included. Only a request that moves arguments needs calls of the target not to be nested |
| ChangeSig.ChangeMeaning | crates/aa-patch/src/change_sig.rs:275-403 | Stronger: with the same fuel, so not even the call depth changes |
| ChangeSig.ReorderableIs | crates/aa-patch/src/change_sig.rs:275-403 | The conditions on moved arguments hold of an expression exactly if they hold of every call in it |
| ChangeSig.QuietMeaning | crates/aa-patch/src/change_sig.rs:302-322 | An expression without effectful operations that calls only such functions leaves the trace alone and does not depend on it |
| ChangeSig.QuietIs | crates/aa-patch/src/change_sig.rs:302-322 | An expression has no effect exactly if no part is an effectful operation or a call of a function not known to have none |
| ChangeSig.PermutedArgs | crates/aa-patch/src/change_sig.rs:302-322 | Permuting arguments that commute where they change places permutes their values and changes neither trace nor failure |
| ChangeSig.CheckEntries | crates/aa-patch/src/change_sig.rs:120-146 | Entry by entry: accepts exactly the permutations of 0..n in which every requested name is an identifier; otherwise reports the first entry out of range, listed twice, or with a name that is none |
| ChangeSig.NewParameters | crates/aa-patch/src/change_sig.rs:219-268 | Parameter i of the new definition is the requested name if there is one and otherwise the old name at the requested position; other definitions keep theirs |
| ChangeSig.PermutationOnto | crates/aa-patch/src/change_sig.rs:120-146 | An accepted list hits every position: it is a bijection |
| ChangeSig.NestedCallMisaligned | crates/aa-patch/src/change_sig.rs:302-322 | Counterexample: a call inside an argument keeps its old argument text and the value changes |
| ChangeSig.EffectsReordered | crates/aa-patch/src/change_sig.rs:302-322 | Counterexample: effectful arguments change their order |
| ChangeSig.ExitsReordered | crates/aa-patch/src/change_sig.rs:302-322 | Counterexample: of two arguments that leave the caller another one leaves it first |
| ChangeSig.RenameCapturesConstant | crates/aa-patch/src/change_sig.rs:541-596 | Counterexample: a parameter renamed to a constant the body reads captures it; the compiler then refuses the parameter |
| ChangeSigText.ChangeSignature | crates/aa-patch/src/change_sig.rs:32-419 | Succeeds exactly if the entries are a permutation, every requested name is an identifier, the name occurs only as a callee, the new names are distinct, every call is full, and no block of the body binds the old or new name of a renamed parameter; then the new text is the printed transformed program. Otherwise the error is that of the first gate that finds something |
| ChangeSigText.CheckRequest | crates/aa-patch/src/change_sig.rs:120-300 | The gates on entries, references, names and arities, each exact, and which of them refuses |
| ChangeSigText.NoClashIs | crates/aa-patch/src/change_sig.rs:541-596 | The walker over the body with its arguments moved refuses exactly if some block of the body binds an old or a new name |
| ChangeSigText.CheckNames | crates/aa-patch/src/change_sig.rs:219-232 | Accepts exactly lists of distinct final names |
| ChangeSigText.RewriteCallsAndParams | crates/aa-patch/src/change_sig.rs:275-348 | The first two passes over the text realise the permutation of calls and signature |
| ChangeSigText.StaleOuterList | crates/aa-patch/src/change_sig.rs:302-322 | Counterexample outside the printed layout: under a pure rename a nested call whose list is normalised moves the end of the outer list, and an argument 3 becomes 33 |
| ChangeSigText.RewriteBody | crates/aa-patch/src/change_sig.rs:356-403 | All renames, collected over one text and spliced descending, realise the simultaneous renaming |
| ChangeSigText.AcceptedKeepsMeaning | crates/aa-patch/src/change_sig.rs:32-419 | Acceptance by the gates plus the conditions on moved arguments at every call and on new names implies preservation |
| Splice.ApplyEdits | crates/aa-patch/src/typed_rename.rs:211-236 | Accepts exactly the pairwise compatible edit lists; the result is the simultaneous replacement and its length is the old length less what was removed plus what was added |
| Splice.SpliceDescending | crates/aa-patch/src/typed_rename.rs:231-236 | Replacing from the end backwards equals replacing everything at once |
| Splice.SpliceSites | crates/aa-patch/src/change_sig.rs:302-322 | Sites sorted by start and spliced from the end: the simultaneous replacement if they are in order, the text itself if each replaces its range by itself, overlaps included |
| Splice.SpliceOne | crates/aa-patch/src/typed_rename.rs:231-236 | One replacement left of all others adds that edit to the simultaneous result |
| Splice.CompatibleIsDisjoint | crates/aa-patch/src/typed_rename.rs:211-229 | For non-empty ranges the adjacent-pair check means exactly that no two share a position |
| Splice.SortSameSimultaneous | crates/aa-patch/src/typed_rename.rs:211-236 | The stable sort does not change the simultaneous result, so inserts at one place keep their order |
| Splice.SimultaneousConcat | crates/aa-core/src/ra_pool.rs:202-251 | Editing two texts side by side is editing each on its own |
| TypedRename.ApplyTextEdits | crates/aa-patch/src/typed_rename.rs:180-236 | Succeeds exactly when all positions exist, no range is reversed and all edits are compatible; the result is the UTF-8 of the simultaneous replacement on characters |
| TypedRename.ResolveEdits | crates/aa-patch/src/typed_rename.rs:180-210 | Turns positions into byte ranges; fails exactly on lists that denote no character edits |
| TypedRename.ResolvedUnique | crates/aa-patch/src/typed_rename.rs:180-210 | An edit list denotes at most one list of character edits |
| TypedRename.BytesFollowChars | crates/aa-patch/src/typed_rename.rs:180-236 | Editing the bytes gives the UTF-8 of editing the characters: no character is ever split |
| Positions.LineStarts | crates/aa-patch/src/typed_rename.rs:238-246 | The offset 0 and each one behind a newline |
| Positions.LinecolToByte | crates/aa-patch/src/typed_rename.rs:248-281 | Meets the declarative position specification, on any text |
| Positions.LocatesUnique | crates/aa-patch/src/typed_rename.rs:248-281 | That specification has one answer |
| Positions.LocatesBoundary | crates/aa-patch/src/typed_rename.rs:248-281 | The answer is a character boundary within its line |
| Positions.LocatesMonotone | crates/aa-patch/src/typed_rename.rs:248-281 | Monotone in line and character |
| Positions.LocatesLeftInverse | crates/aa-patch/src/typed_rename.rs:248-281 | Looking up the line and UTF-16 column of any boundary gives it back |
| Positions.LinecolToByteChars | crates/aa-patch/src/util.rs:20-42 | The character-column look-up: fails exactly on a line that does not exist, otherwise gives the specified offset, out-of-range columns included |
| Positions.ColumnInRange | crates/aa-patch/src/util.rs:20-42 | In range it is the boundary of that column |
| Positions.ColumnLeftInverse | crates/aa-patch/src/util.rs:20-42 | Looking up the line and character column of any boundary gives it back |
| Positions.ColumnEscapes | crates/aa-patch/src/util.rs:32-34 | The answer leaves its line exactly for a column past the end of an ASCII line |
| Encoding.TextEncoded | crates/aa-patch/src/typed_rename.rs:180-210 | The bytes of a text are well-formed by the table of RFC 3629, section 4 |
| Encoding.CharacterEncoded | crates/aa-patch/src/typed_rename.rs:180-210 | The bytes of a character are one well-formed sequence that decodes to it (RFC 3629, section 3) |
| Framing.FramedStreamDecodes | adapters/vscode/src/client.js:144-188 | Every cut of a framed stream into chunks yields exactly the bodies in order, an empty buffer and the state they lead to, if and only if no body but the last ends the drain loop in the state it meets |
| Framing.ChunksDoNotMatter | adapters/vscode/src/client.js:144-188 | On any bytes on which no body that ends the loop has a step behind it, feeding chunks equals draining their concatenation, in bodies, buffer and state |
| Framing.ChunksMatterExactly | adapters/vscode/src/client.js:144-188 | On any bytes and from any state: the cut makes no difference if and only if no body that ends the loop, in the state reached by then, has a step behind it |
| Framing.DrainAppend | adapters/vscode/src/client.js:144-188 | Draining early changes neither the bodies nor what is left |
| Framing.NextStep | adapters/vscode/src/client.js:144-188 | Each step that does not wait consumes input |
| Framing.ReadFrame | crates/aa-protocol/src/transport.rs:30-59 | The line-based reader does what the frame grammar says, on well- and ill-formed input, lines that are not UTF-8 included |
| Framing.FrameReadsBack | crates/aa-protocol/src/transport.rs:30-66 | Reading a written frame gives the body and stops right behind it |
| Framing.ReadHeader | crates/aa-ra-client/src/framing.rs:26-49 | Byte by byte up to the first blank line, the end of input or the cap |
| Framing.ReadMessage | crates/aa-ra-client/src/framing.rs:26-78 | The byte-based reader does what the message grammar says, the cap and headers that are not UTF-8 included |
| Framing.MessageReadsBack | crates/aa-ra-client/src/framing.rs:17-78 | The same round trip for messages |
| Framing.HeaderBelowCap | crates/aa-ra-client/src/framing.rs:17-46 | No written header comes near the 8192 cap |
| Framing.HeaderIsUtf8 | crates/aa-protocol/src/transport.rs:61-66 | No written header is refused for its encoding |
| Framing.ReadAll | crates/aa-protocol/src/transport.rs:30-66 | Either blocking reader recovers the whole list of bodies |
| Headers.ForeignFrame | crates/aa-protocol/src/transport.rs:30-59 | A frame of another peer, with any fields in any case and lines ending in `\r\n` or `\n`: the body has the length the last length field says; without one, or with a malformed one, it is refused |
| Headers.ForeignMessage | crates/aa-ra-client/src/framing.rs:26-78 | The same of the byte-based reader for headers below the cap: other fields are tolerated |
| Headers.LengthSaid | crates/aa-protocol/src/transport.rs:46-52 | A value is taken for a length exactly if it is digits, with or without a plus sign, between white space, and fits a machine word |
| Headers.SameNameIs | crates/aa-protocol/src/transport.rs:46-47 | Two names are the same exactly up to the case of ASCII letters |
| Headers.LineWithoutColon | crates/aa-protocol/src/transport.rs:43-45 | A header line without a colon is refused |
| Headers.ForeignHeader | adapters/vscode/src/client.js:148-164 | The client takes the digits behind the first `Content-Length:` anywhere in the header, in any case and behind any white space |
| Headers.HeaderDropped | adapters/vscode/src/client.js:150-159 | It drops a header in which the name stands nowhere, and goes on behind it |
| Headers.TwoLengthsDisagree | adapters/vscode/src/client.js:148-164 | Of two length fields the client takes the first, the line-based reader the last |
| RpcClient.Client.constructor | adapters/vscode/src/client.js:24-33 | A new client has nothing buffered and nothing pending |
| RpcClient.Client.Request | adapters/vscode/src/client.js:77-119 | Refused without an id when no process runs; otherwise a fresh id becomes pending, or is rejected at once when the write fails; each id is settled at most once |
| RpcClient.Client.Timeout | adapters/vscode/src/client.js:95-99 | Rejects the request if it is still pending, otherwise does nothing; so a lost request is not rejected |
| RpcClient.Client.Settle | adapters/vscode/src/client.js:144-188 | Settling removes the id and records its outcome, once |
| RpcClient.Client.OnBody | adapters/vscode/src/client.js:166-186 | A first reply with a result resolves its pending promise, one with an error rejects it; bodies that do not parse, have no id or come late change nothing; the JSON text `null` throws; an error reply without a string form to a pending request drops it unsettled and throws |
| RpcClient.Client.OnStdoutData | adapters/vscode/src/client.js:144-188 | One chunk: buffer and bodies are those of draining the old buffer with the chunk up to a body that throws; the settlements added are, in order, those of the first delivered reply to each request pending before, resolved exactly when it carries a result |
| RpcClient.Client.OnChunks | adapters/vscode/src/client.js:144-188 | A run of chunks: the settlements added are those of the first delivered replies, in order; and the same comes of their concatenation, whatever the cut, unless a body that throws has a step behind it |
| RpcClient.FirstReplyDecides | adapters/vscode/src/client.js:166-187 | Whatever bodies are delivered: a request is pending still exactly if none replies to it; the settlements added are, in order, those of the first replies, `ok` exactly for results; exactly those whose first reply has no string form are lost |
| RpcClient.DecodesExactly | adapters/vscode/src/client.js:144-188 | From any promises: a framed stream is handed out in the same way for every cut if and only if no body but the last is `null` or an error reply without a string form to a request pending then |
| RpcClient.Client.FailAllPending | adapters/vscode/src/client.js:190-199 | Every pending request is rejected, each once, and none is left |
| RpcClient.DecodeStream | adapters/vscode/src/client.js:144-188 | A new client fed any cut of a framed stream in which no body but the last is `null` hands out exactly its bodies |
| RpcClient.NullEndsTheLoop | adapters/vscode/src/client.js:166-173 | Counterexample: the bodies `null` and `{}` in one chunk hand out only the first, in two chunks both |
| RpcClient.UnprintableLosesTheRequest | adapters/vscode/src/client.js:179-186 | Counterexample: an error reply without a string form to pending request 1, with `{}` behind it, does the same and loses the request; when it comes late, both bodies come out |
| RpcClient.LostForGood | adapters/vscode/src/client.js:179-186 | A request dropped by such a reply is never settled by any later bodies |
| DatalogParser.ProgramParsesBack | crates/aa-rules/src/parser.rs:28-42 | Every printed well-formed program parses back to the same facts and rules in order |
| DatalogParser.ParsePrintParse | crates/aa-rules/src/parser.rs:28-42 | Whatever parses is printed to a text that parses to the same program |
| DatalogParser.ParsedFromWellFormed | crates/aa-rules/src/parser.rs:28-42 | The parser only produces well-formed programs |
| DatalogParser.RuleParsesBack | crates/aa-rules/src/parser.rs:127-161 | The round trip for one clause, whatever follows it |
| DatalogParser.AtomParsesBack | crates/aa-rules/src/parser.rs:163-189 | The round trip for one atom, whatever follows it |
| DatalogParser.TermParsesBack | crates/aa-rules/src/parser.rs:191-206 | The round trip for one term; quoted constants keep their escapes verbatim |
| DatalogParser.ParseClause | crates/aa-rules/src/parser.rs:127-161 | A clause that parses has consumed input: the loop ends |
| DatalogCursor.Parse | crates/aa-rules/src/parser.rs:28-42 | Succeeds with a program exactly if the text is its tokens with any white space and comments between them; otherwise reports an error at the line and column of exactly the consumed prefix |
| DatalogLayout.ParsesExactlyLayouts | crates/aa-rules/src/parser.rs:28-42 | A text parses exactly if it is the text of some layout: clauses, atoms and terms as written, with white space and comments from `%` or two slashes to the end of the line between the tokens, the last of which may be unfinished; and it parses to what the layout means |
| DatalogLayout.LayoutParses | crates/aa-rules/src/parser.rs:89-111 | White space and comments between tokens never matter, quoted, bare and numeric spellings included |
| DatalogLayout.ProgramFails | crates/aa-rules/src/parser.rs:28-42 | A text that does not parse fails at an end of the source, with an error that fits what stands there |
| DatalogCursor.LineAndColumn | crates/aa-rules/src/parser.rs:69-87 | The line of a prefix is one more than its newlines, the column one more than the bytes behind the last of them |
| DatalogCursor.Parser.constructor | crates/aa-rules/src/parser.rs:52-59 | Starts at line 1, column 1 with everything ahead |
| DatalogCursor.Parser.Bump | crates/aa-rules/src/parser.rs:69-79 | Consumes one byte; line and column stay those of the consumed prefix |
| DatalogCursor.Parser.SkipTrivia | crates/aa-rules/src/parser.rs:89-102 | Skips exactly white space and comments |
| DatalogCursor.Parser.SkipLineComment | crates/aa-rules/src/parser.rs:104-111 | Skips to behind the next newline or to the end of the source, as DatalogLayout.LayoutParses needs it |
| DatalogCursor.Parser.Eat | crates/aa-rules/src/parser.rs:113-125 | Consumes the expected byte or fails where it stands |
| DatalogCursor.Parser.ParseClause | crates/aa-rules/src/parser.rs:127-161 | Agrees with the grammar function in outcome and position |
| DatalogCursor.Parser.ParseBody | crates/aa-rules/src/parser.rs:127-161 | Agrees with the grammar function, failing part-way included |
| DatalogCursor.Parser.ParseAtom | crates/aa-rules/src/parser.rs:163-189 | Agrees with the grammar function in outcome and position |
| DatalogCursor.Parser.ParseArgs | crates/aa-rules/src/parser.rs:163-189 | Agrees with the grammar function; the empty list is accepted |
| DatalogCursor.Parser.ParseTerm | crates/aa-rules/src/parser.rs:191-206 | Agrees with the grammar function in outcome and position |
| DatalogCursor.Parser.ParseIdentLower | crates/aa-rules/src/parser.rs:208-214 | Agrees with the grammar function in outcome and position |
| DatalogCursor.Parser.ParseIdentAny | crates/aa-rules/src/parser.rs:216-231 | Agrees with the grammar function in outcome and position |
| DatalogCursor.Parser.ParseQuoted | crates/aa-rules/src/parser.rs:233-250 | Agrees with the grammar function; an unclosed text fails at the end of the source |
| DatalogCursor.Parser.ParseNumber | crates/aa-rules/src/parser.rs:252-270 | Takes an optional minus and the digits behind it, even if there are none |
| Apply.ApplyTransactional | crates/aa-core/src/apply.rs:45-117 | All or nothing under any fate of any call: on success the start overlaid with exactly the changed entries and no temporary file left; on failure the start again unless a repairing call itself failed; until the first restore every target is wholly old or wholly new, and nothing but targets and their temporaries is ever touched. The error names the first target that reads otherwise than planned, or the target of the first call that failed |
| Apply.OverlayExact | crates/aa-core/src/apply.rs:51-61 | After success a file reads anew exactly when its shadow entry differs from its original |
| Apply.Targets | crates/aa-core/src/apply.rs:51-61 | Exactly the shadow entries that have an original and differ from it |
| Apply.TargetsDistinct | crates/aa-core/src/apply.rs:51-61 | One target per path |
| Apply.Preflight | crates/aa-core/src/apply.rs:63-74 | Passes only if every target still reads as planned; undisturbed, refuses only otherwise, and names the first target that does not and why; writes nothing |
| Apply.Backup | crates/aa-core/src/apply.rs:76-82 | Reads back the texts to restore; fails only when disturbed, and names the target of the first failing read |
| Apply.WriteAll | crates/aa-core/src/apply.rs:84-117 | The write loop: everything written with the reported counts, or rolled back with the target of the first failing call named |
| Apply.WriteTarget | crates/aa-core/src/apply.rs:84-110 | One target through its temporary file, or back to the start |
| Apply.UndoTmp | crates/aa-core/src/apply.rs:92-99 | A failed temporary write is undone to the start |
| Apply.UndoRename | crates/aa-core/src/apply.rs:100-107 | A failed rename is undone to the start |
| Apply.Restore | crates/aa-core/src/apply.rs:119-127 | Puts the old text over every target written so far and touches nothing else |
| Apply.Undone | crates/aa-core/src/apply.rs:119-127 | Old texts over new texts give the start |
| Apply.CleanedUp | crates/aa-core/src/apply.rs:84-127 | Removing the temporary and restoring give the start in either order |
| Apply.FileSystem.Read | crates/aa-core/src/apply.rs:62-82 | A read fails when disturbed or missing |
| Apply.FileSystem.Write | crates/aa-core/src/apply.rs:92-95 | A write may break off and leave anything in its own file |
| Apply.FileSystem.Rename | crates/aa-core/src/apply.rs:100-103 | A rename happens or does not |
| Apply.FileSystem.Remove | crates/aa-core/src/apply.rs:94-104 | A removal whose outcome is ignored |
| Journal.LastInFirstOut | crates/aa-core/src/rollback.rs:35-69 | In every run without outside edits that rolls back newest live commits, each rollback is accepted, the files are those of the live commits replayed, and undoing the rest restores the first files and journal |
| Journal.UndoAllRestores | crates/aa-core/src/rollback.rs:35-69 | Undoing all live commits, newest first, restores the first files and journal |
| Journal.NewestUndone | crates/aa-core/src/rollback.rs:35-69 | The newest live commit can always be undone and that gives the world before it |
| Journal.RollbackUndoesCommit | crates/aa-core/src/rollback.rs:35-69 | Rolling a commit back at once gives back files and journal |
| Journal.RollbackAcceptedExactly | crates/aa-core/src/rollback.rs:38-49 | A live commit can be rolled back if and only if for each of its files the last later commit that changed it, if any, wrote the same text |
| Journal.AcceptedAfterAnyRun | crates/aa-core/src/rollback.rs:35-69 | After any run of commits and rollbacks in any order, refused ones included, a commit of the run can be rolled back if and only if it is in the journal and the accepted steps since then left in each of its files the text it wrote |
| Journal.RefusedAfterOneChange | crates/aa-core/src/rollback.rs:38-49 | A commit whose file exactly one later live commit changed is refused |
| Journal.AcceptedUnderLiveChange | crates/aa-core/src/rollback.rs:38-49 | Counterexample to refusing whenever a live commit changed the file: A to B to C to B; the later commits are then stuck |
| Journal.DisjointRollbacksCommute | crates/aa-core/src/rollback.rs:35-69 | Rollbacks of commits without a common file commute, acceptance included |
| Journal.TargetsOfBefores | crates/aa-core/src/rollback.rs:51-59 | The plan a rollback builds is exactly the inverse of the recorded commit |
| Journal.Workspace.Rollback | crates/aa-core/src/rollback.rs:35-69 | Accepted, it is exactly the undoing; refused, journal and files are kept, up to failed repairs and up to an entry that cannot be removed |
| Journal.Workspace.CheckAfter | crates/aa-core/src/rollback.rs:38-49 | Passes only if every file reads as the commit left it; undisturbed, refuses only otherwise, and names the first file that does not |
| Journal.Workspace.WriteBack | crates/aa-core/src/rollback.rs:38-61 | Check and apply together write back the old texts or nothing, and the error names the file |
| Journal.Workspace.Commit | crates/aa-core/src/handlers.rs:358-391 | Applies all or nothing and records exactly the changed files under the commit id; an unwritable journal leaves the commit applied |
| ContextWalk.KHop | crates/aa-llm/src/context.rs:27-71 | The result is the uncapped breadth-first list cut after max(1, `max_facts`) facts |
| ContextWalk.FoundExactly | crates/aa-llm/src/context.rs:27-71 | Uncapped, it is exactly the facts with an argument within `hops` steps of the anchor, each once |
| ContextWalk.NearestFirst | crates/aa-llm/src/context.rs:27-71 | What fewer hops find is the beginning of what more hops find: nearer facts come first |
| ContextWalk.VisitFrontier | crates/aa-llm/src/context.rs:27-71 | One level of the walk, or its prefix when the cap is reached |
| ContextWalk.VisitFacts | crates/aa-llm/src/context.rs:27-71 | The facts of one id, or their prefix when the cap is reached |
| ContextWalk.AllFacts | crates/aa-graph/src/lib.rs:100-102 | All buckets in some order a hash map may choose |
| ContextWalk.ContextHoldsTrusted | crates/aa-llm/src/context.rs:85-87 | The walk goes over exactly the trusted facts |
| ContextWalk.TrustedCommutesWithSort | crates/aa-llm/src/context.rs:27-71 | Leaving out untrusted facts commutes with the stable sort |
| ContextWalk.OrderOfPredicatesIrrelevant | crates/aa-llm/src/context.rs:27-71 | The order in which the store lists its predicates does not matter |
| ContextWalk.OnlyTrustedMatter | crates/aa-llm/src/context.rs:27-71 | The walk depends only on the trusted facts of each predicate |
| ContextWalk.SortedIsStable | crates/aa-llm/src/context.rs:27-71 | The sort is ascending and keeps the order within a key |
| ContextWalk.LeTextIs | crates/aa-llm/src/context.rs:46-51 | A text comes before another if it begins it or has the smaller character at the first difference |
| ContextWalk.LeArgsIs | crates/aa-llm/src/context.rs:46-51 | The same of argument lists, the texts at the first difference deciding |
| ContextWalk.AscendingUnique | crates/aa-llm/src/context.rs:27-71 | Those two facts determine the sorted list |
| LlmLoop.RunsAreIsolated | crates/aa-llm/src/propose.rs:56-143 | Over any run of proposals and refinements with any provider: other layers never change, added facts are candidates about known ids, the known ids stay the same, and so does every context |
| LlmLoop.ProposedAgain | crates/aa-llm/src/cache.rs:25-33 | An identical proposal after any further calls hits the cache, returns the same outcomes and changes nothing |
| LlmLoop.RefinedAgain | crates/aa-llm/src/refine.rs:76-209 | So does an identical refinement, in every round |
| LlmLoop.RefinementTallied | crates/aa-llm/src/refine.rs:76-209 | At most max(1, `max_rounds`) rounds, fewer only by converging; converged exactly when the last round had no rejection; counts are those of the outcomes |
| LlmLoop.CallsLater | crates/aa-llm/src/propose.rs:56-143 | Over any run, store, cache and known ids only evolve in the isolated way |
| LlmLoop.RejectionsAre | crates/aa-llm/src/refine.rs:184-205 | What is carried to the next round are the outcomes not accepted |
| LlmLoop.RejectionsCounted | crates/aa-llm/src/refine.rs:184-205 | They are as many as the positions not accepted |
| LlmLoop.Session.constructor | crates/aa-llm/src/cache.rs:20-23 | A new session has an empty cache |
| LlmLoop.Session.AskOrLookUp | crates/aa-llm/src/cache.rs:25-33 | A hit exactly if the key is cached, and then the cached response without a call; otherwise one call of the provider, whose response is stored and whose errors are not |
| LlmLoop.Session.Propose | crates/aa-llm/src/propose.rs:56-143 | A failure leaves the store alone; a success reports every proposal of the answer with its outcome, accepted exactly if it is grounded and its arity fits, adds exactly the accepted ones as candidates, and counts accepted and rejected ones |
| LlmLoop.Session.Refine | crates/aa-llm/src/refine.rs:76-209 | The same for the multi-round refinement |
| LlmLoop.RefinementUnrolls | crates/aa-llm/src/refine.rs:76-209 | A refinement is a chain of rounds, each asking with the rejections before it, its proposals faring on the store as it is then; it reports exactly these rounds, their outcomes, counts and saturated tokens, or fails where the next round gets no usable answer |
| Proposals.KnownEntityIds | crates/aa-llm/src/propose.rs:162-184 | The ids defined by trusted entity facts |
| Proposals.Resolve | crates/aa-llm/src/propose.rs:186-199 | Accepts exactly proposals with a lower-case predicate and at least one argument, all known |
| Proposals.FirstUnknown | crates/aa-llm/src/propose.rs:186-199 | Reports an unknown argument if there is one |
| Proposals.Take | crates/aa-llm/src/propose.rs:99-141 | One candidate: judged and absorbed as specified |
| Proposals.TakeAll | crates/aa-llm/src/propose.rs:99-141 | All candidates of an answer, in order |
| Proposals.EachProposalFares | crates/aa-llm/src/propose.rs:99-141 | Each proposal of an answer is accepted exactly if it is grounded and fits the arities of the store and of those accepted before it, its reason otherwise says what is wrong with it, and the store gains exactly the accepted ones |
| Proposals.AbsorbAllIsolated | crates/aa-llm/src/propose.rs:99-141 | Whatever is proposed, only candidates about known ids are added |
| Proposals.KnownIdsKept | crates/aa-llm/src/propose.rs:162-184 | Such additions make no id known |
| Proposals.OtherLayersKept | crates/aa-llm/src/propose.rs:99-141 | Such additions leave every other layer alone |
| Proposals.ContextKept | crates/aa-llm/src/context.rs:27-71 | Such additions leave the walk alone |
| Proposals.AllJudgedAgain | crates/aa-llm/src/refine.rs:225-262 | Judged again later, proposals fare alike and add nothing |
| SessionPool.EveryInterleavingIsSafe | crates/aa-core/src/ra_pool.rs:72-146 | Over every interleaving, with spawns refused and syncs broken off at any file: at most one session per key is ever stored, all calls of a key share it, no two use it at once, versions ascend on the wire, and every session on which no sync broke off is in agreement |
| SessionPool.StepKeeps | crates/aa-core/src/ra_pool.rs:72-146 | Every step of every call keeps the invariant behind that |
| SessionPool.RunKeeps | crates/aa-core/src/ra_pool.rs:72-146 | So does every schedule |
| SessionPool.SessionsStay | crates/aa-core/src/ra_pool.rs:72-146 | A stored session is never replaced |
| SessionPool.ReleasedInAgreement | crates/aa-core/src/ra_pool.rs:106-146 | When a call gives its session up after a whole sync, and no sync broke off on it before, each of its files is known, on disk and at the server with the call's text, at a version one higher exactly if the text changed |
| SessionPool.SomeoneCanStep | crates/aa-core/src/ra_pool.rs:72-146 | While a call is not over some call can step: no deadlock |
| SessionSync.Session.Started | crates/aa-ra-client/src/session.rs:76-96 | A started session knows the files it wrote at version 0 |
| SessionSync.Spawn | crates/aa-ra-client/src/session.rs:57-97 | A session starts exactly when every write and the handshake go through |
| SessionSync.Session.SyncFile | crates/aa-ra-client/src/session.rs:159-194 | One file, exactly as specified unless a call fails; then exactly what the failing call leaves; other files untouched either way |
| SessionSync.Session.Sync | crates/aa-ra-client/src/session.rs:159-194 | All files, exactly as specified unless a call fails; files not mentioned untouched either way |
| SessionSync.SpawnAgrees | crates/aa-ra-client/src/session.rs:57-97 | After spawning, known content, disk and server agree |
| SessionSync.SyncAllAgrees | crates/aa-ra-client/src/session.rs:159-194 | A sync keeps that agreement |
| SessionSync.SyncedVersion | crates/aa-ra-client/src/session.rs:159-194 | A version rises by one exactly when the content changes |
| SessionSync.ResyncIsSilent | crates/aa-ra-client/src/session.rs:159-194 | Syncing equal files again writes and sends nothing |
| SessionSync.WireStaysInOrder | crates/aa-ra-client/src/session.rs:159-194 | Versions on the wire ascend and known versions never decrease; a notification is an opening exactly if it is version 1 of a file the server did not start on |
| SessionSync.NotToldStays | crates/aa-ra-client/src/session.rs:166-175 | Counterexample to agreement under errors: a change the server was not told of is never told again |
| SessionSync.BrokenInOrder | crates/aa-ra-client/src/session.rs:159-194 | A sync that breaks off sends nothing more and keeps versions ascending |
| SessionSync.SyncedInAgreement | crates/aa-ra-client/src/session.rs:149-157 | A synced file is known, on disk and at the server with its text |
| RustRename.Rename | crates/aa-patch/src/rust_rename.rs:36-69 | For a valid new name the text of the renamed token tree and the number of renamable occurrences; fails exactly otherwise |
| RustRename.FileRealises | crates/aa-patch/src/rust_rename.rs:36-69 | The spliced edits realise the map on token trees, one edit per renamable occurrence |
| RustRename.RenamedNodes | crates/aa-patch/src/rust_rename.rs:36-143 | Node by node: names, path segments and defined macros equal to the old name become the new one; bodies are gone into unless the path is `macro_rules`; nothing else changes |
| RustRename.RenamedTokens | crates/aa-patch/src/rust_rename.rs:119-142 | Token by token: an identifier equal to the old name becomes the new one unless a `$` stands directly in front of it; groups are gone into; nothing else changes |
| RustRename.ChangesTheCounted | crates/aa-patch/src/rust_rename.rs:36-69 | Exactly as many identifiers change from the old name to the new as are counted, and no other |
| RustRename.NoneLeft | crates/aa-patch/src/rust_rename.rs:36-143 | No renamable occurrence is left, except that renaming `macro_rules` uncovers exactly those in its bodies |
| RustRename.RenamedBack | crates/aa-patch/src/rust_rename.rs:36-143 | With a new name that did not occur and is no reserved word, renaming back is the identity if and only if no macro call was turned into `macro_rules!` over an occurrence |
| RustRename.UnderscoreStays | crates/aa-patch/src/rust_rename.rs:149-162 | Counterexample: a parameter renamed to `_`, which the identifier check accepts, is no identifier any more and cannot be renamed back |
| RustRename.TryBlockStays | crates/aa-patch/src/rust_rename.rs:149-162 | Counterexample: the type of a struct literal renamed to `try` makes a block and cannot be renamed back |
| RustRename.UnderscoreLifetimeComesBack | crates/aa-patch/src/rust_rename.rs:149-162 | A lifetime renamed to `_` is one still and can be renamed back |
| RustRename.RenamedBackAnyName | crates/aa-patch/src/rust_rename.rs:36-162 | For every new name that did not occur, reserved or not, and whatever the parser makes of the renamed text: renaming back is the identity if and only if, besides, the parser reads the new name as an identifier at every place it came to |
| RustRename.RenamedToItself | crates/aa-patch/src/rust_rename.rs:36-69 | Renaming a name to itself is the identity |
| RustRename.AscendingStays | crates/aa-patch/src/rust_rename.rs:50-52 | Sorting and removing duplicates change nothing on ranges visited in order |
| RustRename.Collect | crates/aa-patch/src/rust_rename.rs:36-69 | The visitor collects the range of every renamable occurrence, in order |
| RustRename.Collector.VisitIdent | crates/aa-patch/src/rust_rename.rs:79-94 | One range for a matching identifier |
| RustRename.Collector.VisitPath | crates/aa-patch/src/rust_rename.rs:103-109 | The ranges of a macro path |
| RustRename.Collector.VisitNode | crates/aa-patch/src/rust_rename.rs:103-109 | The ranges of an item; the body of `macro_rules!` is left out |
| RustRename.Collector.WalkTokens | crates/aa-patch/src/rust_rename.rs:119-142 | The ranges in a macro body, none directly behind a `$`, groups included |
| RustRename.Collector.VisitFile | crates/aa-patch/src/rust_rename.rs:36-69 | The ranges of a file |
| Derive.AddedThenRemoved | crates/aa-patch/src/add_derive.rs:37-107 | On a type without a derive attribute, removing what was just added restores the exact text and reports as many, if and only if the line of the keyword starts where a new attribute is the type's own: behind all other tokens, not behind its visibility, not inside a comment or an attribute |
| Derive.AttributeOfModule | crates/aa-patch/src/add_derive.rs:210-231 | Counterexample: for `mod m { struct A; }` the attribute lands on the module; adding again adds again and removing removes nothing |
| Derive.AddedTwice | crates/aa-patch/src/add_derive.rs:37-107 | Adding again adds 0 and changes nothing, if and only if a new attribute was not put where it is not the type's own |
| Derive.AddedToListThenRemoved | crates/aa-patch/src/add_derive.rs:362-433 | On an existing list of other derives the round trip gives the list in canonical form: the exact text if and only if it was canonical |
| Derive.PartlyRemoved | crates/aa-patch/src/add_derive.rs:395-428 | Removing some but not all derives leaves an attribute that lists exactly the kept ones, and removing again changes nothing |
| Derive.KeptEach | crates/aa-patch/src/add_derive.rs:395-402 | Entry by entry, in order: an entry goes exactly if it is one of the derives to remove |
| Derive.NothingRemoved | crates/aa-patch/src/add_derive.rs:403-405 | Without an entry to remove nothing changes and 0 is reported |
| Derive.LineIsDropped | crates/aa-patch/src/add_derive.rs:442-477 | Removing the last derive drops the whole rest of the attribute's line and nothing else, whatever follows the bracket |
| Derive.ExtendedListed | crates/aa-patch/src/add_derive.rs:37-107 | The new list is the old with the new derives behind it, white space at its end kept |
| Derive.NotListedEach | crates/aa-patch/src/add_derive.rs:66-73 | Derive by derive, in order: one is added exactly if it is not listed yet |
| Derive.JoinedIsListed | crates/aa-patch/src/add_derive.rs:257-279 | A joined list is read back as it was |
| Derive.IsValidDerivePath | crates/aa-patch/src/add_derive.rs:289-315 | Accepts exactly identifiers joined by `::` |
| Derive.ScansExactlyPaths | crates/aa-patch/src/add_derive.rs:289-315 | The one-pass scan and the grammar agree |
| Derive.CheckPaths | crates/aa-patch/src/add_derive.rs:45-49 | Finds the first derive that is no path, if there is one |
| Derive.CollectListed | crates/aa-patch/src/add_derive.rs:257-279 | The derives of the list, separated at commas |
| Derive.FindLine | crates/aa-patch/src/add_derive.rs:210-231 | Where the line of the keyword starts and its blanks, whatever stands on it |
| Derive.AddDerive | crates/aa-patch/src/add_derive.rs:37-107 | Refuses exactly lists with an invalid path and names the first; otherwise the text and the count of the specification |
| Derive.RemoveDerive | crates/aa-patch/src/add_derive.rs:362-433 | Refuses exactly lists with an invalid path and names the first; otherwise the text and the count of the specification |
| Derive.AttributeFullRange | crates/aa-patch/src/add_derive.rs:442-477 | From the attribute's indentation to behind its line |

## Left out

- InlineText.InlineFunction: one file of free functions; the narrowing of the file set, several files, and the refusals
  of methods, macros, `async`, `const`, `unsafe`, generic and variadic functions are not modelled, nor the parse of the
  result. That no call of the target stands inside an argument of another one is a precondition: the sites overlap, and
  what the splices leave (`InlineText.StaleOuterSite`) is text the parser gets next. The same holds of
  InlineText.SitesRealise and InlineText.RewriteText.
- Inline.InliningPreservesMeaning: the conditions on arguments, scopes and `?` are sufficient; they are not shown to be
  necessary for every program, since whether two programs mean the same is not decidable. Locals hold numbers: calling
  one is stuck, and closures are not modelled.
- ChangeSig.ChangedSignaturePreservesMeaning: the conditions on moved arguments and on new names are sufficient, for the
  same reason one way only. A new name that is a reserved word, which the identifier check accepts, counts as a name.
- ChangeSigText.ChangeSignature: the same file and shape restrictions as for inlining, and, when arguments move, the same
  precondition on nested calls, also for ChangeSigText.RewriteCallsAndParams. Texts are in the printed layout; in another
  one nested calls break a pure rename too (`ChangeSigText.StaleOuterList`). The per-file edit counts are not modelled,
  nor parameters declared `mut`.
- Derive.FindLine: where the type, its tokens and its first derive attribute are comes from the parser, which is not part
  of this model; neither are comments and groups inside a derive list. An attribute put behind the visibility of a type
  does not parse, and the operation then reports that; the model counts it among the misplaced ones.
- RustRename.Rename: which identifiers a file has comes from the parser, and so does the check that the result parses. A
  token tree is taken to be read back as printed, also where an identifier stands directly in front of a string.
- RustRename.RenamedBackAnyName: which reserved words are identifiers at which place is part of what the parser reports;
  the model has no table of them.
- DatalogCursor.Parse: the source is a list of bytes; that a slice of it is valid UTF-8 is not modelled.
- Framing.ReadFrame: white space around a header value that is not ASCII, and lengths above 2^53 in the editor's client,
  are not modelled.
- RpcClient.Client.Request: the shutdown sequence; and what becomes of an exception that leaves the drain loop, except
  that the client goes on with the next chunk.
- Apply.ApplyTransactional: paths are normalised, so that different texts are different files; one writer; the nonce is
  fresh; clocks and how a commit id is made are parameters. A restoring write that breaks off counts as a failed repair.
- Journal.Workspace.Rollback: journal files are a map, and whether an entry can be written or removed is a parameter.
- SessionPool.EveryInterleavingIsSafe: a poisoned lock and a caller that panics are not modelled. Spawned files are taken
  as seen by the server from disk.
- LlmLoop.Session.Propose: prompts and JSON text; a request is what the prompt is made from, an answer is what parsing
  it gives. Keys of the cache do not collide.
- Proofs about syn, rust-analyzer, `cargo check`, `cargo test`, the command line, the editor extension, timeouts and
  process handling: outside programs or plumbing.
- Extracting a function and moving an item: the program does not track what their meaning would depend on (locals that
  outlive the selection, a lone `use`), so there is no preservation to prove.
- Inferred facts resting on observed facts only: rules match candidates too, so it does not hold.
- Equality of the pooled and the one-shot resolver: they read different parts of a workspace edit.
- Pipeline stages, verdicts, journal statistics and the in-memory store: facts of one branch each.
