/**
 The macro-aware rename of crates/aa-patch/src/rust_rename.rs. A file is what the visitor sees of it: plain text,
 identifiers, and macro invocations whose bodies are token trees; every token carries the blanks and comments before it.
 */
module RustRename {
  import opened Wrappers
  import opened Splice
  import opened Source
  import opened Text

  type Word = s: string | s != "" witness "_"

  datatype Tok =
    | Ident(gap: string, name: Word)
    | Punct(gap: string, c: char)
    | Literal(gap: string, text: string)
    | Group(gap: string, open: string, inner: seq<Tok>, close: string)

  /**
   `takes` are the reserved words that the parser would still read as an identifier where this one stands, such as `self`
   in a path or `_` as a lifetime. `bang` is the text from the path to the body or to the name a `macro_rules!` defines.
   */
  datatype Node =
    | Plain(text: string)
    | Name(name: Word, takes: set<string>)
    | Macro(path: seq<Word>, bang: string, defined: Option<Word>, open: string, tokens: seq<Tok>, close: string,
            takes: set<string>)

  type File = seq<Node>

  // ----- printing -----

  function PrintTok(t: Tok): string {
    match t
    case Ident(gap, name) => gap + name
    case Punct(gap, c) => gap + [c]
    case Literal(gap, text) => gap + text
    case Group(gap, open, inner, close) => (gap + open) + PrintToks(inner) + close
  }

  function PrintToks(ts: seq<Tok>): string {
    if ts == [] then "" else PrintTok(ts[0]) + PrintToks(ts[1..])
  }

  function PrintPath(path: seq<Word>): string {
    if path == [] then "" else if |path| == 1 then path[0] else path[0] + "::" + PrintPath(path[1..])
  }

  function PrintHead(path: seq<Word>, bang: string, defined: Option<Word>): string {
    PrintPath(path) + bang + if defined.Some? then defined.value else ""
  }

  function PrintNode(n: Node): string {
    match n
    case Plain(text) => text
    case Name(name, _) => name
    case Macro(path, bang, defined, open, tokens, close, _) =>
      PrintHead(path, bang, defined) + open + PrintToks(tokens) + close
  }

  function PrintFile(f: File): string {
    if f == [] then "" else PrintNode(f[0]) + PrintFile(f[1..])
  }

  // ----- the rename on trees -----

  /** `is_macro_rules`. */
  predicate IsRules(path: seq<Word>) {
    path == ["macro_rules"]
  }

  predicate IsDollar(t: Tok) {
    t.Punct? && t.c == '$'
  }

  function Renamed(x: Word, a: string, b: Word): Word {
    if x == a then b else x
  }

  function RenameTok(t: Tok, touch: bool, a: string, b: Word): Tok {
    match t
    case Ident(gap, name) => if touch then Ident(gap, Renamed(name, a, b)) else t
    case Group(gap, open, inner, close) => Group(gap, open, RenameToks(inner, false, a, b), close)
    case _ => t
  }

  /** An identifier behind a `$` is left alone. */
  function RenameToks(ts: seq<Tok>, dollar: bool, a: string, b: Word): seq<Tok> {
    if ts == [] then [] else [RenameTok(ts[0], !dollar, a, b)] + RenameToks(ts[1..], IsDollar(ts[0]), a, b)
  }

  function RenamePath(path: seq<Word>, a: string, b: Word): seq<Word> {
    if path == [] then [] else [Renamed(path[0], a, b)] + RenamePath(path[1..], a, b)
  }

  function RenameDefined(defined: Option<Word>, a: string, b: Word): Option<Word> {
    if defined.Some? then Some(Renamed(defined.value, a, b)) else None
  }

  /** The body of a `macro_rules!` is left alone. */
  function RenameBody(path: seq<Word>, tokens: seq<Tok>, a: string, b: Word): seq<Tok> {
    if IsRules(path) then tokens else RenameToks(tokens, false, a, b)
  }

  function RenameNode(n: Node, a: string, b: Word): Node {
    match n
    case Plain(_) => n
    case Name(name, takes) => Name(Renamed(name, a, b), takes)
    case Macro(path, bang, defined, open, tokens, close, takes) =>
      Macro(RenamePath(path, a, b), bang, RenameDefined(defined, a, b), open, RenameBody(path, tokens, a, b), close, takes)
  }

  function RenameFile(f: File, a: string, b: Word): File {
    if f == [] then [] else [RenameNode(f[0], a, b)] + RenameFile(f[1..], a, b)
  }

  /** Token by token: an identifier `a` becomes `b` unless a `$` stands directly in front of it; groups are gone into. */
  lemma {:induction false} RenamedTokens(ts: seq<Tok>, dollar: bool, a: string, b: Word, i: nat)
    requires i < |ts|
    ensures var us, t := RenameToks(ts, dollar, a, b), ts[i];
            && |us| == |ts|
            && us[i] == match t
                        case Ident(gap, name) =>
                          var behindDollar := if i == 0 then dollar else ts[i - 1].Punct? && ts[i - 1].c == '$';
                          if name == a && !behindDollar then Ident(gap, b) else t
                        case Group(gap, open, inner, close) => Group(gap, open, RenameToks(inner, false, a, b), close)
                        case Punct(_, _) => t
                        case Literal(_, _) => t
    decreases |ts|
  {
    if |ts| > 1 {
      RenamedTokens(ts[1..], IsDollar(ts[0]), a, b, if i > 0 then i - 1 else 0);
    }
  }

  lemma {:induction false} RenamedSegment(path: seq<Word>, a: string, b: Word, i: nat)
    requires i < |path|
    ensures |RenamePath(path, a, b)| == |path| && RenamePath(path, a, b)[i] == if path[i] == a then b else path[i]
  {
    if |path| > 1 {
      RenamedSegment(path[1..], a, b, if i > 0 then i - 1 else 0);
    }
  }

  /** A node and what it becomes: only the body of a `macro_rules!` stays, whatever is in it. */
  ghost predicate Becomes(n: Node, m: Node, a: string, b: Word) {
    match n
    case Plain(_) => m == n
    case Name(name, takes) => m == Name(if name == a then b else name, takes)
    case Macro(path, _, defined, _, tokens, _, _) =>
      && m.Macro? && m == n.(path := m.path, defined := m.defined, tokens := m.tokens)
      && |m.path| == |path| && (forall i :: 0 <= i < |path| ==> m.path[i] == if path[i] == a then b else path[i])
      && m.defined == (if defined == Some(a) then Some(b) else defined)
      && m.tokens == if path == ["macro_rules"] then tokens else RenameToks(tokens, false, a, b)
  }

  lemma {:induction false} RenamedNodes(f: File, a: string, b: Word, i: nat)
    requires i < |f|
    ensures |RenameFile(f, a, b)| == |f| && Becomes(f[i], RenameFile(f, a, b)[i], a, b)
  {
    if i == 0 && f[0].Macro? {
      forall j | 0 <= j < |f[0].path|
        ensures |RenamePath(f[0].path, a, b)| == |f[0].path|
        ensures RenamePath(f[0].path, a, b)[j] == if f[0].path[j] == a then b else f[0].path[j]
      {
        RenamedSegment(f[0].path, a, b, j);
      }
    }
    if |f| > 1 {
      RenamedNodes(f[1..], a, b, if i > 0 then i - 1 else 0);
    }
  }

  // ----- how many -----

  function One(hit: bool): nat {
    if hit then 1 else 0
  }

  function CountTok(t: Tok, touch: bool, a: string): nat {
    match t
    case Ident(_, name) => One(touch && name == a)
    case Group(_, _, inner, _) => CountToks(inner, false, a)
    case _ => 0
  }

  function CountToks(ts: seq<Tok>, dollar: bool, a: string): nat {
    if ts == [] then 0 else CountTok(ts[0], !dollar, a) + CountToks(ts[1..], IsDollar(ts[0]), a)
  }

  function CountPath(path: seq<Word>, a: string): nat {
    if path == [] then 0 else One(path[0] == a) + CountPath(path[1..], a)
  }

  function CountNode(n: Node, a: string): nat {
    match n
    case Plain(_) => 0
    case Name(name, _) => One(name == a)
    case Macro(path, _, defined, _, tokens, _, _) =>
      CountPath(path, a) + One(defined == Some(a)) + if IsRules(path) then 0 else CountToks(tokens, false, a)
  }

  /** The renamable occurrences of `a`. */
  function CountFile(f: File, a: string): nat {
    if f == [] then 0 else CountNode(f[0], a) + CountFile(f[1..], a)
  }

  // ----- the rename on text -----

  function EditedWord(x: Word, touch: bool, a: string, b: Word): Edited {
    if touch && x == a then Edited(x, [Edit(0, |x|, b)], b) else Lit(x)
  }

  function EditedTok(t: Tok, touch: bool, a: string, b: Word): Edited {
    match t
    case Ident(gap, name) => Cat(Lit(gap), EditedWord(name, touch, a, b))
    case Group(gap, open, inner, close) => Cat(Cat(Lit(gap + open), EditedToks(inner, false, a, b)), Lit(close))
    case _ => Lit(PrintTok(t))
  }

  function EditedToks(ts: seq<Tok>, dollar: bool, a: string, b: Word): Edited {
    if ts == [] then Lit("") else Cat(EditedTok(ts[0], !dollar, a, b), EditedToks(ts[1..], IsDollar(ts[0]), a, b))
  }

  function EditedPath(path: seq<Word>, a: string, b: Word): Edited {
    if path == [] then Lit("")
    else if |path| == 1 then EditedWord(path[0], true, a, b)
    else Cat(Cat(EditedWord(path[0], true, a, b), Lit("::")), EditedPath(path[1..], a, b))
  }

  function EditedHead(path: seq<Word>, bang: string, defined: Option<Word>, a: string, b: Word): Edited {
    Cat(Cat(EditedPath(path, a, b), Lit(bang)), if defined.Some? then EditedWord(defined.value, true, a, b) else Lit(""))
  }

  function EditedBody(path: seq<Word>, tokens: seq<Tok>, a: string, b: Word): Edited {
    if IsRules(path) then Lit(PrintToks(tokens)) else EditedToks(tokens, false, a, b)
  }

  function EditedNode(n: Node, a: string, b: Word): Edited {
    match n
    case Plain(text) => Lit(text)
    case Name(name, _) => EditedWord(name, true, a, b)
    case Macro(path, bang, defined, open, tokens, close, _) =>
      Cat(Cat(Cat(EditedHead(path, bang, defined, a, b), Lit(open)), EditedBody(path, tokens, a, b)), Lit(close))
  }

  function EditedFile(f: File, a: string, b: Word): Edited {
    if f == [] then Lit("") else Cat(EditedNode(f[0], a, b), EditedFile(f[1..], a, b))
  }

  lemma WordRealises(x: Word, touch: bool, a: string, b: Word)
    ensures Realises(EditedWord(x, touch, a, b)) && EditedWord(x, touch, a, b).before == x
    ensures EditedWord(x, touch, a, b).after == if touch then Renamed(x, a, b) else x
    ensures |EditedWord(x, touch, a, b).edits| == One(touch && x == a)
  {
    LitRealises(x);
    WholeRealises(x, b);
  }

  lemma {:induction false} TokRealises(t: Tok, touch: bool, a: string, b: Word)
    ensures Realises(EditedTok(t, touch, a, b)) && EditedTok(t, touch, a, b).before == PrintTok(t)
    ensures EditedTok(t, touch, a, b).after == PrintTok(RenameTok(t, touch, a, b))
    ensures |EditedTok(t, touch, a, b).edits| == CountTok(t, touch, a)
  {
    match t
    case Ident(gap, name) =>
      LitRealises(gap);
      WordRealises(name, touch, a, b);
      CatRealises(Lit(gap), EditedWord(name, touch, a, b));
    case Group(gap, open, inner, close) =>
      ToksRealise(inner, false, a, b);
      WrapRealises(gap + open, EditedToks(inner, false, a, b), close);
    case _ =>
      LitRealises(PrintTok(t));
  }

  /** The edits on a token list turn its text into that of the renamed list, one for each counted occurrence. */
  ghost predicate ToksMade(ts: seq<Tok>, dollar: bool, a: string, b: Word) {
    var d := EditedToks(ts, dollar, a, b);
    Realises(d) && d.before == PrintToks(ts) && d.after == PrintToks(RenameToks(ts, dollar, a, b))
    && |d.edits| == CountToks(ts, dollar, a)
  }

  lemma FirstTokMade(ts: seq<Tok>, dollar: bool, a: string, b: Word)
    requires ts != [] && ToksMade(ts[1..], IsDollar(ts[0]), a, b)
    requires Realises(EditedTok(ts[0], !dollar, a, b)) && EditedTok(ts[0], !dollar, a, b).before == PrintTok(ts[0])
    requires EditedTok(ts[0], !dollar, a, b).after == PrintTok(RenameTok(ts[0], !dollar, a, b))
    requires |EditedTok(ts[0], !dollar, a, b).edits| == CountTok(ts[0], !dollar, a)
    ensures ToksMade(ts, dollar, a, b)
  {
    CatRealises(EditedTok(ts[0], !dollar, a, b), EditedToks(ts[1..], IsDollar(ts[0]), a, b));
  }

  lemma {:induction false} ToksRealise(ts: seq<Tok>, dollar: bool, a: string, b: Word)
    ensures ToksMade(ts, dollar, a, b)
  {
    if ts == [] {
      LitRealises("");
    } else {
      TokRealises(ts[0], !dollar, a, b);
      ToksRealise(ts[1..], IsDollar(ts[0]), a, b);
      FirstTokMade(ts, dollar, a, b);
    }
  }

  lemma PathSegmentRealises(path: seq<Word>, a: string, b: Word)
    requires |path| > 1 && Realises(EditedPath(path[1..], a, b)) && EditedPath(path[1..], a, b).before == PrintPath(path[1..])
    requires EditedPath(path[1..], a, b).after == PrintPath(RenamePath(path[1..], a, b))
    ensures Realises(EditedPath(path, a, b)) && EditedPath(path, a, b).before == PrintPath(path)
    ensures EditedPath(path, a, b).after == PrintPath(RenamePath(path, a, b))
    ensures |EditedPath(path, a, b).edits| == One(path[0] == a) + |EditedPath(path[1..], a, b).edits|
  {
    var first, rest := EditedWord(path[0], true, a, b), EditedPath(path[1..], a, b);
    WordRealises(path[0], true, a, b);
    ThenLit(first, "::");
    CatRealises(Cat(first, Lit("::")), rest);
    assert RenamePath(path, a, b)[1..] == RenamePath(path[1..], a, b) && |RenamePath(path[1..], a, b)| > 0;
  }

  lemma {:induction false} PathRealises(path: seq<Word>, a: string, b: Word)
    ensures Realises(EditedPath(path, a, b)) && EditedPath(path, a, b).before == PrintPath(path)
    ensures EditedPath(path, a, b).after == PrintPath(RenamePath(path, a, b))
    ensures |EditedPath(path, a, b).edits| == CountPath(path, a)
  {
    LitRealises("");
    LitRealises("::");
    if path != [] {
      WordRealises(path[0], true, a, b);
      PathRealises(path[1..], a, b);
      if |path| > 1 {
        PathSegmentRealises(path, a, b);
      }
    }
  }

  lemma HeadRealises(path: seq<Word>, bang: string, defined: Option<Word>, a: string, b: Word)
    ensures var d := EditedHead(path, bang, defined, a, b);
            && Realises(d) && d.before == PrintHead(path, bang, defined)
            && d.after == PrintHead(RenamePath(path, a, b), bang, RenameDefined(defined, a, b))
            && |d.edits| == CountPath(path, a) + One(defined == Some(a))
  {
    PathRealises(path, a, b);
    LitRealises(bang);
    CatRealises(EditedPath(path, a, b), Lit(bang));
    var def := if defined.Some? then EditedWord(defined.value, true, a, b) else Lit("");
    if defined.Some? {
      WordRealises(defined.value, true, a, b);
    } else {
      LitRealises("");
    }
    CatRealises(Cat(EditedPath(path, a, b), Lit(bang)), def);
  }

  lemma BodyRealises(path: seq<Word>, tokens: seq<Tok>, a: string, b: Word)
    ensures var d := EditedBody(path, tokens, a, b);
            && Realises(d) && d.before == PrintToks(tokens) && d.after == PrintToks(RenameBody(path, tokens, a, b))
            && |d.edits| == if IsRules(path) then 0 else CountToks(tokens, false, a)
  {
    LitRealises(PrintToks(tokens));
    ToksRealise(tokens, false, a, b);
  }

  lemma ThenLit(d: Edited, text: string)
    requires Realises(d)
    ensures Realises(Cat(d, Lit(text))) && Cat(d, Lit(text)).edits == d.edits
  {
    LitRealises(text);
    CatRealises(d, Lit(text));
    assert Shift([], |d.before|) == [];
  }

  lemma NodeRealises(n: Node, a: string, b: Word)
    ensures Realises(EditedNode(n, a, b)) && EditedNode(n, a, b).before == PrintNode(n)
    ensures EditedNode(n, a, b).after == PrintNode(RenameNode(n, a, b))
    ensures |EditedNode(n, a, b).edits| == CountNode(n, a)
  {
    match n
    case Plain(text) => LitRealises(text);
    case Name(name, _) => WordRealises(name, true, a, b);
    case Macro(path, bang, defined, open, tokens, close, _) =>
      var head, body := EditedHead(path, bang, defined, a, b), EditedBody(path, tokens, a, b);
      HeadRealises(path, bang, defined, a, b);
      BodyRealises(path, tokens, a, b);
      ThenLit(head, open);
      CatRealises(Cat(head, Lit(open)), body);
      ThenLit(Cat(Cat(head, Lit(open)), body), close);
  }

  /** The collected edits turn the printed file into the printed renamed file; there is one per renamable occurrence. */
  lemma {:induction false} FileRealises(f: File, a: string, b: Word)
    ensures Realises(EditedFile(f, a, b)) && EditedFile(f, a, b).before == PrintFile(f)
    ensures EditedFile(f, a, b).after == PrintFile(RenameFile(f, a, b))
    ensures |EditedFile(f, a, b).edits| == CountFile(f, a)
  {
    LitRealises("");
    if f != [] {
      NodeRealises(f[0], a, b);
      FileRealises(f[1..], a, b);
      CatRealises(EditedNode(f[0], a, b), EditedFile(f[1..], a, b));
    }
  }

  // ----- what a rename leaves -----

  /** `x` occurs as an identifier, renamable or not. */
  predicate MentionsToks(ts: seq<Tok>, x: string) {
    ts != [] && (MentionsTok(ts[0], x) || MentionsToks(ts[1..], x))
  }

  predicate MentionsTok(t: Tok, x: string) {
    match t
    case Ident(_, name) => name == x
    case Group(_, _, inner, _) => MentionsToks(inner, x)
    case _ => false
  }

  predicate MentionsNode(n: Node, x: string) {
    match n
    case Plain(_) => false
    case Name(name, _) => name == x
    case Macro(path, _, defined, _, tokens, _, _) => x in path || defined == Some(x) || MentionsToks(tokens, x)
  }

  predicate Mentions(f: File, x: string) {
    exists i :: 0 <= i < |f| && MentionsNode(f[i], x)
  }

  lemma {:induction false} ToksLeft(ts: seq<Tok>, dollar: bool, a: string, b: Word)
    requires a != b
    ensures CountToks(RenameToks(ts, dollar, a, b), dollar, a) == 0
  {
    if ts != [] {
      ToksLeft(ts[1..], IsDollar(ts[0]), a, b);
      if ts[0].Group? {
        ToksLeft(ts[0].inner, false, a, b);
      }
      assert IsDollar(RenameTok(ts[0], !dollar, a, b)) == IsDollar(ts[0]);
    }
  }

  lemma {:induction false} PathLeft(path: seq<Word>, a: string, b: Word)
    requires a != b
    ensures CountPath(RenamePath(path, a, b), a) == 0 && |RenamePath(path, a, b)| == |path|
    ensures path != [] ==> RenamePath(path, a, b)[0] == Renamed(path[0], a, b)
  {
    if path != [] {
      PathLeft(path[1..], a, b);
    }
  }

  /** Occurrences in bodies of `macro_rules!` that would be renamable in other macros. */
  function Latent(f: File, a: string): nat {
    if f == [] then 0
    else (if f[0].Macro? && IsRules(f[0].path) then CountToks(f[0].tokens, false, a) else 0) + Latent(f[1..], a)
  }

  /**
   After a rename to another name no renamable occurrence is left. The one exception is renaming `macro_rules` itself,
   which uncovers exactly those in the bodies of the definitions.
   */
  lemma {:induction false} NoneLeft(f: File, a: string, b: Word)
    requires a != b
    ensures CountFile(RenameFile(f, a, b), a) == if a == "macro_rules" then Latent(f, a) else 0
  {
    if f != [] {
      NoneLeft(f[1..], a, b);
      NodeLeft(f[0], a, b);
    }
  }

  lemma NodeLeft(n: Node, a: string, b: Word)
    requires a != b
    ensures CountNode(RenameNode(n, a, b), a) ==
            if a == "macro_rules" && n.Macro? && IsRules(n.path) then CountToks(n.tokens, false, a) else 0
  {
    if n.Macro? {
      PathLeft(n.path, a, b);
      ToksLeft(n.tokens, false, a, b);
      var path := RenamePath(n.path, a, b);
      if IsRules(n.path) {
        assert path == [Renamed(n.path[0], a, b)];
      }
    }
  }

  // ----- renaming back -----

  lemma {:induction false} ToksUnmentioned(ts: seq<Tok>, dollar: bool, a: string, b: Word)
    requires !MentionsToks(ts, a)
    ensures RenameToks(ts, dollar, a, b) == ts
  {
    if ts != [] {
      ToksUnmentioned(ts[1..], IsDollar(ts[0]), a, b);
      if ts[0].Group? {
        ToksUnmentioned(ts[0].inner, false, a, b);
      }
      assert ts == [ts[0]] + ts[1..];
    }
  }

  lemma {:induction false} ToksBack(ts: seq<Tok>, dollar: bool, a: Word, b: Word)
    requires !MentionsToks(ts, b)
    ensures RenameToks(RenameToks(ts, dollar, a, b), dollar, b, a) == ts
  {
    if ts != [] {
      ToksBack(ts[1..], IsDollar(ts[0]), a, b);
      if ts[0].Group? {
        ToksBack(ts[0].inner, false, a, b);
      }
      assert IsDollar(RenameTok(ts[0], !dollar, a, b)) == IsDollar(ts[0]);
      assert ts == [ts[0]] + ts[1..];
    }
  }

  lemma {:induction false} PathBack(path: seq<Word>, a: Word, b: Word)
    requires b !in path
    ensures RenamePath(RenamePath(path, a, b), b, a) == path
  {
    if path != [] {
      PathBack(path[1..], a, b);
      assert path == [path[0]] + path[1..];
    }
  }

  lemma {:induction false} UncountedIsSame(ts: seq<Tok>, dollar: bool, a: string, b: Word)
    requires a != b
    ensures CountToks(ts, dollar, a) == 0 <==> RenameToks(ts, dollar, a, b) == ts
  {
    if ts != [] {
      var rest := RenameToks(ts[1..], IsDollar(ts[0]), a, b);
      UncountedIsSame(ts[1..], IsDollar(ts[0]), a, b);
      if ts[0].Group? {
        UncountedIsSame(ts[0].inner, false, a, b);
      }
      assert ts == [ts[0]] + ts[1..];
      assert RenameToks(ts, dollar, a, b)[1..] == rest;
    }
  }

  /** A call of a macro `a` with a renamable `a` in its body: renamed to `macro_rules`, its body is out of reach. */
  predicate Swallows(n: Node, a: string, b: string) {
    b == "macro_rules" && n.Macro? && n.path == [a] && CountToks(n.tokens, false, a) > 0
  }

  lemma NodeBack(n: Node, a: Word, b: Word)
    requires !MentionsNode(n, b)
    ensures RenameNode(RenameNode(n, a, b), b, a) == n <==> !Swallows(n, a, b)
  {
    if n.Macro? {
      var path := RenamePath(n.path, a, b);
      PathBack(n.path, a, b);
      ToksBack(n.tokens, false, a, b);
      ToksUnmentioned(n.tokens, false, b, a);
      PathKeepsRules(n.path, a, b);
      if a != b {
        UncountedIsSame(n.tokens, false, a, b);
      }
    }
  }

  lemma PathKeepsRules(path: seq<Word>, a: Word, b: Word)
    requires b !in path
    ensures IsRules(RenamePath(path, a, b)) <==> (IsRules(path) && a != "macro_rules") || (b == "macro_rules" && path == [a])
  {}

  // ----- reserved words, which the check of the new name accepts -----

  /** The words of Rust that are no identifiers, the ones kept for later included, and the underscore; by length. */
  predicate IsReserved(w: string) {
    if |w| == 1 then w == "_"
    else if |w| == 2 then w == "as" || w == "do" || w == "fn" || w == "if" || w == "in"
    else if |w| == 3 then
      || w == "box" || w == "dyn" || w == "for" || w == "let" || w == "mod" || w == "mut" || w == "pub" || w == "ref"
      || w == "try" || w == "use"
    else if |w| == 4 then
      || w == "else" || w == "enum" || w == "impl" || w == "loop" || w == "move" || w == "priv" || w == "Self"
      || w == "self" || w == "true" || w == "type"
    else if |w| == 5 then
      || w == "async" || w == "await" || w == "break" || w == "const" || w == "crate" || w == "false" || w == "final"
      || w == "macro" || w == "match" || w == "super" || w == "trait" || w == "where" || w == "while" || w == "yield"
    else if |w| == 6 then
      || w == "become" || w == "extern" || w == "return" || w == "static" || w == "struct" || w == "typeof"
      || w == "unsafe"
    else if |w| == 7 then w == "unsized" || w == "virtual"
    else w == "abstract" || w == "continue" || w == "override"
  }

  predicate Readable(takes: set<string>, w: string) {
    !IsReserved(w) || w in takes
  }

  /** Some word of the head of a macro is no identifier where it stands. */
  predicate HeadUnread(n: Node)
    requires n.Macro?
  {
    (exists w :: w in n.path && !Readable(n.takes, w)) || (n.defined.Some? && !Readable(n.takes, n.defined.value))
  }

  /** The file is one the parser reports: what it gives as identifiers can be identifiers. */
  predicate WellRead(f: File) {
    forall n :: n in f ==> (n.Name? ==> Readable(n.takes, n.name)) && (n.Macro? ==> !HeadUnread(n))
  }

  /**
   What the parser may report of the text of an item: a word that cannot be an identifier there is none, and a macro with
   such a word in its head is no macro any more but something that starts with plain text.
   */
  predicate NodeReads(n: Node, r: seq<Node>) {
    match n
    case Plain(_) => r == [n]
    case Name(name, takes) => r == [if Readable(takes, name) then n else Plain(name)]
    case Macro(_, _, _, _, _, _, _) =>
      if HeadUnread(n) then r != [] && r[0].Plain? && PrintFile(r) == PrintNode(n) else r == [n]
  }

  /** What the parser may report of the text of a file. */
  predicate Reads(f: File, g: File) {
    if f == [] then g == []
    else exists k :: 1 <= k <= |g| && NodeReads(f[0], g[..k]) && Reads(f[1..], g[k..])
  }

  /** The new name is a reserved word that is no identifier at a place it comes to. */
  predicate Hides(n: Node, a: string, b: string) {
    match n
    case Plain(_) => false
    case Name(name, takes) => name == a && !Readable(takes, b)
    case Macro(path, _, defined, _, _, _, takes) => (a in path || defined == Some(a)) && !Readable(takes, b)
  }

  lemma {:induction false} PathHas(path: seq<Word>, a: string, b: Word, w: string)
    ensures w in RenamePath(path, a, b) <==> (w in path && w != a) || (w == b && a in path)
  {
    if path != [] {
      PathHas(path[1..], a, b, w);
      assert path == [path[0]] + path[1..];
      assert RenamePath(path, a, b) == [Renamed(path[0], a, b)] + RenamePath(path[1..], a, b);
    }
  }

  lemma HeadUnreadExactly(n: Node, a: string, b: Word)
    requires n.Macro? && !HeadUnread(n)
    ensures HeadUnread(RenameNode(n, a, b)) <==> Hides(n, a, b)
  {
    var m := RenameNode(n, a, b);
    forall w ensures w in m.path <==> (w in n.path && w != a) || (w == b && a in n.path) {
      PathHas(n.path, a, b, w);
    }
    if Hides(n, a, b) && a in n.path {
      assert b in m.path;
    }
  }

  /** What is read of a renamed item: itself, unless the new name is hidden; then it starts with plain text. */
  lemma NodeReadsExactly(n: Node, a: string, b: Word, r: seq<Node>)
    requires (n.Name? ==> Readable(n.takes, n.name)) && (n.Macro? ==> !HeadUnread(n))
    requires NodeReads(RenameNode(n, a, b), r)
    ensures if Hides(n, a, b) then r[0].Plain? && !n.Plain? else r == [RenameNode(n, a, b)]
  {
    if n.Macro? {
      HeadUnreadExactly(n, a, b);
    }
  }

  /**
   For every new name that did not occur, reserved or not, and whatever the parser makes of the renamed file: renaming
   back gives the file again if and only if the new name is an identifier at every place it came to and no macro call was
   renamed to `macro_rules!` with occurrences in its body.
   */
  lemma {:induction false} RenamedBackAnyName(f: File, a: Word, b: Word, g: File)
    requires !Mentions(f, b) && WellRead(f) && Reads(RenameFile(f, a, b), g)
    ensures RenameFile(g, b, a) == f <==> forall i :: 0 <= i < |f| ==> !Swallows(f[i], a, b) && !Hides(f[i], a, b)
    decreases |f|, 1
  {
    if f != [] {
      var renamed := RenameFile(f, a, b);
      assert f == [f[0]] + f[1..] && renamed[1..] == RenameFile(f[1..], a, b);
      var k :| 1 <= k <= |g| && NodeReads(renamed[0], g[..k]) && Reads(renamed[1..], g[k..]);
      NodeReadsExactly(f[0], a, b, g[..k]);
      if Hides(f[0], a, b) {
        assert g[0] == g[..k][0] && RenameFile(g, b, a)[0] == g[0] != f[0];
      } else {
        FirstReadBack(f, a, b, g, k);
      }
    }
  }

  lemma {:induction false} FirstReadBack(f: File, a: Word, b: Word, g: File, k: nat)
    requires f != [] && !Mentions(f, b) && WellRead(f) && 1 <= k <= |g|
    requires g[..k] == [RenameNode(f[0], a, b)] && !Hides(f[0], a, b) && Reads(RenameFile(f[1..], a, b), g[k..])
    ensures RenameFile(g, b, a) == f <==> forall i :: 0 <= i < |f| ==> !Swallows(f[i], a, b) && !Hides(f[i], a, b)
    decreases |f|, 0
  {
    assert f == [f[0]] + f[1..] && g == g[..k] + g[k..] && |g[..k]| == 1 && k == 1;
    assert MentionsNode(f[0], b) ==> Mentions(f, b);
    assert forall i :: 0 <= i < |f[1..]| ==> f[1..][i] == f[i + 1];
    RenamedBackAnyName(f[1..], a, b, g[k..]);
    NodeBack(f[0], a, b);
    var back := RenameFile(g, b, a);
    assert back == [RenameNode(g[0], b, a)] + RenameFile(g[1..], b, a);
    assert back == f <==> back[0] == f[0] && back[1..] == f[1..];
  }

  /**
   Renaming to a name that did not occur and is no reserved word, and back, gives the file again: exactly unless a macro
   call was renamed to `macro_rules!` with occurrences in its body.
   */
  lemma RenamedBack(f: File, a: Word, b: Word, g: File)
    requires !Mentions(f, b) && !IsReserved(b) && WellRead(f) && Reads(RenameFile(f, a, b), g)
    ensures RenameFile(g, b, a) == f <==> forall i :: 0 <= i < |f| ==> !Swallows(f[i], a, b)
  {
    RenamedBackAnyName(f, a, b, g);
  }

  /** One identifier between two pieces of text: renamed, it is one still, or it is text for good. */
  lemma OneName(before: string, name: Word, takes: set<string>, after: string, b: Word, g: File)
    requires name != b && Readable(takes, name)
    requires Reads(RenameFile([Plain(before), Name(name, takes), Plain(after)], name, b), g)
    ensures PrintFile(g) == before + (b + after)
    ensures if Readable(takes, b) then RenameFile(g, b, name) == [Plain(before), Name(name, takes), Plain(after)]
            else CountFile(g, b) == 0 && RenameFile(g, b, name) == g == [Plain(before), Plain(b), Plain(after)]
  {
    var x, y, z := Plain(before), Name(name, takes), Plain(after);
    var y' := if Readable(takes, b) then Name(b, takes) else Plain(b);
    ThreeNodes(x, y, z, name, b);
    ThreeRead(x, Name(b, takes), y', z, g);
    ThreeNodes(x, y', z, b, name);
  }

  lemma FirstRead(x: Node, rest: File, g: File)
    requires !x.Macro? && Reads([x] + rest, g)
    ensures g != [] && NodeReads(x, [g[0]]) && Reads(rest, g[1..])
  {
    assert ([x] + rest)[1..] == rest;
    var k :| 1 <= k <= |g| && NodeReads(x, g[..k]) && Reads(rest, g[k..]);
    assert |g[..k]| == 1 && g[..1] == [g[0]];
  }

  lemma ThreeRead(x: Node, y: Node, y': Node, z: Node, g: File)
    requires x.Plain? && y.Name? && z.Plain? && y' == if Readable(y.takes, y.name) then y else Plain(y.name)
    requires Reads([x, y, z], g)
    ensures g == [x, y', z]
  {
    assert [x, y, z] == [x] + [y, z] && [y, z] == [y] + [z] && [z] == [z] + [];
    FirstRead(x, [y, z], g);
    FirstRead(y, [z], g[1..]);
    FirstRead(z, [], g[1..][1..]);
    assert g[1..][1..][1..] == [];
    assert |g| == 3;
  }

  /** `fn f(a: i32) {}` with `a` renamed to `_`: there is no `_` to rename back. */
  lemma UnderscoreStays(g: File)
    requires Reads(RenameFile([Plain("fn f("), Name("a", {}), Plain(": i32) {}")], "a", "_"), g)
    ensures CountFile(g, "_") == 0 && RenameFile(g, "_", "a") == g
    ensures PrintFile(g) == "fn f(" + ("_" + ": i32) {}")
  {
    TheWords();
    OneName("fn f(", "a", {}, ": i32) {}", "_", g);
  }

  /** `let p = Point { x };` with `Point` renamed to `try`: that is a block now. */
  lemma TryBlockStays(g: File)
    requires Reads(RenameFile([Plain("let p = "), Name("Point", {}), Plain(" { x };")], "Point", "try"), g)
    ensures CountFile(g, "try") == 0 && RenameFile(g, "try", "Point") == g
    ensures PrintFile(g) == "let p = " + ("try" + " { x };")
  {
    TheWords();
    OneName("let p = ", "Point", {}, " { x };", "try", g);
  }

  /** `fn f<'a>() {}` with `a` renamed to `_`: a lifetime may have this name, so it can be renamed back. */
  lemma UnderscoreLifetimeComesBack(g: File)
    requires Reads(RenameFile([Plain("fn f<'"), Name("a", {"_"}), Plain(">() {}")], "a", "_"), g)
    ensures RenameFile(g, "_", "a") == [Plain("fn f<'"), Name("a", {"_"}), Plain(">() {}")]
  {
    TheWords();
    OneName("fn f<'", "a", {"_"}, ">() {}", "_", g);
  }

  lemma TheWords()
    ensures !IsReserved("a") && IsReserved("_") && !IsReserved("Point") && IsReserved("try") && "a" != "_"
  {
    assert "a"[0] != "_"[0] && |"Point"| == 5 && "Point"[0] == 'P';
  }

  lemma ThreeNodes(x: Node, y: Node, z: Node, a: string, b: Word)
    ensures PrintFile([x, y, z]) == PrintNode(x) + (PrintNode(y) + PrintNode(z))
    ensures CountFile([x, y, z], a) == CountNode(x, a) + (CountNode(y, a) + CountNode(z, a))
    ensures RenameFile([x, y, z], a, b) == [RenameNode(x, a, b), RenameNode(y, a, b), RenameNode(z, a, b)]
  {
    FirstNode(x, [y, z], a, b);
    FirstNode(y, [z], a, b);
    FirstNode(z, [], a, b);
    assert [x] + [y, z] == [x, y, z] && [y] + [z] == [y, z] && [z] + [] == [z] && PrintNode(z) + "" == PrintNode(z);
  }

  lemma FirstNode(x: Node, rest: File, a: string, b: Word)
    ensures PrintFile([x] + rest) == PrintNode(x) + PrintFile(rest)
    ensures CountFile([x] + rest, a) == CountNode(x, a) + CountFile(rest, a)
    ensures RenameFile([x] + rest, a, b) == [RenameNode(x, a, b)] + RenameFile(rest, a, b)
  {
    assert ([x] + rest)[1..] == rest;
  }

  lemma {:induction false} ToksSelf(ts: seq<Tok>, dollar: bool, a: Word)
    ensures RenameToks(ts, dollar, a, a) == ts
  {
    if ts != [] {
      ToksSelf(ts[1..], IsDollar(ts[0]), a);
      if ts[0].Group? {
        ToksSelf(ts[0].inner, false, a);
      }
      assert ts == [ts[0]] + ts[1..];
    }
  }

  lemma {:induction false} PathSelf(path: seq<Word>, a: Word)
    ensures RenamePath(path, a, a) == path
  {
    if path != [] {
      PathSelf(path[1..], a);
      assert path == [path[0]] + path[1..];
    }
  }

  /** Renaming to the same name gives the same file. */
  lemma {:induction false} RenamedToItself(f: File, a: Word)
    ensures RenameFile(f, a, a) == f
  {
    if f != [] {
      RenamedToItself(f[1..], a);
      if f[0].Macro? {
        PathSelf(f[0].path, a);
        ToksSelf(f[0].tokens, false, a);
      }
      assert f == [f[0]] + f[1..];
    }
  }

  // ----- exactly the counted occurrences change -----

  function WordsOfTok(t: Tok): seq<Word> {
    match t
    case Ident(_, name) => [name]
    case Group(_, _, inner, _) => WordsOfToks(inner)
    case _ => []
  }

  function WordsOfToks(ts: seq<Tok>): seq<Word> {
    if ts == [] then [] else WordsOfTok(ts[0]) + WordsOfToks(ts[1..])
  }

  function WordsOfNode(n: Node): seq<Word> {
    match n
    case Plain(_) => []
    case Name(name, _) => [name]
    case Macro(path, _, defined, _, tokens, _, _) =>
      path + ((if defined.Some? then [defined.value] else []) + WordsOfToks(tokens))
  }

  /** The identifiers of a file, renamable or not, in order. */
  function WordsOf(f: File): seq<Word> {
    if f == [] then [] else WordsOfNode(f[0]) + WordsOf(f[1..])
  }

  function Differences(u: seq<Word>, v: seq<Word>): nat
    requires |u| == |v|
  {
    if u == [] then 0 else One(u[0] != v[0]) + Differences(u[1..], v[1..])
  }

  /** At `n` places an `a` became a `b`; everywhere else the words are the same. */
  ghost predicate ChangedAt(u: seq<Word>, v: seq<Word>, a: string, b: string, n: nat) {
    && |u| == |v| && Differences(u, v) == n
    && forall i :: 0 <= i < |u| ==> v[i] == u[i] || (u[i] == a && v[i] == b)
  }

  lemma {:induction false} ChangedConcat(u: seq<Word>, v: seq<Word>, u': seq<Word>, v': seq<Word>, a: string, b: string,
                                         n: nat, n': nat)
    requires ChangedAt(u, v, a, b, n) && ChangedAt(u', v', a, b, n')
    ensures ChangedAt(u + u', v + v', a, b, n + n')
  {
    if u == [] {
      assert u + u' == u' && v + v' == v';
    } else {
      var m := Differences(u[1..], v[1..]);
      ChangedConcat(u[1..], v[1..], u', v', a, b, m, n');
      assert (u + u')[1..] == u[1..] + u' && (v + v')[1..] == v[1..] + v';
    }
  }

  lemma {:induction false} SameChanged(u: seq<Word>, a: string, b: string)
    ensures ChangedAt(u, u, a, b, 0)
  {
    if u != [] {
      SameChanged(u[1..], a, b);
    }
  }

  lemma {:induction false} ToksChanged(ts: seq<Tok>, dollar: bool, a: string, b: Word)
    requires a != b
    ensures ChangedAt(WordsOfToks(ts), WordsOfToks(RenameToks(ts, dollar, a, b)), a, b, CountToks(ts, dollar, a))
  {
    if ts != [] {
      var t := RenameTok(ts[0], !dollar, a, b);
      ToksChanged(ts[1..], IsDollar(ts[0]), a, b);
      if ts[0].Group? {
        ToksChanged(ts[0].inner, false, a, b);
      } else {
        assert Differences(WordsOfTok(ts[0]), WordsOfTok(t)) == CountTok(ts[0], !dollar, a);
      }
      ChangedConcat(WordsOfTok(ts[0]), WordsOfTok(t), WordsOfToks(ts[1..]),
                    WordsOfToks(RenameToks(ts[1..], IsDollar(ts[0]), a, b)), a, b,
                    CountTok(ts[0], !dollar, a), CountToks(ts[1..], IsDollar(ts[0]), a));
    }
  }

  lemma {:induction false} PathChanged(path: seq<Word>, a: string, b: Word)
    requires a != b
    ensures ChangedAt(path, RenamePath(path, a, b), a, b, CountPath(path, a))
  {
    if path != [] {
      PathChanged(path[1..], a, b);
      var x, y := [path[0]], [Renamed(path[0], a, b)];
      assert Differences(x, y) == One(path[0] == a);
      ChangedConcat(x, y, path[1..], RenamePath(path[1..], a, b), a, b, One(path[0] == a), CountPath(path[1..], a));
      assert path == x + path[1..];
    }
  }

  lemma NodeChanged(n: Node, a: string, b: Word)
    requires a != b
    ensures ChangedAt(WordsOfNode(n), WordsOfNode(RenameNode(n, a, b)), a, b, CountNode(n, a))
  {
    match n
    case Plain(_) =>
    case Name(name, _) =>
      assert Differences([name], [Renamed(name, a, b)]) == One(name == a);
    case Macro(path, bang, defined, open, tokens, close, _) =>
      PathChanged(path, a, b);
      ToksChanged(tokens, false, a, b);
      SameChanged(WordsOfToks(tokens), a, b);
      var body := WordsOfToks(RenameBody(path, tokens, a, b));
      var k := if IsRules(path) then 0 else CountToks(tokens, false, a);
      var d: seq<Word> := if defined.Some? then [defined.value] else [];
      var d': seq<Word> := if defined.Some? then [Renamed(defined.value, a, b)] else [];
      assert Differences(d, d') == One(defined == Some(a));
      ChangedConcat(d, d', WordsOfToks(tokens), body, a, b, One(defined == Some(a)), k);
      ChangedConcat(path, RenamePath(path, a, b), d + WordsOfToks(tokens), d' + body, a, b, CountPath(path, a),
                    One(defined == Some(a)) + k);
  }

  /** A rename turns as many occurrences of `a` into `b` as it counts and changes no other identifier. */
  lemma {:induction false} ChangesTheCounted(f: File, a: string, b: Word)
    requires a != b
    ensures ChangedAt(WordsOf(f), WordsOf(RenameFile(f, a, b)), a, b, CountFile(f, a))
  {
    if f != [] {
      NodeChanged(f[0], a, b);
      ChangesTheCounted(f[1..], a, b);
      ChangedConcat(WordsOfNode(f[0]), WordsOfNode(RenameNode(f[0], a, b)), WordsOf(f[1..]),
                    WordsOf(RenameFile(f[1..], a, b)), a, b, CountNode(f[0], a), CountFile(f[1..], a));
    }
  }

  // ----- collecting and splicing -----

  datatype Range = Range(start: nat, end: nat)

  function SpanOf(x: string, hit: bool, at: nat): seq<Range> {
    if hit then [Range(at, at + |x|)] else []
  }

  function SpansOfTok(t: Tok, at: nat, touch: bool, a: string): seq<Range> {
    match t
    case Ident(gap, name) => SpanOf(name, touch && name == a, at + |gap|)
    case Group(gap, open, inner, _) => SpansOfToks(inner, at + |gap| + |open|, false, a)
    case _ => []
  }

  function SpansOfToks(ts: seq<Tok>, at: nat, dollar: bool, a: string): seq<Range> {
    if ts == [] then []
    else SpansOfTok(ts[0], at, !dollar, a) + SpansOfToks(ts[1..], at + |PrintTok(ts[0])|, IsDollar(ts[0]), a)
  }

  function SpansOfPath(path: seq<Word>, at: nat, a: string): seq<Range> {
    if path == [] then [] else SpanOf(path[0], path[0] == a, at) + SpansOfPath(path[1..], at + |path[0]| + 2, a)
  }

  function SpansOfBody(path: seq<Word>, tokens: seq<Tok>, at: nat, a: string): seq<Range> {
    if IsRules(path) then [] else SpansOfToks(tokens, at, false, a)
  }

  function SpansOfNode(n: Node, at: nat, a: string): seq<Range> {
    match n
    case Plain(_) => []
    case Name(name, _) => SpanOf(name, name == a, at)
    case Macro(path, bang, defined, open, tokens, _, _) =>
      SpansOfPath(path, at, a) + SpansOfDefined(defined, at + |PrintPath(path) + bang|, a)
      + SpansOfBody(path, tokens, at + |PrintHead(path, bang, defined)| + |open|, a)
  }

  function SpansOf(f: File, at: nat, a: string): seq<Range> {
    if f == [] then [] else SpansOfNode(f[0], at, a) + SpansOf(f[1..], at + |PrintNode(f[0])|, a)
  }

  function With(ranges: seq<Range>, b: string): (edits: seq<Edit>)
    ensures |edits| == |ranges|
    ensures forall i :: 0 <= i < |ranges| ==> edits[i] == Edit(ranges[i].start, ranges[i].end, b)
  {
    seq(|ranges|, i requires 0 <= i < |ranges| => Edit(ranges[i].start, ranges[i].end, b))
  }

  /** The ranges, given the new name, are the edits of `d` moved to `at`. */
  ghost predicate Locate(r: seq<Range>, d: Edited, at: nat, b: string) {
    With(r, b) == Shift(d.edits, at)
  }

  lemma LocateCat(r: seq<Range>, d: Edited, q: seq<Range>, e: Edited, at: nat, b: string)
    requires Locate(r, d, at, b) && Locate(q, e, at + |d.before|, b)
    ensures Locate(r + q, Cat(d, e), at, b)
  {}

  lemma LocateThenLit(r: seq<Range>, d: Edited, text: string, at: nat, b: string)
    requires Locate(r, d, at, b)
    ensures Locate(r, Cat(d, Lit(text)), at, b)
  {}

  lemma LocateAfterLit(text: string, r: seq<Range>, d: Edited, at: nat, b: string)
    requires Locate(r, d, at + |text|, b)
    ensures Locate(r, Cat(Lit(text), d), at, b)
  {}

  lemma LocateWord(x: Word, touch: bool, at: nat, a: string, b: Word)
    ensures Locate(SpanOf(x, touch && x == a, at), EditedWord(x, touch, a, b), at, b)
  {}

  lemma {:induction false} TokSpans(t: Tok, at: nat, touch: bool, a: string, b: Word)
    ensures Locate(SpansOfTok(t, at, touch, a), EditedTok(t, touch, a, b), at, b)
  {
    match t
    case Ident(gap, name) =>
      LocateWord(name, touch, at + |gap|, a, b);
      LocateAfterLit(gap, SpanOf(name, touch && name == a, at + |gap|), EditedWord(name, touch, a, b), at, b);
    case Group(gap, open, inner, close) =>
      var r, d := SpansOfToks(inner, at + |gap| + |open|, false, a), EditedToks(inner, false, a, b);
      ToksSpans(inner, at + |gap| + |open|, false, a, b);
      LocateAfterLit(gap + open, r, d, at, b);
      LocateThenLit(r, Cat(Lit(gap + open), d), close, at, b);
    case _ =>
  }

  lemma {:induction false} ToksSpans(ts: seq<Tok>, at: nat, dollar: bool, a: string, b: Word)
    ensures Locate(SpansOfToks(ts, at, dollar, a), EditedToks(ts, dollar, a, b), at, b)
  {
    if ts != [] {
      var next := at + |PrintTok(ts[0])|;
      TokRealises(ts[0], !dollar, a, b);
      TokSpans(ts[0], at, !dollar, a, b);
      ToksSpans(ts[1..], next, IsDollar(ts[0]), a, b);
      LocateCat(SpansOfTok(ts[0], at, !dollar, a), EditedTok(ts[0], !dollar, a, b),
                SpansOfToks(ts[1..], next, IsDollar(ts[0]), a), EditedToks(ts[1..], IsDollar(ts[0]), a, b), at, b);
    }
  }

  lemma {:induction false} PathSpans(path: seq<Word>, at: nat, a: string, b: Word)
    ensures Locate(SpansOfPath(path, at, a), EditedPath(path, a, b), at, b)
  {
    if path != [] {
      var r, d := SpanOf(path[0], path[0] == a, at), EditedWord(path[0], true, a, b);
      WordRealises(path[0], true, a, b);
      LocateWord(path[0], true, at, a, b);
      if |path| == 1 {
        assert SpansOfPath(path[1..], at + |path[0]| + 2, a) == [] && r + [] == r;
      } else {
        PathSpans(path[1..], at + |path[0]| + 2, a, b);
        FirstSegment(path, r, d, at, a, b);
      }
    }
  }

  lemma FirstSegment(path: seq<Word>, r: seq<Range>, d: Edited, at: nat, a: string, b: Word)
    requires |path| > 1 && r == SpanOf(path[0], path[0] == a, at) && d == EditedWord(path[0], true, a, b)
    requires d.before == path[0] && Locate(r, d, at, b)
    requires Locate(SpansOfPath(path[1..], at + |path[0]| + 2, a), EditedPath(path[1..], a, b), at + |path[0]| + 2, b)
    ensures Locate(SpansOfPath(path, at, a), EditedPath(path, a, b), at, b)
  {
    LocateThenLit(r, d, "::", at, b);
    LocateCat(r, Cat(d, Lit("::")), SpansOfPath(path[1..], at + |path[0]| + 2, a), EditedPath(path[1..], a, b), at, b);
  }

  function SpansOfDefined(defined: Option<Word>, at: nat, a: string): seq<Range> {
    if defined.Some? then SpanOf(defined.value, defined.value == a, at) else []
  }

  lemma HeadSpans(path: seq<Word>, bang: string, defined: Option<Word>, at: nat, a: string, b: Word)
    ensures Locate(SpansOfPath(path, at, a) + SpansOfDefined(defined, at + |PrintPath(path) + bang|, a),
                   EditedHead(path, bang, defined, a, b), at, b)
  {
    PathRealises(path, a, b);
    PathSpans(path, at, a, b);
    LocateThenLit(SpansOfPath(path, at, a), EditedPath(path, a, b), bang, at, b);
    var def := if defined.Some? then EditedWord(defined.value, true, a, b) else Lit("");
    var from := at + |PrintPath(path) + bang|;
    if defined.Some? {
      LocateWord(defined.value, true, from, a, b);
    }
    LocateCat(SpansOfPath(path, at, a), Cat(EditedPath(path, a, b), Lit(bang)), SpansOfDefined(defined, from, a), def, at, b);
  }

  lemma MacroSpans(r: seq<Range>, d: Edited, q: seq<Range>, e: Edited, close: string, at: nat, b: Word)
    requires Locate(r, d, at, b) && Locate(q, e, at + |d.before|, b)
    ensures Locate(r + q, Cat(Cat(d, e), Lit(close)), at, b)
  {}

  lemma NodeSpans(n: Node, at: nat, a: string, b: Word)
    ensures Locate(SpansOfNode(n, at, a), EditedNode(n, a, b), at, b)
  {
    match n
    case Plain(_) =>
    case Name(name, _) => LocateWord(name, true, at, a, b);
    case Macro(path, bang, defined, open, tokens, close, _) =>
      var head, body := EditedHead(path, bang, defined, a, b), EditedBody(path, tokens, a, b);
      var h := SpansOfPath(path, at, a) + SpansOfDefined(defined, at + |PrintPath(path) + bang|, a);
      var from := at + |PrintHead(path, bang, defined)| + |open|;
      HeadSpans(path, bang, defined, at, a, b);
      HeadRealises(path, bang, defined, a, b);
      ToksSpans(tokens, from, false, a, b);
      LocateThenLit(h, head, open, at, b);
      MacroSpans(h, Cat(head, Lit(open)), SpansOfBody(path, tokens, from, a), body, close, at, b);
      assert SpansOfNode(n, at, a) == h + SpansOfBody(path, tokens, from, a);
  }

  lemma NodeText(n: Node, a: string, b: Word)
    ensures EditedNode(n, a, b).before == PrintNode(n)
  {
    NodeRealises(n, a, b);
  }

  ghost predicate FileLocated(f: File, at: nat, a: string, b: Word) {
    Locate(SpansOf(f, at, a), EditedFile(f, a, b), at, b)
  }

  lemma FirstNodeSpans(f: File, at: nat, a: string, b: Word)
    requires f != [] && FileLocated(f[1..], at + |PrintNode(f[0])|, a, b)
    ensures FileLocated(f, at, a, b)
  {
    var r, d := SpansOfNode(f[0], at, a), EditedNode(f[0], a, b);
    var q, e := SpansOf(f[1..], at + |PrintNode(f[0])|, a), EditedFile(f[1..], a, b);
    NodeText(f[0], a, b);
    NodeSpans(f[0], at, a, b);
    LocateCat(r, d, q, e, at, b);
    assert SpansOf(f, at, a) == r + q && EditedFile(f, a, b) == Cat(d, e);
  }

  lemma NoSpans(at: nat, a: string, b: Word)
    ensures FileLocated([], at, a, b)
  {}

  lemma {:induction false} FileSpans(f: File, at: nat, a: string, b: Word)
    ensures FileLocated(f, at, a, b)
  {
    if f == [] {
      NoSpans(at, a, b);
    } else {
      FileSpans(f[1..], at + |PrintNode(f[0])|, a, b);
      FirstNodeSpans(f, at, a, b);
    }
  }

  /** The visitor; `at` is where the visited text starts. */
  class Collector {
    const target: string
    var ranges: seq<Range>

    constructor (target: string)
      ensures this.target == target && ranges == []
    {
      this.target, ranges := target, [];
    }

    method VisitIdent(name: Word, at: nat)
      modifies this`ranges
      ensures ranges == old(ranges) + SpanOf(name, name == target, at)
    {
      if name == target {
        ranges := ranges + [Range(at, at + |name|)];
      }
    }

    /** `walk_tokens`; `dollar` says whether the token before was a `$`. */
    method WalkTokens(tokens: seq<Tok>, at: nat)
      modifies this`ranges
      ensures ranges == old(ranges) + SpansOfToks(tokens, at, false, target)
      decreases tokens
    {
      var pos: nat, dollar := at, false;
      for i := 0 to |tokens|
        invariant ranges + SpansOfToks(tokens[i..], pos, dollar, target) == old(ranges) + SpansOfToks(tokens, at, false, target)
      {
        ghost var before := ranges;
        var t := tokens[i];
        assert tokens[i..] == [t] + tokens[i + 1..];
        match t {
          case Ident(gap, name) =>
            if !dollar {
              VisitIdent(name, pos + |gap|);
            }
          case Group(gap, open, inner, _) =>
            WalkTokens(inner, pos + |gap| + |open|);
          case _ =>
        }
        RangesAssoc(before, SpansOfTok(t, pos, !dollar, target),
                    SpansOfToks(tokens[i + 1..], pos + |PrintTok(t)|, IsDollar(t), target));
        assert ranges == before + SpansOfTok(t, pos, !dollar, target);
        pos, dollar := pos + |PrintTok(t)|, IsDollar(t);
      }
      assert tokens[|tokens|..] == [];
    }

    method VisitPath(path: seq<Word>, at: nat)
      modifies this`ranges
      ensures ranges == old(ranges) + SpansOfPath(path, at, target)
    {
      var pos: nat := at;
      for i := 0 to |path|
        invariant ranges + SpansOfPath(path[i..], pos, target) == old(ranges) + SpansOfPath(path, at, target)
      {
        ghost var before := ranges;
        assert path[i..] == [path[i]] + path[i + 1..];
        VisitIdent(path[i], pos);
        RangesAssoc(before, SpanOf(path[i], path[i] == target, pos), SpansOfPath(path[i + 1..], pos + |path[i]| + 2, target));
        pos := pos + |path[i]| + 2;
      }
      assert path[|path|..] == [];
    }

    method VisitNode(n: Node, at: nat)
      modifies this`ranges
      ensures ranges == old(ranges) + SpansOfNode(n, at, target)
    {
      match n
      case Plain(_) =>
      case Name(name, _) => VisitIdent(name, at);
      case Macro(path, bang, defined, open, tokens, _, _) =>
        VisitPath(path, at);
        VisitDefined(defined, at + |PrintPath(path) + bang|);
        VisitBody(path, tokens, at + |PrintHead(path, bang, defined)| + |open|);
        RangesAssoc3(old(ranges), SpansOfPath(path, at, target),
                     SpansOfDefined(defined, at + |PrintPath(path) + bang|, target),
                     SpansOfBody(path, tokens, at + |PrintHead(path, bang, defined)| + |open|, target));
    }

    method VisitBody(path: seq<Word>, tokens: seq<Tok>, at: nat)
      modifies this`ranges
      ensures ranges == old(ranges) + SpansOfBody(path, tokens, at, target)
    {
      if !IsRules(path) {
        WalkTokens(tokens, at);
      } else {
        assert ranges + [] == ranges;
      }
    }

    method VisitDefined(defined: Option<Word>, at: nat)
      modifies this`ranges
      ensures ranges == old(ranges) + SpansOfDefined(defined, at, target)
    {
      if defined.Some? {
        VisitIdent(defined.value, at);
      }
    }

    method VisitFile(f: File)
      modifies this`ranges
      ensures ranges == old(ranges) + SpansOf(f, 0, target)
    {
      var pos: nat := 0;
      ghost var want := ranges + SpansOf(f, 0, target);
      assert f[0..] == f;
      for i := 0 to |f|
        invariant WithLater(ranges, f, i, pos, target) == want
      {
        SpansFrom(ranges, f, i, pos, target);
        VisitNode(f[i], pos);
        pos := pos + |PrintNode(f[i])|;
      }
      NoSpansLeft(ranges, f, pos, target);
    }
  }

  /** The ranges found so far and those in the rest of the file. */
  ghost function WithLater(before: seq<Range>, f: File, i: nat, at: nat, a: string): seq<Range>
    requires i <= |f|
  {
    before + SpansOf(f[i..], at, a)
  }

  lemma SpansFrom(before: seq<Range>, f: File, i: nat, at: nat, a: string)
    requires i < |f|
    ensures WithLater(before, f, i, at, a)
            == WithLater(before + SpansOfNode(f[i], at, a), f, i + 1, at + |PrintNode(f[i])|, a)
  {
    assert f[i..][0] == f[i] && f[i..][1..] == f[i + 1..];
    RangesAssoc(before, SpansOfNode(f[i], at, a), SpansOf(f[i + 1..], at + |PrintNode(f[i])|, a));
  }

  lemma NoSpansLeft(before: seq<Range>, f: File, at: nat, a: string)
    ensures WithLater(before, f, |f|, at, a) == before
  {}

  lemma RangesAssoc3(a: seq<Range>, b: seq<Range>, c: seq<Range>, d: seq<Range>)
    ensures a + b + c + d == a + (b + c + d)
  {}

  lemma RangesAssoc(a: seq<Range>, b: seq<Range>, c: seq<Range>)
    ensures a + (b + c) == a + b + c
  {}

  // ----- the rename -----

  datatype RenameError = InvalidIdentifier

  /** `sort_by_key(start)`. */
  function SortRanges(ranges: seq<Range>): seq<Range> {
    if ranges == [] then [] else InsertRange(ranges[0], SortRanges(ranges[1..]))
  }

  function InsertRange(r: Range, sorted: seq<Range>): seq<Range> {
    if sorted == [] || r.start <= sorted[0].start then [r] + sorted else [sorted[0]] + InsertRange(r, sorted[1..])
  }

  /** `dedup`: drops a range equal to the one before it. */
  function Dedup(ranges: seq<Range>): seq<Range> {
    if |ranges| < 2 then ranges
    else if ranges[0] == ranges[1] then Dedup(ranges[1..])
    else [ranges[0]] + Dedup(ranges[1..])
  }

  ghost predicate Ascending(ranges: seq<Range>) {
    forall i, j :: 0 <= i < j < |ranges| ==> ranges[i].start < ranges[j].start
  }

  lemma {:induction false} AscendingStays(ranges: seq<Range>)
    requires Ascending(ranges)
    ensures SortRanges(ranges) == ranges && Dedup(ranges) == ranges
  {
    if ranges != [] {
      AscendingStays(ranges[1..]);
      assert ranges == [ranges[0]] + ranges[1..];
    }
  }

  lemma ReplacedAscend(f: File, a: string, b: Word)
    ensures Ascending(SpansOf(f, 0, a)) && With(SpansOf(f, 0, a), b) == EditedFile(f, a, b).edits
  {
    FileRealises(f, a, b);
    FileSpans(f, 0, a, b);
    var edits, ranges := EditedFile(f, a, b).edits, SpansOf(f, 0, a);
    assert Shift(edits, 0) == edits;
    FileNonEmpty(f, 0, a);
    forall i, j | 0 <= i < j < |ranges| ensures ranges[i].start < ranges[j].start {
      assert edits[i].end <= edits[j].start;
      assert edits[i].start == ranges[i].start && edits[i].end == ranges[i].end && edits[j].start == ranges[j].start;
    }
  }

  ghost predicate NonEmpty(ranges: seq<Range>) {
    forall r :: r in ranges ==> r.start < r.end
  }

  lemma {:induction false} ToksNonEmpty(ts: seq<Tok>, at: nat, dollar: bool, a: string)
    ensures NonEmpty(SpansOfToks(ts, at, dollar, a))
  {
    if ts != [] {
      ToksNonEmpty(ts[1..], at + |PrintTok(ts[0])|, IsDollar(ts[0]), a);
      if ts[0].Group? {
        ToksNonEmpty(ts[0].inner, at + |ts[0].gap| + |ts[0].open|, false, a);
      }
    }
  }

  lemma {:induction false} PathNonEmpty(path: seq<Word>, at: nat, a: string)
    ensures NonEmpty(SpansOfPath(path, at, a))
  {
    if path != [] {
      PathNonEmpty(path[1..], at + |path[0]| + 2, a);
    }
  }

  lemma NodeNonEmpty(n: Node, at: nat, a: string)
    ensures NonEmpty(SpansOfNode(n, at, a))
  {
    if n.Macro? {
      PathNonEmpty(n.path, at, a);
      ToksNonEmpty(n.tokens, at + |PrintHead(n.path, n.bang, n.defined)| + |n.open|, false, a);
    }
  }

  lemma {:induction false} FileNonEmpty(f: File, at: nat, a: string)
    ensures NonEmpty(SpansOf(f, at, a))
  {
    if f != [] {
      NodeNonEmpty(f[0], at, a);
      FileNonEmpty(f[1..], at + |PrintNode(f[0])|, a);
    }
  }

  /**
   `rename` up to the parse of its result: the text of the renamed file and the number of renamable occurrences, for
   every new name that is an identifier.
   */
  method Rename(f: File, oldName: string, newName: string) returns (r: Result<(string, nat), RenameError>)
    ensures r.Success? <==> IsValidIdent(newName)
    ensures r.Success? ==> r.value == (PrintFile(RenameFile(f, oldName, newName)), CountFile(f, oldName))
  {
    if !IsValidIdent(newName) {
      return Failure(InvalidIdentifier);
    }
    var ranges := Collect(f, oldName);
    ReplacedAscend(f, oldName, newName);
    FileRealises(f, oldName, newName);
    var source := PrintFile(f);
    if ranges == [] {
      NoEdits(source, 0);
      return Success((source, 0));
    }
    var out := SpliceDescending(source, With(ranges, newName));
    r := Success((out, |ranges|));
  }

  method Collect(f: File, target: string) returns (ranges: seq<Range>)
    ensures ranges == SpansOf(f, 0, target)
  {
    var v := new Collector(target);
    v.VisitFile(f);
    ReplacedAscend(f, target, "_");
    AscendingStays(v.ranges);
    ranges := Dedup(SortRanges(v.ranges));
  }
}
