/**
 Frames that another peer wrote: any header fields, in any letter case, with blanks around the length. What the two blocking
 readers of crates/aa-protocol/src/transport.rs and crates/aa-ra-client/src/framing.rs and the client of
 adapters/vscode/src/client.js make of them.
 */
module Headers {
  import opened Wrappers
  import opened Decimal
  import opened Text
  import opened Framing

  datatype Field = Field(name: string, value: string)

  predicate IsAscii(s: string) {
    forall i :: 0 <= i < |s| ==> Between(0x00, s[i], 0x7F)
  }

  predicate OneLine(s: string) {
    '\r' !in s && '\n' !in s
  }

  predicate ValidField(f: Field) {
    IsAscii(f.name) && IsAscii(f.value) && OneLine(f.name) && OneLine(f.value) && ':' !in f.name
  }

  /** The fields, a line for each, and the blank line. */
  function FieldsText(fs: seq<Field>, cr: string, rest: string): string {
    if fs == [] then cr + ("\n" + rest)
    else fs[0].name + (":" + (fs[0].value + (cr + ("\n" + FieldsText(fs[1..], cr, rest)))))
  }

  // ----- what a field says -----

  predicate IsLetter(c: char) {
    IsLower(c) || IsUpper(c)
  }

  /** Two names are the same up to the case of ASCII letters. */
  lemma SameNameIs(a: string, b: string)
    ensures EqIgnoreCase(a, b) <==>
            && |a| == |b|
            && forall i :: 0 <= i < |a| ==>
                             a[i] == b[i] || (IsLetter(a[i]) && IsLetter(b[i]) && (a[i] as int - b[i] as int) in {-32, 32})
  {
    if |a| == |b| {
      forall i | 0 <= i < |a|
        ensures Lower(a[i]) == Lower(b[i]) <==>
                a[i] == b[i] || (IsLetter(a[i]) && IsLetter(b[i]) && (a[i] as int - b[i] as int) in {-32, 32})
      {}
    }
  }

  predicate IsLength(f: Field) {
    EqIgnoreCase(f.name, "content-length")
  }

  predicate AllSpaces(s: string) {
    forall i :: 0 <= i < |s| ==> IsSpace(s[i])
  }

  /** Blanks, digits with or without a plus sign, blanks; and the number fits into a machine word. */
  ghost predicate Says(value: string, n: nat) {
    exists pre, sign, digits, post ::
      && value == pre + ((sign + digits) + post) && AllSpaces(pre) && AllSpaces(post) && (sign == "" || sign == "+")
      && digits != "" && AllDigits(digits) && n == FromDecimal(digits) < USIZE_LIMIT
  }

  lemma {:induction false} TrimFront(pre: string, s: string)
    requires AllSpaces(pre)
    ensures Trim(pre + s) == Trim(s)
  {
    if pre == "" {
      assert pre + s == s;
    } else {
      assert (pre + s)[1..] == pre[1..] + s;
      TrimFront(pre[1..], s);
    }
  }

  lemma {:induction false} TrimBack(s: string, post: string)
    requires Tight(s) && AllSpaces(post)
    ensures Trim(s + post) == s
    decreases |post|
  {
    if post == "" {
      assert s + post == s;
    } else {
      var n := |post| - 1;
      assert (s + post)[..|s + post| - 1] == s + post[..n];
      TrimBack(s, post[..n]);
    }
  }

  /** What trimming leaves is the text without blanks around it. */
  lemma {:induction false} Trimmed(s: string) returns (pre: string, post: string)
    ensures AllSpaces(pre) && AllSpaces(post) && s == pre + (Trim(s) + post)
    decreases |s|
  {
    if s == "" {
      pre, post := "", "";
    } else if IsSpace(s[0]) {
      pre, post := Trimmed(s[1..]);
      pre := [s[0]] + pre;
    } else if IsSpace(s[|s| - 1]) {
      var n := |s| - 1;
      pre, post := Trimmed(s[..n]);
      Assoc(pre, Trim(s), post + [s[n]]);
      Assoc(Trim(s), post, [s[n]]);
      assert s == s[..n] + [s[n]];
      post := post + [s[n]];
    } else {
      pre, post := "", "";
    }
  }

  /** The readers take a value for a length exactly if it says one. */
  lemma LengthSaid(value: string, n: nat)
    ensures ParseUsize(Trim(value)) == Some(n) <==> Says(value, n)
  {
    if ParseUsize(Trim(value)) == Some(n) {
      TakenSays(value, n);
    }
    if Says(value, n) {
      SaidTaken(value, n);
    }
  }

  lemma TakenSays(value: string, n: nat)
    requires ParseUsize(Trim(value)) == Some(n)
    ensures Says(value, n)
  {
    var pre, post := Trimmed(value);
    var s := Trim(value);
    var sign, digits := if s[0] == '+' then "+" else "", if s[0] == '+' then s[1..] else s;
    assert s == sign + digits;
  }

  lemma SaidTaken(value: string, n: nat)
    requires Says(value, n)
    ensures ParseUsize(Trim(value)) == Some(n)
  {
    var pre, sign, digits, post :|
      && value == pre + ((sign + digits) + post) && AllSpaces(pre) && AllSpaces(post) && (sign == "" || sign == "+")
      && digits != "" && AllDigits(digits) && n == FromDecimal(digits) < USIZE_LIMIT;
    var s := sign + digits;
    SignedDigits(sign, digits, n);
    TrimFront(pre, s + post);
    TrimBack(s, post);
  }

  lemma SignedDigits(sign: string, digits: string, n: nat)
    requires (sign == "" || sign == "+") && digits != "" && AllDigits(digits) && n == FromDecimal(digits) < USIZE_LIMIT
    ensures Tight(sign + digits) && ParseUsize(sign + digits) == Some(n)
  {
    var s := sign + digits;
    assert s[|s| - 1] == digits[|digits| - 1];
    if sign == "" {
      assert s == digits;
    } else {
      assert s[1..] == digits;
    }
  }

  /** One line: a length field sets the length or is malformed, another field is ignored. */
  lemma FieldLine(f: Field, end: string, length: Option<nat>)
    requires ':' !in f.name && AllSpaces(end)
    ensures var r := HeaderLine(f.name + [':'] + (f.value + end), length);
            && (!IsLength(f) ==> r == Success(length))
            && (IsLength(f) ==> forall n: nat :: r == Success(Some(n)) <==> Says(f.value, n))
            && (IsLength(f) && (forall n :: !Says(f.value, n)) ==> r == Failure(BadHeader))
  {
    var line := f.name + [':'] + (f.value + end);
    IndexOfPrefix(f.name, ':', f.value + end);
    assert line[..|f.name|] == f.name && line[|f.name| + 1..] == f.value + end;
    forall n: nat ensures Says(f.value + end, n) <==> Says(f.value, n) {
      SaysWithEnd(f.value, end, n);
    }
    forall n: nat ensures ParseUsize(Trim(f.value + end)) == Some(n) <==> Says(f.value, n) {
      LengthSaid(f.value + end, n);
    }
  }

  /** Blanks behind a value say nothing. */
  lemma SaysWithEnd(value: string, end: string, n: nat)
    requires AllSpaces(end)
    ensures Says(value + end, n) <==> Says(value, n)
  {
    TrimEnd(value, end);
    LengthSaid(value, n);
    LengthSaid(value + end, n);
  }

  lemma TrimEnd(value: string, end: string)
    requires AllSpaces(end)
    ensures Trim(value + end) == Trim(value)
  {
    var pre, post := Trimmed(value);
    var s := Trim(value);
    TrimFront(pre, s + post);
    assert value + end == pre + (s + (post + end));
    TrimFront(pre, s + (post + end));
    if s == "" {
      assert s + (post + end) == post + end && (post + end) + "" == post + end;
      TrimFront(post + end, "");
    } else {
      TrimmedIsTight(value);
      TrimBack(s, post + end);
    }
  }

  lemma {:induction false} TrimmedIsTight(s: string)
    requires Trim(s) != ""
    ensures Tight(Trim(s))
    decreases |s|
  {
    if IsSpace(s[0]) {
      TrimmedIsTight(s[1..]);
    } else if IsSpace(s[|s| - 1]) {
      TrimmedIsTight(s[..|s| - 1]);
    }
  }

  // ----- what the fields together announce -----

  /** The last length field says `n`, and every one before it says something. */
  ghost predicate Announces(fs: seq<Field>, n: nat) {
    exists i :: 0 <= i < |fs| && IsLength(fs[i]) && Says(fs[i].value, n)
                && (forall j :: i < j < |fs| ==> !IsLength(fs[j]))
                && forall j :: 0 <= j < i && IsLength(fs[j]) ==> exists m :: Says(fs[j].value, m)
  }

  /** What is known of the length after the fields, starting from `length`; None if one of them is malformed. */
  ghost predicate Leads(fs: seq<Field>, length: Option<nat>, r: Result<Option<nat>, FrameError>)
    decreases |fs|
  {
    if fs == [] then r == Success(length)
    else if !IsLength(fs[0]) then Leads(fs[1..], length, r)
    else if exists n :: Says(fs[0].value, n) then exists n :: Says(fs[0].value, n) && Leads(fs[1..], Some(n), r)
    else r == Failure(BadHeader)
  }

  lemma {:induction false} NoneLeads(fs: seq<Field>, length: Option<nat>)
    requires forall j :: 0 <= j < |fs| ==> !IsLength(fs[j])
    ensures Leads(fs, length, Success(length))
    decreases |fs|
  {
    if fs != [] {
      NoneLeads(fs[1..], length);
    }
  }

  lemma {:induction false} AnnouncedLeads(fs: seq<Field>, length: Option<nat>, n: nat)
    requires Announces(fs, n)
    ensures Leads(fs, length, Success(Some(n)))
    decreases |fs|
  {
    var i :| 0 <= i < |fs| && IsLength(fs[i]) && Says(fs[i].value, n)
             && (forall j :: i < j < |fs| ==> !IsLength(fs[j]))
             && forall j :: 0 <= j < i && IsLength(fs[j]) ==> exists m :: Says(fs[j].value, m);
    if i == 0 {
      NoneLeads(fs[1..], Some(n));
    } else {
      var rest := fs[1..];
      assert rest[i - 1] == fs[i] && forall j :: 0 <= j < |rest| ==> rest[j] == fs[j + 1];
      assert Announces(rest, n);
      if IsLength(fs[0]) {
        var m :| Says(fs[0].value, m);
        AnnouncedLeads(rest, Some(m), n);
      } else {
        AnnouncedLeads(rest, length, n);
      }
    }
  }

  // ----- read_frame -----

  lemma FieldFirstLine(f: Field, cr: string, rest: string)
    requires ValidField(f) && (cr == "" || cr == "\r")
    ensures var line := f.name + [':'] + (f.value + (cr + "\n"));
            var s := f.name + (":" + (f.value + (cr + ("\n" + rest))));
            && FirstLine(s) == line && s[|line|..] == rest && IsUtf8(line) && line != "\r\n" && line != "\n" && s != ""
  {
    var line := f.name + [':'] + (f.value + (cr + "\n"));
    var s := f.name + (":" + (f.value + (cr + ("\n" + rest))));
    var a := f.name + [':'] + (f.value + cr);
    assert a + "\n" == line && a + "\n" + rest == s;
    FirstLineIs(a, rest);
    assert IsAscii(line);
    AsciiIsUtf8(line);
    assert ':' in line;
  }

  lemma FirstField(fs: seq<Field>, cr: string, length: Option<nat>, rest: string)
    requires (cr == "" || cr == "\r") && fs != [] && ValidField(fs[0])
    ensures var h := HeaderLine(fs[0].name + [':'] + (fs[0].value + (cr + "\n")), length);
            FrameHeader(FieldsText(fs, cr, rest), length) ==
            if h.Failure? then Failure(h.error) else FrameHeader(FieldsText(fs[1..], cr, rest), h.value)
  {
    FieldFirstLine(fs[0], cr, FieldsText(fs[1..], cr, rest));
  }

  lemma {:induction false} FieldsRead(fs: seq<Field>, cr: string, length: Option<nat>, rest: string,
                                      r: Result<Option<nat>, FrameError>)
    requires (cr == "" || cr == "\r") && (forall f :: f in fs ==> ValidField(f)) && Leads(fs, length, r)
    ensures FrameHeader(FieldsText(fs, cr, rest), length) ==
            if r.Failure? then Failure(r.error)
            else if r.value.None? then Failure(MissingContentLength) else Success((r.value.value, rest))
    decreases |fs|
  {
    if fs == [] {
      BlankLine(cr, rest);
    } else {
      var f := fs[0];
      FirstField(fs, cr, length, rest);
      FieldLine(f, cr + "\n", length);
      if !IsLength(f) {
        FieldsRead(fs[1..], cr, length, rest, r);
      } else if exists n :: Says(f.value, n) {
        var n :| Says(f.value, n) && Leads(fs[1..], Some(n), r);
        FieldsRead(fs[1..], cr, Some(n), rest, r);
      }
    }
  }

  lemma BlankLine(cr: string, rest: string)
    requires cr == "" || cr == "\r"
    ensures var s := cr + ("\n" + rest);
            s != "" && FirstLine(s) == cr + "\n" && s[|cr| + 1..] == rest && IsUtf8(cr + "\n")
            && (cr + "\n" == "\r\n" || cr + "\n" == "\n")
  {
    Assoc(cr, "\n", rest);
    FirstLineIs(cr, rest);
    assert IsAscii(cr + "\n");
    AsciiIsUtf8(cr + "\n");
    Behind(cr + "\n", rest);
  }

  lemma Behind(a: string, b: string)
    ensures (a + b)[..|a|] == a && (a + b)[|a|..] == b
  {}

  /**
   `read_frame` on a frame with any fields, lines ending in `\r\n` or in `\n` alone: the body has the length the last length
   field says; without one, or with a malformed one, the frame is refused.
   */
  lemma ForeignFrame(fs: seq<Field>, cr: string, body: string, rest: string)
    requires (cr == "" || cr == "\r") && forall f :: f in fs ==> ValidField(f)
    ensures Announces(fs, |body|) ==> FrameOf(FieldsText(fs, cr, body + rest)) == Success((body, rest))
    ensures (forall f :: f in fs ==> !IsLength(f)) ==>
              FrameOf(FieldsText(fs, cr, body + rest)) == Failure(MissingContentLength)
    ensures Leads(fs, None, Failure(BadHeader)) ==> FrameOf(FieldsText(fs, cr, body + rest)) == Failure(BadHeader)
  {
    if Announces(fs, |body|) {
      AnnouncedLeads(fs, None, |body|);
      FieldsRead(fs, cr, None, body + rest, Success(Some(|body|)));
      assert (body + rest)[..|body|] == body && (body + rest)[|body|..] == rest;
    }
    if forall f :: f in fs ==> !IsLength(f) {
      NoneLeads(fs, None);
      FieldsRead(fs, cr, None, body + rest, Success(None));
    }
    if Leads(fs, None, Failure(BadHeader)) {
      FieldsRead(fs, cr, None, body + rest, Failure(BadHeader));
    }
  }

  /** A line without a colon is refused. */
  lemma LineWithoutColon(line: string, rest: string)
    requires IsAscii(line) && OneLine(line) && ':' !in line && line != ""
    ensures FrameOf(line + ("\r\n" + rest)) == Failure(BadHeader)
  {
    var s := line + ("\r\n" + rest);
    assert s == (line + "\r") + "\n" + rest;
    FirstLineIs(line + "\r", rest);
    assert IsAscii(line + "\r" + "\n");
    AsciiIsUtf8(line + "\r" + "\n");
    assert (line + "\r" + "\n")[0] == line[0] && line[0] in line;
    assert IndexOf(line + "\r" + "\n", ':').None?;
  }

  // ----- read_message -----

  /** The header block in front of the blank line's own end. */
  function FieldLines(fs: seq<Field>): seq<string> {
    if fs == [] then [] else [fs[0].name + [':'] + fs[0].value] + FieldLines(fs[1..])
  }

  function LinesText(lines: seq<string>, rest: string): string {
    if lines == [] then "\r\n" + rest else lines[0] + ("\r\n" + LinesText(lines[1..], rest))
  }

  lemma {:induction false} TextOfLines(fs: seq<Field>, rest: string)
    ensures FieldsText(fs, "\r", rest) == LinesText(FieldLines(fs), rest)
  {
    if fs == [] {
      assert "\r" + ("\n" + rest) == "\r\n" + rest;
    } else {
      var f, later := fs[0], FieldsText(fs[1..], "\r", rest);
      TextOfLines(fs[1..], rest);
      FieldAndEnd(f.name, f.value, later);
      assert FieldLines(fs)[1..] == FieldLines(fs[1..]);
    }
  }

  lemma FieldAndEnd(name: string, value: string, later: string)
    ensures name + (":" + (value + ("\r" + ("\n" + later)))) == (name + [':'] + value) + ("\r\n" + later)
  {}

  predicate ValidLine(line: string) {
    line != "" && OneLine(line)
  }

  /** The first separator is the one that ends the last line. */
  lemma {:induction false} SeparatorBehindLines(lines: seq<string>, rest: string)
    requires lines != [] && forall l :: l in lines ==> ValidLine(l)
    ensures FindSeparator(LinesText(lines, rest), 0) == Some(|LinesText(lines, "")| - 4) && |LinesText(lines, "")| >= 4
    decreases |lines|
  {
    var line, later := lines[0], LinesText(lines[1..], rest);
    assert ValidLine(line);
    if |lines| == 1 {
      SeparatorAtEnd(line, rest);
    } else {
      SeparatorBehindLines(lines[1..], rest);
      LaterStarts(lines[1..], rest);
      SeparatorShifted(LinesText(lines, rest), line, later);
    }
  }

  lemma LaterStarts(lines: seq<string>, rest: string)
    requires lines != [] && forall l :: l in lines ==> ValidLine(l)
    ensures LinesText(lines, rest) != "" && LinesText(lines, rest)[0] != '\r'
  {
    assert ValidLine(lines[0]) && lines[0][0] in lines[0];
  }

  lemma SeparatorAtEnd(line: string, rest: string)
    requires OneLine(line)
    ensures FindSeparator(line + ("\r\n" + ("\r\n" + rest)), 0) == Some(|line|)
  {
    TwoEnds(rest);
    Assoc(line, SEPARATOR, rest);
    FindSeparatorAfter(line, rest);
  }

  lemma TwoEnds(rest: string)
    ensures "\r\n" + ("\r\n" + rest) == SEPARATOR + rest
  {}

  lemma SeparatorShifted(s: string, line: string, later: string)
    requires s == line + ("\r\n" + later) && OneLine(line) && later != "" && later[0] != '\r' && FindSeparator(later, 0).Some?
    ensures FindSeparator(s, 0) == Some(|line| + 2 + FindSeparator(later, 0).value)
  {
    var n := |line| + 2;
    forall k | 0 <= k < n ensures !StartsWith(s[k..], SEPARATOR) {
      NothingInLine(line, later, k);
    }
    SuffixOf(line, later, n);
    ShiftedBy(s, n, later);
  }

  lemma ShiftedBy(s: string, n: nat, later: string)
    requires n <= |s| && s[n..] == later && FindSeparator(later, 0).Some?
    requires forall k :: 0 <= k < n ==> !StartsWith(s[k..], SEPARATOR)
    ensures FindSeparator(s, 0) == Some(n + FindSeparator(later, 0).value)
  {
    FindSkips(s, 0, n);
    FindFrom(s, n, 0);
  }

  lemma {:induction false} FindSkips(s: string, i: nat, n: nat)
    requires i <= n <= |s| && forall k :: i <= k < n ==> !StartsWith(s[k..], SEPARATOR)
    ensures FindSeparator(s, i) == FindSeparator(s, n)
    decreases n - i
  {
    if i < n {
      FindSkips(s, i + 1, n);
    }
  }

  lemma {:induction false} FindFrom(s: string, n: nat, i: nat)
    requires n + i <= |s| && FindSeparator(s[n..], i).Some?
    ensures FindSeparator(s, n + i) == Some(n + FindSeparator(s[n..], i).value)
    decreases |s| - n - i
  {
    assert s[n..][i..] == s[n + i..];
    if !StartsWith(s[n + i..], SEPARATOR) {
      FindFrom(s, n, i + 1);
    }
  }

  lemma SuffixOf(line: string, later: string, k: nat)
    requires |line| + 2 <= k <= |line| + 2 + |later|
    ensures (line + ("\r\n" + later))[k..] == later[k - |line| - 2..]
  {}

  /** No separator starts inside a line, nor at the end of one whose follower does not start with a line end. */
  lemma NothingInLine(line: string, later: string, k: nat)
    requires OneLine(line) && later != "" && later[0] != '\r' && k < |line| + 2
    ensures !StartsWith((line + ("\r\n" + later))[k..], SEPARATOR)
  {
    LineCharacter(line, later, k);
    NoSeparatorAt(line + ("\r\n" + later), k);
  }

  lemma LineCharacter(line: string, later: string, k: nat)
    requires OneLine(line) && later != "" && later[0] != '\r' && k < |line| + 2
    ensures var s := line + ("\r\n" + later); k + 4 > |s| || s[k] != '\r' || s[k + 2] != '\r'
  {
    if k < |line| {
      assert line[k] in line;
    }
  }

  lemma NoSeparatorAt(s: string, k: nat)
    requires k <= |s| && (k + 4 > |s| || s[k] != '\r' || s[k + 2] != '\r')
    ensures !StartsWith(s[k..], SEPARATOR)
  {
    if k + 4 <= |s| {
      assert s[k..][..4][0] == s[k] && s[k..][..4][2] == s[k + 2];
    }
  }

  /** Splitting the header gives its lines and two empty ones. */
  lemma {:induction false} LinesSplit(lines: seq<string>)
    requires lines != [] && forall l :: l in lines ==> ValidLine(l)
    ensures SplitLines(LinesText(lines, "")) == lines + ["", ""]
    decreases |lines|
  {
    var line, later := lines[0], LinesText(lines[1..], "");
    assert ValidLine(line);
    SplitFirst(LinesText(lines, ""), line, later);
    if |lines| == 1 {
      BlankSplits();
      assert later == "\r\n" && lines == [line];
    } else {
      LinesSplit(lines[1..]);
      assert lines == [line] + lines[1..];
    }
  }

  lemma SplitFirst(s: string, line: string, later: string)
    requires s == line + ("\r\n" + later) && OneLine(line)
    ensures SplitLines(s) == [line] + SplitLines(later)
  {
    Assoc(line, "\r\n", later);
    FindCrLfAfter(line, later, 0);
    Behind(line, "\r\n" + later);
    Behind(line + "\r\n", later);
  }

  lemma BlankSplits()
    ensures SplitLines("\r\n") == ["", ""]
  {
    assert "" + "\r\n" + "" == "\r\n";
    FindCrLfAfter("", "", 0);
    assert "\r\n"[2..] == "" && SplitLines("") == [""];
  }

  lemma FirstOfLines(fs: seq<Field>, length: Option<nat>)
    requires fs != []
    ensures var h := HeaderLine(fs[0].name + [':'] + fs[0].value, length);
            HeaderLines(FieldLines(fs) + ["", ""], length) ==
            if h.Failure? then Failure(h.error) else HeaderLines(FieldLines(fs[1..]) + ["", ""], h.value)
  {
    var lines := FieldLines(fs) + ["", ""];
    assert lines[1..] == FieldLines(fs[1..]) + ["", ""];
    assert lines[0] == fs[0].name + [':'] + fs[0].value;
    assert lines[0][|fs[0].name|] == ':';
  }

  lemma {:induction false} LinesRead(fs: seq<Field>, length: Option<nat>, r: Result<Option<nat>, FrameError>)
    requires (forall f :: f in fs ==> ValidField(f)) && Leads(fs, length, r)
    ensures HeaderLines(FieldLines(fs) + ["", ""], length) == r
    decreases |fs|
  {
    if fs == [] {
      assert FieldLines(fs) + ["", ""] == ["", ""] && ["", ""][1..] == [""] && [""][1..] == [];
      assert HeaderLines([""], length) == Success(length);
    } else {
      var f := fs[0];
      assert ValidField(f);
      FieldLine(f, "", length);
      assert f.value + "" == f.value;
      FirstOfLines(fs, length);
      if !IsLength(f) {
        LinesRead(fs[1..], length, r);
      } else if exists n :: Says(f.value, n) {
        var n :| Says(f.value, n) && Leads(fs[1..], Some(n), r);
        LinesRead(fs[1..], Some(n), r);
      }
    }
  }

  lemma {:induction false} FieldLinesValid(fs: seq<Field>)
    requires forall f :: f in fs ==> ValidField(f)
    ensures forall l :: l in FieldLines(fs) ==> ValidLine(l) && IsAscii(l)
  {
    if fs != [] {
      FieldLinesValid(fs[1..]);
      assert ValidField(fs[0]);
      var l := fs[0].name + [':'] + fs[0].value;
      assert l[|fs[0].name|] == ':';
      assert ValidLine(l) && IsAscii(l);
    }
  }

  lemma {:induction false} LinesAscii(lines: seq<string>)
    requires forall l :: l in lines ==> IsAscii(l)
    ensures IsAscii(LinesText(lines, ""))
  {
    if lines != [] {
      LinesAscii(lines[1..]);
      assert lines[0] in lines && forall l :: l in lines[1..] ==> l in lines;
    }
  }

  lemma {:induction false} LinesThenRest(lines: seq<string>, rest: string)
    ensures LinesText(lines, rest) == LinesText(lines, "") + rest
  {
    if lines == [] {
      assert "\r\n" + "" == "\r\n";
    } else {
      LinesThenRest(lines[1..], rest);
      Assoc(lines[0], "\r\n" + LinesText(lines[1..], ""), rest);
      Assoc("\r\n", LinesText(lines[1..], ""), rest);
    }
  }

  /** The same of `read_message`, when the header keeps below the cap. */
  lemma ForeignMessage(fs: seq<Field>, body: string, rest: string)
    requires fs != [] && forall f :: f in fs ==> ValidField(f)
    requires |FieldsText(fs, "\r", "")| <= HEADER_CAP + 1
    ensures Announces(fs, |body|) ==> MessageOf(FieldsText(fs, "\r", body + rest)) == Success((body, rest))
    ensures (forall f :: f in fs ==> !IsLength(f)) ==>
              MessageOf(FieldsText(fs, "\r", body + rest)) == Failure(MissingContentLength)
    ensures Leads(fs, None, Failure(BadHeader)) ==> MessageOf(FieldsText(fs, "\r", body + rest)) == Failure(BadHeader)
  {
    MessageHeaderIs(fs, body + rest);
    if Announces(fs, |body|) {
      AnnouncedLeads(fs, None, |body|);
      LinesRead(fs, None, Success(Some(|body|)));
      assert (body + rest)[..|body|] == body && (body + rest)[|body|..] == rest;
    }
    if forall f :: f in fs ==> !IsLength(f) {
      NoneLeads(fs, None);
      LinesRead(fs, None, Success(None));
    }
    if Leads(fs, None, Failure(BadHeader)) {
      LinesRead(fs, None, Failure(BadHeader));
    }
  }

  lemma MessageHeaderIs(fs: seq<Field>, rest: string)
    requires fs != [] && (forall f :: f in fs ==> ValidField(f)) && |FieldsText(fs, "\r", "")| <= HEADER_CAP + 1
    ensures var header := LinesText(FieldLines(fs), "");
            && MessageHeader(FieldsText(fs, "\r", rest)) == Success((header, rest)) && IsUtf8(header)
            && SplitLines(header) == FieldLines(fs) + ["", ""]
  {
    var lines := FieldLines(fs);
    var header := LinesText(lines, "");
    TextOfLines(fs, rest);
    TextOfLines(fs, "");
    FieldLinesValid(fs);
    SeparatorBehindLines(lines, rest);
    LinesThenRest(lines, rest);
    Behind(header, rest);
    LinesAscii(lines);
    AsciiIsUtf8(header);
    LinesSplit(lines);
  }

  // ----- the client -----

  /** The name of the length field with its colon, in any case, at position `i`. */
  predicate KeyAt(header: string, i: nat) {
    i + 15 <= |header| && EqIgnoreCase(header[i..i + 15], "content-length:")
  }

  /**
   The client looks for the first place in the header that reads `Content-Length:` in any case, whatever is in front of it
   on its line, and takes the digits behind it and behind white space; what follows them does not matter.
   */
  lemma ForeignHeader(header: string, front: string, key: string, spaces: string, digits: string, behind: string,
                      body: string, rest: string)
    requires EqIgnoreCase(key, "content-length:") && AllSpaces(spaces) && digits != "" && AllDigits(digits)
    requires behind == "" || !IsDigit(behind[0])
    requires header == front + (key + (spaces + (digits + behind)))
    requires FindSeparator(header + (SEPARATOR + (body + rest)), 0) == Some(|header|)
    requires forall i :: 0 <= i < |front| ==> !KeyAt(header, i)
    requires FromDecimal(digits) == |body|
    ensures NextStep(header + (SEPARATOR + (body + rest))) == Deliver(body, rest)
  {
    MatchAtKey(header, front, key, spaces, digits, behind);
    FirstMatch(header, 0, |front|);
    DeliversBehind(header, SEPARATOR, body, rest);
  }

  lemma DeliversBehind(header: string, separator: string, body: string, rest: string)
    requires separator == SEPARATOR && FindSeparator(header + (separator + (body + rest)), 0) == Some(|header|)
    requires FindLength(header, 0) == Some(|body|)
    ensures NextStep(header + (separator + (body + rest))) == Deliver(body, rest)
  {
    Behind(header, separator + (body + rest));
    Behind(separator, body + rest);
    Behind(body, rest);
    TwoBehind(header, separator, body + rest);
  }

  lemma TwoBehind(a: string, b: string, c: string)
    ensures (a + (b + c))[|a| + |b|..] == c
  {}

  lemma MatchAtKey(s: string, front: string, key: string, spaces: string, digits: string, behind: string)
    requires s == front + (key + (spaces + (digits + behind)))
    requires EqIgnoreCase(key, "content-length:") && AllSpaces(spaces) && digits != "" && AllDigits(digits)
    requires behind == "" || !IsDigit(behind[0])
    ensures |front| <= |s| && MatchLength(s, |front|) == Some(FromDecimal(digits))
  {
    var i := |front|;
    var j := i + |key| + |spaces|;
    var k := j + |digits|;
    HeaderStretches(s, front, key, spaces, digits, behind);
    MatchByCharacters(s, i, j, k);
  }

  lemma MatchByCharacters(s: string, i: nat, j: nat, k: nat)
    requires i + 15 <= j < k <= |s| && EqIgnoreCase(s[i..i + 15], "content-length:")
    requires (forall x :: i + 15 <= x < j ==> IsSpace(s[x])) && (forall x :: j <= x < k ==> IsDigit(s[x]))
    requires k == |s| || !IsDigit(s[k])
    ensures AllDigits(s[j..k]) && MatchLength(s, i) == Some(FromDecimal(s[j..k]))
  {
    SkipOver(s, i + 15, j);
    SkipOverDigits(s, j, k);
  }

  lemma HeaderStretches(s: string, front: string, key: string, spaces: string, digits: string, behind: string)
    requires s == front + (key + (spaces + (digits + behind)))
    requires |key| == 15 && AllSpaces(spaces) && digits != "" && AllDigits(digits)
    requires behind == "" || !IsDigit(behind[0])
    ensures var i := |front|;
            var j := i + |key| + |spaces|;
            var k := j + |digits|;
            && k <= |s| && s[i..i + 15] == key && s[j..k] == digits
            && (forall x :: i + 15 <= x < j ==> IsSpace(s[x])) && !IsSpace(s[j])
            && (forall x :: j <= x < k ==> IsDigit(s[x])) && (k == |s| || !IsDigit(s[k]))
  {
    Stretch(front, key, spaces + (digits + behind));
    Assoc(front, key, spaces + (digits + behind));
    Stretch(front + key, spaces, digits + behind);
    Assoc(front + key, spaces, digits + behind);
    Stretch(front + key + spaces, digits, behind);
    NoDigitBehind(front + key + spaces, digits, behind);
  }

  lemma Stretch(a: string, b: string, c: string)
    ensures (a + (b + c))[|a|..|a| + |b|] == b
    ensures forall k :: |a| <= k < |a| + |b| ==> (a + (b + c))[k] == b[k - |a|]
  {}

  lemma NoDigitBehind(a: string, b: string, c: string)
    requires c == "" || !IsDigit(c[0])
    ensures var s, n := a + (b + c), |a| + |b|; n == |s| || !IsDigit(s[n])
  {}

  lemma {:induction false} SkipOver(s: string, i: nat, j: nat)
    requires i <= j <= |s| && (forall k :: i <= k < j ==> IsSpace(s[k])) && (j == |s| || !IsSpace(s[j]))
    ensures SkipSpaces(s, i) == j
    decreases j - i
  {
    if i < j {
      SkipOver(s, i + 1, j);
    }
  }

  lemma {:induction false} SkipOverDigits(s: string, i: nat, j: nat)
    requires i <= j <= |s| && (forall k :: i <= k < j ==> IsDigit(s[k])) && (j == |s| || !IsDigit(s[j]))
    ensures SkipDigits(s, i) == j
    decreases j - i
  {
    if i < j {
      SkipOverDigits(s, i + 1, j);
    }
  }

  lemma {:induction false} FirstMatch(header: string, i: nat, at: nat)
    requires i <= at <= |header| && MatchLength(header, at).Some? && forall k :: i <= k < at ==> !KeyAt(header, k)
    ensures FindLength(header, i) == MatchLength(header, at)
    decreases at - i
  {
    if i < at {
      NoKeyNoMatch(header, i);
      FirstMatch(header, i + 1, at);
    }
  }

  lemma NoKeyNoMatch(header: string, i: nat)
    requires i <= |header| && !KeyAt(header, i)
    ensures MatchLength(header, i) == None
  {}

  /** A header in which the name stands nowhere is dropped with its separator. */
  lemma HeaderDropped(header: string, rest: string)
    requires FindSeparator(header + (SEPARATOR + rest), 0) == Some(|header|)
    requires forall i :: 0 <= i <= |header| ==> !KeyAt(header, i)
    ensures NextStep(header + (SEPARATOR + rest)) == Drop(rest)
  {
    NoMatch(header, 0);
    DropsBehind(header, SEPARATOR, rest);
  }

  lemma DropsBehind(header: string, separator: string, rest: string)
    requires separator == SEPARATOR && FindSeparator(header + (separator + rest), 0) == Some(|header|)
    requires FindLength(header, 0) == None
    ensures NextStep(header + (separator + rest)) == Drop(rest)
  {
    Behind(header, separator + rest);
    TwoBehind(header, separator, rest);
  }

  lemma {:induction false} NoMatch(header: string, i: nat)
    requires i <= |header| && forall k :: i <= k <= |header| ==> !KeyAt(header, k)
    ensures FindLength(header, i) == None
    decreases |header| - i
  {
    NoKeyNoMatch(header, i);
    if i < |header| {
      NoMatch(header, i + 1);
    }
  }

  /**
   Two length fields: the reader takes the last one and hands out both parts of what follows, the client takes the first one
   and hands out the first part only.
   */
  lemma TwoLengthsDisagree(fs: seq<Field>, one: Field, two: Field, a: string, b: string)
    requires fs == [one, two] && (forall f :: f in fs ==> ValidField(f)) && IsLength(one) && IsLength(two)
    requires one.value != "" && AllDigits(one.value) && FromDecimal(one.value) == |a| < USIZE_LIMIT
    requires Says(two.value, |a + b|)
    ensures FrameOf(FieldsText(fs, "\r", a + b + "")) == Success((a + b, ""))
    ensures NextStep(FieldsText(fs, "\r", a + b)) == Deliver(a, b)
  {
    DigitsSay(one.value, |a|);
    LastOfTwo(fs, one, two, |a|, |a + b|);
    ForeignFrame(fs, "\r", a + b, "");
    assert one in fs && two in fs;
    FirstLengthTaken(fs, one, two, a, b);
  }

  lemma DigitsSay(digits: string, n: nat)
    requires digits != "" && AllDigits(digits) && FromDecimal(digits) == n < USIZE_LIMIT
    ensures Says(digits, n)
  {
    SignedDigits("", digits, n);
    assert "" + digits == digits;
    TrimTight(digits);
    LengthSaid(digits, n);
  }

  lemma LastOfTwo(fs: seq<Field>, one: Field, two: Field, m: nat, n: nat)
    requires fs == [one, two] && IsLength(one) && IsLength(two) && Says(one.value, m) && Says(two.value, n)
    ensures Announces(fs, n)
  {
    assert fs[0] == one && fs[1] == two;
  }

  lemma FirstLengthTaken(fs: seq<Field>, one: Field, two: Field, a: string, b: string)
    requires fs == [one, two] && ValidField(one) && ValidField(two) && IsLength(one)
    requires one.value != "" && AllDigits(one.value) && FromDecimal(one.value) == |a|
    ensures NextStep(FieldsText(fs, "\r", a + b)) == Deliver(a, b)
  {
    var first, second := one.name + [':'] + one.value, two.name + [':'] + two.value;
    var header, rest, key := first + ("\r\n" + second), a + b, one.name + [':'];
    TwoFieldsText(fs, one, two, rest);
    FieldIsLine(one);
    FieldIsLine(two);
    HeaderEnds(header, first, second, rest);
    KeyOf(one.name);
    NoFront(header, key, one.value, "\r\n" + second);
    ForeignHeader(header, "", key, "", one.value, "\r\n" + second, a, b);
  }

  lemma FieldIsLine(f: Field)
    requires ValidField(f)
    ensures ValidLine(f.name + [':'] + f.value)
  {
    assert (f.name + [':'] + f.value)[|f.name|] == ':';
  }

  lemma KeyOf(name: string)
    requires EqIgnoreCase(name, "content-length")
    ensures EqIgnoreCase(name + [':'], "content-length:")
  {
    assert "content-length:" == "content-length" + [':'];
  }

  lemma NoFront(header: string, key: string, digits: string, behind: string)
    requires header == key + digits + behind
    ensures header == "" + (key + ("" + (digits + behind)))
  {}

  lemma HeaderEnds(header: string, first: string, second: string, rest: string)
    requires header == first + ("\r\n" + second) && OneLine(first) && ValidLine(second)
    ensures FindSeparator(header + (SEPARATOR + rest), 0) == Some(|header|)
  {
    SeparatorAtEnd(second, rest);
    TwoEnds(rest);
    HeaderThenSeparator(first, second, rest);
    SeparatorShifted(header + (SEPARATOR + rest), first, second + (SEPARATOR + rest));
  }

  lemma TwoFieldsText(fs: seq<Field>, one: Field, two: Field, rest: string)
    requires fs == [one, two]
    ensures FieldsText(fs, "\r", rest) ==
            one.name + [':'] + one.value + ("\r\n" + (two.name + [':'] + two.value)) + (SEPARATOR + rest)
  {
    var first, second := one.name + [':'] + one.value, two.name + [':'] + two.value;
    TextOfLines(fs, rest);
    TwoLines(fs, one, two);
    TwoLinesText(first, second, rest);
    TwoEnds(rest);
    HeaderThenSeparator(first, second, rest);
  }

  lemma TwoLines(fs: seq<Field>, one: Field, two: Field)
    requires fs == [one, two]
    ensures FieldLines(fs) == [one.name + [':'] + one.value, two.name + [':'] + two.value]
  {
    assert fs[1..] == [two] && [two][1..] == [];
    assert FieldLines([]) == [] && FieldLines([two]) == [two.name + [':'] + two.value] + [];
  }

  lemma TwoLinesText(first: string, second: string, rest: string)
    ensures LinesText([first, second], rest) == first + ("\r\n" + (second + ("\r\n" + ("\r\n" + rest))))
  {
    assert [first, second][1..] == [second] && [second][1..] == [];
    assert LinesText([], rest) == "\r\n" + rest && LinesText([second], rest) == second + ("\r\n" + ("\r\n" + rest));
  }

  lemma HeaderThenSeparator(first: string, second: string, rest: string)
    ensures first + ("\r\n" + second) + (SEPARATOR + rest) == first + ("\r\n" + (second + (SEPARATOR + rest)))
  {}
}
