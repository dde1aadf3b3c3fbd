/** Characters and plain texts. */
module Text {
  import opened Decimal

  // ----- characters -----

  predicate IsLower(c: char) {
    'a' <= c <= 'z'
  }

  predicate IsUpper(c: char) {
    'A' <= c <= 'Z'
  }

  predicate IsIdentStart(c: char) {
    IsLower(c) || IsUpper(c) || c == '_'
  }

  predicate IsIdentChar(c: char) {
    IsIdentStart(c) || IsDigit(c)
  }

  /** `is_valid_ident`. */
  predicate IsValidIdent(s: string) {
    s != "" && IsIdentStart(s[0]) && forall i :: 0 <= i < |s| ==> IsIdentChar(s[i])
  }

  predicate IsBlank(c: char) {
    c == ' ' || c == '\t'
  }

  /** ASCII white space, as `char::is_whitespace` sees it. */
  predicate IsSpace(c: char) {
    '\t' <= c <= '\r' || c == ' '
  }

  // ----- texts -----

  lemma Assoc(a: string, b: string, c: string)
    ensures (a + b) + c == a + (b + c)
  {}

  lemma PartsAssoc(a: seq<string>, b: seq<string>, c: seq<string>)
    ensures a + (b + c) == a + b + c
  {}

  /** `str::trim`. */
  function Trim(s: string): string {
    if s == "" then ""
    else if IsSpace(s[0]) then Trim(s[1..])
    else if IsSpace(s[|s| - 1]) then Trim(s[..|s| - 1])
    else s
  }

  /** Nothing to trim at either end. */
  predicate Tight(s: string) {
    s != "" && !IsSpace(s[0]) && !IsSpace(s[|s| - 1])
  }

  lemma TrimTight(s: string)
    requires Tight(s)
    ensures Trim(s) == s
    ensures Trim(" " + s + " ") == s
  {
    assert (" " + s + " ")[1..] == s + " ";
    assert (s + " ")[..|s|] == s;
    assert Trim(s + " ") == Trim(s);
  }
}
