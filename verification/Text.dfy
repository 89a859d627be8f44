/** White space at the ends of texts. */
module Text {
  /** The languages whose `trim` and `strip` the program uses; they differ in what is white space. */
  datatype Language = Rust | JavaScript | Python

  /** White space in all three languages. */
  predicate IsCommonSpace(c: char) {
    || '\t' <= c <= '\r' || c == ' ' || c == '\U{00A0}' || c == '\U{1680}' || '\U{2000}' <= c <= '\U{200A}'
    || c == '\U{2028}' || c == '\U{2029}' || c == '\U{202F}' || c == '\U{205F}' || c == '\U{3000}'
  }

  /**
    Rust's `char::is_whitespace`, what ECMAScript's `trim` removes and Python's `str.isspace`: the next
    line is none for ECMAScript, the byte order mark only for it, and the four separators U+001C to
    U+001F only for Python.
    */
  predicate IsSpace(l: Language, c: char) {
    || IsCommonSpace(c)
    || (c == '\U{0085}' && !l.JavaScript?)
    || (c == '\U{FEFF}' && l.JavaScript?)
    || ('\U{001C}' <= c <= '\U{001F}' && l.Python?)
  }

  predicate IsBlank(l: Language, s: string) {
    forall i :: 0 <= i < |s| ==> IsSpace(l, s[i])
  }

  function TrimStart(l: Language, s: string): string {
    if s != "" && IsSpace(l, s[0]) then TrimStart(l, s[1..]) else s
  }

  function TrimEnd(l: Language, s: string): string {
    if s != "" && IsSpace(l, s[|s| - 1]) then TrimEnd(l, s[..|s| - 1]) else s
  }

  function Trim(l: Language, s: string): string {
    TrimEnd(l, TrimStart(l, s))
  }

  lemma {:induction false} TrimStartDropsSpace(l: Language, s: string) returns (k: nat)
    ensures k <= |s| && TrimStart(l, s) == s[k..] && IsBlank(l, s[..k])
  {
    if s != "" && IsSpace(l, s[0]) {
      var rest := s[1..];
      var j := TrimStartDropsSpace(l, rest);
      k := j + 1;
      assert rest[j..] == s[k..];
      assert s[..k] == [s[0]] + rest[..j];
    } else {
      k := 0;
    }
  }

  lemma {:induction false} TrimEndDropsSpace(l: Language, s: string)
    ensures TrimEnd(l, s) <= s && IsBlank(l, s[|TrimEnd(l, s)|..])
  {
    if s != "" && IsSpace(l, s[|s| - 1]) {
      var front := s[..|s| - 1];
      TrimEndDropsSpace(l, front);
      assert s[|TrimEnd(l, s)|..] == front[|TrimEnd(l, front)|..] + [s[|s| - 1]];
    }
  }

  /** Trimming keeps a stretch of the text and drops only white space around it. */
  lemma TrimKeepsStretch(l: Language, s: string) returns (i: nat, j: nat)
    ensures i <= j <= |s| && Trim(l, s) == s[i..j]
    ensures IsBlank(l, s[..i]) && IsBlank(l, s[j..])
  {
    i := TrimStartDropsSpace(l, s);
    var rest := TrimStart(l, s);
    TrimEndDropsSpace(l, rest);
    j := i + |Trim(l, s)|;
    assert rest[..|Trim(l, s)|] == s[i..j] && rest[|Trim(l, s)|..] == s[j..];
  }

  lemma {:induction false} TrimEndEnds(l: Language, s: string)
    ensures TrimEnd(l, s) != "" ==> !IsSpace(l, TrimEnd(l, s)[|TrimEnd(l, s)| - 1])
  {
    if s != "" && IsSpace(l, s[|s| - 1]) {
      TrimEndEnds(l, s[..|s| - 1]);
    }
  }

  lemma {:induction false} TrimStartStarts(l: Language, s: string)
    ensures TrimStart(l, s) != "" ==> !IsSpace(l, TrimStart(l, s)[0])
  {
    if s != "" && IsSpace(l, s[0]) {
      TrimStartStarts(l, s[1..]);
    }
  }

  /** What is left after trimming starts and ends with something that is not white space. */
  lemma TrimmedEnds(l: Language, s: string)
    ensures Trim(l, s) != "" ==> !IsSpace(l, Trim(l, s)[0]) && !IsSpace(l, Trim(l, s)[|Trim(l, s)| - 1])
  {
    TrimStartStarts(l, s);
    TrimEndEnds(l, TrimStart(l, s));
    TrimEndDropsSpace(l, TrimStart(l, s));
  }
}
