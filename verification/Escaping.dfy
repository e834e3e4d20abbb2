/** Escaping special characters with a backslash by one replacement per character,
    as both the search pattern and the STIX export do. */
module Escaping {
  import opened Text

  const ESCAPE_CHAR: char := '\\'

  /** `t.replace(c, "\\" + c)`. */
  function Escape(c: char, t: string): string {
    ReplaceAll(Lit([c]), [ESCAPE_CHAR, c], t)
  }

  /** The intended escape: each special character on its own, in one pass. */
  function EscapeEach(specials: set<char>, t: string): string {
    if t == "" then ""
    else (if t[0] in specials then [ESCAPE_CHAR, t[0]] else [t[0]]) + EscapeEach(specials, t[1..])
  }

  lemma EscapeStep(c: char, t: string)
    requires t != ""
    ensures Escape(c, t) == (if t[0] == c then [ESCAPE_CHAR, c] else [t[0]]) + Escape(c, t[1..])
  {
    StartsFromStep(Lit([c]), 0, t);
  }

  /** Escaping the escape character first starts the sequence ... */
  lemma {:induction false} EscapeFirst(t: string)
    ensures Escape(ESCAPE_CHAR, t) == EscapeEach({ESCAPE_CHAR}, t)
  {
    if t != "" {
      EscapeStep(ESCAPE_CHAR, t);
      EscapeFirst(t[1..]);
    }
  }

  /** ... and each further replacement adds one character, because it meets neither an
      escape character nor an already escaped one. */
  lemma {:induction false} EscapeNext(specials: set<char>, c: char, t: string)
    requires ESCAPE_CHAR in specials && c !in specials
    ensures Escape(c, EscapeEach(specials, t)) == EscapeEach(specials + {c}, t)
  {
    if t != "" {
      EscapeNext(specials, c, t[1..]);
      var rest := EscapeEach(specials, t[1..]);
      if t[0] in specials {
        EscapePair(c, t[0], rest);
      } else {
        EscapeStep(c, [t[0]] + rest);
        assert ([t[0]] + rest)[1..] == rest;
      }
    }
  }

  lemma EscapePair(c: char, special: char, rest: string)
    requires c != ESCAPE_CHAR && c != special
    ensures Escape(c, [ESCAPE_CHAR, special] + rest) == [ESCAPE_CHAR, special] + Escape(c, rest)
  {
    var x := [special] + rest;
    EscapeStep(c, [ESCAPE_CHAR] + x);
    assert ([ESCAPE_CHAR] + x)[1..] == x && x[1..] == rest && [ESCAPE_CHAR] + x == [ESCAPE_CHAR, special] + rest;
    EscapeStep(c, x);
  }

  /** Different texts have different escaped forms. */
  lemma {:induction false} EscapeInjective(specials: set<char>, a: string, b: string)
    requires ESCAPE_CHAR in specials && EscapeEach(specials, a) == EscapeEach(specials, b)
    ensures a == b
  {
    if a != "" && b != "" {
      var x, y := EscapeEach(specials, a), EscapeEach(specials, b);
      var n := if a[0] in specials then 2 else 1;
      assert x[0] == y[0] && (n == 2 ==> x[1] == y[1]);
      assert a[0] == b[0];
      assert x[n..] == EscapeEach(specials, a[1..]) && y[n..] == EscapeEach(specials, b[1..]);
      EscapeInjective(specials, a[1..], b[1..]);
      assert a == [a[0]] + a[1..] && b == [b[0]] + b[1..];
    }
  }
}
