/** Indicator search (app/repositories/ioc_repository.py): the text criterion is a LIKE
    pattern with an escape character, the predicate of section 8.5 of ISO/IEC 9075-2. */
module LikeSearch {
  import opened Wrappers
  import opened Text
  import opened Escaping

  /** The characters a LIKE pattern does not take literally. */
  const SPECIAL: set<char> := {ESCAPE_CHAR, '%', '_'}

  method EscapeLike(term: string) returns (r: string)
    ensures r == EscapeEach(SPECIAL, term)
  {
    r := term;
    ghost var done: set<char> := {};
    for k := 0 to 3
      invariant done ==
        if k == 0 then {} else if k == 1 then {ESCAPE_CHAR} else if k == 2 then {ESCAPE_CHAR, '%'} else SPECIAL
      invariant r == if k == 0 then term else EscapeEach(done, term)
    {
      var ch := [ESCAPE_CHAR, '%', '_'][k];
      if k == 0 {
        EscapeFirst(term);
      } else {
        EscapeNext(done, ch, term);
      }
      r := ReplaceAll(Lit([ch]), [ESCAPE_CHAR, ch], r);
      done := done + {ch};
    }
  }

  /** The LIKE predicate with ESCAPE. `fold` is the letter-case folding of ILIKE. */
  predicate Like(fold: char -> char, p: string, s: string)
    decreases |p| + |s|
  {
    if p == "" then s == ""
    else if p[0] == ESCAPE_CHAR then
      |p| >= 2 && s != "" && fold(p[1]) == fold(s[0]) && Like(fold, p[2..], s[1..])
    else if p[0] == '%' then
      Like(fold, p[1..], s) || (s != "" && Like(fold, p, s[1..]))
    else
      s != "" && (p[0] == '_' || fold(p[0]) == fold(s[0])) && Like(fold, p[1..], s[1..])
  }

  /** The standard's condition on a pattern: the escape character only ever stands
      before a special character. */
  predicate WellFormed(p: string) {
    if p == "" then true
    else if p[0] == ESCAPE_CHAR then |p| >= 2 && p[1] in SPECIAL && WellFormed(p[2..])
    else WellFormed(p[1..])
  }

  predicate PrefixEqual(fold: char -> char, t: string, s: string) {
    |t| <= |s| && forall k | 0 <= k < |t| :: fold(t[k]) == fold(s[k])
  }

  /** `t` is a substring of `s`, up to letter case. */
  ghost predicate Substring(fold: char -> char, t: string, s: string) {
    exists i | 0 <= i <= |s| :: PrefixEqual(fold, t, s[i..])
  }

  function SearchPattern(t: string): string {
    "%" + EscapeEach(SPECIAL, t) + "%"
  }

  lemma {:induction false} PercentMatchesAll(fold: char -> char, s: string)
    ensures Like(fold, "%", s)
  {
    if s != "" { PercentMatchesAll(fold, s[1..]); }
  }

  /** An escaped text matches exactly itself. */
  lemma {:induction false} EscapedIsLiteral(fold: char -> char, t: string, s: string)
    ensures Like(fold, EscapeEach(SPECIAL, t) + "%", s) <==> PrefixEqual(fold, t, s)
  {
    var p := EscapeEach(SPECIAL, t) + "%";
    if t == "" {
      assert p == "%";
      PercentMatchesAll(fold, s);
    } else {
      var n := if t[0] in SPECIAL then 2 else 1;
      assert p[n..] == EscapeEach(SPECIAL, t[1..]) + "%";
      assert p[n - 1] == t[0] && (n == 2 ==> p[0] == ESCAPE_CHAR);
      if s == "" {
      } else {
        EscapedIsLiteral(fold, t[1..], s[1..]);
        PrefixEqualStep(fold, t, s);
      }
    }
  }

  lemma {:induction false} PrefixEqualStep(fold: char -> char, t: string, s: string)
    requires t != "" && s != ""
    ensures PrefixEqual(fold, t, s) <==> fold(t[0]) == fold(s[0]) && PrefixEqual(fold, t[1..], s[1..])
  {
  }

  /** A leading `%` skips any number of characters. */
  lemma {:induction false} LeadingPercent(fold: char -> char, q: string, s: string)
    ensures Like(fold, "%" + q, s) <==> exists i | 0 <= i <= |s| :: Like(fold, q, s[i..])
    decreases |s|
  {
    assert ("%" + q)[1..] == q && s[0..] == s;
    if s != "" {
      LeadingPercent(fold, q, s[1..]);
      if Like(fold, "%" + q, s[1..]) {
        var i :| 0 <= i <= |s[1..]| && Like(fold, q, s[1..][i..]);
        assert s[1..][i..] == s[i + 1..];
      }
      if i :| 0 < i <= |s| && Like(fold, q, s[i..]) {
        assert s[1..][i - 1..] == s[i..];
      }
    }
  }

  /** Searching for a text finds exactly the strings that hold it literally. */
  lemma {:induction false} LiteralSearch(fold: char -> char, t: string, s: string)
    ensures Like(fold, SearchPattern(t), s) <==> Substring(fold, t, s)
  {
    var q := EscapeEach(SPECIAL, t) + "%";
    assert SearchPattern(t) == "%" + q;
    LeadingPercent(fold, q, s);
    forall i | 0 <= i <= |s| ensures Like(fold, q, s[i..]) <==> PrefixEqual(fold, t, s[i..]) {
      EscapedIsLiteral(fold, t, s[i..]);
    }
  }

  lemma {:induction false} EscapedWellFormed(t: string, tail: string)
    requires WellFormed(tail)
    ensures WellFormed(EscapeEach(SPECIAL, t) + tail)
  {
    if t == "" {
      assert EscapeEach(SPECIAL, t) + tail == tail;
    } else {
      EscapedWellFormed(t[1..], tail);
      var n := if t[0] in SPECIAL then 2 else 1;
      assert (EscapeEach(SPECIAL, t) + tail)[n..] == EscapeEach(SPECIAL, t[1..]) + tail;
    }
  }

  /** No search text makes the database reject the pattern. */
  lemma PatternWellFormed(t: string)
    ensures WellFormed(SearchPattern(t))
  {
    EscapedWellFormed(t, "%");
    assert SearchPattern(t)[1..] == EscapeEach(SPECIAL, t) + "%";
  }

  // ------------------------------------------------------------- the statement

  datatype Indicator = Indicator(ioctype: string, value: string, description: Option<string>,
                                 score: int, level: string, source: string, status: string)

  datatype Clause =
    | TypeIs(name: string)
    | MinScore(score: int)
    | LevelIs(name: string)
    | SourceIs(name: string)
    | StatusIs(name: string)
    | TextLike(pattern: string)

  /** The database's reading of one condition; a missing description is never like anything. */
  predicate Holds(fold: char -> char, c: Clause, row: Indicator) {
    match c
    case TypeIs(n) => row.ioctype == n
    case MinScore(n) => row.score >= n
    case LevelIs(n) => row.level == n
    case SourceIs(n) => row.source == n
    case StatusIs(n) => row.status == n
    case TextLike(p) => Like(fold, p, row.value) || (row.description.Some? && Like(fold, p, row.description.value))
  }

  predicate Selected(fold: char -> char, stmt: seq<Clause>, row: Indicator) {
    forall i | 0 <= i < |stmt| :: Holds(fold, stmt[i], row)
  }

  datatype Filters = Filters(ioctype: string, minScore: Option<int>, level: string,
                             source: string, status: string, query: string)

  /** What the caller of a search asked for; an empty text is no condition. */
  ghost predicate Asked(fold: char -> char, f: Filters, row: Indicator) {
    && (f.ioctype == "" || row.ioctype == f.ioctype)
    && (f.minScore.None? || row.score >= f.minScore.value)
    && (f.level == "" || row.level == f.level)
    && (f.source == "" || row.source == f.source)
    && (f.status == "" || row.status == f.status)
    && (f.query == "" || Substring(fold, f.query, row.value)
        || (row.description.Some? && Substring(fold, f.query, row.description.value)))
  }

  lemma {:induction false} SelectedWith(fold: char -> char, stmt: seq<Clause>, c: Clause, row: Indicator)
    ensures Selected(fold, stmt + [c], row) <==> Selected(fold, stmt, row) && Holds(fold, c, row)
  {
    assert (stmt + [c])[|stmt|] == c;
    assert forall i | 0 <= i < |stmt| :: (stmt + [c])[i] == stmt[i];
  }

  /** The statement built from the filters selects exactly the rows asked for. */
  method Filtered(fold: char -> char, f: Filters) returns (stmt: seq<Clause>)
    ensures forall row :: Selected(fold, stmt, row) <==> Asked(fold, f, row)
  {
    stmt := [];
    if f.ioctype != "" {
      stmt := Where(fold, stmt, TypeIs(f.ioctype));
    }
    if f.minScore.Some? {
      stmt := Where(fold, stmt, MinScore(f.minScore.value));
    }
    if f.level != "" {
      stmt := Where(fold, stmt, LevelIs(f.level));
    }
    if f.source != "" {
      stmt := Where(fold, stmt, SourceIs(f.source));
    }
    if f.status != "" {
      stmt := Where(fold, stmt, StatusIs(f.status));
    }
    if f.query != "" {
      var escaped := EscapeLike(f.query);
      stmt := Where(fold, stmt, TextLike("%" + escaped + "%"));
      forall s ensures Like(fold, "%" + escaped + "%", s) <==> Substring(fold, f.query, s) {
        LiteralSearch(fold, f.query, s);
      }
    }
  }

  method Where(ghost fold: char -> char, stmt: seq<Clause>, c: Clause) returns (r: seq<Clause>)
    ensures r == stmt + [c]
    ensures forall row :: Selected(fold, r, row) <==> Selected(fold, stmt, row) && Holds(fold, c, row)
  {
    r := stmt + [c];
    forall row ensures Selected(fold, r, row) <==> Selected(fold, stmt, row) && Holds(fold, c, row) {
      SelectedWith(fold, stmt, c, row);
    }
  }
}
