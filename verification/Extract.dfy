/** Span consumption while harvesting indicators out of free text (app/ioc/extract.py). */
module Extract {
  import opened Text
  import opened Harvest
  import Indicators

  datatype Span = Span(start: nat, end: nat)

  /** What a regular expression's matches in a text are taken to be: in order,
      disjoint, not empty, and free of blanks. */
  ghost predicate Matches(s: string, spans: seq<Span>) {
    && InOrder(|s|, spans)
    && (forall i, p | 0 <= i < |spans| && spans[i].start <= p < spans[i].end :: s[p] != ' ')
  }

  ghost predicate InOrder(n: nat, spans: seq<Span>) {
    && (forall i | 0 <= i < |spans| :: spans[i].start < spans[i].end <= n)
    && (forall i, j | 0 <= i < j < |spans| :: spans[i].end <= spans[j].start)
  }

  /** A pattern is any matcher, with the check its trimmed matches must pass. */
  datatype Pattern = Pattern(find: string -> seq<Span>, keep: string -> bool)

  ghost predicate Finder(p: Pattern) {
    forall s :: Matches(s, p.find(s))
  }

  ghost predicate Finders(patterns: seq<Pattern>) {
    forall i | 0 <= i < |patterns| :: Finder(patterns[i])
  }

  const EXECUTABLES: set<string> := {"exe", "dll", "sys", "so", "dylib", "bin", "msi", "jar", "class", "scr", "lnk"}

  const SCRIPTS: set<string> :=
    {"js", "ts", "py", "rb", "pl", "ps1", "sh", "bat", "cmd", "vbs", "php", "asp", "aspx", "jsp"}

  const DOCUMENTS: set<string> := {"doc", "docx", "xls", "xlsx", "ppt", "pptx", "pdf", "rtf", "txt", "md"}

  const DATA: set<string> :=
    {"csv", "json", "xml", "yaml", "yml", "html", "htm", "log", "dat", "ini", "cfg", "conf", "tmp"}

  const ARCHIVES: set<string> :=
    {"zip", "rar", "gz", "tar", "7z", "iso", "cab", "png", "jpg", "jpeg", "gif", "svg", "ico", "mp4", "avi"}

  const FILE_SUFFIXES: set<string> := EXECUTABLES + SCRIPTS + DOCUMENTS + DATA + ARCHIVES

  /** The part after the last dot. */
  function LastLabel(s: string): (r: string)
    ensures |r| <= |s| && r == s[|s| - |r|..] && '.' !in r
    ensures |r| < |s| ==> s[|s| - |r| - 1] == '.'
  {
    if s == "" || s[|s| - 1] == '.' then "" else LastLabel(s[..|s| - 1]) + [s[|s| - 1]]
  }

  predicate PlausibleDomain(candidate: string) {
    Lower(LastLabel(candidate)) !in FILE_SUFFIXES
  }

  const TRAILING: string := ".,;:)]}\"'"

  /** The longest prefix that does not end in closing punctuation. */
  function TrimTrailing(s: string): (r: string)
    ensures r <= s && (r == "" || r[|r| - 1] !in TRAILING)
    ensures forall k | |r| <= k < |s| :: s[k] in TRAILING
  {
    if s != "" && s[|s| - 1] in TRAILING then TrimTrailing(s[..|s| - 1]) else s
  }

  /** Trailing closing punctuation is dropped; these are the characters. */
  lemma ClosingPunctuation(s: string, c: char)
    ensures if c in {'.', ',', ';', ':', ')', ']', '}', '"', '\''}
      then TrimTrailing(s + [c]) == TrimTrailing(s)
      else TrimTrailing(s + [c]) == s + [c]
  {
    assert (s + [c])[..|s|] == s;
  }

  lemma {:induction false} LastLabelIs(u: string, w: string)
    requires '.' !in w
    ensures LastLabel(u + "." + w) == w
  {
    var s := u + "." + w;
    if w != "" {
      var n := |w| - 1;
      assert s[..|s| - 1] == u + "." + w[..n];
      LastLabelIs(u, w[..n]);
    }
  }

  /** A name is plausible exactly when what follows its last dot, in lower case, is no listed suffix. */
  lemma PlausibleIff(u: string, w: string)
    requires '.' !in w
    ensures PlausibleDomain(u + "." + w) <==> Lower(w) !in FILE_SUFFIXES
  {
    LastLabelIs(u, w);
  }

  /** Some of the listed suffixes, in any letter case. */
  lemma FileNames(u: string, w: string)
    requires '.' !in w && Lower(w) in {"exe", "dll", "js", "ps1", "pdf", "docx", "json", "html", "zip", "7z"}
    ensures !PlausibleDomain(u + "." + w)
  {
    PlausibleIff(u, w);
    SomeSuffixes(Lower(w));
  }

  lemma SomeSuffixes(w: string)
    requires w in {"exe", "dll", "js", "ps1", "pdf", "docx", "json", "html", "zip", "7z"}
    ensures w in FILE_SUFFIXES
  {
    assert w in {"exe", "dll"} ==> w in EXECUTABLES;
    assert w in {"js", "ps1"} ==> w in SCRIPTS;
    assert w in {"pdf", "docx"} ==> w in DOCUMENTS;
    assert w in {"json", "html"} ==> w in DATA;
    assert w in {"zip", "7z"} ==> w in ARCHIVES;
  }

  // ------------------------------------------------------------- specification

  /** A span replaced by one blank. */
  function Without<T>(s: seq<T>, span: Span, blank: T): seq<T>
    requires span.start <= span.end <= |s|
  {
    s[..span.start] + [blank] + s[span.end..]
  }

  /** Each span replaced by one blank, the last span first. */
  function BlankOut<T>(s: seq<T>, spans: seq<Span>, blank: T): seq<T>
    requires InOrder(|s|, spans)
    decreases |spans|
  {
    if spans == [] then s
    else
      var last := spans[|spans| - 1];
      BlankOut(Without(s, last, blank), spans[..|spans| - 1], blank)
  }

  /** What one match yields. */
  function Offer(keep: string -> bool, matched: string): seq<string> {
    var value := TrimTrailing(matched);
    if !keep(value) then [] else [value]
  }

  function Offers(keep: string -> bool, s: string, spans: seq<Span>): seq<string>
    requires InOrder(|s|, spans)
  {
    if spans == [] then []
    else
      var n := |spans| - 1;
      Offers(keep, s, spans[..n]) + Offer(keep, s[spans[n].start..spans[n].end])
  }

  ghost function CandidatesFrom(patterns: seq<Pattern>, remaining: string): seq<string>
    requires Finders(patterns)
  {
    if patterns == [] then []
    else
      var spans := patterns[0].find(remaining);
      assert Matches(remaining, spans);
      Offers(patterns[0].keep, remaining, spans)
        + CandidatesFrom(patterns[1..], BlankOut(remaining, spans, ' '))
  }

  // ----------------------------------------------------------------- the passes

  function Join(chunks: seq<string>): string {
    if chunks == [] then "" else Join(chunks[..|chunks| - 1]) + chunks[|chunks| - 1]
  }

  lemma {:induction false} BlankAppend<T>(s: seq<T>, rest: seq<T>, spans: seq<Span>, blank: T)
    requires InOrder(|s|, spans)
    ensures BlankOut(s + rest, spans, blank) == BlankOut(s, spans, blank) + rest
    decreases |spans|
  {
    if spans != [] {
      var last := spans[|spans| - 1];
      var t := Without(s, last, blank);
      assert Without(s + rest, last, blank) == t + rest;
      BlankAppend(t, rest, spans[..|spans| - 1], blank);
    }
  }

  method Blank(remaining: string, matches: seq<Span>) returns (r: string)
    requires Matches(remaining, matches)
    ensures r == BlankOut(remaining, matches, ' ')
  {
    var chunks: seq<string> := [];
    var cursor := 0;
    for k := 0 to |matches|
      invariant cursor == if k == 0 then 0 else matches[k - 1].end
      invariant 0 <= cursor <= |remaining|
      invariant Join(chunks) == BlankOut(remaining[..cursor], matches[..k], ' ')
    {
      var m := matches[k];
      BlankStep(remaining, matches, k, cursor);
      JoinAppend(chunks, remaining[cursor..m.start]);
      JoinAppend(chunks + [remaining[cursor..m.start]], " ");
      chunks := chunks + [remaining[cursor..m.start]];
      chunks := chunks + [" "];
      cursor := m.end;
    }
    BlankEnd(remaining, matches, cursor);
    JoinAppend(chunks, remaining[cursor..]);
    chunks := chunks + [remaining[cursor..]];
    r := Join(chunks);
  }

  lemma BlankEnd(s: string, spans: seq<Span>, cursor: nat)
    requires Matches(s, spans) && cursor == if spans == [] then 0 else spans[|spans| - 1].end
    ensures cursor <= |s| && spans[..|spans|] == spans
    ensures BlankOut(s, spans, ' ') == BlankOut(s[..cursor], spans, ' ') + s[cursor..]
  {
    BlankAppend(s[..cursor], s[cursor..], spans, ' ');
    assert s[..cursor] + s[cursor..] == s;
  }

  lemma JoinAppend(chunks: seq<string>, chunk: string)
    ensures Join(chunks + [chunk]) == Join(chunks) + chunk
  {
  }

  lemma BlankStep(s: string, spans: seq<Span>, k: nat, cursor: nat)
    requires Matches(s, spans) && k < |spans|
    requires cursor == if k == 0 then 0 else spans[k - 1].end
    ensures cursor <= spans[k].start
    ensures BlankOut(s[..spans[k].end], spans[..k + 1], ' ')
         == BlankOut(s[..cursor], spans[..k], ' ') + s[cursor..spans[k].start] + " "
  {
    var m := spans[k];
    var gap := s[cursor..m.start] + " ";
    assert spans[..k + 1][..k] == spans[..k];
    assert s[..m.end][..m.start] + [' '] + s[..m.end][m.end..] == s[..cursor] + gap;
    BlankAppend(s[..cursor], gap, spans[..k], ' ');
  }

  lemma {:induction false} OffersStep(keep: string -> bool, s: string, spans: seq<Span>, k: nat)
    requires Matches(s, spans) && k < |spans|
    ensures Offers(keep, s, spans[..k + 1])
         == Offers(keep, s, spans[..k]) + Offer(keep, s[spans[k].start..spans[k].end])
  {
    assert spans[..k + 1][..k] == spans[..k];
  }

  lemma {:induction false} CandidatesStep(patterns: seq<Pattern>, k: nat, remaining: string)
    requires Finders(patterns) && k < |patterns|
    ensures Matches(remaining, patterns[k].find(remaining))
    ensures var spans := patterns[k].find(remaining);
      CandidatesFrom(patterns[k..], remaining) == Offers(patterns[k].keep, remaining, spans)
        + CandidatesFrom(patterns[k + 1..], BlankOut(remaining, spans, ' '))
  {
  }

  method Candidates(patterns: seq<Pattern>, text: string) returns (found: seq<string>)
    requires Finders(patterns)
    ensures found == CandidatesFrom(patterns, text)
  {
    var remaining := text;
    found := [];
    ghost var todo := CandidatesFrom(patterns, text);
    assert patterns[0..] == patterns;
    for k := 0 to |patterns|
      invariant todo == CandidatesFrom(patterns[k..], remaining)
      invariant found + todo == CandidatesFrom(patterns, text)
    {
      CandidatesStep(patterns, k, remaining);
      var values, blanked := RunPass(patterns[k], remaining);
      todo := CandidatesFrom(patterns[k + 1..], blanked);
      ConcatAssoc(found, values, todo);
      remaining := blanked;
      found := found + values;
    }
  }

  /** One pass: blank out what the pattern claims, then yield the claimed values. */
  method RunPass(pattern: Pattern, remaining: string) returns (values: seq<string>, blanked: string)
    requires Finder(pattern)
    ensures Matches(remaining, pattern.find(remaining))
    ensures values == Offers(pattern.keep, remaining, pattern.find(remaining))
    ensures blanked == BlankOut(remaining, pattern.find(remaining), ' ')
  {
    var matches := pattern.find(remaining);
    assert Matches(remaining, matches);
    if matches == [] {
      return [], remaining;
    }
    blanked := Blank(remaining, matches);
    values := Yields(pattern, remaining, matches);
  }

  /** The second loop over a pattern's matches, which yields their values. */
  method Yields(pattern: Pattern, before: string, matches: seq<Span>) returns (values: seq<string>)
    requires Matches(before, matches)
    ensures values == Offers(pattern.keep, before, matches)
  {
    values := [];
    for i := 0 to |matches|
      invariant values == Offers(pattern.keep, before, matches[..i])
    {
      OffersStep(pattern.keep, before, matches, i);
      var value := TrimTrailing(before[matches[i].start..matches[i].end]);
      if !pattern.keep(value) {
        continue;
      }
      values := values + [value];
    }
    assert matches[..|matches|] == matches;
  }

  /** The pattern list of a document: only the last one, for bare domains, checks plausibility. */
  function DocumentPatterns(finds: seq<string -> seq<Span>>): (ps: seq<Pattern>)
    ensures |ps| == |finds| && forall i | 0 <= i < |ps| :: ps[i].find == finds[i]
    ensures forall i, c | 0 <= i < |ps| :: ps[i].keep(c) <==> i < |ps| - 1 || PlausibleDomain(c)
  {
    seq(|finds|, i requires 0 <= i < |finds| =>
      Pattern(finds[i], if i == |finds| - 1 then PlausibleDomain else (_ => true)))
  }

  /** A name that ends in a dot and a listed suffix, in any letter case. */
  ghost predicate FileName(v: string) {
    exists u, w | '.' !in w && Lower(w) in FILE_SUFFIXES :: v == u + "." + w
  }

  lemma PlausibleIsNoFile(v: string)
    ensures PlausibleDomain(v) ==> !FileName(v)
  {
    if FileName(v) {
      var u, w :| '.' !in w && Lower(w) in FILE_SUFFIXES && v == u + "." + w;
      PlausibleIff(u, w);
    }
  }

  lemma {:induction false} OffersKept(keep: string -> bool, s: string, spans: seq<Span>)
    requires InOrder(|s|, spans)
    ensures forall v | v in Offers(keep, s, spans) :: keep(v)
  {
    if spans != [] {
      OffersKept(keep, s, spans[..|spans| - 1]);
    }
  }

  lemma {:induction false} LastPassKept(pattern: Pattern, remaining: string)
    requires Finder(pattern)
    ensures forall v | v in CandidatesFrom([pattern], remaining) :: pattern.keep(v)
  {
    var spans := pattern.find(remaining);
    assert Matches(remaining, spans);
    assert [pattern][1..] == [];
    OffersKept(pattern.keep, remaining, spans);
  }

  /** The last pattern never yields a file name. */
  lemma {:induction false} NoFileNames(finds: seq<string -> seq<Span>>, remaining: string, v: string)
    requires finds != [] && Finders(DocumentPatterns(finds))
    requires v in CandidatesFrom(DocumentPatterns(finds)[|finds| - 1..], remaining)
    ensures !FileName(v)
  {
    var last := DocumentPatterns(finds)[|finds| - 1];
    assert DocumentPatterns(finds)[|finds| - 1..] == [last];
    LastPassKept(last, remaining);
    assert last.keep(v);
    PlausibleIsNoFile(v);
  }

  /** Every indicator of a text: refang, find candidates, keep the distinct valid ones. */
  method ExtractFromText(classify: Classifier, finds: seq<string -> seq<Span>>, text: string, limit: int)
    returns (found: seq<string>)
    requires Finders(DocumentPatterns(finds))
    ensures found == Harvested(classify, CandidatesFrom(DocumentPatterns(finds), Indicators.Refanged(text)), limit)
  {
    var refanged := Indicators.Refang(text);
    var candidates := Candidates(DocumentPatterns(finds), refanged);
    found := Collect(classify, candidates, limit);
  }

  // ------------------------------------------------- every span is consumed once

  /** The index in the original text of each remaining character; `GAP` for a blank
      that stands for a consumed span. */
  const GAP := -1

  ghost predicate Faithful(text: string, remaining: string, origin: seq<int>) {
    && |remaining| == |origin|
    && (forall i | 0 <= i < |origin| :: if origin[i] == GAP then remaining[i] == ' '
                                        else 0 <= origin[i] < |text| && remaining[i] == text[origin[i]])
    && (forall i, j | 0 <= i < j < |origin| && j - i == 1 && origin[i] != GAP && origin[j] != GAP ::
        origin[j] == origin[i] + 1)
  }

  /** The surviving characters keep their order. */
  ghost predicate Increasing(origin: seq<int>) {
    forall i, j | 0 <= i < j < |origin| && origin[i] != GAP && origin[j] != GAP :: origin[i] < origin[j]
  }

  datatype Claim = Claim(span: Span, keep: string -> bool)

  /** How many claims cover the p-th character of the text. */
  function Owners(claims: seq<Claim>, p: int): nat {
    if claims == [] then 0
    else (if claims[0].span.start <= p < claims[0].span.end then 1 else 0) + Owners(claims[1..], p)
  }

  /** How often the p-th character of the text is still there. */
  function Survives(origin: seq<int>, p: int): nat {
    if origin == [] then 0 else (if origin[0] == p then 1 else 0) + Survives(origin[1..], p)
  }

  lemma {:induction false} SurvivesAdd(a: seq<int>, b: seq<int>, p: int)
    ensures Survives(a + b, p) == Survives(a, p) + Survives(b, p)
  {
    if a == [] {
      assert a + b == b;
    } else {
      assert (a + b)[1..] == a[1..] + b;
      SurvivesAdd(a[1..], b, p);
    }
  }

  /** Every character of the text is claimed exactly once or survives exactly once. */
  ghost predicate Accounted(text: string, origin: seq<int>, claims: seq<Claim>) {
    && (forall c | c in claims :: c.span.start < c.span.end <= |text|)
    && (forall p | 0 <= p < |text| :: Owners(claims, p) + Survives(origin, p) == 1)
  }

  /** The slice of the original text that a span of the remaining text stands for. */
  function Origin(origin: seq<int>, s: Span): Span
    requires s.start < s.end <= |origin| && origin[s.start] >= 0 && origin[s.end - 1] >= 0
  {
    Span(origin[s.start], origin[s.end - 1] + 1)
  }

  function Slice(text: string, s: Span): string {
    if s.start <= s.end <= |text| then text[s.start..s.end] else ""
  }

  lemma {:induction false} PassIncreasing(origin: seq<int>, spans: seq<Span>)
    requires Increasing(origin) && InOrder(|origin|, spans)
    ensures Increasing(BlankOut(origin, spans, GAP))
    decreases |spans|
  {
    if spans != [] {
      var s := spans[|spans| - 1];
      var o := Without(origin, s, GAP);
      forall i, j | 0 <= i < j < |o| && o[i] != GAP && o[j] != GAP ensures o[i] < o[j] {
        var a := if i < s.start then i else i - 1 - s.start + s.end;
        var b := if j < s.start then j else j - 1 - s.start + s.end;
        assert o[i] == origin[a] && o[j] == origin[b];
      }
      PassIncreasing(o, spans[..|spans| - 1]);
    }
  }

  lemma {:induction false} LedgerIncreasing(patterns: seq<Pattern>, text: string, remaining: string, origin: seq<int>)
    requires Finders(patterns) && Faithful(text, remaining, origin) && Increasing(origin)
    ensures Increasing(LedgerFrom(patterns, text, remaining, origin).origin)
  {
    if patterns != [] {
      var spans := patterns[0].find(remaining);
      assert Matches(remaining, spans);
      PassKept(text, remaining, origin, spans, patterns[0].keep);
      PassIncreasing(origin, spans);
      LedgerIncreasing(patterns[1..], text, BlankOut(remaining, spans, ' '), BlankOut(origin, spans, GAP));
    }
  }

  lemma {:induction false} OwnersAdd(a: seq<Claim>, b: seq<Claim>, p: int)
    ensures Owners(a + b, p) == Owners(a, p) + Owners(b, p)
  {
    if a == [] {
      assert a + b == b;
    } else {
      assert (a + b)[1..] == a[1..] + b;
      OwnersAdd(a[1..], b, p);
    }
  }

  lemma {:induction false} OwnersSingle(c: Claim, p: int)
    ensures Owners([c], p) == if c.span.start <= p < c.span.end then 1 else 0
  {
  }

  /** A span without blanks of the remaining text is a contiguous slice of the original. */
  lemma {:induction false} Contiguous(text: string, remaining: string, origin: seq<int>, s: Span, k: nat)
    requires Faithful(text, remaining, origin) && s.start <= k < s.end <= |remaining|
    requires forall p | s.start <= p < s.end :: remaining[p] != ' '
    ensures origin[s.start] != GAP && origin[k] == origin[s.start] + (k - s.start)
  {
    assert forall p | s.start <= p < s.end :: origin[p] != GAP;
    if k > s.start {
      Contiguous(text, remaining, origin, s, k - 1);
      assert origin[k - 1] != GAP && origin[k] != GAP;
    }
  }

  lemma SliceIsOriginal(text: string, remaining: string, origin: seq<int>, s: Span)
    requires Faithful(text, remaining, origin) && s.start < s.end <= |remaining|
    requires forall p | s.start <= p < s.end :: remaining[p] != ' '
    ensures origin[s.start] >= 0 && origin[s.end - 1] == origin[s.start] + (s.end - 1 - s.start) < |text|
    ensures remaining[s.start..s.end] == Slice(text, Origin(origin, s))
  {
    forall k | s.start <= k < s.end ensures origin[k] == origin[s.start] + (k - s.start) && origin[k] != GAP {
      Contiguous(text, remaining, origin, s, k);
    }
  }

  /** The run of consecutive indices is counted once each. */
  lemma {:induction false} RunCount(origin: seq<int>, a: nat, b: nat, p: int)
    requires a <= b <= |origin| && forall k | a <= k < b :: origin[k] == origin[a] + (k - a)
    ensures Survives(origin[a..b], p) == if a < b && origin[a] <= p < origin[a] + (b - a) then 1 else 0
    decreases b
  {
    if a < b {
      RunCount(origin, a, b - 1, p);
      SurvivesAdd(origin[a..b - 1], [origin[b - 1]], p);
      assert origin[a..b] == origin[a..b - 1] + [origin[b - 1]];
    }
  }

  /** One consumed span leaves a faithful text. */
  lemma RemoveOne(text: string, remaining: string, origin: seq<int>, s: Span)
    requires Faithful(text, remaining, origin) && s.start < s.end <= |remaining|
    ensures Faithful(text, Without(remaining, s, ' '), Without(origin, s, GAP))
  {
  }

  lemma RemoveCount(text: string, remaining: string, origin: seq<int>, s: Span, p: nat)
    requires Faithful(text, remaining, origin) && s.start < s.end <= |remaining|
    requires forall p | s.start <= p < s.end :: remaining[p] != ' '
    ensures Survives(Without(origin, s, GAP), p)
        + (if origin[s.start] <= p < origin[s.end - 1] + 1 then 1 else 0) == Survives(origin, p)
  {
    forall k | s.start <= k < s.end ensures origin[k] == origin[s.start] + (k - s.start) {
      Contiguous(text, remaining, origin, s, k);
    }
    RunCount(origin, s.start, s.end, p);
    CountParts(origin, s.start, s.end, p);
  }

  lemma CountParts(origin: seq<int>, a: nat, b: nat, p: nat)
    requires a <= b <= |origin|
    ensures Survives(origin[..a] + [GAP] + origin[b..], p) + Survives(origin[a..b], p) == Survives(origin, p)
  {
    SurvivesAdd(origin[..a] + [GAP], origin[b..], p);
    SurvivesAdd(origin[..a], [GAP], p);
    SurvivesAdd(origin[..a] + origin[a..b], origin[b..], p);
    SurvivesAdd(origin[..a], origin[a..b], p);
    assert origin == origin[..a] + origin[a..b] + origin[b..];
  }

  ghost predicate Traceable(origin: seq<int>, spans: seq<Span>) {
    forall i | 0 <= i < |spans| ::
      spans[i].start < spans[i].end <= |origin| && origin[spans[i].start] >= 0 && origin[spans[i].end - 1] >= 0
  }

  /** The claims of one pass, in the order of its matches. */
  ghost function PassClaims(origin: seq<int>, spans: seq<Span>, keep: string -> bool): seq<Claim>
    requires Traceable(origin, spans)
  {
    if spans == [] then []
    else
      var n := |spans| - 1;
      PassClaims(origin, spans[..n], keep) + [Claim(Origin(origin, spans[n]), keep)]
  }

  lemma MatchesTraceable(text: string, remaining: string, origin: seq<int>, spans: seq<Span>)
    requires Faithful(text, remaining, origin) && Matches(remaining, spans)
    ensures Traceable(origin, spans)
  {
  }

  lemma {:induction false} PassClaimsPrefix(origin: seq<int>, origin': seq<int>, spans: seq<Span>,
          keep: string -> bool, n: nat)
    requires n <= |origin| && n <= |origin'| && origin[..n] == origin'[..n]
    requires Traceable(origin, spans) && forall i | 0 <= i < |spans| :: spans[i].end <= n
    ensures Traceable(origin', spans) && PassClaims(origin, spans, keep) == PassClaims(origin', spans, keep)
  {
    assert forall k | 0 <= k < n :: origin[k] == origin[..n][k] && origin'[k] == origin'[..n][k];
    if spans != [] {
      PassClaimsPrefix(origin, origin', spans[..|spans| - 1], keep, n);
    }
  }

  /** One pass leaves a faithful text. */
  lemma {:induction false} PassFaithful(text: string, remaining: string, origin: seq<int>, spans: seq<Span>)
    requires Faithful(text, remaining, origin) && Matches(remaining, spans)
    ensures Faithful(text, BlankOut(remaining, spans, ' '), BlankOut(origin, spans, GAP))
    decreases |spans|
  {
    if spans != [] {
      var s := spans[|spans| - 1];
      RemoveOne(text, remaining, origin, s);
      MatchesBefore(remaining, spans);
      PassFaithful(text, Without(remaining, s, ' '),
                   Without(origin, s, GAP), spans[..|spans| - 1]);
    }
  }

  lemma MatchesBefore(s: string, spans: seq<Span>)
    requires Matches(s, spans) && spans != []
    ensures var last := spans[|spans| - 1];
      Matches(Without(s, last, ' '), spans[..|spans| - 1])
  {
  }

  lemma {:induction false} PassInRange(text: string, remaining: string, origin: seq<int>, spans: seq<Span>,
          keep: string -> bool)
    requires Faithful(text, remaining, origin) && Matches(remaining, spans) && Traceable(origin, spans)
    ensures forall c | c in PassClaims(origin, spans, keep) :: c.span.start < c.span.end <= |text|
  {
    if spans != [] {
      var n := |spans| - 1;
      PassInRange(text, remaining, origin, spans[..n], keep);
      SliceIsOriginal(text, remaining, origin, spans[n]);
    }
  }

  /** One pass claims exactly the characters it takes out of the remaining text. */
  lemma {:induction false} PassCount(text: string, remaining: string, origin: seq<int>, spans: seq<Span>,
          keep: string -> bool, p: nat)
    requires Faithful(text, remaining, origin) && Matches(remaining, spans) && Traceable(origin, spans)
    ensures Survives(BlankOut(origin, spans, GAP), p) + Owners(PassClaims(origin, spans, keep), p)
        == Survives(origin, p)
    decreases |spans|
  {
    if spans != [] {
      var s, init := spans[|spans| - 1], spans[..|spans| - 1];
      PassBefore(text, remaining, origin, spans);
      PassCount(text, Without(remaining, s, ' '), Without(origin, s, GAP), init, keep, p);
      RemoveCount(text, remaining, origin, s, p);
      LastClaimCount(origin, spans, keep, p);
    }
  }

  /** What the last span of a pass adds to the count. */
  lemma {:induction false} LastClaimCount(origin: seq<int>, spans: seq<Span>, keep: string -> bool, p: nat)
    requires InOrder(|origin|, spans) && Traceable(origin, spans) && spans != []
    ensures var s, init := spans[|spans| - 1], spans[..|spans| - 1];
      && Traceable(Without(origin, s, GAP), init)
      && Survives(BlankOut(origin, spans, GAP), p) == Survives(BlankOut(Without(origin, s, GAP), init, GAP), p)
      && Owners(PassClaims(origin, spans, keep), p) == Owners(PassClaims(Without(origin, s, GAP), init, keep), p)
           + (if origin[s.start] <= p < origin[s.end - 1] + 1 then 1 else 0)
  {
    LastOwner(origin, spans, keep, p);
    ClaimsBefore(origin, spans, keep);
  }

  /** Removing the last span leaves the claims of the earlier ones as they are. */
  lemma {:induction false} ClaimsBefore(origin: seq<int>, spans: seq<Span>, keep: string -> bool)
    requires InOrder(|origin|, spans) && Traceable(origin, spans) && spans != []
    ensures var s, init := spans[|spans| - 1], spans[..|spans| - 1];
      var origin' := Without(origin, s, GAP);
      Traceable(origin', init) && PassClaims(origin', init, keep) == PassClaims(origin, init, keep)
  {
    var s, init := spans[|spans| - 1], spans[..|spans| - 1];
    var origin' := Without(origin, s, GAP);
    assert origin'[..s.start] == origin[..s.start];
    PassClaimsPrefix(origin, origin', init, keep, s.start);
  }

  /** Removing the last span leaves a state the earlier spans fit. */
  lemma PassBefore(text: string, remaining: string, origin: seq<int>, spans: seq<Span>)
    requires Faithful(text, remaining, origin) && Matches(remaining, spans) && spans != []
    ensures var s, init := spans[|spans| - 1], spans[..|spans| - 1];
      var remaining', origin' := Without(remaining, s, ' '), Without(origin, s, GAP);
      && Faithful(text, remaining', origin') && Matches(remaining', init) && Traceable(origin', init)
  {
    var s, init := spans[|spans| - 1], spans[..|spans| - 1];
    var remaining', origin' := Without(remaining, s, ' '), Without(origin, s, GAP);
    RemoveOne(text, remaining, origin, s);
    MatchesBefore(remaining, spans);
    MatchesTraceable(text, remaining', origin', init);
  }

  lemma {:induction false} LastOwner(origin: seq<int>, spans: seq<Span>, keep: string -> bool, p: nat)
    requires Traceable(origin, spans) && spans != []
    ensures var s := spans[|spans| - 1];
      Owners(PassClaims(origin, spans, keep), p)
        == Owners(PassClaims(origin, spans[..|spans| - 1], keep), p)
           + (if origin[s.start] <= p < origin[s.end - 1] + 1 then 1 else 0)
  {
    var n := |spans| - 1;
    var last := Claim(Origin(origin, spans[n]), keep);
    OwnersAdd(PassClaims(origin, spans[..n], keep), [last], p);
    OwnersSingle(last, p);
  }

  /** One pass keeps the account. */
  lemma {:induction false} PassKept(text: string, remaining: string, origin: seq<int>, spans: seq<Span>,
          keep: string -> bool)
    requires Faithful(text, remaining, origin) && Matches(remaining, spans)
    ensures Traceable(origin, spans)
    ensures Faithful(text, BlankOut(remaining, spans, ' '), BlankOut(origin, spans, GAP))
    ensures forall c | c in PassClaims(origin, spans, keep) :: c.span.start < c.span.end <= |text|
    ensures forall p | 0 <= p < |text| ::
      Survives(BlankOut(origin, spans, GAP), p) + Owners(PassClaims(origin, spans, keep), p) == Survives(origin, p)
  {
    MatchesTraceable(text, remaining, origin, spans);
    PassFaithful(text, remaining, origin, spans);
    PassInRange(text, remaining, origin, spans, keep);
    forall p | 0 <= p < |text|
      ensures Survives(BlankOut(origin, spans, GAP), p) + Owners(PassClaims(origin, spans, keep), p)
          == Survives(origin, p)
    {
      PassCount(text, remaining, origin, spans, keep, p);
    }
  }

  // --------------------------------------------------------------- all the passes

  /** All claims, pass by pass, and what is left of the text with its origin. */
  datatype Ledger = Ledger(claims: seq<Claim>, remaining: string, origin: seq<int>)

  ghost function LedgerFrom(patterns: seq<Pattern>, text: string, remaining: string, origin: seq<int>): (l: Ledger)
    requires Finders(patterns) && Faithful(text, remaining, origin)
    ensures Faithful(text, l.remaining, l.origin)
  {
    if patterns == [] then Ledger([], remaining, origin)
    else
      var spans := patterns[0].find(remaining);
      assert Matches(remaining, spans);
      PassKept(text, remaining, origin, spans, patterns[0].keep);
      var rest := LedgerFrom(patterns[1..], text, BlankOut(remaining, spans, ' '), BlankOut(origin, spans, GAP));
      Ledger(PassClaims(origin, spans, patterns[0].keep) + rest.claims, rest.remaining, rest.origin)
  }

  lemma {:induction false} LedgerAccounts(patterns: seq<Pattern>, text: string, remaining: string, origin: seq<int>)
    requires Finders(patterns) && Faithful(text, remaining, origin)
    ensures var l := LedgerFrom(patterns, text, remaining, origin);
      && (forall c | c in l.claims :: c.span.start < c.span.end <= |text|)
      && (forall p | 0 <= p < |text| :: Survives(l.origin, p) + Owners(l.claims, p) == Survives(origin, p))
  {
    if patterns != [] {
      var spans, keep := patterns[0].find(remaining), patterns[0].keep;
      assert Matches(remaining, spans);
      PassKept(text, remaining, origin, spans, keep);
      var remaining', origin' := BlankOut(remaining, spans, ' '), BlankOut(origin, spans, GAP);
      LedgerAccounts(patterns[1..], text, remaining', origin');
      var rest := LedgerFrom(patterns[1..], text, remaining', origin');
      forall p ensures Owners(PassClaims(origin, spans, keep) + rest.claims, p)
                    == Owners(PassClaims(origin, spans, keep), p) + Owners(rest.claims, p)
      {
        OwnersAdd(PassClaims(origin, spans, keep), rest.claims, p);
      }
    }
  }

  /** What the claims yield: each claimed slice of the original text, trimmed, with
      implausible domains left out. */
  function Claimed(text: string, claims: seq<Claim>): seq<string> {
    if claims == [] then []
    else Offer(claims[0].keep, Slice(text, claims[0].span)) + Claimed(text, claims[1..])
  }

  lemma {:induction false} ClaimedAdd(text: string, a: seq<Claim>, b: seq<Claim>)
    ensures Claimed(text, a + b) == Claimed(text, a) + Claimed(text, b)
  {
    if a == [] {
      assert a + b == b;
    } else {
      assert (a + b)[1..] == a[1..] + b;
      ClaimedAdd(text, a[1..], b);
    }
  }

  lemma {:induction false} LastClaimed(text: string, origin: seq<int>, spans: seq<Span>, keep: string -> bool)
    requires Traceable(origin, spans) && spans != []
    ensures var n := |spans| - 1;
      Claimed(text, PassClaims(origin, spans, keep))
        == Claimed(text, PassClaims(origin, spans[..n], keep)) + Offer(keep, Slice(text, Origin(origin, spans[n])))
  {
    var n := |spans| - 1;
    var last := Claim(Origin(origin, spans[n]), keep);
    ClaimedAdd(text, PassClaims(origin, spans[..n], keep), [last]);
    assert Claimed(text, [last]) == Offer(keep, Slice(text, last.span));
  }

  lemma {:induction false} PassOffers(text: string, remaining: string, origin: seq<int>, spans: seq<Span>,
          keep: string -> bool)
    requires Faithful(text, remaining, origin) && Matches(remaining, spans) && Traceable(origin, spans)
    ensures Offers(keep, remaining, spans) == Claimed(text, PassClaims(origin, spans, keep))
  {
    if spans != [] {
      var s, init := spans[|spans| - 1], spans[..|spans| - 1];
      assert Matches(remaining, init) && Traceable(origin, init);
      PassOffers(text, remaining, origin, init, keep);
      LastClaimed(text, origin, spans, keep);
      SliceIsOriginal(text, remaining, origin, s);
    }
  }

  lemma {:induction false} CandidatesAreClaimed(patterns: seq<Pattern>, text: string, remaining: string,
          origin: seq<int>)
    requires Finders(patterns) && Faithful(text, remaining, origin)
    ensures CandidatesFrom(patterns, remaining) == Claimed(text, LedgerFrom(patterns, text, remaining, origin).claims)
  {
    if patterns != [] {
      var spans, keep := patterns[0].find(remaining), patterns[0].keep;
      assert Matches(remaining, spans);
      PassKept(text, remaining, origin, spans, keep);
      var remaining', origin' := BlankOut(remaining, spans, ' '), BlankOut(origin, spans, GAP);
      CandidatesAreClaimed(patterns[1..], text, remaining', origin');
      PassOffers(text, remaining, origin, spans, keep);
      ClaimedAdd(text, PassClaims(origin, spans, keep), LedgerFrom(patterns[1..], text, remaining', origin').claims);
    }
  }

  lemma {:induction false} OwnersTwice(claims: seq<Claim>, i: nat, j: nat, p: int)
    requires i < j < |claims|
    requires claims[i].span.start <= p < claims[i].span.end && claims[j].span.start <= p < claims[j].span.end
    ensures Owners(claims, p) >= 2
  {
    if i > 0 {
      OwnersTwice(claims[1..], i - 1, j - 1, p);
    } else {
      OwnersOnce(claims[1..], j - 1, p);
    }
  }

  lemma {:induction false} OwnersOnce(claims: seq<Claim>, j: nat, p: int)
    requires j < |claims| && claims[j].span.start <= p < claims[j].span.end
    ensures Owners(claims, p) >= 1
  {
    if j > 0 {
      OwnersOnce(claims[1..], j - 1, p);
    }
  }

  function Identity(n: nat): seq<int> {
    seq(n, i => i)
  }

  lemma IdentityCounts(n: nat, p: int)
    ensures Survives(Identity(n), p) == if 0 <= p < n then 1 else 0
  {
    RunCount(Identity(n), 0, n, p);
    assert Identity(n)[0..n] == Identity(n);
  }

  /** Claims of an accounted text do not overlap. */
  lemma {:induction false} ClaimsDisjoint(text: string, origin: seq<int>, claims: seq<Claim>, i: nat, j: nat)
    requires Accounted(text, origin, claims) && i < j < |claims|
    ensures claims[i].span.end <= claims[j].span.start || claims[j].span.end <= claims[i].span.start
  {
    var a, b := claims[i].span, claims[j].span;
    assert claims[i] in claims && claims[j] in claims;
    if a.end > b.start && b.end > a.start {
      OwnersTwice(claims, i, j, if a.start < b.start then b.start else a.start);
    }
  }

  /** The ledger of a whole text. */
  ghost function LedgerOf(patterns: seq<Pattern>, text: string): (l: Ledger)
    requires Finders(patterns)
    ensures Faithful(text, l.remaining, l.origin)
  {
    LedgerFrom(patterns, text, text, Identity(|text|))
  }

  lemma {:induction false} LedgerAccounted(patterns: seq<Pattern>, text: string)
    requires Finders(patterns)
    ensures Accounted(text, LedgerOf(patterns, text).origin, LedgerOf(patterns, text).claims)
  {
    var l := LedgerOf(patterns, text);
    LedgerAccounts(patterns, text, text, Identity(|text|));
    forall p | 0 <= p < |text| ensures Owners(l.claims, p) + Survives(l.origin, p) == 1 {
      IdentityCounts(|text|, p);
    }
  }

  ghost predicate PairwiseDisjoint(claims: seq<Claim>) {
    forall i, j | 0 <= i < j < |claims| ::
      claims[i].span.end <= claims[j].span.start || claims[j].span.end <= claims[i].span.start
  }

  /** Across all passes every span is consumed exactly once: the candidates are the
      trimmed slices of the original text that the passes claim, no character is
      claimed twice, and the characters nobody claims survive in their order. */
  lemma {:induction false} EachSpanOnce(patterns: seq<Pattern>, text: string)
    requires Finders(patterns)
    ensures var l := LedgerOf(patterns, text);
      && CandidatesFrom(patterns, text) == Claimed(text, l.claims)
      && Accounted(text, l.origin, l.claims) && PairwiseDisjoint(l.claims)
      && Faithful(text, l.remaining, l.origin) && Increasing(l.origin)
  {
    LedgerAccounted(patterns, text);
    LedgerIncreasing(patterns, text, text, Identity(|text|));
    CandidatesAreClaimed(patterns, text, text, Identity(|text|));
    var l := LedgerOf(patterns, text);
    forall i, j | 0 <= i < j < |l.claims|
      ensures l.claims[i].span.end <= l.claims[j].span.start || l.claims[j].span.end <= l.claims[i].span.start
    {
      ClaimsDisjoint(text, l.origin, l.claims, i, j);
    }
  }
}
