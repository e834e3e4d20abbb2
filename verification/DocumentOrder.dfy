/** When extraction keeps the order of the document (app/ioc/extract.py). The passes run
    one after the other, so what comes first is what an earlier pass claims. */
module DocumentOrder {
  import opened Wrappers
  import opened Text
  import opened Harvest
  import opened Extract
  import Indicators

  ghost predicate InDocumentOrder(claims: seq<Claim>) {
    forall i, j | 0 <= i < j < |claims| :: claims[i].span.end <= claims[j].span.start
  }

  // ------------------------------------------------------------------------ one pass

  lemma {:induction false} PassClaimsAt(origin: seq<int>, spans: seq<Span>, keep: string -> bool)
    requires Traceable(origin, spans)
    ensures |PassClaims(origin, spans, keep)| == |spans|
    ensures forall i | 0 <= i < |spans| :: PassClaims(origin, spans, keep)[i].span == Origin(origin, spans[i])
  {
    if spans != [] {
      PassClaimsAt(origin, spans[..|spans| - 1], keep);
    }
  }

  lemma OriginsInOrder(origin: seq<int>, a: Span, b: Span)
    requires Increasing(origin) && a.start < a.end <= b.start < b.end <= |origin|
    requires origin[a.start] >= 0 && origin[a.end - 1] >= 0 && origin[b.start] >= 0 && origin[b.end - 1] >= 0
    ensures Origin(origin, a).end <= Origin(origin, b).start
  {
  }

  /** One pass claims its spans in the order of the document. */
  lemma {:induction false} PassInDocumentOrder(origin: seq<int>, spans: seq<Span>, keep: string -> bool)
    requires Increasing(origin) && InOrder(|origin|, spans) && Traceable(origin, spans)
    ensures InDocumentOrder(PassClaims(origin, spans, keep))
  {
    var claims := PassClaims(origin, spans, keep);
    PassClaimsAt(origin, spans, keep);
    forall i, j | 0 <= i < j < |claims| ensures claims[i].span.end <= claims[j].span.start {
      OriginsInOrder(origin, spans[i], spans[j]);
    }
  }

  ghost predicate AllBefore(a: seq<Claim>, b: seq<Claim>) {
    forall i, j | 0 <= i < |a| && 0 <= j < |b| :: a[i].span.end <= b[j].span.start
  }

  lemma {:induction false} OrderOfParts(a: seq<Claim>, b: seq<Claim>)
    ensures InDocumentOrder(a + b) <==> InDocumentOrder(a) && InDocumentOrder(b) && AllBefore(a, b)
  {
    if InDocumentOrder(a + b) {
      forall i, j | 0 <= i < j < |a| ensures a[i].span.end <= a[j].span.start {
        assert (a + b)[i] == a[i] && (a + b)[j] == a[j];
      }
      forall i, j | 0 <= i < j < |b| ensures b[i].span.end <= b[j].span.start {
        assert (a + b)[|a| + i] == b[i] && (a + b)[|a| + j] == b[j];
      }
      forall i, j | 0 <= i < |a| && 0 <= j < |b| ensures a[i].span.end <= b[j].span.start {
        assert (a + b)[i] == a[i] && (a + b)[|a| + j] == b[j];
      }
    }
  }

  // ----------------------------------------------------------------------- all passes

  /** The claims that matter, in the order of the passes. */
  function Picked(pick: Claim -> bool, claims: seq<Claim>): seq<Claim> {
    if claims == [] then []
    else (if pick(claims[0]) then [claims[0]] else []) + Picked(pick, claims[1..])
  }

  lemma {:induction false} PickedAdd(pick: Claim -> bool, a: seq<Claim>, b: seq<Claim>)
    ensures Picked(pick, a + b) == Picked(pick, a) + Picked(pick, b)
  {
    if a == [] {
      assert a + b == b;
    } else {
      assert (a + b)[1..] == a[1..] + b;
      PickedAdd(pick, a[1..], b);
      ConcatAssoc(if pick(a[0]) then [a[0]] else [], Picked(pick, a[1..]), Picked(pick, b));
    }
  }

  lemma {:induction false} PickedFrom(pick: Claim -> bool, claims: seq<Claim>, n: nat)
    requires forall i | 0 <= i < |claims| :: n <= claims[i].span.start
    ensures forall i | 0 <= i < |Picked(pick, claims)| :: n <= Picked(pick, claims)[i].span.start
  {
    if claims != [] {
      PickedFrom(pick, claims[1..], n);
    }
  }

  lemma {:induction false} PickedInOrder(pick: Claim -> bool, claims: seq<Claim>)
    requires InDocumentOrder(claims)
    ensures InDocumentOrder(Picked(pick, claims))
  {
    if claims != [] {
      PickedInOrder(pick, claims[1..]);
      PickedFrom(pick, claims[1..], claims[0].span.end);
      OrderOfParts(if pick(claims[0]) then [claims[0]] else [], Picked(pick, claims[1..]));
    }
  }

  /** Pass by pass: no picked claim of a later pass starts before one of this pass ends. */
  ghost predicate NoneOvertaken(pick: Claim -> bool, patterns: seq<Pattern>, text: string, remaining: string,
          origin: seq<int>)
    requires Finders(patterns) && Faithful(text, remaining, origin)
  {
    patterns == []
    || (var spans, keep := patterns[0].find(remaining), patterns[0].keep;
        assert Matches(remaining, spans);
        PassKept(text, remaining, origin, spans, keep);
        var remaining', origin' := BlankOut(remaining, spans, ' '), BlankOut(origin, spans, GAP);
        && AllBefore(Picked(pick, PassClaims(origin, spans, keep)),
                     Picked(pick, LedgerFrom(patterns[1..], text, remaining', origin').claims))
        && NoneOvertaken(pick, patterns[1..], text, remaining', origin'))
  }

  /** Whichever claims matter, all passes together claim them in the order of the document
      exactly when none is overtaken. */
  lemma {:induction false} ClaimOrderIff(pick: Claim -> bool, patterns: seq<Pattern>, text: string, remaining: string,
          origin: seq<int>)
    requires Finders(patterns) && Faithful(text, remaining, origin) && Increasing(origin)
    ensures InDocumentOrder(Picked(pick, LedgerFrom(patterns, text, remaining, origin).claims))
       <==> NoneOvertaken(pick, patterns, text, remaining, origin)
  {
    if patterns != [] {
      var spans, keep := patterns[0].find(remaining), patterns[0].keep;
      assert Matches(remaining, spans);
      PassKept(text, remaining, origin, spans, keep);
      PassIncreasing(origin, spans);
      var remaining', origin' := BlankOut(remaining, spans, ' '), BlankOut(origin, spans, GAP);
      ClaimOrderIff(pick, patterns[1..], text, remaining', origin');
      var pass, rest := PassClaims(origin, spans, keep), LedgerFrom(patterns[1..], text, remaining', origin').claims;
      PassInDocumentOrder(origin, spans, keep);
      PickedInOrder(pick, pass);
      PickedAdd(pick, pass, rest);
      OrderOfParts(Picked(pick, pass), Picked(pick, rest));
    }
  }

  // --------------------------------------------------------------------- the candidates

  function TextOf(text: string, c: Claim): string {
    TrimTrailing(Slice(text, c.span))
  }

  /** The claims that yield a candidate. */
  function Yielding(text: string): Claim -> bool {
    (c: Claim) => c.keep(TextOf(text, c))
  }

  function Texts(text: string, claims: seq<Claim>): (r: seq<string>)
    ensures |r| == |claims| && forall i | 0 <= i < |r| :: r[i] == TextOf(text, claims[i])
  {
    seq(|claims|, i requires 0 <= i < |claims| => TextOf(text, claims[i]))
  }

  lemma {:induction false} ClaimedTexts(text: string, claims: seq<Claim>)
    ensures Claimed(text, claims) == Texts(text, Picked(Yielding(text), claims))
  {
    if claims != [] {
      ClaimedTexts(text, claims[1..]);
      var rest := Picked(Yielding(text), claims[1..]);
      assert Texts(text, [claims[0]] + rest) == [TextOf(text, claims[0])] + Texts(text, rest);
      assert [] + rest == rest;
    }
  }

  /** The claims that yield a candidate, in the order of the passes. */
  ghost function CandidateClaims(patterns: seq<Pattern>, text: string): seq<Claim>
    requires Finders(patterns)
  {
    Picked(Yielding(text), LedgerOf(patterns, text).claims)
  }

  /** The candidates are the texts of the claims that yield one, and come in the order of
      the document exactly when no such claim is overtaken. */
  lemma {:induction false} CandidateOrderIff(patterns: seq<Pattern>, text: string)
    requires Finders(patterns)
    ensures CandidatesFrom(patterns, text) == Texts(text, CandidateClaims(patterns, text))
    ensures Faithful(text, text, Identity(|text|))
    ensures InDocumentOrder(CandidateClaims(patterns, text))
        <==> NoneOvertaken(Yielding(text), patterns, text, text, Identity(|text|))
  {
    EachSpanOnce(patterns, text);
    ClaimedTexts(text, LedgerOf(patterns, text).claims);
    ClaimOrderIff(Yielding(text), patterns, text, text, Identity(|text|));
  }

  // --------------------------------------------------------------- the returned values

  /** The claims whose candidate is a valid indicator. */
  function Validated(classify: Classifier, text: string): Claim -> bool {
    (c: Claim) => c.keep(TextOf(text, c)) && classify(TextOf(text, c)).Some?
  }

  ghost predicate PairsInOrder(pick: Claim -> bool, claims: seq<Claim>) {
    forall i, j | 0 <= i < j < |claims| && pick(claims[i]) && pick(claims[j]) ::
        claims[i].span.end <= claims[j].span.start
  }

  ghost predicate NotBefore(pick: Claim -> bool, n: nat, claims: seq<Claim>) {
    forall i | 0 <= i < |claims| && pick(claims[i]) :: n <= claims[i].span.start
  }

  lemma {:induction false} NotBeforeFront(pick: Claim -> bool, n: nat, claims: seq<Claim>)
    requires claims != []
    ensures NotBefore(pick, n, claims)
       <==> (pick(claims[0]) ==> n <= claims[0].span.start) && NotBefore(pick, n, claims[1..])
  {
    assert forall i | 0 <= i < |claims[1..]| :: claims[1..][i] == claims[i + 1];
  }

  lemma {:induction false} PairsFront(pick: Claim -> bool, claims: seq<Claim>)
    requires claims != []
    ensures PairsInOrder(pick, claims)
       <==> PairsInOrder(pick, claims[1..]) && (pick(claims[0]) ==> NotBefore(pick, claims[0].span.end, claims[1..]))
  {
    assert forall i | 0 <= i < |claims[1..]| :: claims[1..][i] == claims[i + 1];
  }

  lemma {:induction false} AllPicked(pick: Claim -> bool, claims: seq<Claim>)
    ensures forall i | 0 <= i < |Picked(pick, claims)| :: pick(Picked(pick, claims)[i])
  {
    if claims != [] {
      AllPicked(pick, claims[1..]);
    }
  }

  lemma {:induction false} PickedNotBefore(pick: Claim -> bool, n: nat, claims: seq<Claim>)
    ensures NotBefore(pick, n, Picked(pick, claims)) <==> NotBefore(pick, n, claims)
  {
    if claims != [] {
      PickedNotBefore(pick, n, claims[1..]);
      NotBeforeFront(pick, n, claims);
      if pick(claims[0]) {
        NotBeforeFront(pick, n, Picked(pick, claims));
        assert Picked(pick, claims)[1..] == Picked(pick, claims[1..]);
      } else {
        assert Picked(pick, claims) == Picked(pick, claims[1..]);
      }
    }
  }

  lemma {:induction false} PickedPairs(pick: Claim -> bool, claims: seq<Claim>)
    ensures PairsInOrder(pick, Picked(pick, claims)) <==> PairsInOrder(pick, claims)
  {
    if claims != [] {
      PickedPairs(pick, claims[1..]);
      PairsFront(pick, claims);
      if pick(claims[0]) {
        PairsFront(pick, Picked(pick, claims));
        assert Picked(pick, claims)[1..] == Picked(pick, claims[1..]);
        PickedNotBefore(pick, claims[0].span.end, claims[1..]);
      } else {
        assert Picked(pick, claims) == Picked(pick, claims[1..]);
      }
    }
  }

  lemma {:induction false} PickedOrderIff(pick: Claim -> bool, claims: seq<Claim>)
    ensures InDocumentOrder(Picked(pick, claims)) <==> PairsInOrder(pick, claims)
  {
    PickedPairs(pick, claims);
    AllPicked(pick, claims);
  }

  lemma {:induction false} PickedTwice(p: Claim -> bool, q: Claim -> bool, claims: seq<Claim>)
    requires forall c | q(c) :: p(c)
    ensures Picked(q, Picked(p, claims)) == Picked(q, claims)
  {
    if claims != [] {
      PickedTwice(p, q, claims[1..]);
      PickedAdd(q, if p(claims[0]) then [claims[0]] else [], Picked(p, claims[1..]));
    }
  }

  /** The promised order: whenever a value appears in the document, all values returned
      before it have appeared. */
  ghost predicate InAppearanceOrder(classify: Classifier, text: string, claims: seq<Claim>, found: seq<Parsed>) {
    forall i, j, d | 0 <= i < j < |found| && 0 <= d < |claims| && classify(TextOf(text, claims[d])) == Some(found[j]) ::
      AppearsBefore(classify, text, claims, found[i], claims[d].span.start)
  }

  ghost predicate AppearsBefore(classify: Classifier, text: string, claims: seq<Claim>, v: Parsed, at: nat) {
    exists c :: 0 <= c < |claims| && classify(TextOf(text, claims[c])) == Some(v) && claims[c].span.end <= at
  }

  /** No two candidates are forms of one value. */
  ghost predicate NoRepeats(classify: Classifier, cs: seq<string>) {
    forall a, b | 0 <= a < b < |cs| && classify(cs[a]).Some? :: classify(cs[a]) != classify(cs[b])
  }

  lemma {:induction false} PairsGiveOrder(classify: Classifier, text: string, claims: seq<Claim>, n: nat)
    requires forall i | 0 <= i < |claims| :: claims[i].keep(TextOf(text, claims[i]))
    requires PairsInOrder(Validated(classify, text), claims)
    ensures InAppearanceOrder(classify, text, claims, Take(Results(classify, Texts(text, claims)), n))
  {
    var cs := Texts(text, claims);
    var found := Take(Results(classify, cs), n);
    forall i, j, d | 0 <= i < j < |found| && 0 <= d < |claims| && classify(TextOf(text, claims[d])) == Some(found[j])
      ensures AppearsBefore(classify, text, claims, found[i], claims[d].span.start)
    {
      FirstAppearance(classify, cs, i, j, d);
      var p :| 0 <= p < d && classify(cs[p]) == Some(found[i]);
      assert Validated(classify, text)(claims[p]) && Validated(classify, text)(claims[d]);
    }
  }

  lemma {:induction false} OrderGivesPairs(classify: Classifier, text: string, claims: seq<Claim>)
    requires NoRepeats(classify, Texts(text, claims))
    requires InAppearanceOrder(classify, text, claims, Results(classify, Texts(text, claims)))
    ensures PairsInOrder(Validated(classify, text), claims)
  {
    forall a, b | 0 <= a < b < |claims| && Validated(classify, text)(claims[a]) && Validated(classify, text)(claims[b])
      ensures claims[a].span.end <= claims[b].span.start
    {
      OnePair(classify, text, claims, Texts(text, claims), a, b);
    }
  }

  lemma {:induction false} OnePair(classify: Classifier, text: string, claims: seq<Claim>, cs: seq<string>, a: nat,
          b: nat)
    requires cs == Texts(text, claims) && NoRepeats(classify, cs) && a < b < |cs|
    requires classify(cs[a]).Some? && classify(cs[b]).Some?
    requires InAppearanceOrder(classify, text, claims, Results(classify, cs))
    ensures claims[a].span.end <= claims[b].span.start
  {
    var found := Results(classify, cs);
    FoundInTurn(classify, cs, a, b);
    var i, j :| 0 <= i < j < |found| && found[i] == classify(cs[a]).value && found[j] == classify(cs[b]).value;
    assert classify(TextOf(text, claims[b])) == Some(found[j]);
    ItAppearedAt(classify, text, claims, cs, a, claims[b].span.start);
  }

  lemma {:induction false} ItAppearedAt(classify: Classifier, text: string, claims: seq<Claim>, cs: seq<string>,
          a: nat, at: nat)
    requires cs == Texts(text, claims) && NoRepeats(classify, cs) && a < |cs| && classify(cs[a]).Some?
    requires AppearsBefore(classify, text, claims, classify(cs[a]).value, at)
    ensures claims[a].span.end <= at
  {
    var c :| 0 <= c < |claims| && classify(TextOf(text, claims[c])) == Some(classify(cs[a]).value)
        && claims[c].span.end <= at;
    NotRepeated(classify, cs, a, c);
  }

  lemma {:induction false} NotRepeated(classify: Classifier, cs: seq<string>, a: nat, c: nat)
    requires NoRepeats(classify, cs) && a < |cs| && c < |cs| && classify(cs[a]).Some?
        && classify(cs[a]) == classify(cs[c])
    ensures a == c
  {
  }

  /** The values returned come in the order of their first appearance in the document when
      no claim of a valid indicator is overtaken; and when no value is repeated and the
      limit leaves none out, only then. */
  lemma {:induction false} ReturnedOrderIff(classify: Classifier, patterns: seq<Pattern>, text: string, limit: int)
    requires Finders(patterns)
    ensures Faithful(text, text, Identity(|text|))
    ensures Harvested(classify, CandidatesFrom(patterns, text), limit)
         == Values(Take(Results(classify, CandidatesFrom(patterns, text)), Cap(limit)))
    ensures var claims, found := CandidateClaims(patterns, text), Results(classify, CandidatesFrom(patterns, text));
      var kept := NoneOvertaken(Validated(classify, text), patterns, text, text, Identity(|text|));
      var promised := InAppearanceOrder(classify, text, claims, Take(found, Cap(limit)));
      && (kept ==> promised)
      && (NoRepeats(classify, CandidatesFrom(patterns, text)) && |found| <= Cap(limit) ==> (promised ==> kept))
  {
    var claims := CandidateClaims(patterns, text);
    var pick := Validated(classify, text);
    CandidateOrderIff(patterns, text);
    EachSpanOnce(patterns, text);
    ClaimOrderIff(pick, patterns, text, text, Identity(|text|));
    PickedTwice(Yielding(text), pick, LedgerOf(patterns, text).claims);
    PickedOrderIff(pick, claims);
    AllPicked(Yielding(text), LedgerOf(patterns, text).claims);
    if PairsInOrder(pick, claims) {
      PairsGiveOrder(classify, text, claims, Cap(limit));
    } else if NoRepeats(classify, CandidatesFrom(patterns, text))
        && |Results(classify, Texts(text, claims))| <= Cap(limit)
      && InAppearanceOrder(classify, text, claims, Take(Results(classify, Texts(text, claims)), Cap(limit))) {
      OrderGivesPairs(classify, text, claims);
    }
  }

  // ---------------------------------------------------------------- an order not kept

  lemma {:induction false} IdlePasses(patterns: seq<Pattern>, k: nat, n: nat, remaining: string)
    requires Finders(patterns) && k <= n <= |patterns| && forall i | k <= i < n :: patterns[i].find(remaining) == []
    ensures CandidatesFrom(patterns[k..], remaining) == CandidatesFrom(patterns[n..], remaining)
    decreases n - k
  {
    if k < n {
      CandidatesStep(patterns, k, remaining);
      IdlePasses(patterns, k + 1, n, remaining);
    }
  }

  lemma {:induction false} OnePass(patterns: seq<Pattern>, k: nat, remaining: string, span: Span)
    requires Finders(patterns) && k < |patterns| && patterns[k].find(remaining) == [span]
    ensures span.start < span.end <= |remaining|
    ensures CandidatesFrom(patterns[k..], remaining)
         == Offer(patterns[k].keep, remaining[span.start..span.end])
            + CandidatesFrom(patterns[k + 1..], Without(remaining, span, ' '))
  {
    CandidatesStep(patterns, k, remaining);
    assert [span][..0] == [] && [span][0] == span;
  }

  lemma LabelOfCom(u: string)
    requires u == "evil.com"
    ensures LastLabel(u) == "com"
  {
    var r := LastLabel(u);
    assert u[4] == '.' && forall i | 5 <= i < 8 :: u[i] != '.';
    assert |r| == 3 && u[5..] == "com";
  }

  lemma ComIsNoSuffix(last: string)
    requires |last| == 3 && last[0] == 'c' && last[1] == 'o'
    ensures last !in EXECUTABLES
    ensures last !in SCRIPTS
    ensures last !in DOCUMENTS
    ensures last !in DATA
    ensures last !in ARCHIVES
  {
  }

  lemma PlausibleCom(u: string)
    requires u == "evil.com"
    ensures PlausibleDomain(u)
  {
    LabelOfCom(u);
    assert Lower("com") == "com";
    ComIsNoSuffix("com");
  }

  /** The parts of the example text. */
  lemma ExampleParts(text: string, u: string, v: string)
    requires u == "evil.com" && v == "http://a.com" && text == u + " " + v
    ensures |text| == 21 && text[9..21] == v && Without(text, Span(9, 21), ' ') == u + "  "
    ensures (u + "  ")[0..8] == u && u != v
  {
    assert |u| == 8 && |v| == 12;
    assert u[0] != v[0];
  }

  lemma ExampleTrims(u: string, v: string)
    requires u == "evil.com" && v == "http://a.com"
    ensures TrimTrailing(u) == u && TrimTrailing(v) == v
  {
    assert u[7] == 'm' && v[11] == 'm' && 'm' !in TRAILING;
  }

  lemma ExampleIsPlain(u: string, v: string)
    requires u == "evil.com" && v == "http://a.com"
    ensures Indicators.Plain(u) && Indicators.Plain(v) && v != "" && v[0] != 'd'
    ensures Trimmed(u + " " + v)
  {
    var text := u + " " + v;
    assert text[0] == 'e' && text[|text| - 1] == v[11] == 'm';
  }

  lemma ExampleIsRefanged(u: string, v: string)
    requires u == "evil.com" && v == "http://a.com"
    ensures Indicators.Refanged(u + " " + v) == u + " " + v
  {
    ExampleIsPlain(u, v);
    Indicators.TwoPlainHaveNoToken(u, v);
    Indicators.RefangFixedIff(u + " " + v);
  }

  /** What the eight passes find in the text `evil.com http://a.com`. */
  ghost predicate ExampleMatches(finds: seq<string -> seq<Span>>, text: string, u: string) {
    && |finds| == 8 && Finders(DocumentPatterns(finds))
    && finds[0](text) == [Span(9, 21)]
    && (forall k | 1 <= k < 7 :: finds[k](u + "  ") == [])
    && finds[7](u + "  ") == [Span(0, 8)]
  }

  lemma {:induction false} ExampleCandidates(finds: seq<string -> seq<Span>>, text: string, u: string, v: string)
    requires u == "evil.com" && v == "http://a.com" && text == u + " " + v && ExampleMatches(finds, text, u)
    ensures CandidatesFrom(DocumentPatterns(finds), text) == [v, u]
  {
    var patterns, rest := DocumentPatterns(finds), u + "  ";
    ExampleParts(text, u, v);
    ExampleTrims(u, v);
    PlausibleCom(u);
    assert patterns[0..] == patterns && patterns[8..] == [];
    OnePass(patterns, 0, text, Span(9, 21));
    IdlePasses(patterns, 1, 7, rest);
    OnePass(patterns, 7, rest, Span(0, 8));
    assert Offer(patterns[0].keep, v) == [v] && Offer(patterns[7].keep, u) == [u];
  }

  /** The promised order is not kept: the domain at the beginning of this document is
      returned after the URL at its end, because the pass for URLs comes first. */
  lemma {:induction false} OrderIsNotKept(classify: Classifier, finds: seq<string -> seq<Span>>, u: string, v: string,
          limit: int)
    requires u == "evil.com" && v == "http://a.com" && ExampleMatches(finds, u + " " + v, u) && limit >= 2
    requires classify(u) == Some(Parsed("domain-name", u)) && classify(v) == Some(Parsed("url", v))
    ensures Harvested(classify, CandidatesFrom(DocumentPatterns(finds), Indicators.Refanged(u + " " + v)), limit)
        == [v, u]
  {
    ExampleIsRefanged(u, v);
    ExampleCandidates(finds, u + " " + v, u, v);
    TwoHarvested(classify, [v, u], limit);
  }

  lemma {:induction false} TwoHarvested(classify: Classifier, cs: seq<string>, limit: int)
    requires |cs| == 2 && cs[0] != cs[1] && limit >= 2
    requires forall c | c in cs :: classify(c).Some? && classify(c).value.value == c
    ensures Harvested(classify, cs, limit) == cs
  {
    assert cs[0] in cs && cs[1] in cs;
    TwoResults(classify, cs);
  }

  lemma {:induction false} TwoResults(classify: Classifier, cs: seq<string>)
    requires |cs| == 2 && classify(cs[0]).Some? && classify(cs[1]).Some? && classify(cs[0]) != classify(cs[1])
    ensures Results(classify, cs) == [classify(cs[0]).value, classify(cs[1]).value]
  {
    assert cs[..1][..0] == [];
    ResultsStep(classify, cs[..1], 0);
    ResultsStep(classify, cs, 1);
  }
}
