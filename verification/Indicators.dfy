/** Defanging and refanging of indicators (app/ioc/indicators.py). */
module Indicators {
  import opened Text

  type NonEmpty = s: string | s != "" witness "."

  datatype Rule = Rule(token: NonEmpty, repl: string)

  /** The ordered replacement table; the rules are applied one after the other. */
  const REFANG_REPLACEMENTS: seq<Rule> := [
    Rule("hxxps", "https"),
    Rule("hxxp", "http"),
    Rule("fxp", "ftp"),
    Rule("[.]", "."),
    Rule("(.)", "."),
    Rule("{.}", "."),
    Rule("[dot]", "."),
    Rule("(dot)", "."),
    Rule(" dot ", "."),
    Rule("[:]", ":"),
    Rule("[://]", "://"),
    Rule("[at]", "@"),
    Rule("(at)", "@"),
    Rule("[@]", "@"),
    Rule("\\.", ".")
  ]

  predicate IsAlpha(s: string) {
    s != "" && forall c | c in s :: 'a' <= c <= 'z' || 'A' <= c <= 'Z'
  }

  /** Scheme tokens are replaced in any letter case, punctuation literally. */
  function Matcher(token: NonEmpty): Token {
    if IsAlpha(token) || token[0] == 'h' || token[0] == 'f' then NoCase(token) else Lit(token)
  }

  function ApplyRule(rule: Rule, s: string): string {
    ReplaceAll(Matcher(rule.token), rule.repl, s)
  }

  function ApplyRules(rules: seq<Rule>, s: string): string {
    if rules == [] then s else ApplyRules(rules[1..], ApplyRule(rules[0], s))
  }

  /** The rules from the k-th on, in order. */
  function ApplyFrom(k: nat, s: string): string
    requires k <= |REFANG_REPLACEMENTS|
  {
    ApplyRules(REFANG_REPLACEMENTS[k..], s)
  }

  lemma ApplyFromStep(k: nat, s: string)
    requires k < |REFANG_REPLACEMENTS|
    ensures ApplyFrom(k, s) == ApplyFrom(k + 1, ApplyRule(REFANG_REPLACEMENTS[k], s))
  {
  }

  function Refanged(value: string): string {
    Strip(ApplyFrom(0, Strip(value)))
  }

  function Dotted(s: string): string { ReplaceAll(Lit("."), "[.]", s) }
  function Coloned(s: string): string { ReplaceAll(Lit("://"), "[://]", s) }
  function Atted(s: string): string { ReplaceAll(Lit("@"), "[at]", s) }
  function Hxxped(s: string): string { ReplaceAll(Lit("http"), "hxxp", s) }

  function Defanged(value: string): string {
    Atted(Coloned(Dotted(Hxxped(value))))
  }

  method Refang(value: string) returns (r: string)
    ensures r == Refanged(value)
  {
    var out := Strip(value);
    var lowered := out;
    var k := 0;
    while k < |REFANG_REPLACEMENTS|
      invariant 0 <= k <= |REFANG_REPLACEMENTS|
      invariant ApplyFrom(k, lowered) == ApplyFrom(0, out)
    {
      var rule := REFANG_REPLACEMENTS[k];
      ApplyFromStep(k, lowered);
      if IsAlpha(rule.token) || rule.token[0] == 'h' || rule.token[0] == 'f' {
        lowered := ReplaceAll(NoCase(rule.token), rule.repl, lowered);
      } else {
        lowered := ReplaceAll(Lit(rule.token), rule.repl, lowered);
      }
      k := k + 1;
    }
    r := Strip(lowered);
  }

  // ------------------------------------------------------------- when it is lost

  const HXXPS: Token := NoCase("hxxps")
  const HXXP: Token := NoCase("hxxp")
  const FXP: Token := NoCase("fxp")

  /** `http` followed by a character that is an `s` only when case is ignored. */
  const HTTP_CAPITAL_S: Token := [{'h'}, {'t'}, {'t'}, {'p'}, {'S', '\U{17F}'}]

  ghost predicate NoScheme(u: string) {
    !Occurs(HXXP, u) && !Occurs(FXP, u) && !Occurs(HTTP_CAPITAL_S, u)
  }

  /** Index of the rule for `[://]`, which only ever undoes what defanging did. */
  const COLON_RULE := 10

  /** Index of the rule for `[at]`. */
  const AT_RULE := 11

  function Tok(k: nat): Token
    requires 3 <= k < |REFANG_REPLACEMENTS|
  {
    Lit(REFANG_REPLACEMENTS[k].token)
  }

  /** None of the literal tokens of the rules from the k-th on occurs, `[://]` excepted. */
  ghost predicate NoLossyFrom(k: nat, v: string)
    requires 3 <= k
  {
    forall i | k <= i < |REFANG_REPLACEMENTS| && i != COLON_RULE :: !Occurs(Tok(i), v)
  }

  /** The first rule whose token defanging never produces; `[.]` is the one before. */
  const FIRST_LOSSY := 4

  /** The exact class of values that defanging and refanging bring back. */
  ghost predicate Survives(u: string) {
    Trimmed(u) && NoScheme(u) && NoLossyFrom(FIRST_LOSSY, u)
  }

  // ---------------------------------------------------------------- the schemes

  function Rescheme(s: string): string {
    ReplaceAll(FXP, "ftp", ReplaceAll(HXXP, "http", ReplaceAll(HXXPS, "https", s)))
  }

  lemma SchemeRule(k: nat, s: string)
    requires k < 3
    ensures ApplyFrom(k, s) == ApplyFrom(k + 1,
        ReplaceAll(NoCase(REFANG_REPLACEMENTS[k].token), REFANG_REPLACEMENTS[k].repl, s))
  {
  }

  lemma SchemeRules(s: string)
    ensures ApplyFrom(0, s) == ApplyFrom(3, Rescheme(s))
  {
    SchemeRule(0, s);
    SchemeRule(1, ReplaceAll(HXXPS, "https", s));
    SchemeRule(2, ReplaceAll(HXXP, "http", ReplaceAll(HXXPS, "https", s)));
  }

  /** The schemes are restored when none of the lossy scheme forms was there. */
  lemma {:induction false} SchemesRestored(u: string)
    requires !Occurs(HXXP, u) && !Occurs(HTTP_CAPITAL_S, u)
    ensures ReplaceAll(HXXP, "http", ReplaceAll(HXXPS, "https", Hxxped(u))) == u
  {
    OccursStep(HXXP, u);
    OccursStep(HTTP_CAPITAL_S, u);
    if u == "" {
    } else if StartsWith(Lit("http"), u) {
      var t := u[4..];
      assert u == "http" + t by {
        assert forall k | 0 <= k < 4 :: u[k - 0] in Lit("http")[k];
      }
      if t != "" && t[0] == 's' {
        RestOfClean(u, 5);
        SchemesRestored(u[5..]);
        HttpsRestored(t[1..]);
        assert u == "https" + t[1..];
      } else {
        RestOfClean(u, 4);
        SchemesRestored(u[4..]);
        assert t != "" ==> t[0] !in HTTP_CAPITAL_S[4] by {
          assert StartsWith(HTTP_CAPITAL_S, u) <== t != "" && t[0] in HTTP_CAPITAL_S[4];
        }
        HttpRestored(t);
      }
    } else {
      RestOfClean(u, 1);
      SchemesRestored(u[1..]);
      OtherRestored(u);
    }
  }

  lemma RestOfClean(u: string, n: nat)
    requires !Occurs(HXXP, u) && !Occurs(HTTP_CAPITAL_S, u) && n <= |u|
    ensures !Occurs(HXXP, u[n..]) && !Occurs(HTTP_CAPITAL_S, u[n..])
  {
  }

  lemma HttpsRestored(t: string)
    ensures Hxxped("https" + t) == "hxxps" + Hxxped(t)
    ensures ReplaceAll(HXXPS, "https", "hxxps" + Hxxped(t)) == "https" + ReplaceAll(HXXPS, "https", Hxxped(t))
    ensures forall y :: ReplaceAll(HXXP, "http", "https" + y) == "https" + ReplaceAll(HXXP, "http", y)
  {
    assert ("https" + t)[4..] == "s" + t;
    assert !StartsWith(Lit("http"), "s" + t) by { StartsFromStep(Lit("http"), 0, "s" + t); }
    assert ("s" + t)[1..] == t;
    assert StartsWith(Lit("http"), "https" + t);
    assert Hxxped("https" + t) == "hxxp" + Hxxped("s" + t);
    assert Hxxped("s" + t) == "s" + Hxxped(t);
    assert "hxxp" + ("s" + Hxxped(t)) == "hxxps" + Hxxped(t);
    var x := "hxxps" + Hxxped(t);
    assert StartsWith(HXXPS, x) && x[5..] == Hxxped(t);
    forall y ensures ReplaceAll(HXXP, "http", "https" + y) == "https" + ReplaceAll(HXXP, "http", y) {
      assert ("https" + y)[1] == 't' && 't' !in HXXP[1];
      PassThroughHead(HXXP, "http", "https", y);
    }
  }

  lemma HttpRestored(t: string)
    requires t != "" ==> t[0] !in HXXPS[4]
    ensures Hxxped("http" + t) == "hxxp" + Hxxped(t)
    ensures ReplaceAll(HXXPS, "https", "hxxp" + Hxxped(t)) == "hxxp" + ReplaceAll(HXXPS, "https", Hxxped(t))
    ensures forall y :: ReplaceAll(HXXP, "http", "hxxp" + y) == "http" + ReplaceAll(HXXP, "http", y)
  {
    assert ("http" + t)[4..] == t;
    var x := "hxxp" + Hxxped(t);
    if t != "" {
      assert x[4] == Hxxped(t)[0] && (x[4] == t[0] || x[4] == 'h');
    }
    assert !StartsWith(HXXPS, x);
    PassThroughHead(HXXPS, "https", "hxxp", Hxxped(t));
    forall y ensures ReplaceAll(HXXP, "http", "hxxp" + y) == "http" + ReplaceAll(HXXP, "http", y) {
      assert StartsWith(HXXP, "hxxp" + y) && ("hxxp" + y)[4..] == y;
    }
  }

  lemma OtherRestored(u: string)
    requires u != "" && !StartsWith(Lit("http"), u) && !StartsWith(HXXP, u)
    ensures ReplaceAll(HXXP, "http", ReplaceAll(HXXPS, "https", Hxxped(u)))
         == [u[0]] + ReplaceAll(HXXP, "http", ReplaceAll(HXXPS, "https", Hxxped(u[1..])))
  {
    var x := Hxxped(u[1..]);
    var y := ReplaceAll(HXXPS, "https", x);
    forall d | 1 <= d < |HXXP|
      ensures Clash(HXXP, d, Lit("http")) && Clash(HXXP, d, Lit("hxxp"))
      ensures Clash(HXXP, d, HXXPS) && Clash(HXXP, d, Lit("https"))
    {
      assert HXXP[d] !! Lit("http")[d - d] && HXXP[d] !! Lit("hxxp")[d - d];
      assert HXXP[d] !! HXXPS[d - d] && HXXP[d] !! Lit("https")[d - d];
    }
    PrefixThrough(HXXP, 1, Lit("http"), "hxxp", u[1..]);
    PrefixThrough(HXXP, 1, HXXPS, "https", x);
    StartsFromStep(HXXP, 0, u);
    StartsFromStep(HXXP, 0, [u[0]] + x);
    StartsFromStep(HXXP, 0, [u[0]] + y);
    assert ([u[0]] + x)[1..] == x && ([u[0]] + y)[1..] == y;
    HxxpsIsHxxp([u[0]] + x);
  }

  lemma HxxpsIsHxxp(s: string)
    ensures StartsWith(HXXPS, s) ==> StartsWith(HXXP, s)
  {
    if StartsWith(HXXPS, s) {
      forall k | 0 <= k < 4 ensures s[k - 0] in HXXP[k] {
        assert s[k - 0] in HXXPS[k];
      }
    }
  }

  /** After the scheme rules none of the lossy scheme forms is left. */
  lemma NoSchemeLeft(u: string)
    ensures NoScheme(Rescheme(Hxxped(u)))
  {
    var s1 := ReplaceAll(HXXPS, "https", Hxxped(u));
    NoHxxpLeft(s1);
    NoCapitalSLeft(u);
    NoFxpLeft(ReplaceAll(HXXP, "http", s1));
  }

  lemma NoHxxpLeft(s: string)
    ensures !Occurs(HXXP, ReplaceAll(HXXP, "http", s))
  {
    UnborderedByLead(HXXP);
    ApartByLead(HXXP, Lit("http"), 1);
    NoneLeft(HXXP, "http", s);
  }

  lemma NoFxpLeft(s: string)
    ensures !Occurs(FXP, ReplaceAll(FXP, "ftp", s))
    ensures Occurs(HXXP, ReplaceAll(FXP, "ftp", s)) <==> Occurs(HXXP, s)
    ensures Occurs(HTTP_CAPITAL_S, ReplaceAll(FXP, "ftp", s)) <==> Occurs(HTTP_CAPITAL_S, s)
  {
    assert !Occurs(FXP, ReplaceAll(FXP, "ftp", s)) by {
      UnborderedByLead(FXP);
      ApartByLead(FXP, Lit("ftp"), 1);
      NoneLeft(FXP, "ftp", s);
    }
    assert Occurs(HXXP, ReplaceAll(FXP, "ftp", s)) <==> Occurs(HXXP, s) by {
      ApartByLead(HXXP, FXP, 0);
      ApartByLead(HXXP, Lit("ftp"), 0);
      OccursThrough(HXXP, FXP, "ftp", s);
    }
    ApartByLead(HTTP_CAPITAL_S, FXP, 0);
    ApartByLead(HTTP_CAPITAL_S, Lit("ftp"), 0);
    OccursThrough(HTTP_CAPITAL_S, FXP, "ftp", s);
  }

  lemma NoCapitalSLeft(u: string)
    ensures !Occurs(HTTP_CAPITAL_S, ReplaceAll(HXXP, "http", ReplaceAll(HXXPS, "https", Hxxped(u))))
  {
    var s0 := Hxxped(u);
    NoHttpLeft(u);
    CapitalSIsHttp(s0);
    NoHxxpsLeft(s0);
    CapitalSComesFrom(ReplaceAll(HXXPS, "https", s0));
  }

  lemma NoHttpLeft(u: string)
    ensures !Occurs(Lit("http"), Hxxped(u))
  {
    UnborderedByLead(Lit("http"));
    LiteralsApart("http", "hxxp", 1);
    NoneLeft(Lit("http"), "hxxp", u);
  }

  lemma NoHxxpsLeft(s: string)
    ensures !Occurs(HXXPS, ReplaceAll(HXXPS, "https", s))
    ensures Occurs(HTTP_CAPITAL_S, ReplaceAll(HXXPS, "https", s)) <==> Occurs(HTTP_CAPITAL_S, s)
  {
    assert !Occurs(HXXPS, ReplaceAll(HXXPS, "https", s)) by {
      UnborderedByLead(HXXPS);
      ApartByLead(HXXPS, Lit("https"), 1);
      NoneLeft(HXXPS, "https", s);
    }
    ApartByLead(HTTP_CAPITAL_S, HXXPS, 1);
    ApartByLead(HTTP_CAPITAL_S, Lit("https"), 4);
    OccursThrough(HTTP_CAPITAL_S, HXXPS, "https", s);
  }

  lemma CapitalSIsHttp(s: string)
    ensures Occurs(HTTP_CAPITAL_S, s) ==> Occurs(Lit("http"), s)
  {
    if Occurs(HTTP_CAPITAL_S, s) {
      var i :| 0 <= i <= |s| && StartsWith(HTTP_CAPITAL_S, s[i..]);
      forall k | 0 <= k < 4 ensures s[i..][k - 0] in Lit("http")[k] {
        assert s[i..][k - 0] in HTTP_CAPITAL_S[k] && HTTP_CAPITAL_S[k] == Lit("http")[k];
      }
      assert StartsWith(Lit("http"), s[i..]);
    }
  }

  lemma {:induction false} CapitalSComesFrom(s: string)
    ensures Occurs(HTTP_CAPITAL_S, ReplaceAll(HXXP, "http", s)) ==> Occurs(HTTP_CAPITAL_S, s) || Occurs(HXXPS, s)
  {
    var r := ReplaceAll(HXXP, "http", s);
    OccursStep(HTTP_CAPITAL_S, s);
    OccursStep(HXXPS, s);
    OccursStep(HTTP_CAPITAL_S, r);
    if s == "" {
    } else if StartsWith(HXXP, s) {
      var rest := s[4..];
      var x := ReplaceAll(HXXP, "http", rest);
      CapitalSComesFrom(rest);
      if Occurs(HTTP_CAPITAL_S, rest) { OccursSuffix(HTTP_CAPITAL_S, s, 4); }
      if Occurs(HXXPS, rest) { OccursSuffix(HXXPS, s, 4); }
      assert r == "http" + x && r[0..] == r;
      if StartsWith(HTTP_CAPITAL_S, r) {
        assert r[4 - 0] in HTTP_CAPITAL_S[4] && r[4] == x[0] && (x[0] == rest[0] || x[0] == 'h');
        assert forall k | 0 <= k < 4 :: s[k - 0] in HXXP[k];
        assert StartsWith(HXXPS, s);
      } else if Occurs(HTTP_CAPITAL_S, r) {
        CapitalSInRest(x);
      }
    } else {
      CapitalSComesFrom(s[1..]);
      forall d | 1 <= d < |HTTP_CAPITAL_S|
        ensures Clash(HTTP_CAPITAL_S, d, HXXP) && Clash(HTTP_CAPITAL_S, d, Lit("http"))
      {
        assert HTTP_CAPITAL_S[d] !! HXXP[d - d] && HTTP_CAPITAL_S[d] !! Lit("http")[d - d];
      }
      PrefixThrough(HTTP_CAPITAL_S, 1, HXXP, "http", s[1..]);
      StartsFromStep(HTTP_CAPITAL_S, 0, s);
      StartsFromStep(HTTP_CAPITAL_S, 0, r);
      assert r[1..] == ReplaceAll(HXXP, "http", s[1..]);
    }
  }

  lemma CapitalSInRest(x: string)
    requires Occurs(HTTP_CAPITAL_S, "http" + x) && !StartsWith(HTTP_CAPITAL_S, "http" + x)
    ensures Occurs(HTTP_CAPITAL_S, x)
  {
    var r := "http" + x;
    var i :| 0 <= i <= |r| && StartsWith(HTTP_CAPITAL_S, r[i..]);
    assert r[0..] == r;
    assert r[i..][0 - 0] in HTTP_CAPITAL_S[0] && r[i..][0] == r[i];
    assert i >= 4;
    assert r[i..] == x[i - 4..];
  }

  lemma SchemesIff(u: string)
    ensures |Rescheme(Hxxped(u))| == |u|
    ensures Rescheme(Hxxped(u)) == u <==> NoScheme(u)
  {
    var s0 := Hxxped(u);
    var s1 := ReplaceAll(HXXPS, "https", s0);
    var s2 := ReplaceAll(HXXP, "http", s1);
    ReplaceLength(Lit("http"), "hxxp", u, 0);
    ReplaceLength(HXXPS, "https", s0, 0);
    ReplaceLength(HXXP, "http", s1, 0);
    ReplaceLength(FXP, "ftp", s2, 0);
    NoSchemeLeft(u);
    if NoScheme(u) {
      SchemesRestored(u);
      CountsOccurrences(FXP, "ftp", u);
    }
  }

  // --------------------------------------------------------------- the brackets

  function Bracketed(s: string): string {
    Atted(Coloned(Dotted(s)))
  }

  const SCHEME_LETTERS: set<char> := {'h', 'H', 't', 'x', 'X', 'p', 'P', 's', 'S', '\U{17F}', 'f', 'F'}

  lemma BracketCommutes(a: Token, aRep: string, b: string, bRep: string, s: string)
    requires aRep != "" && forall c | c in aRep :: c in SCHEME_LETTERS
    requires forall i | 0 <= i < |a| :: a[i] <= SCHEME_LETTERS - {'t'}
    requires b != "" && forall c | c in b :: c !in SCHEME_LETTERS
    requires bRep != "" && forall c | c in bRep :: c !in SCHEME_LETTERS - {'t'}
    ensures ReplaceAll(a, aRep, ReplaceAll(Lit(b), bRep, s)) == ReplaceAll(Lit(b), bRep, ReplaceAll(a, aRep, s))
  {
    forall i, c | 0 <= i < |a| && c in a[i] ensures c !in b && c !in bRep {
      assert c in SCHEME_LETTERS - {'t'};
    }
    CommuteLiteral(a, aRep, b, bRep, s);
  }

  lemma BracketsCommute(a: Token, aRep: string, s: string)
    requires aRep != "" && forall c | c in aRep :: c in SCHEME_LETTERS
    requires forall i | 0 <= i < |a| :: a[i] <= SCHEME_LETTERS - {'t'}
    ensures ReplaceAll(a, aRep, Bracketed(s)) == Bracketed(ReplaceAll(a, aRep, s))
  {
    assert forall t :: ReplaceAll(a, aRep, Dotted(t)) == Dotted(ReplaceAll(a, aRep, t)) by {
      forall t { BracketCommutes(a, aRep, ".", "[.]", t); }
    }
    assert forall t :: ReplaceAll(a, aRep, Coloned(t)) == Coloned(ReplaceAll(a, aRep, t)) by {
      forall t { BracketCommutes(a, aRep, "://", "[://]", t); }
    }
    assert forall t :: ReplaceAll(a, aRep, Atted(t)) == Atted(ReplaceAll(a, aRep, t)) by {
      forall t { BracketCommutes(a, aRep, "@", "[at]", t); }
    }
  }

  lemma SchemesPastBrackets(s: string)
    ensures Rescheme(Bracketed(s)) == Bracketed(Rescheme(s))
  {
    var s1 := ReplaceAll(HXXPS, "https", s);
    BracketsCommute(HXXPS, "https", s);
    BracketsCommute(HXXP, "http", s1);
    BracketsCommute(FXP, "ftp", ReplaceAll(HXXP, "http", s1));
  }

  lemma BracketOrder(v: string)
    ensures Bracketed(v) == Dotted(Coloned(Atted(v)))
  {
    CommuteLiterals("@", "[at]", "://", "[://]", Dotted(v));
    CommuteLiterals("@", "[at]", ".", "[.]", v);
    CommuteLiterals("://", "[://]", ".", "[.]", Atted(v));
  }

  /** The rule for `[.]` takes back exactly the dots that were bracketed. */
  lemma DotsRestored(v: string)
    ensures ApplyFrom(3, Bracketed(v)) == ApplyFrom(4, Coloned(Atted(v)))
  {
    var e := Coloned(Atted(v));
    BracketOrder(v);
    InverseBracketed('[', ".", ']', e);
    assert ['['] + "." + [']'] == "[.]";
    LiteralRule(3);
    ApplyFromStep(3, Dotted(e));
  }

  lemma LiteralRule(k: nat)
    requires 3 <= k < |REFANG_REPLACEMENTS|
    ensures Matcher(REFANG_REPLACEMENTS[k].token) == Lit(REFANG_REPLACEMENTS[k].token)
  {
    var t := REFANG_REPLACEMENTS[k].token;
    assert t[0] in t && t[0] in "[({ \\";
  }

  // ------------------------------------------------------- the remaining rules

  function RuleResult(k: nat, s: string): string
    requires 3 <= k < |REFANG_REPLACEMENTS|
  {
    ReplaceAll(Tok(k), REFANG_REPLACEMENTS[k].repl, s)
  }

  lemma ApplyStep(k: nat, s: string)
    requires 3 <= k < |REFANG_REPLACEMENTS|
    ensures ApplyFrom(k, s) == ApplyFrom(k + 1, RuleResult(k, s))
  {
    LiteralRule(k);
    ApplyFromStep(k, s);
  }

  /** The length the text will at most have after the rules from the k-th on: each
      bracket still to be taken back makes it shorter. */
  function Settled(k: nat, s: string): int {
    |s| - (if k <= COLON_RULE then 2 * Count(Lit("[://]"), s) else 0)
        - (if k <= AT_RULE then 3 * Count(Lit("[at]"), s) else 0)
  }

  /** A token that differs from both brackets at some position, and shares its
      first character with neither's inside, overlaps neither. */
  lemma TokenApart(t: string, colon: nat, at: nat)
    requires colon < |t| && colon < 5 && t[colon] != "[://]"[colon]
    requires at < |t| && at < 4 && t[at] != "[at]"[at]
    requires t[0] !in "://]@at" && forall d | 0 < d < |t| :: t[d] !in "[@"
    ensures Apart(Lit(t), Lit("[://]")) && Apart(Lit("[://]"), Lit(t))
    ensures Apart(Lit(t), Lit("[at]")) && Apart(Lit("[at]"), Lit(t))
    ensures Apart(Lit(t), Lit("@"))
    ensures (forall d | 0 < d < |t| :: t[d] != ':') ==> Apart(Lit(t), Lit("://"))
  {
    if forall d | 0 < d < |t| :: t[d] != ':' {
      LiteralsApart(t, "://", 0);
    }
    LiteralsApart(t, "[://]", colon);
    ApartSymmetric(Lit(t), Lit("[://]"));
    LiteralsApart(t, "[at]", at);
    ApartSymmetric(Lit(t), Lit("[at]"));
    LiteralsApart(t, "@", 0);
  }

  /** `[:]` and `://` share a colon but never overlap. */
  lemma ColonTokenApart(t: NonEmpty)
    requires t == "[:]"
    ensures ApartFromBrackets(t)
  {
    TokenApart(t, 2, 1);
    ColonTokensApart();
  }

  lemma ColonTokensApart()
    ensures Apart(Lit("[:]"), Lit("://"))
  {
    var a, b := Lit("[:]"), Lit("://");
    assert Clash(a, 0, b) by { assert a[0] !! b[0 - 0]; }
    assert Clash(a, 1, b) by { assert a[2] !! b[2 - 1]; }
    assert Clash(a, 2, b) by { assert a[2] !! b[2 - 2]; }
    assert Clash(b, 1, a) by { assert b[1] !! a[1 - 1]; }
    assert Clash(b, 2, a) by { assert b[2] !! a[2 - 2]; }
  }

  /** No token of a rule before the bracket rules can overlap a bracket or what it stands for. */
  lemma TokensApart(k: nat)
    requires 4 <= k < COLON_RULE
    ensures ApartFromBrackets(REFANG_REPLACEMENTS[k].token)
  {
    var t := REFANG_REPLACEMENTS[k].token;
    match k {
      case 4 => ParenDotApart(t);
      case 5 => BraceDotApart(t);
      case 6 => BracketDotWordApart(t);
      case 7 => ParenDotWordApart(t);
      case 8 => DotWordApart(t);
      case _ => ColonTokenApart(t);
    }
  }

  ghost predicate ApartFromBrackets(t: string)
    requires t != ""
  {
    && Apart(Lit(t), Lit("[://]")) && Apart(Lit("[://]"), Lit(t))
    && Apart(Lit(t), Lit("[at]")) && Apart(Lit("[at]"), Lit(t))
    && Apart(Lit(t), Lit("@")) && Apart(Lit(t), Lit("://"))
  }

  lemma ParenDotApart(t: NonEmpty)
    requires t == "(.)"
    ensures ApartFromBrackets(t)
  {
    TokenApart(t, 0, 0);
  }

  lemma BraceDotApart(t: NonEmpty)
    requires t == "{.}"
    ensures ApartFromBrackets(t)
  {
    TokenApart(t, 0, 0);
  }

  lemma BracketDotWordApart(t: NonEmpty)
    requires t == "[dot]"
    ensures ApartFromBrackets(t)
  {
    TokenApart(t, 1, 1);
  }

  lemma ParenDotWordApart(t: NonEmpty)
    requires t == "(dot)"
    ensures ApartFromBrackets(t)
  {
    TokenApart(t, 0, 0);
  }

  lemma DotWordApart(t: NonEmpty)
    requires t == " dot "
    ensures ApartFromBrackets(t)
  {
    TokenApart(t, 0, 0);
  }

  lemma BracketsApart()
    ensures Apart(Lit("[at]"), Lit("[://]")) && Apart(Lit("[at]"), Lit("://")) && Apart(Lit("[at]"), Lit("@"))
    ensures Unbordered(Lit("[at]")) && Unbordered(Lit("[://]"))
  {
    LiteralsApart("[at]", "[://]", 1);
    LiteralsApart("[at]", "://", 0);
    LiteralsApart("[at]", "@", 0);
    UnborderedByLead(Lit("[at]"));
    UnborderedByLead(Lit("[://]"));
  }

  lemma LiteralRuleShortens(k: nat)
    requires 3 <= k < |REFANG_REPLACEMENTS|
    ensures |REFANG_REPLACEMENTS[k].repl| < |Tok(k)|
    ensures k == COLON_RULE ==> Tok(k) == Lit("[://]") && |REFANG_REPLACEMENTS[k].repl| - |Tok(k)| == -2
    ensures k == AT_RULE ==> Tok(k) == Lit("[at]") && |REFANG_REPLACEMENTS[k].repl| - |Tok(k)| == -3
  {
  }

  lemma RuleLength(k: nat, s: string)
    requires 3 <= k < |REFANG_REPLACEMENTS|
    ensures |RuleResult(k, s)| <= |s| - Count(Tok(k), s)
    ensures k == COLON_RULE ==> |RuleResult(k, s)| == |s| - 2 * Count(Lit("[://]"), s)
    ensures k == AT_RULE ==> |RuleResult(k, s)| == |s| - 3 * Count(Lit("[at]"), s)
  {
    var step := |REFANG_REPLACEMENTS[k].repl| - |Tok(k)|;
    LiteralRuleShortens(k);
    ReplaceLength(Tok(k), REFANG_REPLACEMENTS[k].repl, s, step);
    ShorterBy(Count(Tok(k), s), step);
  }

  /** No rule loses a bracket that a later rule takes back. */
  lemma RuleKeepsBrackets(k: nat, s: string)
    requires 4 <= k < AT_RULE
    ensures k < COLON_RULE ==> Count(Lit("[://]"), RuleResult(k, s)) >= Count(Lit("[://]"), s)
    ensures Count(Lit("[at]"), RuleResult(k, s)) >= Count(Lit("[at]"), s)
  {
    BracketsApart();
    if k < COLON_RULE {
      TokensApart(k);
      CountSurvives(Lit("[://]"), Tok(k), REFANG_REPLACEMENTS[k].repl, s);
    } else {
      LiteralRuleShortens(k);
    }
    CountSurvives(Lit("[at]"), Tok(k), REFANG_REPLACEMENTS[k].repl, s);
  }

  /** One rule: the settled length does not grow, and shrinks when a lossy token is met. */
  lemma RuleSettles(k: nat, s: string)
    requires 4 <= k < |REFANG_REPLACEMENTS|
    ensures Settled(k + 1, RuleResult(k, s)) <= Settled(k, s)
    ensures k != COLON_RULE && k != AT_RULE && Occurs(Tok(k), s) ==> Settled(k + 1, RuleResult(k, s)) < Settled(k, s)
  {
    RuleLength(k, s);
    CountsOccurrences(Tok(k), REFANG_REPLACEMENTS[k].repl, s);
    if k < AT_RULE {
      RuleKeepsBrackets(k, s);
    }
  }

  lemma ShorterBy(n: int, step: int)
    requires n >= 0 && step < 0
    ensures n * step <= -n && (step == -2 ==> n * step == -2 * n) && (step == -3 ==> n * step == -3 * n)
  {
  }

  lemma {:induction false} AllRulesSettle(k: nat, s: string)
    requires 4 <= k <= |REFANG_REPLACEMENTS|
    ensures |ApplyFrom(k, s)| <= Settled(k, s)
    decreases |REFANG_REPLACEMENTS| - k
  {
    if k < |REFANG_REPLACEMENTS| {
      RuleSettles(k, s);
      ApplyStep(k, s);
      AllRulesSettle(k + 1, RuleResult(k, s));
    }
  }

  /** What the text is before the k-th rule when no lossy token was met on the way. */
  function Stage(k: nat, v: string): string {
    if k <= COLON_RULE then Coloned(Atted(v)) else if k == AT_RULE then Atted(v) else v
  }

  lemma StageSettled(k: nat, v: string)
    requires 4 <= k <= |REFANG_REPLACEMENTS|
    ensures Settled(k, Stage(k, v)) <= |v| - (if k <= AT_RULE then 3 * Count(Lit("[at]"), v) else 0)
  {
    AttedSettled(v);
    ColonedSettled(Atted(v));
  }

  lemma AttedSettled(v: string)
    ensures |Atted(v)| - 3 * Count(Lit("[at]"), Atted(v)) <= |v| - 3 * Count(Lit("[at]"), v)
  {
    BracketsApart();
    ReplaceLength(Lit("@"), "[at]", v, 3);
    CountAdds(Lit("@"), "[at]", v);
  }

  lemma ColonedSettled(w: string)
    ensures |Coloned(w)| - 2 * Count(Lit("[://]"), Coloned(w)) <= |w|
    ensures Count(Lit("[at]"), Coloned(w)) >= Count(Lit("[at]"), w)
  {
    BracketsApart();
    ReplaceLength(Lit("://"), "[://]", w, 2);
    CountInserted(Lit("://"), "[://]", w);
    CountSurvives(Lit("[at]"), Lit("://"), "[://]", w);
  }

  /** A token occurs in the bracketed text exactly when it occurs in the original. */
  lemma StageOccurs(k: nat, v: string)
    requires 4 <= k < |REFANG_REPLACEMENTS| && k != COLON_RULE && k != AT_RULE
    ensures Occurs(Tok(k), Stage(k, v)) <==> Occurs(Tok(k), v)
  {
    if k < COLON_RULE {
      TokensApart(k);
      OccursThrough(Tok(k), Lit("@"), "[at]", v);
      OccursThrough(Tok(k), Lit("://"), "[://]", Atted(v));
    }
  }

  lemma ColonsRestored(w: string)
    ensures ReplaceAll(Lit("[://]"), "://", Coloned(w)) == w
  {
    InverseBracketed('[', "://", ']', w);
    assert ['['] + "://" + [']'] == "[://]";
  }

  lemma AtsRestored(v: string)
    requires !Occurs(Lit("[at]"), v)
    ensures ReplaceAll(Lit("[at]"), "@", Atted(v)) == v
  {
    BracketsApart();
    Inverse("@", "[at]", Lit("[at]"), v);
  }

  /** One rule on a text in which no lossy token was met. */
  lemma StageStep(k: nat, v: string)
    requires 4 <= k < |REFANG_REPLACEMENTS|
    requires k != COLON_RULE ==> !Occurs(Tok(k), v)
    ensures ApplyFrom(k, Stage(k, v)) == ApplyFrom(k + 1, Stage(k + 1, v))
  {
    ApplyStep(k, Stage(k, v));
    if k == COLON_RULE {
      ColonsRestored(Atted(v));
    } else if k == AT_RULE {
      AtsRestored(v);
    } else {
      StageOccurs(k, v);
      CountsOccurrences(Tok(k), REFANG_REPLACEMENTS[k].repl, Stage(k, v));
    }
  }

  /** A lossy token makes the text too short. */
  lemma LossyIsLost(k: nat, v: string)
    requires 4 <= k < |REFANG_REPLACEMENTS| && k != COLON_RULE && Occurs(Tok(k), v)
    ensures |ApplyFrom(k, Stage(k, v))| < |v|
  {
    var s := Stage(k, v);
    StageSettled(k, v);
    if k == AT_RULE {
      CountsOccurrences(Tok(k), "@", v);
      AllRulesSettle(k, s);
    } else {
      StageOccurs(k, v);
      RuleSettles(k, s);
      ApplyStep(k, s);
      AllRulesSettle(k + 1, RuleResult(k, s));
    }
  }

  /** The rules after `[.]` restore a bracketed text exactly when it holds no lossy token. */
  lemma {:induction false} BracketsIff(k: nat, v: string)
    requires 4 <= k <= |REFANG_REPLACEMENTS|
    ensures ApplyFrom(k, Stage(k, v)) == v || |ApplyFrom(k, Stage(k, v))| < |v|
    ensures ApplyFrom(k, Stage(k, v)) == v <==> NoLossyFrom(k, v)
    decreases |REFANG_REPLACEMENTS| - k
  {
    if k == |REFANG_REPLACEMENTS| {
    } else if k != COLON_RULE && Occurs(Tok(k), v) {
      LossyIsLost(k, v);
    } else {
      StageStep(k, v);
      BracketsIff(k + 1, v);
    }
  }

  // -------------------------------------------------------------- the round trip

  lemma DefangedTrimmed(u: string)
    ensures Trimmed(u) ==> Trimmed(Defanged(u))
  {
    if u != "" {
      ReplaceKeepsEnds(Lit("http"), "hxxp", u);
      ReplaceKeepsEnds(Lit("."), "[.]", Hxxped(u));
      ReplaceKeepsEnds(Lit("://"), "[://]", Dotted(Hxxped(u)));
      ReplaceKeepsEnds(Lit("@"), "[at]", Coloned(Dotted(Hxxped(u))));
    }
  }

  /** Refanging a defanged value gives the value back exactly when it survives:
      no outer whitespace, no defanged scheme, no `http` before a capital S, and
      none of the literal tokens other than `[.]` and `[://]`. */
  lemma RoundTripIff(u: string)
    ensures Refanged(Defanged(u)) == u <==> Survives(u)
  {
    var k: nat :| k == FIRST_LOSSY;
    if !Trimmed(u) {
      RefangedTrimmed(Defanged(u));
    } else {
      var v := Rescheme(Hxxped(u));
      RefangOfDefang(u, k);
      SchemesIff(u);
      BracketsIff(k, v);
      StripTrims(ApplyFrom(k, Stage(k, v)));
    }
  }

  /** The display form of a value, which refanging takes back exactly when the value survives. */
  method Defang(value: string) returns (out: string)
    ensures out == Defanged(value)
    ensures Refanged(out) == value <==> Survives(value)
  {
    out := ReplaceAll(Lit("http"), "hxxp", value);
    out := ReplaceAll(Lit("."), "[.]", out);
    out := ReplaceAll(Lit("://"), "[://]", out);
    out := ReplaceAll(Lit("@"), "[at]", out);
    RoundTripIff(value);
  }

  lemma RefangedTrimmed(s: string)
    ensures Trimmed(Refanged(s))
  {
    StripTrims(ApplyFrom(0, Strip(s)));
  }

  lemma RefangOfDefang(u: string, k: nat)
    requires Trimmed(u) && k == FIRST_LOSSY
    ensures Refanged(Defanged(u)) == Strip(ApplyFrom(k, Stage(k, Rescheme(Hxxped(u)))))
  {
    DefangedTrimmed(u);
    StripTrims(Defanged(u));
    SchemeRules(Defanged(u));
    SchemesPastBrackets(Hxxped(u));
    DotsRestored(Rescheme(Hxxped(u)));
  }

  /** What the k-th rule looks for. */
  function MatcherOf(k: nat): Token
    requires k < |REFANG_REPLACEMENTS|
  {
    Matcher(REFANG_REPLACEMENTS[k].token)
  }

  lemma MatcherIs(k: nat)
    requires k < |REFANG_REPLACEMENTS|
    ensures MatcherOf(k) == if k == 0 then HXXPS else if k == 1 then HXXP else if k == 2 then FXP else Tok(k)
  {
    if k >= 3 {
      LiteralRule(k);
    } else {
      assert IsAlpha("hxxps") && IsAlpha("hxxp") && IsAlpha("fxp");
    }
  }

  ghost predicate NoToken(v: string) {
    forall k | 0 <= k < |REFANG_REPLACEMENTS| :: !Occurs(MatcherOf(k), v)
  }

  ghost predicate NoSchemeToken(s: string) {
    !Occurs(HXXPS, s) && !Occurs(HXXP, s) && !Occurs(FXP, s)
  }

  lemma NoTokenGives(v: string)
    requires NoToken(v)
    ensures NoSchemeToken(v) && forall k | 3 <= k < |REFANG_REPLACEMENTS| :: !Occurs(Tok(k), v)
  {
    forall k | 0 <= k < |REFANG_REPLACEMENTS| ensures k >= 3 ==> !Occurs(Tok(k), v) {
      MatcherIs(k);
    }
    MatcherIs(0);
    MatcherIs(1);
    MatcherIs(2);
  }

  /** The documented promise, with the one exception it needs: a value without
      outer whitespace and without any refang token comes back, unless it holds
      `http` followed by a capital S. */
  lemma RoundTrip(u: string)
    requires Trimmed(u)
    requires NoToken(u)
    requires !Occurs(HTTP_CAPITAL_S, u)
    ensures Refanged(Defanged(u)) == u
  {
    NoTokenGives(u);
    RoundTripIff(u);
  }

  /** The exception is real: this value is not restored. */
  lemma CapitalSIsLost(u: string)
    requires u == "httpS"
    ensures Trimmed(u) && Refanged(Defanged(u)) != u
  {
    assert u[0..] == u && StartsWith(HTTP_CAPITAL_S, u);
    RoundTripIff(u);
  }

  // ------------------------------------------------------- refanging a refanged value

  /** Each of the literal rules leaves a text as it is or makes it shorter. */
  lemma {:induction false} LiteralRulesShrink(k: nat, s: string)
    requires 3 <= k <= |REFANG_REPLACEMENTS|
    ensures |ApplyFrom(k, s)| <= |s|
    ensures |ApplyFrom(k, s)| == |s| <==> forall i | k <= i < |REFANG_REPLACEMENTS| :: !Occurs(Tok(i), s)
    ensures |ApplyFrom(k, s)| == |s| ==> ApplyFrom(k, s) == s
    decreases |REFANG_REPLACEMENTS| - k
  {
    if k < |REFANG_REPLACEMENTS| {
      ApplyStep(k, s);
      RuleLength(k, s);
      CountsOccurrences(Tok(k), REFANG_REPLACEMENTS[k].repl, s);
      LiteralRulesShrink(k + 1, RuleResult(k, s));
    }
  }

  /** The scheme rules leave a text as it is exactly when they find nothing. */
  lemma ReschemeIff(s: string)
    ensures |Rescheme(s)| == |s|
    ensures Rescheme(s) == s <==> NoSchemeToken(s)
  {
    var s1 := ReplaceAll(HXXPS, "https", s);
    var s2 := ReplaceAll(HXXP, "http", s1);
    ReplaceLength(HXXPS, "https", s, 0);
    ReplaceLength(HXXP, "http", s1, 0);
    ReplaceLength(FXP, "ftp", s2, 0);
    CountsOccurrences(HXXPS, "https", s);
    CountsOccurrences(HXXP, "http", s);
    CountsOccurrences(FXP, "ftp", s);
    NoHxxpLeft(s1);
    NoFxpLeft(s2);
    if Occurs(HXXPS, s) {
      var i :| 0 <= i <= |s| && StartsWith(HXXPS, s[i..]);
      HxxpsIsHxxp(s[i..]);
    }
  }

  lemma NoTokenFrom(v: string)
    requires NoSchemeToken(v) && forall k | 3 <= k < |REFANG_REPLACEMENTS| :: !Occurs(Tok(k), v)
    ensures NoToken(v)
  {
    forall k | 0 <= k < |REFANG_REPLACEMENTS| ensures !Occurs(MatcherOf(k), v) {
      MatcherIs(k);
    }
  }

  /** Refanging leaves a value as it is exactly when the value is trimmed and holds none of
      the fifteen tokens. */
  lemma RefangFixedIff(v: string)
    ensures Refanged(v) == v <==> Trimmed(v) && NoToken(v)
  {
    var k: nat :| k == 3;
    var r := ApplyFrom(k, Rescheme(v));
    if NoToken(v) { NoTokenGives(v); }
    ReschemeIff(v);
    LiteralRulesShrink(k, Rescheme(v));
    StripTrims(v);
    StripTrims(r);
    SchemeRules(v);
    if Refanged(v) == v {
      RefangedTrimmed(v);
      NoTokenFrom(v);
    }
  }

  /** A text with no two neighbours that could begin a token holds no occurrence of it. */
  lemma NoPairNoToken(t: Token, s: string)
    requires |t| >= 2
    requires forall i, j | 0 <= i < j < |s| && j - i == 1 :: !(s[i] in t[0] && s[j] in t[1])
    ensures !Occurs(t, s)
  {
    forall i | 0 <= i <= |s| ensures !StartsWith(t, s[i..]) {
      assert i + 1 < |s| ==> s[i..][0 - 0] == s[i] && s[i..][1 - 0] == s[i + 1];
    }
  }

  lemma NoXNoScheme(s: string)
    requires 'x' !in s && 'X' !in s
    ensures NoSchemeToken(s)
  {
    NoPairNoToken(HXXPS, s);
    NoPairNoToken(HXXP, s);
    NoPairNoToken(FXP, s);
  }

  predicate Opens(c: char) {
    c == '[' || c == '(' || c == '{' || c == ' ' || c == '\\'
  }

  /** Text with no character that a token begins with, or that every scheme token holds. */
  ghost predicate Plain(s: string) {
    forall i | 0 <= i < |s| :: !Opens(s[i]) && s[i] != 'x' && s[i] != 'X'
  }

  ghost predicate DotsAndBrackets(s: string) {
    forall i | 0 <= i < |s| :: s[i] == '[' || s[i] == '.' || s[i] == ']'
  }

  /** The first two characters of the literal tokens; those after `[.]` begin differently. */
  lemma TokenStart(k: nat)
    requires 3 <= k < |REFANG_REPLACEMENTS|
    ensures var t := REFANG_REPLACEMENTS[k].token;
      && |t| >= 2 && Opens(t[0])
      && (k > 3 && t[0] == '[' ==> t[1] != '[' && t[1] != '.' && t[1] != ']')
      && (t[0] == ' ' ==> t[1] == 'd')
  {
  }

  lemma PlainHasNoToken(s: string)
    requires Plain(s)
    ensures NoToken(s)
  {
    NoXNoScheme(s);
    forall k | 3 <= k < |REFANG_REPLACEMENTS| ensures !Occurs(Tok(k), s) {
      TokenStart(k);
      NoPairNoToken(Tok(k), s);
    }
    NoTokenFrom(s);
  }

  /** Two such texts with a blank between them hold no token either, unless the blank begins
      a ` dot `. */
  lemma TwoPlainHaveNoToken(u: string, v: string)
    requires Plain(u) && Plain(v) && v != "" && v[0] != 'd'
    ensures NoToken(u + " " + v)
  {
    var s := u + " " + v;
    assert forall i | 0 <= i < |s| :: s[i] == (if i < |u| then u[i] else if i == |u| then ' ' else v[i - |u| - 1]);
    NoXNoScheme(s);
    forall k | 3 <= k < |REFANG_REPLACEMENTS| ensures !Occurs(Tok(k), s) {
      TokenStart(k);
      NoPairNoToken(Tok(k), s);
    }
    NoTokenFrom(s);
  }

  lemma HttpSIsPlain(u: string)
    requires u == "httpS"
    ensures Plain(u)
  {
  }

  /** `httpS`, which does not survive defanging, holds none of the fifteen tokens either. */
  lemma NoTokenInHttpS(u: string)
    requires u == "httpS"
    ensures NoToken(u)
  {
    HttpSIsPlain(u);
    PlainHasNoToken(u);
  }

  /** No later token occurs in a plain text followed by dots and square brackets. */
  lemma NoLaterToken(k: nat, u: string, tail: string)
    requires 4 <= k < |REFANG_REPLACEMENTS|
    requires Plain(u) && DotsAndBrackets(tail)
    ensures !Occurs(Tok(k), u + tail)
  {
    TokenStart(k);
    NoPairNoToken(Tok(k), u + tail);
  }

  lemma DotRule(s: string, k: nat)
    requires k == 3
    ensures ApplyFrom(k, s) == ApplyFrom(k + 1, ReplaceAll(Lit("[.]"), ".", s))
  {
    ApplyStep(k, s);
  }

  lemma TrimmedWith(u: string, tail: string)
    requires u != "" && !IsSpace(u[0]) && tail != "" && DotsAndBrackets(tail)
    ensures Trimmed(u + tail)
  {
    var s := u + tail;
    assert s[0] == u[0] && s[|s| - 1] == tail[|tail| - 1];
  }

  lemma DotStep(u: string, tail: string, r: string, k: nat)
    requires Plain(u) && DotsAndBrackets(tail) && ReplaceAll(Lit("[.]"), ".", tail) == r && k == 3
    ensures ApplyFrom(0, u + tail) == ApplyFrom(k + 1, u + r)
  {
    SchemeRules(u + tail);
    NoXNoScheme(u + tail);
    ReschemeIff(u + tail);
    PassThrough(Lit("[.]"), ".", u, tail);
    DotRule(u + tail, k);
  }

  /** In such a text only the rule for `[.]` finds something, and the later ones nothing in
      what it leaves. */
  lemma DotTokenAfter(u: string, tail: string, r: string, k: nat)
    requires u != "" && !IsSpace(u[0]) && Plain(u)
    requires tail != "" && DotsAndBrackets(tail)
    requires r != "" && DotsAndBrackets(r)
    requires ReplaceAll(Lit("[.]"), ".", tail) == r && k == 3
    ensures Refanged(u + tail) == u + r
  {
    TrimmedWith(u, tail);
    TrimmedWith(u, r);
    StripTrims(u + tail);
    StripTrims(u + r);
    DotStep(u, tail, r, k);
    forall i | k + 1 <= i < |REFANG_REPLACEMENTS| ensures !Occurs(Tok(i), u + r) {
      NoLaterToken(i, u, r);
    }
    LiteralRulesShrink(k + 1, u + r);
  }

  lemma DotsInBrackets(before: string, after: string)
    requires before in {"", "["} && after in {"", "]"}
    ensures ReplaceAll(Lit("[.]"), ".", before + "[.]" + after) == before + "." + after
  {
    var t, x := Lit("[.]"), "[.]" + after;
    assert StartsWith(t, x) && x[3..] == after;
    assert ReplaceAll(t, ".", after) == after by { PassThrough(t, ".", after, ""); assert after + "" == after; }
    if before == "[" {
      assert (before + x)[1] == '[' && t[1] == {'.'} && (before + x)[1..] == x;
      PassThroughHead(t, ".", before, x);
      assert before + x == before + "[.]" + after;
    } else {
      assert before + "[.]" + after == x;
    }
  }

  lemma UrlIsPlain(u: string)
    requires u == "http://a.com/"
    ensures u != "" && !IsSpace(u[0]) && Plain(u)
  {
  }

  lemma TailShapes(nested: string, token: string, dot: string)
    requires nested == "[[.]]" && token == "[.]" && dot == "."
    ensures nested != "" && DotsAndBrackets(nested) && token != "" && DotsAndBrackets(token) && dot != ""
        && DotsAndBrackets(dot)
  {
  }

  lemma TailSteps(nested: string, token: string, dot: string)
    requires nested == "[[.]]" && token == "[.]" && dot == "."
    ensures ReplaceAll(Lit("[.]"), ".", nested) == token
    ensures ReplaceAll(Lit("[.]"), ".", token) == dot
  {
    DotsInBrackets("[", "]");
    DotsInBrackets("", "");
    assert nested == "[" + "[.]" + "]" && token == "" + "[.]" + "";
    assert token == "[" + "." + "]" && dot == "" + "." + "";
  }

  /** Refanging can leave a token behind, so refanging its result again can give another value. */
  lemma RefangTwice(u: string, nested: string, token: string, dot: string)
    requires u == "http://a.com/" && nested == "[[.]]" && token == "[.]" && dot == "."
    ensures Refanged(u + nested) == u + token && Refanged(u + token) == u + dot
    ensures u + nested != u + token && u + token != u + dot
  {
    var k: nat :| k == 3;
    UrlIsPlain(u);
    TailShapes(nested, token, dot);
    TailSteps(nested, token, dot);
    DotTokenAfter(u, nested, token, k);
    DotTokenAfter(u, token, dot, k);
    assert |u + nested| > |u + token| > |u + dot|;
  }
}
