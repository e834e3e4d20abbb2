/** What each way of defanging an indicator is refanged to, and what a defanged value can
    no longer hold (app/ioc/indicators.py). */
module Spellings {
  import opened Text
  import opened Indicators

  /** Text around a token: no character that begins a token, no outer blank, not empty. */
  ghost predicate Part(s: string) {
    s != "" && Plain(s) && !IsSpace(s[0]) && !IsSpace(s[|s| - 1])
  }

  lemma PartsTrimmed(u: string, w: string, v: string)
    requires Part(u) && Part(v)
    ensures Trimmed(u + w + v)
  {
    var s := u + w + v;
    assert s[0] == u[0] && s[|s| - 1] == v[|v| - 1];
  }

  // ------------------------------------------------------------------ literal tokens

  /** The first two characters of the literal tokens. */
  function Head(k: nat): (char, char)
    requires 3 <= k < 15
  {
    match k
    case 3 => ('[', '.')
    case 4 => ('(', '.')
    case 5 => ('{', '.')
    case 6 => ('[', 'd')
    case 7 => ('(', 'd')
    case 8 => (' ', 'd')
    case 9 => ('[', ':')
    case 10 => ('[', ':')
    case 11 => ('[', 'a')
    case 12 => ('(', 'a')
    case 13 => ('[', '@')
    case _ => ('\\', '.')
  }

  lemma HeadIs(k: nat)
    requires 3 <= k < |REFANG_REPLACEMENTS|
    ensures var t := REFANG_REPLACEMENTS[k].token; |t| >= 2 && t[0] == Head(k).0 && t[1] == Head(k).1
  {
  }

  /** Beyond its first character a token begins no other: only ` dot ` holds a second blank. */
  lemma TokenTail(k: nat, j: nat)
    requires 3 <= k < |REFANG_REPLACEMENTS| && 0 < j < |REFANG_REPLACEMENTS[k].token|
    ensures var c := REFANG_REPLACEMENTS[k].token[j]; c != 'x' && c != 'X' && (Opens(c) ==> k == 8 && c == ' ')
  {
  }

  lemma ColonTokens(k: nat)
    requires 9 <= k <= 10
    ensures var t := REFANG_REPLACEMENTS[k].token; |t| >= 3 && t[2] == if k == 9 then ']' else '/'
  {
  }

  /** An earlier token does not occur in a text whose only token is a later one. */
  lemma NotEarlier(i: nat, k: nat, u: string, t: string, v: string)
    requires 3 <= i < k < |REFANG_REPLACEMENTS| && t == REFANG_REPLACEMENTS[k].token && Part(u) && Part(v)
    ensures !Occurs(Tok(i), u + t + v)
  {
    var s, ti := u + t + v, REFANG_REPLACEMENTS[i].token;
    HeadIs(i);
    HeadIs(k);
    if i == 9 && k == 10 {
      ColonTokens(i);
      ColonTokens(k);
    }
    forall p | 0 <= p <= |s| ensures !StartsWith(Tok(i), s[p..]) {
      if p + 2 <= |s| {
        assert s[p..][0 - 0] == s[p] && s[p..][1 - 0] == s[p + 1];
        assert p + 3 <= |s| ==> s[p..][2 - 0] == s[p + 2];
        if |u| < p < |u| + |t| {
          TokenTail(k, p - |u|);
        }
      }
    }
  }

  lemma {:induction false} EarlierRules(i: nat, k: nat, s: string)
    requires 3 <= i <= k < |REFANG_REPLACEMENTS| && forall j | i <= j < k :: !Occurs(Tok(j), s)
    ensures ApplyFrom(i, s) == ApplyFrom(k, s)
    decreases k - i
  {
    if i < k {
      ApplyStep(i, s);
      CountsOccurrences(Tok(i), REFANG_REPLACEMENTS[i].repl, s);
      EarlierRules(i + 1, k, s);
    }
  }

  lemma OneReplacement(t: string, repl: string, u: string, v: string)
    requires t != "" && Opens(t[0]) && Plain(u) && Plain(v)
    ensures ReplaceAll(Lit(t), repl, u + t + v) == u + repl + v
  {
    var b := Lit(t);
    assert forall i | 0 <= i < |u| :: u[i] !in b[0];
    PassThrough(b, repl, u, t + v);
    PassThrough(b, repl, v, "");
    assert v + "" == v && u + t + v == u + (t + v);
    RepMatchesItself(t, v);
    assert (t + v)[|t|..] == v;
    assert u + (repl + v) == u + repl + v;
  }

  lemma ReplacementIsPlain(k: nat, u: string, v: string)
    requires 3 <= k < |REFANG_REPLACEMENTS| && Part(u) && Part(v)
    ensures Plain(u + REFANG_REPLACEMENTS[k].repl + v)
  {
    var r := REFANG_REPLACEMENTS[k].repl;
    PlainReplacement(k);
  }

  lemma PlainReplacement(k: nat)
    requires 3 <= k < |REFANG_REPLACEMENTS|
    ensures Plain(REFANG_REPLACEMENTS[k].repl)
  {
  }

  lemma TokenHasNoX(k: nat, u: string, v: string)
    requires 3 <= k < |REFANG_REPLACEMENTS| && Part(u) && Part(v)
    ensures NoSchemeToken(u + REFANG_REPLACEMENTS[k].token + v)
  {
    var t := REFANG_REPLACEMENTS[k].token;
    HeadIs(k);
    forall i | 0 <= i < |u + t + v| ensures (u + t + v)[i] != 'x' && (u + t + v)[i] != 'X' {
      if |u| < i < |u| + |t| {
        TokenTail(k, i - |u|);
      }
    }
    NoXNoScheme(u + t + v);
  }

  lemma LiteralSteps(k: nat, t: string, repl: string, u: string, v: string, first: nat)
    requires first == 3 <= k < |REFANG_REPLACEMENTS| && t != "" && REFANG_REPLACEMENTS[k] == Rule(t, repl)
    requires Part(u) && Part(v)
    ensures ApplyFrom(first, u + t + v) == u + repl + v
  {
    var s := u + t + v;
    forall i | first <= i < k ensures !Occurs(Tok(i), s) {
      NotEarlier(i, k, u, t, v);
    }
    EarlierRules(first, k, s);
    OwnRule(k, t, repl, u, v);
  }

  lemma OwnRule(k: nat, t: string, repl: string, u: string, v: string)
    requires 3 <= k < |REFANG_REPLACEMENTS| && t != "" && REFANG_REPLACEMENTS[k] == Rule(t, repl)
    requires Part(u) && Part(v)
    ensures ApplyFrom(k, u + t + v) == u + repl + v
  {
    ApplyStep(k, u + t + v);
    HeadIs(k);
    OneReplacement(t, repl, u, v);
    ReplacementIsPlain(k, u, v);
    PlainStays(k + 1, u + repl + v);
  }

  /** Each literal token between plain texts becomes its replacement, and nothing else changes. */
  lemma LiteralSpelling(k: nat, t: string, repl: string, u: string, v: string)
    requires 3 <= k < |REFANG_REPLACEMENTS| && t != "" && REFANG_REPLACEMENTS[k] == Rule(t, repl)
    requires Part(u) && Part(v)
    ensures Refanged(u + t + v) == u + repl + v
  {
    var first: nat :| first == 3;
    PartsTrimmed(u, t, v);
    PartsTrimmed(u, repl, v);
    StripTrims(u + t + v);
    StripTrims(u + repl + v);
    TokenHasNoX(k, u, v);
    ReschemeIff(u + t + v);
    SchemeRules(u + t + v);
    LiteralSteps(k, t, repl, u, v, first);
  }

  lemma PlainStays(k: nat, s: string)
    requires 3 <= k <= |REFANG_REPLACEMENTS| && Plain(s)
    ensures ApplyFrom(k, s) == s
  {
    PlainHasNoToken(s);
    NoTokenGives(s);
    LiteralRulesShrink(k, s);
  }

  lemma BracketedDot(u: string, v: string)
    requires Part(u) && Part(v)
    ensures Refanged(u + "[.]" + v) == u + "." + v
  {
    LiteralSpelling(3, "[.]", ".", u, v);
  }

  lemma ParenthesisedDot(u: string, v: string)
    requires Part(u) && Part(v)
    ensures Refanged(u + "(.)" + v) == u + "." + v
  {
    LiteralSpelling(4, "(.)", ".", u, v);
  }

  lemma BracedDot(u: string, v: string)
    requires Part(u) && Part(v)
    ensures Refanged(u + "{.}" + v) == u + "." + v
  {
    LiteralSpelling(5, "{.}", ".", u, v);
  }

  lemma BracketedDotWord(u: string, v: string)
    requires Part(u) && Part(v)
    ensures Refanged(u + "[dot]" + v) == u + "." + v
  {
    LiteralSpelling(6, "[dot]", ".", u, v);
  }

  lemma ParenthesisedDotWord(u: string, v: string)
    requires Part(u) && Part(v)
    ensures Refanged(u + "(dot)" + v) == u + "." + v
  {
    LiteralSpelling(7, "(dot)", ".", u, v);
  }

  lemma SpacedDotWord(u: string, v: string)
    requires Part(u) && Part(v)
    ensures Refanged(u + " dot " + v) == u + "." + v
  {
    LiteralSpelling(8, " dot ", ".", u, v);
  }

  lemma BracketedColon(u: string, v: string)
    requires Part(u) && Part(v)
    ensures Refanged(u + "[:]" + v) == u + ":" + v
  {
    LiteralSpelling(9, "[:]", ":", u, v);
  }

  lemma BracketedSeparator(u: string, v: string)
    requires Part(u) && Part(v)
    ensures Refanged(u + "[://]" + v) == u + "://" + v
  {
    LiteralSpelling(10, "[://]", "://", u, v);
  }

  lemma BracketedAtWord(u: string, v: string)
    requires Part(u) && Part(v)
    ensures Refanged(u + "[at]" + v) == u + "@" + v
  {
    LiteralSpelling(11, "[at]", "@", u, v);
  }

  lemma ParenthesisedAtWord(u: string, v: string)
    requires Part(u) && Part(v)
    ensures Refanged(u + "(at)" + v) == u + "@" + v
  {
    LiteralSpelling(12, "(at)", "@", u, v);
  }

  lemma BracketedAt(u: string, v: string)
    requires Part(u) && Part(v)
    ensures Refanged(u + "[@]" + v) == u + "@" + v
  {
    LiteralSpelling(13, "[@]", "@", u, v);
  }

  lemma EscapedDot(u: string, v: string)
    requires Part(u) && Part(v)
    ensures Refanged(u + "\\." + v) == u + "." + v
  {
    LiteralSpelling(14, "\\.", ".", u, v);
  }

  // ----------------------------------------------------------------------- schemes

  /** A word in any letter case. */
  lemma LowerMatches(w: string, t: string)
    requires t != "" && Lower(w) == t
    ensures |w| == |t| && StartsWith(NoCase(t), w)
    ensures forall i | 0 <= i < |w| && 'a' <= t[i] <= 'z' :: w[i] == t[i] || w[i] == (t[i] as int - 32) as char
  {
    assert |Lower(w)| == |w|;
    assert forall i | 0 <= i < |w| :: Lower(w)[i] == t[i];
  }

  lemma SecondNotX(b: Token, x: string)
    requires |b| >= 2 && b[1] == {'x', 'X'} && (|x| >= 2 ==> x[1] != 'x' && x[1] != 'X')
    ensures !StartsWith(b, x)
  {
    assert |x| >= 2 ==> x[1 - 0] == x[1];
  }

  /** A text without `x` passes a scheme rule, whose matches have one in second place. */
  lemma {:induction false} PassNoX(b: Token, rep: string, u: string, s: string)
    requires |b| >= 2 && b[1] == {'x', 'X'} && 'x' !in u && 'X' !in u
    requires s == "" || (s[0] != 'x' && s[0] != 'X')
    ensures ReplaceAll(b, rep, u + s) == u + ReplaceAll(b, rep, s)
  {
    if u == "" {
      assert u + s == s;
    } else {
      PassNoX(b, rep, u[1..], s);
      var x := u + s;
      assert x[1..] == u[1..] + s;
      assert |x| >= 2 ==> x[1] == if |u| >= 2 then u[1] else s[0];
      SecondNotX(b, x);
      assert [u[0]] + (u[1..] + ReplaceAll(b, rep, s)) == u + ReplaceAll(b, rep, s);
    }
  }

  /** One scheme word between texts without `x` is replaced, and nothing else. */
  lemma SchemeReplaced(b: Token, rep: string, u: string, w: string, v: string)
    requires |b| >= 2 && b[1] == {'x', 'X'} && |w| == |b| && StartsWith(b, w) && w[0] != 'x' && w[0] != 'X'
    requires Plain(u) && Plain(v)
    ensures ReplaceAll(b, rep, u + w + v) == u + rep + v
  {
    PassNoX(b, rep, u, w + v);
    PassNoX(b, rep, v, "");
    assert v + "" == v && u + w + v == u + (w + v);
    assert StartsWith(b, w + v) by {
      assert forall i | 0 <= i < |b| :: (w + v)[i] == w[i];
    }
    assert (w + v)[|b|..] == v;
    assert u + (rep + v) == u + rep + v;
  }

  /** A scheme rule leaves a text whose `x`es cannot be where it needs them. */
  lemma SchemeNotFound(b: Token, rep: string, s: string)
    requires |b| >= 2 && b[1] == {'x', 'X'}
    requires forall p | 0 <= p && p + 1 < |s| && s[p + 1] in b[1] :: !StartsWith(b, s[p..])
    ensures ReplaceAll(b, rep, s) == s
  {
    forall p | 0 <= p <= |s| ensures !StartsWith(b, s[p..]) {
      if p + 1 < |s| {
        assert s[p..][1 - 0] == s[p + 1];
      }
    }
    CountsOccurrences(b, rep, s);
  }

  lemma CharRefutes(t: Token, j: nat, s: string, p: nat)
    requires j < |t| && p <= |s| && (p + j < |s| ==> s[p + j] !in t[j])
    ensures !StartsWith(t, s[p..])
  {
    if p + j < |s| {
      assert s[p..][j - 0] == s[p + j];
    }
  }

  /** A text with one scheme word holds its `x`es there. */
  lemma XesInWord(u: string, w: string, v: string, p: nat)
    requires Plain(u) && Plain(v) && p < |u + w + v| && (u + w + v)[p] in {'x', 'X'}
    ensures |u| <= p < |u| + |w| && (u + w + v)[p] == w[p - |u|]
  {
  }

  lemma PlainParts(u: string, w: string, v: string)
    requires Plain(u) && Plain(w) && Plain(v)
    ensures Plain(u + w + v)
  {
  }

  /** A trimmed value that the first three rules make plain. */
  lemma RestIsPlain(s: string, r: string, k: nat)
    requires Plain(r) && Trimmed(s) && Trimmed(r) && k == 3 && Rescheme(s) == r
    ensures Refanged(s) == r
  {
    StripTrims(s);
    StripTrims(r);
    SchemeRules(s);
    PlainStays(k, r);
  }

  lemma NotHxxps(u: string, w: string, v: string)
    requires Plain(u) && Plain(v) && Lower(w) == "hxxp" && (v != "" ==> v[0] !in HXXPS[4])
    ensures ReplaceAll(HXXPS, "https", u + w + v) == u + w + v
  {
    var s := u + w + v;
    LowerMatches(w, "hxxp");
    forall p | 0 <= p && p + 1 < |s| && s[p + 1] in HXXPS[1] ensures !StartsWith(HXXPS, s[p..]) {
      XesInWord(u, w, v, p + 1);
      CharRefutes(HXXPS, if p == |u| then 4 else 0, s, p);
    }
    SchemeNotFound(HXXPS, "https", s);
  }

  lemma WordNotFound(b: Token, rep: string, u: string, w: string, v: string)
    requires |b| >= 2 && b[1] == {'x', 'X'} && Plain(u) && Plain(v)
    requires forall i | 0 < i < |w| && w[i] in {'x', 'X'} :: w[i - 1] !in b[0]
    requires w != "" && w[0] !in {'x', 'X'}
    ensures ReplaceAll(b, rep, u + w + v) == u + w + v
  {
    var s := u + w + v;
    forall p | 0 <= p && p + 1 < |s| && s[p + 1] in b[1] ensures !StartsWith(b, s[p..]) {
      XesInWord(u, w, v, p + 1);
      assert s[p] == w[p - |u|];
      CharRefutes(b, 0, s, p);
    }
    SchemeNotFound(b, rep, s);
  }

  lemma PlainSchemes(a: string, b: string, c: string)
    requires a == "http" && b == "https" && c == "ftp"
    ensures Plain(a) && Plain(b) && Plain(c)
  {
  }

  /** `hxxp` in any letter case, before anything but an `s`, becomes `http`. */
  lemma HttpSpelling(u: string, w: string, v: string)
    requires Plain(u) && Lower(w) == "hxxp" && Plain(v) && Trimmed(u + w + v) && Trimmed(u + "http" + v)
    requires v != "" ==> v[0] !in {'s', 'S', '\U{17F}'}
    ensures Refanged(u + w + v) == u + "http" + v
  {
    var k: nat :| k == 3;
    LowerMatches(w, "hxxp");
    PlainSchemes("http", "https", "ftp");
    NotHxxps(u, w, v);
    SchemeReplaced(HXXP, "http", u, w, v);
    WordNotFound(FXP, "ftp", u, "http", v);
    PlainParts(u, "http", v);
    RestIsPlain(u + w + v, u + "http" + v, k);
  }

  /** `hxxps` in any letter case becomes `https`. */
  lemma HttpsSpelling(u: string, w: string, v: string)
    requires Plain(u) && Lower(w) == "hxxps" && Plain(v) && Trimmed(u + w + v) && Trimmed(u + "https" + v)
    ensures Refanged(u + w + v) == u + "https" + v
  {
    var k: nat :| k == 3;
    LowerMatches(w, "hxxps");
    PlainSchemes("http", "https", "ftp");
    SchemeReplaced(HXXPS, "https", u, w, v);
    WordNotFound(HXXP, "http", u, "https", v);
    WordNotFound(FXP, "ftp", u, "https", v);
    PlainParts(u, "https", v);
    RestIsPlain(u + w + v, u + "https" + v, k);
  }

  /** `fxp` in any letter case becomes `ftp`. */
  lemma FtpSpelling(u: string, w: string, v: string)
    requires Plain(u) && Lower(w) == "fxp" && Plain(v) && Trimmed(u + w + v) && Trimmed(u + "ftp" + v)
    ensures Refanged(u + w + v) == u + "ftp" + v
  {
    var k: nat :| k == 3;
    LowerMatches(w, "fxp");
    PlainSchemes("http", "https", "ftp");
    WordNotFound(HXXPS, "https", u, w, v);
    WordNotFound(HXXP, "http", u, w, v);
    SchemeReplaced(FXP, "ftp", u, w, v);
    PlainParts(u, "ftp", v);
    RestIsPlain(u + w + v, u + "ftp" + v, k);
  }

  // -------------------------------------------------------------- what defanging leaves

  /** Every occurrence of `b` stands in square brackets. */
  ghost predicate AllBracketed(b: string, s: string)
    requires b != ""
  {
    forall p | 0 <= p <= |s| && StartsWith(Lit(b), s[p..]) ::
      p >= 1 && p + |b| < |s| && s[p - 1] == '[' && s[p + |b|] == ']'
  }

  lemma {:induction false} BracketingIsComplete(b: string, s: string)
    requires b != "" && '[' !in b && b[0] != ']' && forall d | 0 < d < |b| :: b[d] != b[0]
    ensures AllBracketed(b, ReplaceAll(Lit(b), ['['] + b + [']'], s))
  {
    var ins := ['['] + b + [']'];
    var r := ReplaceAll(Lit(b), ins, s);
    if s == "" {
    } else {
      var n, front := if StartsWith(Lit(b), s) then |b| else 1, if StartsWith(Lit(b), s) then ins else [s[0]];
      var rest := ReplaceAll(Lit(b), ins, s[n..]);
      BracketingIsComplete(b, s[n..]);
      NotAtFront('[', b, ']', s);
      assert r == front + rest;
      forall p | 0 <= p <= |r| && StartsWith(Lit(b), r[p..])
        ensures p >= 1 && p + |b| < |r| && r[p - 1] == '[' && r[p + |b|] == ']'
      {
        assert r[0..] == r;
        if p >= |front| {
          assert r[p..] == rest[p - |front|..];
        } else {
          assert p > 0 && r[p..][0 - 0] == ins[p] && ins[p] == b[0];
          assert p == 1;
        }
      }
    }
  }

  /** A defanged value holds no `http` and no at sign, and every dot and every `://` in it
      stands in square brackets. */
  lemma DefangedIsSafe(u: string)
    ensures !Occurs(Lit("http"), Defanged(u)) && !Occurs(Lit("@"), Defanged(u))
    ensures AllBracketed(".", Defanged(u)) && AllBracketed("://", Defanged(u))
  {
    NoHttpShown(u);
    LiteralsApart("@", "[at]", 0);
    UnborderedByLead(Lit("@"));
    NoneLeft(Lit("@"), "[at]", Coloned(Dotted(Hxxped(u))));
    DotsShown(Hxxped(u));
    SeparatorsShown(Hxxped(u));
  }

  lemma NoHttpShown(u: string)
    ensures !Occurs(Lit("http"), Defanged(u))
  {
    var a, s := Lit("http"), Hxxped(u);
    NoHttpLeft(u);
    LiteralsApart("http", ".", 0);
    LiteralsApart("http", "[.]", 0);
    OccursThrough(a, Lit("."), "[.]", s);
    LiteralsApart("http", "://", 0);
    LiteralsApart("http", "[://]", 0);
    OccursThrough(a, Lit("://"), "[://]", Dotted(s));
    LiteralsApart("http", "@", 0);
    LiteralsApart("http", "[at]", 0);
    OccursThrough(a, Lit("@"), "[at]", Coloned(Dotted(s)));
  }

  lemma DotsShown(v: string)
    ensures AllBracketed(".", Bracketed(v))
  {
    BracketOrder(v);
    BracketingIsComplete(".", Coloned(Atted(v)));
    assert ['['] + "." + [']'] == "[.]";
  }

  lemma SeparatorsShown(v: string)
    ensures AllBracketed("://", Bracketed(v))
  {
    CommuteLiterals("@", "[at]", "://", "[://]", Dotted(v));
    BracketingIsComplete("://", Atted(Dotted(v)));
    assert ['['] + "://" + [']'] == "[://]";
  }
}
