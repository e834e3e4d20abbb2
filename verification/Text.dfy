/** String operations the rewriting code is built from: leftmost, non-overlapping
    replacement, stripping, splitting, and the facts about overlapping tokens
    that decide whether two replacements interfere. */
module Text {

  /** A token is a sequence of character classes, so that a literal and a
      case-insensitive literal are matched by the same code. */
  type Token = t: seq<set<char>> | |t| > 0 witness [{'.'}]

  function Lit(s: string): (t: Token)
    requires s != ""
    ensures |t| == |s| && forall k | 0 <= k < |s| :: t[k] == {s[k]}
  {
    seq(|s|, k requires 0 <= k < |s| => {s[k]})
  }

  /** The characters an ASCII lower-case letter matches under `re.IGNORECASE`. */
  function AnyCase(c: char): set<char> {
    if c == 's' then {'s', 'S', '\U{17F}'}
    else if 'a' <= c <= 'z' then {c, (c as int - 32) as char}
    else {c}
  }

  function NoCase(s: string): (t: Token)
    requires s != ""
    ensures |t| == |s| && forall k | 0 <= k < |s| :: t[k] == AnyCase(s[k])
  {
    seq(|s|, k requires 0 <= k < |s| => AnyCase(s[k]))
  }

  /** `t[d..]` matches a prefix of `s`. */
  predicate StartsFrom(t: Token, d: nat, s: string)
    requires d <= |t|
  {
    |t| - d <= |s| && forall k | d <= k < |t| :: s[k - d] in t[k]
  }

  predicate StartsWith(t: Token, s: string) {
    StartsFrom(t, 0, s)
  }

  ghost predicate Occurs(t: Token, s: string) {
    exists i | 0 <= i <= |s| :: StartsWith(t, s[i..])
  }

  /** Replace every occurrence, scanning from the left and resuming after each match. */
  function ReplaceAll(t: Token, rep: string, s: string): string {
    if s == "" then ""
    else if StartsWith(t, s) then rep + ReplaceAll(t, rep, s[|t|..])
    else [s[0]] + ReplaceAll(t, rep, s[1..])
  }

  /** The number of replacements `ReplaceAll` makes. */
  function Count(t: Token, s: string): nat {
    if s == "" then 0
    else if StartsWith(t, s) then 1 + Count(t, s[|t|..])
    else Count(t, s[1..])
  }

  lemma ConcatAssoc<T>(a: seq<T>, b: seq<T>, c: seq<T>)
    ensures (a + b) + c == a + (b + c)
  {
  }

  // ---------------------------------------------------------------- occurrence

  lemma OccursStep(t: Token, s: string)
    ensures Occurs(t, s) <==> StartsWith(t, s) || (s != "" && Occurs(t, s[1..]))
  {
    if StartsWith(t, s) {
      assert s[0..] == s;
    }
    if s != "" && Occurs(t, s[1..]) {
      var i :| 0 <= i <= |s[1..]| && StartsWith(t, s[1..][i..]);
      assert s[1..][i..] == s[i + 1..];
    }
    if Occurs(t, s) {
      var i :| 0 <= i <= |s| && StartsWith(t, s[i..]);
      if i == 0 {
        assert s[0..] == s;
      } else {
        assert s[i..] == s[1..][i - 1..];
      }
    }
  }

  lemma OccursSuffix(t: Token, s: string, n: nat)
    requires n <= |s| && Occurs(t, s[n..])
    ensures Occurs(t, s)
  {
  }

  /** None is made exactly when the token does not occur. */
  lemma {:induction false} CountsOccurrences(t: Token, rep: string, s: string)
    ensures Count(t, s) == 0 <==> !Occurs(t, s)
    ensures !Occurs(t, s) ==> ReplaceAll(t, rep, s) == s
  {
    OccursStep(t, s);
    if s == "" {
    } else if StartsWith(t, s) {
    } else {
      CountsOccurrences(t, rep, s[1..]);
    }
  }

  /** Each replacement changes the length by `|rep| - |t|`. */
  lemma {:induction false} ReplaceLength(t: Token, rep: string, s: string, step: int)
    requires step == |rep| - |t|
    ensures |ReplaceAll(t, rep, s)| == |s| + Count(t, s) * step
  {
    if s == "" {
    } else if StartsWith(t, s) {
      ReplaceLength(t, rep, s[|t|..], step);
      Distribute(Count(t, s[|t|..]), step);
    } else {
      ReplaceLength(t, rep, s[1..], step);
    }
  }

  lemma Distribute(n: int, k: int)
    ensures (1 + n) * k == k + n * k
  {
  }

  // ------------------------------------------------------------------- overlap

  /** Token `b` cannot match at offset `d` of a text that `a` matches. */
  ghost predicate Clash(a: Token, d: nat, b: Token) {
    exists j :: d <= j < |a| && j - d < |b| && a[j] !! b[j - d]
  }

  /** No text holds overlapping matches of `a` and `b`. */
  ghost predicate Apart(a: Token, b: Token) {
    && (forall d | 0 <= d < |a| :: Clash(a, d, b))
    && (forall d | 0 < d < |b| :: Clash(b, d, a))
  }

  /** No text holds two different overlapping matches of `a`. */
  ghost predicate Unbordered(a: Token) {
    forall d | 0 < d < |a| :: Clash(a, d, a)
  }

  /** Two tokens whose first characters occur nowhere else in the other, and which
      differ at some position, never overlap. */
  lemma ApartByLead(a: Token, b: Token, j: nat)
    requires j < |a| && j < |b| && a[j] !! b[j]
    requires forall d | 0 < d < |a| :: a[d] !! b[0]
    requires forall d | 0 < d < |b| :: b[d] !! a[0]
    ensures Apart(a, b)
  {
    forall d | 0 <= d < |a| ensures Clash(a, d, b) {
      if d == 0 {
        assert a[j] !! b[j - 0];
      } else {
        assert a[d] !! b[d - d];
      }
    }
    forall d | 0 < d < |b| ensures Clash(b, d, a) {
      assert b[d] !! a[d - d];
    }
  }

  lemma ApartSymmetric(a: Token, b: Token)
    requires Apart(a, b)
    ensures Apart(b, a)
  {
    assert Clash(a, 0, b);
    var j :| 0 <= j < |a| && j - 0 < |b| && a[j] !! b[j - 0];
    assert b[j] !! a[j - 0];
    assert Clash(b, 0, a);
  }

  lemma LiteralsApart(a: string, b: string, j: nat)
    requires j < |a| && j < |b| && a[j] != b[j]
    requires forall d | 0 < d < |a| :: a[d] != b[0]
    requires forall d | 0 < d < |b| :: b[d] != a[0]
    ensures Apart(Lit(a), Lit(b))
  {
    ApartByLead(Lit(a), Lit(b), j);
  }

  lemma UnborderedByLead(a: Token)
    requires forall d | 0 < d < |a| :: a[d] !! a[0]
    ensures Unbordered(a)
  {
    forall d | 0 < d < |a| ensures Clash(a, d, a) {
      assert a[d] !! a[d - d];
    }
  }

  lemma ClashRefutes(a: Token, d: nat, b: Token, s: string)
    requires d < |a| && Clash(a, d, b)
    ensures !(StartsFrom(a, d, s) && StartsWith(b, s))
  {
  }

  lemma ClashRefutesRep(a: Token, d: nat, rep: string, s: string)
    requires d < |a| && rep != "" && Clash(a, d, Lit(rep))
    ensures !StartsFrom(a, d, rep + s)
  {
  }

  lemma RepMatchesItself(rep: string, s: string)
    requires rep != ""
    ensures StartsWith(Lit(rep), rep + s)
  {
  }

  /** When `b` and its replacement cannot match inside `a[d..]`, replacing `b`
      neither makes nor breaks a match of `a[d..]` at the front. */
  lemma {:induction false} PrefixThrough(a: Token, d: nat, b: Token, rep: string, s: string)
    requires d <= |a| && rep != ""
    requires forall e | d <= e < |a| :: Clash(a, e, b) && Clash(a, e, Lit(rep))
    ensures StartsFrom(a, d, ReplaceAll(b, rep, s)) <==> StartsFrom(a, d, s)
    decreases |a| - d
  {
    if d == |a| || s == "" {
    } else if StartsWith(b, s) {
      assert Clash(a, d, b) && Clash(a, d, Lit(rep));
      ClashRefutes(a, d, b, s);
      ClashRefutesRep(a, d, rep, ReplaceAll(b, rep, s[|b|..]));
    } else {
      PrefixThrough(a, d + 1, b, rep, s[1..]);
      PrefixStep(a, d, s[0], s[1..], ReplaceAll(b, rep, s[1..]));
      assert s == [s[0]] + s[1..];
    }
  }

  lemma PrefixStep(a: Token, d: nat, c: char, x: string, y: string)
    requires d < |a| && (StartsFrom(a, d + 1, x) <==> StartsFrom(a, d + 1, y))
    ensures StartsFrom(a, d, [c] + x) <==> StartsFrom(a, d, [c] + y)
  {
  }

  lemma StartsFromStep(t: Token, d: nat, s: string)
    requires d < |t|
    ensures StartsFrom(t, d, s) <==> s != "" && s[0] in t[d] && StartsFrom(t, d + 1, s[1..])
  {
  }

  /** An occurrence of `a` cannot begin inside a match of `b` that it cannot overlap. */
  lemma {:induction false} SkipMatch(a: Token, b: Token, s: string, n: nat)
    requires Apart(a, b) && StartsWith(b, s) && n <= |b|
    ensures Count(a, s[n..]) == Count(a, s[|b|..])
    ensures Occurs(a, s[n..]) <==> Occurs(a, s[|b|..])
    decreases |b| - n
  {
    if n < |b| {
      SkipMatch(a, b, s, n + 1);
      NoStartInside(a, b, s, n);
      OccursStep(a, s[n..]);
      assert s[n..][1..] == s[n + 1..];
    }
  }

  lemma NoStartInside(a: Token, b: Token, s: string, n: nat)
    requires Apart(a, b) && StartsWith(b, s) && n < |b|
    ensures !StartsWith(a, s[n..])
  {
    if StartsWith(a, s[n..]) {
      if n == 0 {
        assert s[0..] == s;
        ClashRefutes(a, 0, b, s);
      } else {
        assert StartsFrom(b, n, s[n..]);
        ClashRefutes(b, n, a, s[n..]);
      }
    }
  }

  /** Replacing `b` neither creates nor destroys an occurrence of `a`, when `a`
      can overlap neither `b` nor what replaces it. */
  lemma {:induction false} OccursThrough(a: Token, b: Token, rep: string, s: string)
    requires rep != "" && Apart(a, b) && Apart(a, Lit(rep))
    ensures Occurs(a, ReplaceAll(b, rep, s)) <==> Occurs(a, s)
  {
    var r := ReplaceAll(b, rep, s);
    if s == "" {
    } else if StartsWith(b, s) {
      OccursThrough(a, b, rep, s[|b|..]);
      RepMatchesItself(rep, ReplaceAll(b, rep, s[|b|..]));
      SkipMatch(a, b, s, 0);
      SkipMatch(a, Lit(rep), r, 0);
      assert s[0..] == s && r[0..] == r && r[|rep|..] == ReplaceAll(b, rep, s[|b|..]);
    } else {
      OccursThrough(a, b, rep, s[1..]);
      PrefixThrough(a, 0, b, rep, s);
      OccursStep(a, s);
      OccursStep(a, r);
      assert r[1..] == ReplaceAll(b, rep, s[1..]);
    }
  }

  /** Replacing `b` by anything loses no occurrence of `a`, when the two cannot overlap. */
  lemma {:induction false} CountSurvives(a: Token, b: Token, rep: string, s: string)
    requires Apart(a, b) && Unbordered(a)
    ensures Count(a, ReplaceAll(b, rep, s)) >= Count(a, s)
  {
    var r := ReplaceAll(b, rep, s);
    if s == "" {
    } else if StartsWith(b, s) {
      CountSurvives(a, b, rep, s[|b|..]);
      SkipMatch(a, b, s, 0);
      assert s[0..] == s;
      CountSuffix(a, rep, ReplaceAll(b, rep, s[|b|..]));
    } else if StartsWith(a, s) {
      CountSurvives(a, b, rep, s[|a|..]);
      CopyMatch(a, b, rep, s, 0);
      assert s[0..] == s;
      assert r == s[..|a|] + ReplaceAll(b, rep, s[|a|..]);
      assert StartsWith(a, r) && r[|a|..] == ReplaceAll(b, rep, s[|a|..]);
    } else {
      CountSurvives(a, b, rep, s[1..]);
      CountSuffix(a, [s[0]], ReplaceAll(b, rep, s[1..]));
    }
  }

  /** What is inserted adds to what was there, when the two tokens cannot overlap. */
  lemma {:induction false} CountAdds(b: Token, ins: string, s: string)
    requires ins != "" && Unbordered(Lit(ins)) && Apart(Lit(ins), b)
    ensures Count(Lit(ins), ReplaceAll(b, ins, s)) >= Count(b, s) + Count(Lit(ins), s)
  {
    var a, r := Lit(ins), ReplaceAll(b, ins, s);
    if s == "" {
    } else if StartsWith(b, s) {
      CountAdds(b, ins, s[|b|..]);
      SkipMatch(a, b, s, 0);
      assert s[0..] == s;
      RepMatchesItself(ins, ReplaceAll(b, ins, s[|b|..]));
      assert r[|ins|..] == ReplaceAll(b, ins, s[|b|..]);
    } else if StartsWith(a, s) {
      CountAdds(b, ins, s[|a|..]);
      CopyMatch(a, b, ins, s, 0);
      ApartSymmetric(a, b);
      SkipMatch(b, a, s, 0);
      assert s[0..] == s;
      assert StartsWith(a, r) && r[|a|..] == ReplaceAll(b, ins, s[|a|..]);
    } else {
      CountAdds(b, ins, s[1..]);
      CountSuffix(a, [s[0]], ReplaceAll(b, ins, s[1..]));
    }
  }

  /** Replacing `b` copies a match of `a` unchanged. */
  lemma {:induction false} CopyMatch(a: Token, b: Token, rep: string, s: string, n: nat)
    requires Apart(a, b) && StartsWith(a, s) && n <= |a|
    ensures ReplaceAll(b, rep, s[n..]) == s[n..|a|] + ReplaceAll(b, rep, s[|a|..])
    decreases |a| - n
  {
    if n < |a| {
      CopyMatch(a, b, rep, s, n + 1);
      if StartsWith(b, s[n..]) {
        assert StartsFrom(a, n, s[n..]);
        ClashRefutes(a, n, b, s[n..]);
      }
      assert s[n..][1..] == s[n + 1..];
      assert s[n..|a|] == [s[n]] + s[n + 1..|a|];
    }
  }

  /** Every replacement leaves an occurrence of what it inserted. */
  lemma {:induction false} CountInserted(b: Token, ins: string, s: string)
    requires ins != "" && Unbordered(Lit(ins))
    ensures Count(Lit(ins), ReplaceAll(b, ins, s)) >= Count(b, s)
  {
    if s == "" {
    } else if StartsWith(b, s) {
      var x := ReplaceAll(b, ins, s[|b|..]);
      CountInserted(b, ins, s[|b|..]);
      RepMatchesItself(ins, x);
      assert (ins + x)[|ins|..] == x;
    } else {
      CountInserted(b, ins, s[1..]);
      CountSuffix(Lit(ins), [s[0]], ReplaceAll(b, ins, s[1..]));
    }
  }

  /** Text put in front hides no occurrence of an unbordered token. */
  lemma {:induction false} CountSuffix(a: Token, w: string, s: string)
    requires Unbordered(a)
    ensures Count(a, w + s) >= Count(a, s)
  {
    if w == "" {
      assert w + s == s;
    } else {
      CountSuffix(a, w[1..], s);
      var x := w + s;
      assert x[1..] == w[1..] + s;
      if StartsWith(a, x) {
        SkipSelf(a, x, 1);
      }
    }
  }

  lemma {:induction false} SkipSelf(a: Token, s: string, n: nat)
    requires Unbordered(a) && StartsWith(a, s) && 0 < n <= |a|
    ensures Count(a, s[n..]) == Count(a, s[|a|..])
    decreases |a| - n
  {
    if n < |a| {
      SkipSelf(a, s, n + 1);
      if StartsWith(a, s[n..]) {
        assert StartsFrom(a, n, s[n..]);
        ClashRefutes(a, n, a, s[n..]);
      }
      assert s[n..][1..] == s[n + 1..];
    }
  }

  /** No occurrence is left after replacing all of them by text they cannot overlap. */
  lemma {:induction false} NoneLeft(a: Token, rep: string, s: string)
    requires rep != "" && Unbordered(a) && Apart(a, Lit(rep))
    ensures !Occurs(a, ReplaceAll(a, rep, s))
  {
    var r := ReplaceAll(a, rep, s);
    if s == "" {
    } else if StartsWith(a, s) {
      NoneLeft(a, rep, s[|a|..]);
      RepMatchesItself(rep, ReplaceAll(a, rep, s[|a|..]));
      SkipMatch(a, Lit(rep), r, 0);
      assert r[0..] == r && r[|rep|..] == ReplaceAll(a, rep, s[|a|..]);
    } else {
      NoneLeft(a, rep, s[1..]);
      StartsFromStep(a, 0, s);
      StartsFromStep(a, 0, r);
      assert r[1..] == ReplaceAll(a, rep, s[1..]);
      PrefixThrough(a, 1, a, rep, s[1..]);
      OccursStep(a, r);
    }
  }

  // --------------------------------------------------------------- commutation

  /** Text with no character of `b` passes through the replacement of `b`. */
  lemma {:induction false} PassThrough(b: Token, rep: string, w: string, s: string)
    requires forall i | 0 <= i < |w| :: w[i] !in b[0]
    ensures ReplaceAll(b, rep, w + s) == w + ReplaceAll(b, rep, s)
  {
    if w == "" {
      assert w + s == s;
    } else {
      PassThrough(b, rep, w[1..], s);
      assert (w + s)[1..] == w[1..] + s;
      assert w == [w[0]] + w[1..];
    }
  }

  /** The same when only the first character of the text could begin a match, and does not. */
  lemma PassThroughHead(b: Token, rep: string, w: string, s: string)
    requires w != "" && !StartsWith(b, w + s)
    requires forall i | 0 < i < |w| :: w[i] !in b[0]
    ensures ReplaceAll(b, rep, w + s) == w + ReplaceAll(b, rep, s)
  {
    assert (w + s)[1..] == w[1..] + s;
    PassThrough(b, rep, w[1..], s);
    assert w == [w[0]] + w[1..];
  }

  /** Two replacements whose tokens use no character of the other's token or
      replacement can be made in either order. */
  lemma {:induction false} Commute(a: Token, aRep: string, b: Token, bRep: string, s: string)
    requires aRep != "" && bRep != ""
    requires forall i, k | 0 <= i < |a| && 0 <= k < |b| :: a[i] !! b[k]
    requires forall i, k | 0 <= i < |a| && 0 <= k < |bRep| :: bRep[k] !in a[i]
    requires forall i, k | 0 <= i < |b| && 0 <= k < |aRep| :: aRep[k] !in b[i]
    ensures ReplaceAll(a, aRep, ReplaceAll(b, bRep, s)) == ReplaceAll(b, bRep, ReplaceAll(a, aRep, s))
  {
    if s == "" {
    } else if StartsWith(a, s) {
      CommuteAtMatch(a, aRep, b, bRep, s);
      Commute(a, aRep, b, bRep, s[|a|..]);
    } else if StartsWith(b, s) {
      CommuteAtMatch(b, bRep, a, aRep, s);
      Commute(a, aRep, b, bRep, s[|b|..]);
    } else {
      Commute(a, aRep, b, bRep, s[1..]);
      CommuteAtOther(a, b, bRep, s);
      CommuteAtOther(b, a, aRep, s);
    }
  }

  /** The same for a literal second token, stated on the characters in use. */
  lemma CommuteLiteral(a: Token, aRep: string, b: string, bRep: string, s: string)
    requires aRep != "" && b != "" && bRep != ""
    requires forall i, c | 0 <= i < |a| && c in a[i] :: c !in b && c !in bRep
    requires forall c | c in aRep :: c !in b
    ensures ReplaceAll(a, aRep, ReplaceAll(Lit(b), bRep, s)) == ReplaceAll(Lit(b), bRep, ReplaceAll(a, aRep, s))
  {
    forall i, k | 0 <= i < |a| && 0 <= k < |b| ensures a[i] !! Lit(b)[k] {
      assert b[k] in b;
    }
    forall i, k | 0 <= i < |a| && 0 <= k < |bRep| ensures bRep[k] !in a[i] {
      assert bRep[k] in bRep;
    }
    forall i, k | 0 <= i < |Lit(b)| && 0 <= k < |aRep| ensures aRep[k] !in Lit(b)[i] {
      assert aRep[k] in aRep && b[i] in b;
    }
    Commute(a, aRep, Lit(b), bRep, s);
  }

  /** The same for two literal tokens. */
  lemma CommuteLiterals(a: string, aRep: string, b: string, bRep: string, s: string)
    requires a != "" && aRep != "" && b != "" && bRep != ""
    requires forall c | c in a :: c !in b && c !in bRep
    requires forall c | c in aRep :: c !in b
    ensures ReplaceAll(Lit(a), aRep, ReplaceAll(Lit(b), bRep, s))
        == ReplaceAll(Lit(b), bRep, ReplaceAll(Lit(a), aRep, s))
  {
    forall i, c | 0 <= i < |a| && c in Lit(a)[i] ensures c !in b && c !in bRep {
      assert c == a[i] && a[i] in a;
    }
    CommuteLiteral(Lit(a), aRep, b, bRep, s);
  }

  lemma CommuteAtMatch(a: Token, aRep: string, b: Token, bRep: string, s: string)
    requires StartsWith(a, s)
    requires forall i, k | 0 <= i < |a| && 0 <= k < |b| :: a[i] !! b[k]
    requires forall i, k | 0 <= i < |b| && 0 <= k < |aRep| :: aRep[k] !in b[i]
    ensures ReplaceAll(a, aRep, ReplaceAll(b, bRep, s)) == aRep + ReplaceAll(a, aRep, ReplaceAll(b, bRep, s[|a|..]))
    ensures ReplaceAll(b, bRep, ReplaceAll(a, aRep, s)) == aRep + ReplaceAll(b, bRep, ReplaceAll(a, aRep, s[|a|..]))
  {
    var w, x := s[..|a|], s[|a|..];
    forall i | 0 <= i < |w| ensures w[i] !in b[0] {
      assert s[i - 0] in a[i];
    }
    assert s == w + x;
    PassThrough(b, bRep, w, x);
    var y := w + ReplaceAll(b, bRep, x);
    assert StartsWith(a, y) && y[|a|..] == ReplaceAll(b, bRep, x);
    PassThrough(b, bRep, aRep, ReplaceAll(a, aRep, x));
  }

  lemma CommuteAtOther(a: Token, b: Token, bRep: string, s: string)
    requires s != "" && !StartsWith(a, s) && !StartsWith(b, s) && bRep != ""
    requires forall i, k | 0 <= i < |a| && 0 <= k < |b| :: a[i] !! b[k]
    requires forall i, k | 0 <= i < |a| && 0 <= k < |bRep| :: bRep[k] !in a[i]
    ensures !StartsWith(a, [s[0]] + ReplaceAll(b, bRep, s[1..]))
  {
    var r := [s[0]] + ReplaceAll(b, bRep, s[1..]);
    StartsFromStep(a, 0, s);
    StartsFromStep(a, 0, r);
    assert r[1..] == ReplaceAll(b, bRep, s[1..]);
    forall e | 1 <= e < |a| ensures Clash(a, e, b) && Clash(a, e, Lit(bRep)) {
      assert a[e] !! b[e - e];
      assert a[e] !! Lit(bRep)[e - e];
    }
    PrefixThrough(a, 1, b, bRep, s[1..]);
  }

  // ----------------------------------------------------------------- inversion

  /** Replacing back: a text that holds no occurrence of the inserted token is
      restored, when the two tokens cannot overlap. */
  lemma {:induction false} Inverse(b: string, ins: string, back: Token, s: string)
    requires b != "" && ins != "" && |back| == |ins| && StartsWith(back, ins)
    requires Apart(back, Lit(b)) && forall d | 0 < d < |back| :: Clash(back, d, Lit(ins))
    requires !Occurs(back, s)
    ensures ReplaceAll(back, b, ReplaceAll(Lit(b), ins, s)) == s
  {
    OccursStep(back, s);
    if s == "" {
    } else if StartsWith(Lit(b), s) {
      var rest := s[|b|..];
      if Occurs(back, rest) {
        OccursSuffix(back, s, |b|);
      }
      Inverse(b, ins, back, rest);
      var r := ins + ReplaceAll(Lit(b), ins, rest);
      assert StartsWith(back, r) && r[|ins|..] == ReplaceAll(Lit(b), ins, rest);
      assert s == b + rest by {
        forall k | 0 <= k < |b| ensures s[k] == b[k] { assert s[k - 0] in Lit(b)[k]; }
      }
    } else {
      Inverse(b, ins, back, s[1..]);
      var r := [s[0]] + ReplaceAll(Lit(b), ins, s[1..]);
      PrefixThrough(back, 1, Lit(b), ins, s[1..]);
      StartsFromStep(back, 0, s);
      StartsFromStep(back, 0, r);
      assert r[1..] == ReplaceAll(Lit(b), ins, s[1..]);
    }
  }

  /** Bracketing a token is always undone, even in a text that already holds the
      bracketed form. */
  lemma {:induction false} InverseBracketed(open: char, b: string, close: char, s: string)
    requires b != "" && open !in b && forall d | 0 < d < |b| :: b[d] != b[0]
    ensures ReplaceAll(Lit([open] + b + [close]), b, ReplaceAll(Lit(b), [open] + b + [close], s)) == s
  {
    var ins := [open] + b + [close];
    if s == "" {
    } else if StartsWith(Lit(b), s) {
      var rest := s[|b|..];
      InverseBracketed(open, b, close, rest);
      RepMatchesItself(ins, ReplaceAll(Lit(b), ins, rest));
      var r := ins + ReplaceAll(Lit(b), ins, rest);
      assert r[|ins|..] == ReplaceAll(Lit(b), ins, rest);
      assert s == b + rest by {
        forall k | 0 <= k < |b| ensures s[k] == b[k] { assert s[k - 0] in Lit(b)[k]; }
      }
    } else {
      InverseBracketed(open, b, close, s[1..]);
      var x := ReplaceAll(Lit(b), ins, s[1..]);
      if StartsWith(Lit(ins), [s[0]] + x) {
        forall k | 0 <= k < |b| ensures x[k - 0] in Lit(b)[k] {
          assert ([s[0]] + x)[k + 1 - 0] in Lit(ins)[k + 1];
        }
        assert StartsWith(Lit(b), x);
        NotAtFront(open, b, close, s[1..]);
      }
    }
  }

  /** After bracketing, the bare token is never at the front. */
  lemma NotAtFront(open: char, b: string, close: char, s: string)
    requires b != "" && open !in b && forall d | 0 < d < |b| :: b[d] != b[0]
    ensures !StartsWith(Lit(b), ReplaceAll(Lit(b), [open] + b + [close], s))
  {
    var ins := [open] + b + [close];
    var t := Lit(b);
    var r := ReplaceAll(t, ins, s);
    if s == "" {
    } else if StartsWith(t, s) {
      assert r[0] == open;
      StartsFromStep(t, 0, r);
      assert t[0] == {b[0]};
    } else {
      forall e | 1 <= e < |t| ensures Clash(t, e, t) && Clash(t, e, Lit(ins)) {
        assert t[e] !! t[e - e];
        assert t[e] !! Lit(ins)[e - e];
      }
      PrefixThrough(t, 1, t, ins, s[1..]);
      StartsFromStep(t, 0, s);
      StartsFromStep(t, 0, r);
      assert r[1..] == ReplaceAll(t, ins, s[1..]);
    }
  }

  // ------------------------------------------------------------------ stripping

  /** The characters `str.isspace` accepts. */
  predicate IsSpace(c: char) {
    || '\t' <= c <= '\r' || '\U{1C}' <= c <= ' ' || c == '\U{85}' || c == '\U{A0}' || c == '\U{1680}'
    || '\U{2000}' <= c <= '\U{200A}' || c == '\U{2028}' || c == '\U{2029}' || c == '\U{202F}'
    || c == '\U{205F}' || c == '\U{3000}'
  }

  function StripLeft(s: string): string {
    if s != "" && IsSpace(s[0]) then StripLeft(s[1..]) else s
  }

  function StripRight(s: string): string {
    if s != "" && IsSpace(s[|s| - 1]) then StripRight(s[..|s| - 1]) else s
  }

  function Strip(s: string): string {
    StripRight(StripLeft(s))
  }

  ghost predicate Trimmed(s: string) {
    s == "" || (!IsSpace(s[0]) && !IsSpace(s[|s| - 1]))
  }

  lemma {:induction false} StripLeftSuffix(s: string)
    ensures StripLeft(s) == "" || !IsSpace(StripLeft(s)[0])
    ensures |StripLeft(s)| <= |s|
    ensures s != "" && IsSpace(s[0]) ==> |StripLeft(s)| < |s|
  {
    if s != "" && IsSpace(s[0]) {
      StripLeftSuffix(s[1..]);
    }
  }

  lemma {:induction false} StripRightPrefix(s: string)
    ensures StripRight(s) == "" || !IsSpace(StripRight(s)[|StripRight(s)| - 1])
    ensures StripRight(s) <= s
    ensures s != "" && IsSpace(s[|s| - 1]) ==> |StripRight(s)| < |s|
  {
    if s != "" && IsSpace(s[|s| - 1]) {
      StripRightPrefix(s[..|s| - 1]);
    }
  }

  lemma StripTrims(s: string)
    ensures Trimmed(Strip(s))
    ensures |Strip(s)| < |s| || Strip(s) == s
    ensures Strip(s) == s <==> Trimmed(s)
  {
    StripLeftSuffix(s);
    StripRightPrefix(StripLeft(s));
  }

  /** Replacement by text without outer blanks keeps a text free of outer blanks. */
  lemma {:induction false} ReplaceKeepsEnds(t: Token, rep: string, s: string)
    requires rep != "" && Trimmed(rep) && s != ""
    ensures ReplaceAll(t, rep, s) != ""
    ensures !IsSpace(s[0]) ==> !IsSpace(ReplaceAll(t, rep, s)[0])
    ensures !IsSpace(s[|s| - 1]) ==> !IsSpace(ReplaceAll(t, rep, s)[|ReplaceAll(t, rep, s)| - 1])
  {
    var n := if StartsWith(t, s) then |t| else 1;
    if n < |s| {
      ReplaceKeepsEnds(t, rep, s[n..]);
    } else {
      assert s[n..] == "";
    }
  }

  /** ASCII lower-casing. */
  function Lower(s: string): string {
    seq(|s|, i requires 0 <= i < |s| => if 'A' <= s[i] <= 'Z' then (s[i] as int + 32) as char else s[i])
  }

  predicate SameChar(x: char, y: char) {
    || x == y
    || ('a' <= x <= 'z' && 'A' <= y <= 'Z' && x as int == y as int + 32)
    || ('A' <= x <= 'Z' && 'a' <= y <= 'z' && x as int + 32 == y as int)
  }

  /** Equal up to the case of ASCII letters. */
  predicate SameButCase(a: string, b: string) {
    |a| == |b| && forall i | 0 <= i < |a| :: SameChar(a[i], b[i])
  }

  /** Lower-casing identifies exactly the texts that differ in letter case only. */
  lemma LowerIff(a: string, b: string)
    ensures Lower(a) == Lower(b) <==> SameButCase(a, b)
  {
    if Lower(a) == Lower(b) {
      assert |Lower(a)| == |a| && |Lower(b)| == |b|;
      forall i | 0 <= i < |a| ensures SameChar(a[i], b[i]) {
        assert Lower(a)[i] == Lower(b)[i];
        assert Lower(a)[i] as int == if 'A' <= a[i] <= 'Z' then a[i] as int + 32 else a[i] as int;
        assert Lower(b)[i] as int == if 'A' <= b[i] <= 'Z' then b[i] as int + 32 else b[i] as int;
      }
    }
    if SameButCase(a, b) {
      forall i | 0 <= i < |a| ensures Lower(a)[i] == Lower(b)[i] {
        assert SameChar(a[i], b[i]);
      }
    }
  }

  lemma LowerTwice(s: string)
    ensures Lower(Lower(s)) == Lower(s)
  {
  }

  lemma {:induction false} LowerStripLeft(s: string)
    ensures StripLeft(Lower(s)) == Lower(StripLeft(s))
  {
    if s != "" {
      assert Lower(s)[1..] == Lower(s[1..]);
      LowerStripLeft(s[1..]);
    }
  }

  lemma {:induction false} LowerStripRight(s: string)
    ensures StripRight(Lower(s)) == Lower(StripRight(s))
  {
    if s != "" {
      var n := |s| - 1;
      assert Lower(s)[..n] == Lower(s[..n]);
      LowerStripRight(s[..n]);
    }
  }

  /** Stripping and lower-casing commute. */
  lemma LowerStrip(s: string)
    ensures Strip(Lower(s)) == Lower(Strip(s))
  {
    LowerStripLeft(s);
    LowerStripRight(StripLeft(s));
  }
}
