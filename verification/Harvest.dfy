/** Validation, de-duplication and the result limit shared by the extractors
    (app/ioc/extract.py). Classification is a parameter. */
module Harvest {

  import opened Wrappers

  datatype Parsed = Parsed(ioctype: string, value: string)

  type Classifier = string -> Option<Parsed>

  /** The candidates that classify, in order, in canonical form. */
  function Canonical(classify: Classifier, candidates: seq<string>): seq<Parsed> {
    if candidates == [] then []
    else
      var n := |candidates| - 1;
      var init := Canonical(classify, candidates[..n]);
      match classify(candidates[n])
      case None => init
      case Some(p) => init + [p]
  }

  /** First appearances, in order. */
  function Distinct<T(==)>(ps: seq<T>): seq<T> {
    if ps == [] then []
    else
      var n := |ps| - 1;
      var init := Distinct(ps[..n]);
      if ps[n] in init then init else init + [ps[n]]
  }

  function Values(ps: seq<Parsed>): (vs: seq<string>)
    ensures |vs| == |ps| && forall i | 0 <= i < |ps| :: vs[i] == ps[i].value
  {
    seq(|ps|, i requires 0 <= i < |ps| => ps[i].value)
  }

  /** The limit is only looked at once something was found, so it is never below one. */
  function Cap(limit: int): nat {
    if limit < 1 then 1 else limit
  }

  function Take<T>(s: seq<T>, n: nat): seq<T> {
    if |s| <= n then s else s[..n]
  }

  function Harvested(classify: Classifier, candidates: seq<string>, limit: int): seq<string> {
    Values(Take(Distinct(Canonical(classify, candidates)), Cap(limit)))
  }

  lemma {:induction false} CanonicalPrefix(classify: Classifier, cs: seq<string>, n: nat)
    requires n <= |cs|
    ensures Canonical(classify, cs[..n]) <= Canonical(classify, cs)
    decreases |cs|
  {
    if n < |cs| {
      var m := |cs| - 1;
      CanonicalPrefix(classify, cs[..m], n);
      assert cs[..m][..n] == cs[..n];
    } else {
      assert cs[..n] == cs;
    }
  }

  lemma {:induction false} DistinctPrefix<T>(ps: seq<T>, n: nat)
    requires n <= |ps|
    ensures Distinct(ps[..n]) <= Distinct(ps)
    decreases |ps|
  {
    if n < |ps| {
      var m := |ps| - 1;
      DistinctPrefix(ps[..m], n);
      assert ps[..m][..n] == ps[..n];
    } else {
      assert ps[..n] == ps;
    }
  }

  /** What was found after some candidates stays at the front. */
  lemma {:induction false} FoundStays(classify: Classifier, cs: seq<string>, n: nat)
    requires n <= |cs|
    ensures Distinct(Canonical(classify, cs[..n])) <= Distinct(Canonical(classify, cs))
  {
    var some, all := Canonical(classify, cs[..n]), Canonical(classify, cs);
    CanonicalPrefix(classify, cs, n);
    DistinctPrefix(all, |some|);
    assert all[..|some|] == some;
  }

  lemma {:induction false} DistinctElements<T(!new)>(ps: seq<T>)
    ensures forall p :: p in Distinct(ps) <==> p in ps
    ensures forall i, j | 0 <= i < j < |Distinct(ps)| :: Distinct(ps)[i] != Distinct(ps)[j]
  {
    if ps != [] {
      var n := |ps| - 1;
      DistinctElements(ps[..n]);
      assert ps == ps[..n] + [ps[n]];
    }
  }

  lemma {:induction false} CanonicalElements(classify: Classifier, cs: seq<string>)
    ensures forall p :: p in Canonical(classify, cs) <==> exists c :: c in cs && classify(c) == Some(p)
  {
    if cs != [] {
      var n := |cs| - 1;
      CanonicalElements(classify, cs[..n]);
      assert cs == cs[..n] + [cs[n]];
    }
  }

  /** Every result is the canonical form of a candidate, none is returned twice,
      and below the limit none is missing. */
  lemma {:induction false} HarvestSound(classify: Classifier, cs: seq<string>, limit: int)
    ensures var found := Take(Distinct(Canonical(classify, cs)), Cap(limit));
      && |found| <= Cap(limit)
      && (forall i, j | 0 <= i < j < |found| :: found[i] != found[j])
      && (forall p | p in found :: exists c :: c in cs && classify(c) == Some(p))
      && (|found| < Cap(limit) ==> forall c | c in cs && classify(c).Some? :: classify(c).value in found)
  {
    DistinctElements(Canonical(classify, cs));
    CanonicalElements(classify, cs);
  }

  /** The limit is kept exactly when it is at least one, or is zero and nothing was found. */
  lemma {:induction false} LimitKeptIff(classify: Classifier, cs: seq<string>, limit: int)
    ensures |Harvested(classify, cs, limit)| <= limit
       <==> limit >= 1 || (limit == 0 && forall c | c in cs :: classify(c).None?)
  {
    var canon := Canonical(classify, cs);
    DistinctElements(canon);
    CanonicalElements(classify, cs);
    if canon != [] {
      assert canon[0] in canon && canon[0] in Distinct(canon);
    }
    if c :| c in cs && classify(c).Some? {
      assert classify(c).value in canon;
    }
  }

  /** What is found without a limit. */
  function Results(classify: Classifier, cs: seq<string>): seq<Parsed> {
    Distinct(Canonical(classify, cs))
  }

  lemma {:induction false} ResultsAppear(classify: Classifier, cs: seq<string>)
    ensures forall q | 0 <= q < |cs| && classify(cs[q]).Some? :: classify(cs[q]).value in Results(classify, cs)
    ensures forall v | v in Results(classify, cs) :: exists p :: 0 <= p < |cs| && classify(cs[p]) == Some(v)
  {
    CanonicalElements(classify, cs);
    DistinctElements(Canonical(classify, cs));
    forall v | v in Results(classify, cs) ensures exists p :: 0 <= p < |cs| && classify(cs[p]) == Some(v) {
      var c :| c in cs && classify(c) == Some(v);
      var p :| 0 <= p < |cs| && cs[p] == c;
    }
    forall q | 0 <= q < |cs| && classify(cs[q]).Some? ensures classify(cs[q]).value in Results(classify, cs) {
      assert cs[q] in cs;
    }
  }

  /** One more candidate adds at most its own value to the results. */
  lemma {:induction false} ResultsStep(classify: Classifier, cs: seq<string>, n: nat)
    requires |cs| == n + 1
    ensures var before, all := Results(classify, cs[..n]), Results(classify, cs);
      || all == before
      || (classify(cs[n]).Some? && classify(cs[n]).value !in before && all == before + [classify(cs[n]).value])
    ensures classify(cs[n]).Some? && classify(cs[n]).value !in Results(classify, cs[..n]) ==>
      Results(classify, cs) == Results(classify, cs[..n]) + [classify(cs[n]).value]
  {
    if p :| classify(cs[n]) == Some(p) {
      var canon := Canonical(classify, cs[..n]);
      assert (canon + [p])[..|canon|] == canon;
    }
  }

  /** Results come in the order in which their values first appear among the candidates:
      whenever one appears, all results before it have appeared. */
  lemma {:induction false} FirstAppearance(classify: Classifier, cs: seq<string>, i: nat, j: nat, q: nat)
    requires i < j < |Results(classify, cs)| && q < |cs| && classify(cs[q]) == Some(Results(classify, cs)[j])
    ensures exists p :: 0 <= p < q && classify(cs[p]) == Some(Results(classify, cs)[i])
    decreases |cs|
  {
    var n := |cs| - 1;
    var before := Results(classify, cs[..n]);
    ResultsStep(classify, cs, n);
    ResultsAppear(classify, cs[..n]);
    assert i < |before| && Results(classify, cs)[i] == before[i] && before[i] in before;
    var p :| 0 <= p < n && classify(cs[..n][p]) == Some(before[i]);
    if q < n {
      assert cs[..n][q] == cs[q];
      if j == |before| {
        assert false;
      } else {
        FirstAppearance(classify, cs[..n], i, j, q);
        var p' :| 0 <= p' < q && classify(cs[..n][p']) == Some(before[i]);
        assert cs[p'] == cs[..n][p'];
      }
    } else {
      assert cs[p] == cs[..n][p];
    }
  }

  ghost predicate Before(rs: seq<Parsed>, v: Parsed, w: Parsed) {
    exists i, j :: 0 <= i < j < |rs| && rs[i] == v && rs[j] == w
  }

  /** A value that no earlier candidate has comes after those of all earlier candidates. */
  lemma {:induction false} FoundInTurn(classify: Classifier, cs: seq<string>, a: nat, b: nat)
    requires a < b < |cs| && classify(cs[a]).Some? && classify(cs[b]).Some?
    requires forall k | 0 <= k < b :: classify(cs[k]) != classify(cs[b])
    ensures Before(Results(classify, cs), classify(cs[a]).value, classify(cs[b]).value)
  {
    var v, init, next := classify(cs[b]).value, Results(classify, cs[..b]), cs[..b + 1];
    ResultsAppear(classify, cs[..b]);
    assert cs[..b][a] == cs[a];
    var i :| 0 <= i < |init| && init[i] == classify(cs[a]).value;
    assert v !in init;
    assert next[..b] == cs[..b] && next[b] == cs[b];
    ResultsStep(classify, next, b);
    FoundStays(classify, cs, b + 1);
    assert Results(classify, next) <= Results(classify, cs);
    assert Results(classify, cs)[i] == init[i] && Results(classify, cs)[|init|] == v;
  }

  /** The distinct results of the first k candidates. */
  function Found(classify: Classifier, cs: seq<string>, k: nat): seq<Parsed>
    requires k <= |cs|
  {
    if k == 0 then []
    else
      var before := Found(classify, cs, k - 1);
      match classify(cs[k - 1])
      case None => before
      case Some(p) => if p in before then before else before + [p]
  }

  lemma {:induction false} FoundIsDistinct(classify: Classifier, cs: seq<string>, k: nat)
    requires k <= |cs|
    ensures Found(classify, cs, k) == Distinct(Canonical(classify, cs[..k]))
  {
    if k > 0 {
      FoundIsDistinct(classify, cs, k - 1);
      assert cs[..k][..k - 1] == cs[..k - 1];
      var canon := Canonical(classify, cs[..k - 1]);
      if p :| classify(cs[k - 1]) == Some(p) {
        assert (canon + [p])[..|canon|] == canon;
      }
    }
  }

  /** The result of stopping after k candidates, either at the limit or at the end. */
  lemma {:induction false} Stopped(classify: Classifier, cs: seq<string>, k: nat, limit: int)
    requires k <= |cs| && |Found(classify, cs, k)| <= Cap(limit)
    requires |Found(classify, cs, k)| == Cap(limit) || k == |cs|
    ensures Harvested(classify, cs, limit) == Values(Found(classify, cs, k))
  {
    FoundIsDistinct(classify, cs, k);
    FoundStays(classify, cs, k);
    assert cs[..|cs|] == cs;
  }

  /** The collecting loop of the text extractor. */
  method Collect(classify: Classifier, candidates: seq<string>, limit: int) returns (found: seq<string>)
    ensures found == Harvested(classify, candidates, limit)
  {
    var seen: set<Parsed> := {};
    found := [];
    ghost var sofar: seq<Parsed> := [];
    for k := 0 to |candidates|
      invariant sofar == Found(classify, candidates, k)
      invariant found == Values(sofar) && |found| < Cap(limit)
      invariant forall p :: p in seen <==> p in sofar
    {
      var parsed := classify(candidates[k]);
      if parsed.None? || parsed.value in seen {
        continue;
      }
      sofar := sofar + [parsed.value];
      seen := seen + {parsed.value};
      found := found + [parsed.value.value];
      if |found| >= limit {
        Stopped(classify, candidates, k + 1, limit);
        return;
      }
    }
    Stopped(classify, candidates, |candidates|, limit);
  }
}
