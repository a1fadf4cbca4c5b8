/**
 Importing upstream prices (controller/ratio_sync.go): models.dev lists each model
 under many providers and the cheapest one is selected; OpenRouter quotes prices
 per token. Both end up as ratios rounded to six decimals. Floats are exact reals.
 */
module PriceImport {
  import opened Basics
  import opened RatioDiff
  import Sorting

  // ----- Provider order --------------------------------------------------------

  /** Go's string comparison: lexicographic. */
  predicate Before(a: string, b: string) {
    b != [] && (a == [] || a[0] < b[0] || (a[0] == b[0] && Before(a[1..], b[1..])))
  }

  lemma {:induction false} BeforeIsAsymmetric(a: string, b: string)
    ensures !(Before(a, b) && Before(b, a))
  {
    if a != [] && b != [] && a[0] == b[0] {
      BeforeIsAsymmetric(a[1..], b[1..]);
    }
  }

  lemma {:induction false} BeforeIsTotal(a: string, b: string)
    ensures a == b || Before(a, b) || Before(b, a)
  {
    if a != [] && b != [] && a[0] == b[0] {
      BeforeIsTotal(a[1..], b[1..]);
      assert a == [a[0]] + a[1..] && b == [b[0]] + b[1..];
    }
  }

  lemma {:induction false} BeforeIsTransitive(a: string, b: string, c: string)
    requires Before(a, b) && Before(b, c)
    ensures Before(a, c)
  {
    if a != [] && a[0] == b[0] && b[0] == c[0] {
      BeforeIsTransitive(a[1..], b[1..], c[1..]);
    }
  }

  lemma BeforeIsOrder()
    ensures Sorting.StrictOrder(Before)
  {
    forall a, b
      ensures a == b || Before(a, b) || Before(b, a)
    {
      BeforeIsTotal(a, b);
    }
    forall a, b, c | Before(a, b) && Before(b, c)
      ensures Before(a, c)
    {
      BeforeIsTransitive(a, b, c);
    }
  }

  ghost predicate Ascending(s: seq<string>) {
    Sorting.Ascending(s, Before)
  }

  /** sort.Strings on the keys of a map. */
  method SortNames(names: set<string>) returns (r: seq<string>)
    ensures Ascending(r)
    ensures forall x :: x in r <==> x in names
  {
    BeforeIsOrder();
    r := [];
    var rest := names;
    while rest != {}
      invariant rest <= names
      invariant Ascending(r)
      invariant forall x :: x in r <==> x in names && x !in rest
      decreases |rest|
    {
      var x :| x in rest;
      rest := rest - {x};
      Sorting.InsertIsAscending(r, x, Before);
      r := Sorting.Insert(r, x, Before);
    }
  }

  // ----- Selecting the cheapest provider ---------------------------------------

  /** USD per million tokens; a missing price is None. */
  datatype Cost = Cost(input: Option<real>, output: Option<real>, cacheRead: Option<real>)

  datatype Candidate = Candidate(provider: string, input: real, output: Option<real>, cacheRead: Option<real>)

  function BuildCandidate(provider: string, cost: Cost): (r: Option<Candidate>)
    ensures r.Some? ==>
              && r.value.provider == provider && Some(r.value.input) == cost.input && r.value.output == cost.output
              && r.value.cacheRead ==
                 if cost.cacheRead.Some? && cost.cacheRead.value < 0.0 then None else cost.cacheRead
    ensures r.Some? <==>
            && cost.input.Some? && cost.input.value >= 0.0
            && (cost.output.Some? ==> cost.output.value >= 0.0)
            && (cost.output.Some? && cost.input.value == 0.0 ==> cost.output.value == 0.0)
  {
    if cost.input.None? || cost.input.value < 0.0 then None
    else if cost.output.Some? && cost.output.value < 0.0 then None
    else if cost.input.value == 0.0 && cost.output.Some? && cost.output.value > 0.0 then None
    else
      Some(Candidate(provider, cost.input.value, cost.output,
                     if cost.cacheRead.Some? && cost.cacheRead.value >= 0.0 then cost.cacheRead else None))
  }

  predicate ShouldReplace(current: Candidate, next: Candidate) {
    var currentNonZero := current.input > 0.0;
    var nextNonZero := next.input > 0.0;
    if currentNonZero != nextNonZero then nextNonZero
    else if nextNonZero && !NearlyEqual(next.input, current.input) then next.input < current.input
    else Before(next.provider, current.provider)
  }

  type Catalog = map<string, map<string, Cost>>

  /** The valid candidates for a model, in provider order. */
  function CandidatesOf(data: Catalog, providers: seq<string>, m: string): seq<Candidate> {
    if providers == [] then []
    else
      var last := |providers| - 1;
      CandidatesOf(data, providers[..last], m) + ToSeq(CandidateOf(data, providers[last], m))
  }

  function CandidateOf(data: Catalog, p: string, m: string): Option<Candidate> {
    if p in data && m in data[p] then BuildCandidate(p, data[p][m]) else None
  }

  function ToSeq<T>(o: Option<T>): seq<T> {
    if o.Some? then [o.value] else []
  }

  /** One step of the selection. */
  function Choose(current: Option<Candidate>, next: Option<Candidate>): Option<Candidate> {
    if next.None? then current
    else if current.None? || ShouldReplace(current.value, next.value) then next
    else current
  }

  function Select(cands: seq<Candidate>): Option<Candidate> {
    if cands == [] then None else Choose(Select(cands[..|cands| - 1]), Some(cands[|cands| - 1]))
  }

  function SelectedAt(selected: map<string, Candidate>, m: string): Option<Candidate> {
    if m in selected then Some(selected[m]) else None
  }

  /** The inner loop: one provider's models. */
  method OfferProvider(data: Catalog, p: string, selected: map<string, Candidate>) returns (r: map<string, Candidate>)
    requires p in data
    ensures forall m :: SelectedAt(r, m) == Choose(SelectedAt(selected, m), CandidateOf(data, p, m))
  {
    r := selected;
    var names := data[p].Keys;
    while names != {}
      invariant names <= data[p].Keys
      invariant forall m :: SelectedAt(r, m) ==
                  if m in names then SelectedAt(selected, m)
                      else Choose(SelectedAt(selected, m), CandidateOf(data, p, m))
      decreases |names|
    {
      var m :| m in names;
      names := names - {m};
      var candidate := BuildCandidate(p, data[p][m]);
      if candidate.Some? {
        if m !in r || ShouldReplace(r[m], candidate.value) {
          r := r[m := candidate.value];
        }
      }
    }
  }

  /** The outer loop, over the providers in sorted order. */
  method SelectCandidates(data: Catalog) returns (selected: map<string, Candidate>, ghost providers: seq<string>)
    ensures Ascending(providers) && forall p :: p in providers <==> p in data
    ensures forall m :: SelectedAt(selected, m) == Select(CandidatesOf(data, providers, m))
    ensures forall m :: m in selected ==> Cheapest(data, selected[m], m)
    ensures forall m, p :: p in data && CandidateOf(data, p, m).Some? ==> m in selected
  {
    var sorted := SortNames(data.Keys);
    providers := sorted;
    selected := map[];
    for i := 0 to |sorted|
      invariant forall m :: SelectedAt(selected, m) == Select(CandidatesOf(data, sorted[..i], m))
    {
      assert sorted[..i + 1][..i] == sorted[..i] && sorted[i] in sorted;
      ghost var before := selected;
      selected := OfferProvider(data, sorted[i], selected);
      forall m
        ensures SelectedAt(selected, m) == Select(CandidatesOf(data, sorted[..i + 1], m))
      {
        SelectSnoc(CandidatesOf(data, sorted[..i], m), CandidateOf(data, sorted[i], m));
      }
    }
    assert sorted[..|sorted|] == sorted;
    forall m | m in selected
      ensures Cheapest(data, selected[m], m)
    {
      SelectedIsCheapest(data, providers, m);
    }
    forall m, p | p in data && CandidateOf(data, p, m).Some?
      ensures m in selected
    {
      SomethingIsSelected(data, providers, m, p);
    }
  }

  lemma SelectSnoc(cands: seq<Candidate>, next: Option<Candidate>)
    ensures Select(cands + ToSeq(next)) == Choose(Select(cands), next)
  {
    if next.Some? {
      assert (cands + [next.value])[..|cands|] == cands;
    } else {
      assert cands + [] == cands;
    }
  }

  /** A valid quote of the model: its provider and its input price. */
  ghost predicate Quotes(data: Catalog, m: string, p: string, price: real) {
    CandidateOf(data, p, m).Some? && CandidateOf(data, p, m).value.input == price
  }

  /**
   A provider's quote for the model is chosen that is non-zero if any valid quote is, less than
   epsilon above every valid non-zero quote, and below those of earlier providers. If all are
   zero, it is the first.
   */
  ghost predicate Cheapest(data: Catalog, c: Candidate, m: string) {
    && c.provider in data && CandidateOf(data, c.provider, m) == Some(c)
    && (forall p, price :: Quotes(data, m, p, price) && price > 0.0 ==> c.input > 0.0 && c.input < price + EPSILON)
    && (forall p, price :: Quotes(data, m, p, price) && Before(p, c.provider) ==>
          c.input > 0.0 && (price > 0.0 ==> c.input < price))
  }

  ghost predicate InProviderOrder(cands: seq<Candidate>) {
    && (forall i :: 0 <= i < |cands| ==> cands[i].input >= 0.0)
    && (forall i, j :: 0 <= i < j < |cands| ==> Before(cands[i].provider, cands[j].provider))
  }

  /** Candidate `c` is to be preferred to `x`: by price, up to epsilon, and strictly if `x` comes first. */
  ghost predicate Beats(c: Candidate, x: Candidate) {
    && (x.input > 0.0 ==> c.input > 0.0 && c.input < x.input + EPSILON)
    && (Before(x.provider, c.provider) ==> c.input > 0.0 && (x.input > 0.0 ==> c.input < x.input))
  }

  /** A later provider that takes over beats whatever was beaten, and one that does not is beaten. */
  lemma ChooseBeats(cur: Candidate, next: Candidate, x: Candidate)
    requires Beats(cur, x) && cur.input >= 0.0 && next.input >= 0.0 && x.input >= 0.0
    requires Before(cur.provider, next.provider)
    ensures var c := Choose(Some(cur), Some(next)).value; Beats(c, x) && Beats(c, next)
  {
    BeforeIsAsymmetric(cur.provider, next.provider);
    BeforeIsAsymmetric(next.provider, next.provider);
  }

  lemma ChooseBeatsAll(cands: seq<Candidate>, n: nat, k: nat)
    requires k < n < |cands| && InProviderOrder(cands) && forall i :: 0 <= i < n ==> Beats(cands[k], cands[i])
    ensures var c := Choose(Some(cands[k]), Some(cands[n])).value; forall i :: 0 <= i <= n ==> Beats(c, cands[i])
  {
    forall i | 0 <= i < n
      ensures Beats(Choose(Some(cands[k]), Some(cands[n])).value, cands[i])
      ensures Beats(Choose(Some(cands[k]), Some(cands[n])).value, cands[n])
    {
      ChooseBeats(cands[k], cands[n], cands[i]);
    }
    ChooseBeats(cands[k], cands[n], cands[k]);
  }

  /** In provider order ties never replace, so the selected price cannot drift upward. */
  lemma {:induction false} SelectIsCheapest(cands: seq<Candidate>, n: nat) returns (k: nat)
    requires InProviderOrder(cands) && 0 < n <= |cands|
    ensures k < n && Select(cands[..n]) == Some(cands[k])
    ensures forall i :: 0 <= i < n ==> Beats(cands[k], cands[i])
  {
    assert cands[..n][..n - 1] == cands[..n - 1];
    if n == 1 {
      k := 0;
      BeforeIsAsymmetric(cands[0].provider, cands[0].provider);
    } else {
      k := SelectIsCheapest(cands, n - 1);
      ChooseBeatsAll(cands, n - 1, k);
      k := if ShouldReplace(cands[k], cands[n - 1]) then n - 1 else k;
    }
  }

  lemma {:induction false} CandidatesInOrder(data: Catalog, providers: seq<string>, m: string)
    requires Ascending(providers)
    ensures InProviderOrder(CandidatesOf(data, providers, m))
    ensures forall c :: c in CandidatesOf(data, providers, m) <==>
              c.provider in providers && CandidateOf(data, c.provider, m) == Some(c)
  {
    if providers != [] {
      var last := |providers| - 1;
      var init := providers[..last];
      assert providers == init + [providers[last]];
      CandidatesInOrder(data, init, m);
      var cands := CandidatesOf(data, init, m);
      forall i | 0 <= i < |cands|
        ensures Before(cands[i].provider, providers[last])
      {
        assert cands[i] in cands;
        var k :| 0 <= k < |init| && init[k] == cands[i].provider;
        assert providers[k] == init[k];
      }
    }
  }

  lemma SelectedIsCheapest(data: Catalog, providers: seq<string>, m: string)
    requires Ascending(providers) && forall p :: p in providers <==> p in data
    requires Select(CandidatesOf(data, providers, m)).Some?
    ensures Cheapest(data, Select(CandidatesOf(data, providers, m)).value, m)
  {
    var cands := CandidatesOf(data, providers, m);
    CandidatesInOrder(data, providers, m);
    assert cands[..|cands|] == cands;
    var k := SelectIsCheapest(cands, |cands|);
    var c := cands[k];
    assert c in cands;
    forall p, price | Quotes(data, m, p, price)
      ensures price > 0.0 ==> c.input > 0.0 && c.input < price + EPSILON
      ensures Before(p, c.provider) ==> c.input > 0.0 && (price > 0.0 ==> c.input < price)
    {
      var x := CandidateOf(data, p, m).value;
      assert x in cands && x.provider == p;
      var i :| 0 <= i < |cands| && cands[i] == x;
      assert Beats(c, cands[i]);
    }
  }

  /** Every model with a valid quote gets a candidate. */
  lemma SomethingIsSelected(data: Catalog, providers: seq<string>, m: string, p: string)
    requires Ascending(providers) && p in providers && CandidateOf(data, p, m).Some?
    ensures Select(CandidatesOf(data, providers, m)).Some?
  {
    CandidatesInOrder(data, providers, m);
    assert CandidateOf(data, p, m).value in CandidatesOf(data, providers, m);
    var cands := CandidatesOf(data, providers, m);
    assert cands[..|cands|] == cands;
    var k := SelectIsCheapest(cands, |cands|);
  }

  /** Out of provider order the tie-break drifts: the selected price ends more than epsilon above the cheapest. */
  lemma DriftWithoutSorting()
    ensures var a := Candidate("c", 1.0, None, None);
            var b := Candidate("b", 1.0000000006, None, None);
            var c := Candidate("a", 1.0000000012, None, None);
            Select([a, b, c]) == Some(c) && c.input > a.input + EPSILON
  {
    var a := Candidate("c", 1.0, None, None);
    var b := Candidate("b", 1.0000000006, None, None);
    var c := Candidate("a", 1.0000000012, None, None);
    assert [a, b, c][..2] == [a, b] && [a, b][..1] == [a] && [a][..0] == [];
    assert Select([a]) == Some(a);
    assert Before("b", "c") && Before("a", "b");
    assert Select([a, b]) == Some(b);
  }

  // ----- Ratios ----------------------------------------------------------------

  /** One dollar is 500 ratio units per thousand tokens. */
  const USD: real := 500.0

  /** math.Round: to the nearest integer, halves away from zero. */
  function RoundHalfAway(x: real): real {
    if x >= 0.0 then (x + 0.5).Floor as real else -((-x + 0.5).Floor as real)
  }

  /** roundRatioValue: six decimals. */
  function RoundRatio(v: real): real {
    RoundHalfAway(v * 1000000.0) / 1000000.0
  }

  const HALF_MILLIONTH: real := 0.0000005

  predicate Within(a: real, b: real, bound: real) {
    -bound <= a - b <= bound
  }

  lemma RoundInteger(k: int)
    ensures RoundHalfAway(k as real) == k as real
  {
    assert (k as real + 0.5).Floor == k && (-(k as real) + 0.5).Floor == -k;
  }

  lemma RoundIsNearest(x: real) returns (k: int)
    ensures RoundHalfAway(x) == k as real
    ensures Within(k as real, x, 0.5)
    ensures x >= 0.0 ==> k >= 0
  {
    k := if x >= 0.0 then (x + 0.5).Floor else -(-x + 0.5).Floor;
  }

  /** Halves are rounded away from zero. */
  lemma HalvesRoundAway(k: nat)
    ensures RoundHalfAway(k as real + 0.5) == k as real + 1.0
    ensures RoundHalfAway(-(k as real) - 0.5) == -(k as real) - 1.0
  {
    assert (k as real + 0.5 + 0.5).Floor == k + 1;
  }

  /** A rounded ratio is within half a millionth of the exact one, and rounding it again changes nothing. */
  lemma RoundingBound(v: real)
    ensures Within(RoundRatio(v), v, HALF_MILLIONTH)
    ensures v >= 0.0 ==> RoundRatio(v) >= 0.0
    ensures RoundRatio(RoundRatio(v)) == RoundRatio(v)
  {
    var k := RoundIsNearest(v * 1000000.0);
    assert RoundRatio(v) * 1000000.0 == k as real;
    RoundInteger(k);
  }

  /** The ratios stored for a model. */
  datatype Ratios = Ratios(model: Option<real>, completion: Option<real>, cache: Option<real>)

  /** A selected models.dev candidate: prices per million tokens. */
  function FromModelsDev(c: Candidate): Ratios {
    if c.input == 0.0 then Ratios(Some(0.0), None, None)
    else
      Ratios(Some(RoundRatio(c.input * USD / 1000.0)),
             if c.output.Some? then Some(RoundRatio(c.output.value / c.input)) else None,
             if c.cacheRead.Some? then Some(RoundRatio(c.cacheRead.value / c.input)) else None)
  }

  /** An OpenRouter entry: prices per token, None where the text is no number. */
  datatype Quote = Quote(id: string, prompt: Option<real>, completion: Option<real>, cacheRead: Option<real>)

  const SKIPPED: Ratios := Ratios(None, None, None)

  function FromOpenRouter(q: Quote): Ratios {
    var prompt := if q.prompt.Some? then q.prompt.value else 0.0;
    var completion := if q.completion.Some? then q.completion.value else 0.0;
    if q.prompt.None? && q.completion.None? then SKIPPED
    else if prompt < 0.0 || completion < 0.0 then SKIPPED
    else if prompt == 0.0 && completion == 0.0 then Ratios(Some(0.0), None, None)
    else if prompt <= 0.0 then SKIPPED
    else
      Ratios(Some(RoundRatio(prompt * 1000.0 * USD)),
             Some(RoundRatio(completion / prompt)),
             if q.cacheRead.Some? && q.cacheRead.value >= 0.0 then Some(RoundRatio(q.cacheRead.value / prompt))
                 else None)
  }

  lemma QuotientOfScaled(a: real, b: real)
    requires b > 0.0
    ensures (a / 1000000.0) / (b / 1000000.0) == a / b
  {
    var q := a / b;
    assert q * b == a;
    assert q * (b / 1000000.0) == a / 1000000.0;
  }

  /** A price per million tokens, quoted per token. */
  function PerToken(price: Option<real>): Option<real> {
    if price.Some? then Some(price.value / 1000000.0) else None
  }

  /**
   The same prices quoted per million tokens or per token give the same ratios, unless the input
   price is positive and the output price is missing: only OpenRouter then stores a ratio of 0.
   */
  lemma UnitsAgree(provider: string, cost: Cost, id: string)
    requires BuildCandidate(provider, cost).Some?
    ensures var c := BuildCandidate(provider, cost).value;
            FromModelsDev(c) == FromOpenRouter(Quote(id, PerToken(cost.input), PerToken(cost.output),
                PerToken(cost.cacheRead)))
            <==> c.input == 0.0 || c.output.Some?
  {
    var c := BuildCandidate(provider, cost).value;
    if c.input > 0.0 {
      if c.output.Some? {
        QuotientOfScaled(c.output.value, c.input);
      }
      if c.cacheRead.Some? {
        QuotientOfScaled(c.cacheRead.value, c.input);
      }
      assert c.input / 1000000.0 * 1000.0 * USD == c.input * USD / 1000.0;
    }
  }

  lemma ScaledQuotient(p: real, q: real, r: real)
    requires p > 0.0 && Within(r, q / p, HALF_MILLIONTH)
    ensures Within(r * p, q, HALF_MILLIONTH * p)
  {
    var e := r - q / p;
    assert q / p * p == q;
    assert e * p == r * p - q;
    assert -HALF_MILLIONTH * p <= e * p <= HALF_MILLIONTH * p;
  }

  function Abs(x: real): real {
    if x < 0.0 then -x else x
  }

  /** How far a price computed from two stored ratios can be off, in terms of the ratios. */
  function StoredBound(model: real, ratio: real): real {
    HALF_MILLIONTH * (2.0 * model + 2.0 * HALF_MILLIONTH + 2.0 * Abs(ratio))
  }

  lemma MulWithin(e: real, c: real, bound: real)
    requires -bound <= e <= bound
    ensures -bound * Abs(c) <= e * c <= bound * Abs(c)
  {
    var a := Abs(c);
    assert -bound * a <= e * a <= bound * a;
    assert e * c == e * a || e * c == -(e * a);
  }

  lemma FromStoredRatios(input: real, model: real, ratio: real, price: real)
    requires Within(model * 2.0, input, 2.0 * HALF_MILLIONTH) && Within(ratio * input, price, HALF_MILLIONTH * input)
    ensures Within(2.0 * model * ratio, price, StoredBound(model, ratio))
  {
    var e := model * 2.0 - input;
    MulWithin(e, ratio, 2.0 * HALF_MILLIONTH);
    assert 2.0 * model * ratio == e * ratio + ratio * input;
    assert input <= 2.0 * model + 2.0 * HALF_MILLIONTH;
  }

  /** The price that two stored ratios stand for is the quoted one, up to rounding. */
  predicate Recovers(model: real, ratio: real, price: real) {
    Within(2.0 * model * ratio, price, StoredBound(model, ratio))
  }

  /** Ratios near the exact quotients stand for prices near the quoted ones. */
  lemma NearRatiosRecover(input: real, price: real, model: real, ratio: real)
    requires input > 0.0 && Within(model, input / 2.0, HALF_MILLIONTH) && Within(ratio, price / input, HALF_MILLIONTH)
    ensures Recovers(model, ratio, price)
  {
    ScaledQuotient(input, price, ratio);
    FromStoredRatios(input, model, ratio, price);
  }

  lemma RatioRecovers(input: real, price: real)
    requires input > 0.0
    ensures Recovers(RoundRatio(input * USD / 1000.0), RoundRatio(price / input), price)
  {
    var exactModel, exactRatio := input * USD / 1000.0, price / input;
    RoundingBound(exactModel);
    RoundingBound(exactRatio);
    NearRatiosRecover(input, price, RoundRatio(exactModel), RoundRatio(exactRatio));
  }

  /**
   The stored ratios give the prices back: the prompt price to a millionth of a dollar per million
   tokens, the others, from stored ratios alone, to about half a millionth of the prompt price.
   */
  lemma PricesRecovered(c: Candidate)
    ensures c.input == 0.0 ==> FromModelsDev(c) == Ratios(Some(0.0), None, None)
    ensures var r := FromModelsDev(c);
            c.input > 0.0 ==>
            && r.model.Some? && Within(r.model.value * 2.0, c.input, 2.0 * HALF_MILLIONTH)
            && r.completion.Some? == c.output.Some? && r.cache.Some? == c.cacheRead.Some?
            && (c.output.Some? ==> Recovers(r.model.value, r.completion.value, c.output.value))
            && (c.cacheRead.Some? ==> Recovers(r.model.value, r.cache.value, c.cacheRead.value))
  {
    ModelRecovered(c.input);
    if c.input > 0.0 {
      if c.output.Some? {
        RatioRecovers(c.input, c.output.value);
      }
      if c.cacheRead.Some? {
        RatioRecovers(c.input, c.cacheRead.value);
      }
    }
  }

  /** A price per token that is not a number counts as zero. */
  function PriceOr0(price: Option<real>): real {
    if price.Some? then price.value else 0.0
  }

  /**
   Every OpenRouter quote: ratios are stored exactly when one of the two prices is a number, neither is
   negative, and there is a prompt price unless both are zero. They give the prices per million tokens back.
   */
  lemma OpenRouterExactly(q: Quote)
    ensures var r, prompt, completion := FromOpenRouter(q), PriceOr0(q.prompt), PriceOr0(q.completion);
            && (r.model.Some? <==>
                  && (q.prompt.Some? || q.completion.Some?) && prompt >= 0.0 && completion >= 0.0
                  && (prompt == 0.0 ==> completion == 0.0))
            && (r.model.None? ==> r == SKIPPED)
            && (r.model.Some? && prompt == 0.0 ==> r == Ratios(Some(0.0), None, None))
            && (r.model.Some? && prompt > 0.0 ==>
                  TokenPricesRecovered(q, r, prompt * 1000000.0, completion * 1000000.0))
  {
    var prompt, completion := PriceOr0(q.prompt), PriceOr0(q.completion);
    if FromOpenRouter(q).model.Some? && prompt > 0.0 {
      TokenRatioRecovers(prompt, completion);
      if q.cacheRead.Some? {
        TokenRatioRecovers(prompt, q.cacheRead.value);
      }
    }
  }

  lemma TokenRatioRecovers(prompt: real, price: real)
    requires prompt > 0.0
    ensures Within(RoundRatio(prompt * 1000.0 * USD) * 2.0, prompt * 1000000.0, 2.0 * HALF_MILLIONTH)
    ensures Recovers(RoundRatio(prompt * 1000.0 * USD), RoundRatio(price / prompt), price * 1000000.0)
  {
    var input, scaled := prompt * 1000000.0, price * 1000000.0;
    assert prompt * 1000.0 * USD == input * USD / 1000.0;
    QuotientOfScaled(scaled, input);
    assert scaled / 1000000.0 == price && input / 1000000.0 == prompt;
    ModelRecovered(input);
    RatioRecovers(input, scaled);
  }

  /** The stored ratios stand for the quoted prices, per million tokens. */
  predicate TokenPricesRecovered(q: Quote, r: Ratios, input: real, output: real) {
    && r.model.Some? && Within(r.model.value * 2.0, input, 2.0 * HALF_MILLIONTH)
    && r.completion.Some? && Recovers(r.model.value, r.completion.value, output)
    && (r.cache.Some? <==> q.cacheRead.Some? && q.cacheRead.value >= 0.0)
    && (r.cache.Some? ==> Recovers(r.model.value, r.cache.value, q.cacheRead.value * 1000000.0))
  }

  lemma ModelRecovered(input: real)
    ensures Within(RoundRatio(input * USD / 1000.0) * 2.0, input, 2.0 * HALF_MILLIONTH)
  {
    RoundingBound(input * USD / 1000.0);
  }

  // ----- The two converters ----------------------------------------------------

  datatype Converted =
    | Failed
    | Converted(model: map<string, real>, completion: map<string, real>, cache: map<string, real>)

  function RatioAt(m: map<string, real>, id: string): Option<real> {
    if id in m then Some(m[id]) else None
  }

  function Put(m: map<string, real>, id: string, v: Option<real>): map<string, real> {
    if v.Some? then m[id := v.value] else m
  }

  /** The loop over the selected candidates. */
  method StoreRatios(selected: map<string, Candidate>)
    returns (ratio: map<string, real>, completion: map<string, real>, cache: map<string, real>)
    ensures forall m :: Ratios(RatioAt(ratio, m), RatioAt(completion, m), RatioAt(cache, m)) ==
              if m in selected then FromModelsDev(selected[m]) else SKIPPED
  {
    ratio, completion, cache := map[], map[], map[];
    var rest := selected.Keys;
    while rest != {}
      invariant rest <= selected.Keys
      invariant forall m :: Ratios(RatioAt(ratio, m), RatioAt(completion, m), RatioAt(cache, m)) ==
                  if m in selected && m !in rest then FromModelsDev(selected[m]) else SKIPPED
      decreases |rest|
    {
      var m :| m in rest;
      rest := rest - {m};
      var ratios := FromModelsDev(selected[m]);
      ratio, completion, cache := Put(ratio, m, ratios.model), Put(completion, m, ratios.completion),
          Put(cache, m, ratios.cache);
    }
  }

  /** The three ratios stored for a model. */
  function RatiosAt(r: Converted, m: string): Ratios
    requires r.Converted?
  {
    Ratios(RatioAt(r.model, m), RatioAt(r.completion, m), RatioAt(r.cache, m))
  }

  /** convertModelsDevToRatioData: one entry per model with a valid quote, from its cheapest provider. */
  method ConvertModelsDev(data: Catalog) returns (r: Converted)
    ensures r.Failed? <==> forall m, p :: p in data ==> CandidateOf(data, p, m).None?
    ensures r.Converted? ==> forall m, p :: p in data && CandidateOf(data, p, m).Some? ==> m in r.model
    ensures r.Converted? ==> forall m :: m in r.model ==>
              exists c :: Cheapest(data, c, m) && RatiosAt(r, m) == FromModelsDev(c)
  {
    var selected, _ := SelectCandidates(data);
    if selected.Keys == {} {
      assert forall m :: m !in selected;
      return Failed;
    }
    var some :| some in selected.Keys;
    assert Cheapest(data, selected[some], some);
    var ratio, completion, cache := StoreRatios(selected);
    r := Converted(ratio, completion, cache);
    forall m
      ensures m in r.model <==> m in selected
      ensures m in selected ==> RatiosAt(r, m) == FromModelsDev(selected[m]) && Cheapest(data, selected[m], m)
    {
      assert RatiosAt(r, m) == if m in selected then FromModelsDev(selected[m]) else SKIPPED;
    }
  }

  /** The ratio of one kind that a list of quotes leaves behind: the last quote that has one wins. */
  function LastOf(quotes: seq<Quote>, id: string, pick: Ratios -> Option<real>): Option<real> {
    if quotes == [] then None
    else
      var q := quotes[|quotes| - 1];
      if q.id == id && pick(FromOpenRouter(q)).Some? then pick(FromOpenRouter(q))
      else LastOf(quotes[..|quotes| - 1], id, pick)
  }

  /** The last quote of the model that has such a ratio. */
  ghost predicate LastQuote(quotes: seq<Quote>, id: string, pick: Ratios -> Option<real>, i: int) {
    && 0 <= i < |quotes| && quotes[i].id == id && pick(FromOpenRouter(quotes[i])).Some?
    && forall j :: i < j < |quotes| && quotes[j].id == id ==> pick(FromOpenRouter(quotes[j])).None?
  }

  lemma {:induction false} LastOfIsLast(quotes: seq<Quote>, id: string, pick: Ratios -> Option<real>)
    ensures var v := LastOf(quotes, id, pick);
            && (v.Some? ==> exists i :: LastQuote(quotes, id, pick, i) && v == pick(FromOpenRouter(quotes[i])))
            && (v.None? ==> forall j :: 0 <= j < |quotes| && quotes[j].id == id ==>
                  pick(FromOpenRouter(quotes[j])).None?)
  {
    if quotes != [] {
      var last := |quotes| - 1;
      if quotes[last].id == id && pick(FromOpenRouter(quotes[last])).Some? {
        assert LastQuote(quotes, id, pick, last);
      } else {
        LastOfIsLast(quotes[..last], id, pick);
        if LastOf(quotes, id, pick).Some? {
          var i :| LastQuote(quotes[..last], id, pick, i)
                   && LastOf(quotes, id, pick) == pick(FromOpenRouter(quotes[..last][i]));
          assert LastQuote(quotes, id, pick, i);
        }
      }
    }
  }

  /** convertOpenRouterToRatioData. */
  method ConvertOpenRouter(quotes: seq<Quote>) returns (r: Converted)
    ensures r.Converted? && forall id ::
              && RatioAt(r.model, id) == LastOf(quotes, id, PickModel())
              && RatioAt(r.completion, id) == LastOf(quotes, id, PickCompletion())
              && RatioAt(r.cache, id) == LastOf(quotes, id, PickCache())
  {
    var ratio, completion, cache: map<string, real> := map[], map[], map[];
    for i := 0 to |quotes|
      invariant forall id :: RatioAt(ratio, id) == LastOf(quotes[..i], id, PickModel())
      invariant forall id :: RatioAt(completion, id) == LastOf(quotes[..i], id, PickCompletion())
      invariant forall id :: RatioAt(cache, id) == LastOf(quotes[..i], id, PickCache())
    {
      assert quotes[..i + 1][..i] == quotes[..i];
      var ratios := FromOpenRouter(quotes[i]);
      var id := quotes[i].id;
      ratio, completion, cache := Put(ratio, id, ratios.model), Put(completion, id, ratios.completion),
          Put(cache, id, ratios.cache);
    }
    assert quotes[..|quotes|] == quotes;
    r := Converted(ratio, completion, cache);
  }

  function PickModel(): Ratios -> Option<real> { (r: Ratios) => r.model }

  function PickCompletion(): Ratios -> Option<real> { (r: Ratios) => r.completion }

  function PickCache(): Ratios -> Option<real> { (r: Ratios) => r.cache }
}
