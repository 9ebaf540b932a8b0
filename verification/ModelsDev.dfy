/**
  Choosing one price per model from the models.dev provider table, and turning
  it into the gateway's ratios.  Prices are US dollars per million tokens.
*/
module ModelsDev {
  import opened Wrappers
  import opened RatioSync

  datatype Cost = Cost(input: Option<real>, output: Option<real>, cacheRead: Option<real>)

  datatype Candidate = Candidate(provider: string, input: real, output: Option<real>, cacheRead: Option<real>)

  type Models = map<string, Cost>

  datatype Provider = Provider(name: string, models: Models)

  /** A stated input price that is not negative, with an output price, if any, that is not negative and not free of input. */
  predicate Usable(cost: Cost) {
    && cost.input.Some? && cost.input.value >= 0.0
    && (cost.output.Some? ==> cost.output.value >= 0.0 && !(cost.input.value == 0.0 && cost.output.value > 0.0))
  }

  /** The candidate states the provider's own prices; a negative cache price counts as none. */
  predicate Quotes(c: Candidate, provider: string, cost: Cost) {
    && c.provider == provider && cost.input == Some(c.input) && c.output == cost.output
    && c.cacheRead == if cost.cacheRead.Some? && cost.cacheRead.value < 0.0 then None else cost.cacheRead
  }

  /** buildModelsDevCandidate, on finite prices */
  function BuildCandidate(provider: string, cost: Cost): (r: Option<Candidate>)
    ensures r.Some? <==> Usable(cost)
    ensures r.Some? ==> Quotes(r.value, provider, cost)
  {
    if cost.input.None? || cost.input.value < 0.0 then None
    else if cost.output.Some? && (cost.output.value < 0.0 || (cost.input.value == 0.0 && cost.output.value > 0.0)) then None
    else
      var cacheRead := if cost.cacheRead.Some? && cost.cacheRead.value >= 0.0 then cost.cacheRead else None;
      Some(Candidate(provider, cost.input.value, cost.output, cacheRead))
  }

  /** Go's order on strings */
  predicate Less(a: string, b: string) {
    if b == "" then false
    else if a == "" then true
    else a[0] < b[0] || (a[0] == b[0] && Less(a[1..], b[1..]))
  }

  /** The first difference decides, and a prefix comes first. */
  ghost predicate DiffersFirstAt(a: string, b: string, i: nat) {
    i <= |a| && i < |b| && a[..i] == b[..i] && (i == |a| || a[i] < b[i])
  }

  lemma {:induction false} LessIsLexicographic(a: string, b: string)
    ensures Less(a, b) <==> exists i: nat :: DiffersFirstAt(a, b, i)
  {
    if b != "" && a != "" && a[0] == b[0] {
      LessIsLexicographic(a[1..], b[1..]);
      if i: nat :| DiffersFirstAt(a[1..], b[1..], i) {
        assert a[..i + 1] == [a[0]] + a[1..][..i] && b[..i + 1] == [b[0]] + b[1..][..i];
        assert DiffersFirstAt(a, b, i + 1);
      }
      if i: nat :| DiffersFirstAt(a, b, i) {
        assert i > 0;
        assert a[..i][1..] == a[1..][..i - 1] && b[..i][1..] == b[1..][..i - 1];
        assert DiffersFirstAt(a[1..], b[1..], i - 1);
      }
    } else if b != "" && (a == "" || a[0] < b[0]) {
      assert DiffersFirstAt(a, b, 0);
    } else if b != "" && a[0] > b[0] {
      forall i: nat ensures !DiffersFirstAt(a, b, i) {
        if i > 0 && i <= |a| && i < |b| {
          assert a[..i][0] == a[0] && b[..i][0] == b[0];
        }
      }
    }
  }

  lemma {:induction false} LessIsAsymmetric(a: string, b: string)
    requires Less(a, b)
    ensures !Less(b, a)
  {
    if a != "" && b != "" && a[0] == b[0] {
      LessIsAsymmetric(a[1..], b[1..]);
    }
  }

  /** shouldReplaceModelsDevCandidate */
  predicate Replaces(next: Candidate, current: Candidate) {
    if (current.input > 0.0) != (next.input > 0.0) then next.input > 0.0
    else if next.input > 0.0 && !NearlyEqual(next.input, current.input) then next.input < current.input
    else Less(next.provider, current.provider)
  }

  /** Every provider's usable price for one model, in provider order. */
  function Candidates(providers: seq<Provider>, m: string): (r: seq<Candidate>)
    ensures forall i | 0 <= i < |r| :: r[i].input >= 0.0
  {
    if providers == [] then []
    else
      var r, last := Candidates(providers[..|providers| - 1], m), providers[|providers| - 1];
      if m !in last.models then r
      else match BuildCandidate(last.name, last.models[m])
        case None => r
        case Some(c) => r + [c]
  }

  predicate Sorted(providers: seq<Provider>) {
    forall i, j | 0 <= i < j < |providers| :: Less(providers[i].name, providers[j].name)
  }

  /** The choice among `cs`: each in turn replaces the one kept so far, or does not. */
  function Pick(cs: seq<Candidate>): (i: nat)
    requires cs != []
    ensures i < |cs|
  {
    if |cs| == 1 then 0
    else
      var last := |cs| - 1;
      var kept := Pick(cs[..last]);
      if Replaces(cs[last], cs[kept]) then last else kept
  }

  /** Usable prices in provider order. */
  predicate Ordered(cs: seq<Candidate>) {
    && (forall i | 0 <= i < |cs| :: cs[i].input >= 0.0)
    && (forall i, j | 0 <= i < j < |cs| :: !Less(cs[j].provider, cs[i].provider))
  }

  /**
    What the choice is worth: a free price only if all are free, and then the
    first; otherwise a positive price that no other undercuts by the tolerance and
    that undercuts every positive price before it.
   */
  predicate Chosen(cs: seq<Candidate>, i: nat) {
    i < |cs|
    && if cs[i].input > 0.0 then
         && (forall j | 0 <= j < |cs| && cs[j].input > 0.0 :: cs[i].input < cs[j].input + EPSILON)
         && (forall j | 0 <= j < i && cs[j].input > 0.0 :: cs[i].input < cs[j].input)
       else i == 0 && forall j | 0 <= j < |cs| :: !(cs[j].input > 0.0)
  }

  lemma ChosenStep(cs: seq<Candidate>, i: nat, next: Candidate)
    requires Chosen(cs, i) && next.input >= 0.0 && !Less(next.provider, cs[i].provider)
    ensures Chosen(cs + [next], if Replaces(next, cs[i]) then |cs| else i)
  {
    var all := cs + [next];
    assert all[|cs|] == next && forall j | 0 <= j < |cs| :: all[j] == cs[j];
  }

  lemma {:induction false} PickIsChosen(cs: seq<Candidate>)
    requires cs != [] && Ordered(cs)
    ensures Chosen(cs, Pick(cs))
  {
    if |cs| > 1 {
      var last := |cs| - 1;
      PickIsChosen(cs[..last]);
      ChosenStep(cs[..last], Pick(cs[..last]), cs[last]);
      assert cs == cs[..last] + [cs[last]];
    }
  }

  /** The candidates come from providers in the list. */
  lemma {:induction false} CandidateProvider(providers: seq<Provider>, m: string, i: nat) returns (j: nat)
    requires i < |Candidates(providers, m)|
    ensures j < |providers| && providers[j].name == Candidates(providers, m)[i].provider
  {
    j := |providers| - 1;
    if i < |Candidates(providers[..j], m)| {
      j := CandidateProvider(providers[..j], m, i);
    }
  }

  /** A provider lists a usable price for the model. */
  predicate Lists(p: Provider, m: string) {
    m in p.models && Usable(p.models[m])
  }

  /** Every candidate quotes the price of a provider in the list that has a usable one. */
  lemma {:induction false} CandidateQuotes(providers: seq<Provider>, m: string, i: nat) returns (j: nat)
    requires i < |Candidates(providers, m)|
    ensures j < |providers| && Lists(providers[j], m)
    ensures Quotes(Candidates(providers, m)[i], providers[j].name, providers[j].models[m])
  {
    j := |providers| - 1;
    if i < |Candidates(providers[..j], m)| {
      j := CandidateQuotes(providers[..j], m, i);
    }
  }

  /** There are candidates exactly if some provider has a usable price. */
  lemma {:induction false} CandidatesExactly(providers: seq<Provider>, m: string)
    ensures Candidates(providers, m) != [] <==> exists j | 0 <= j < |providers| :: Lists(providers[j], m)
  {
    if providers != [] {
      var n := |providers| - 1;
      CandidatesExactly(providers[..n], m);
      if j :| 0 <= j < |providers| && Lists(providers[j], m) {
        assert j < n ==> providers[..n][j] == providers[j];
      }
    }
  }

  /** Sorted providers give candidates in provider order. */
  lemma {:induction false} CandidatesAreOrdered(providers: seq<Provider>, m: string)
    requires Sorted(providers)
    ensures Ordered(Candidates(providers, m))
  {
    if providers != [] {
      var last := |providers| - 1;
      CandidatesAreOrdered(providers[..last], m);
      var before, all := Candidates(providers[..last], m), Candidates(providers, m);
      forall i, j | 0 <= i < j < |all| ensures !Less(all[j].provider, all[i].provider) {
        if j == |before| {
          var k := CandidateProvider(providers[..last], m, i);
          LessIsAsymmetric(providers[k].name, providers[last].name);
        }
      }
    }
  }

  /** What is selected for one model after these providers. */
  predicate Selected(providers: seq<Provider>, selected: map<string, Candidate>, m: string) {
    var cs := Candidates(providers, m);
    (m in selected <==> cs != []) && (m in selected ==> selected[m] == cs[Pick(cs)])
  }

  /** The selection part of convertModelsDevToRatioData. */
  method Select(providers: seq<Provider>) returns (selected: map<string, Candidate>)
    ensures forall m :: m in selected <==> exists j | 0 <= j < |providers| :: Lists(providers[j], m)
    ensures forall m | m in selected :: exists j | 0 <= j < |providers| ::
              Lists(providers[j], m) && Quotes(selected[m], providers[j].name, providers[j].models[m])
    ensures forall m | m in selected ::
              Candidates(providers, m) != [] && selected[m] == Candidates(providers, m)[Pick(Candidates(providers, m))]
  {
    selected := map[];
    for n := 0 to |providers|
      invariant forall m :: Selected(providers[..n], selected, m)
    {
      assert providers[..n + 1] == providers[..n] + [providers[n]];
      selected := Merge(providers[..n], providers[n], providers[..n + 1], selected);
    }
    assert providers[..|providers|] == providers;
    forall m
      ensures m in selected <==> exists j | 0 <= j < |providers| :: Lists(providers[j], m)
      ensures m in selected ==>
                Candidates(providers, m) != [] && selected[m] == Candidates(providers, m)[Pick(Candidates(providers, m))]
    {
      assert Selected(providers, selected, m);
      CandidatesExactly(providers, m);
    }
    forall m | m in selected
      ensures exists j | 0 <= j < |providers| ::
                Lists(providers[j], m) && Quotes(selected[m], providers[j].name, providers[j].models[m])
    {
      var j := CandidateQuotes(providers, m, Pick(Candidates(providers, m)));
    }
  }

  lemma PickOneMore(cs: seq<Candidate>, next: Candidate, all: seq<Candidate>)
    requires cs != [] && all == cs + [next]
    ensures all[Pick(all)] == if Replaces(next, cs[Pick(cs)]) then next else cs[Pick(cs)]
  {
    assert all[..|all| - 1] == cs;
  }

  /** One model of one more provider. */
  method Consider(ghost done: seq<Provider>, provider: Provider, ghost all: seq<Provider>, m: string, before: map<string, Candidate>)
    returns (selected: map<string, Candidate>)
    requires all == done + [provider] && m in provider.models
    requires Selected(done, before, m)
    ensures Selected(all, selected, m)
    ensures forall m' | m' != m :: m' in selected <==> m' in before
    ensures forall m' | m' != m && m' in before :: selected[m'] == before[m']
  {
    selected := before;
    assert all[|done|] == provider && all[..|done|] == done;
    var candidate := BuildCandidate(provider.name, provider.models[m]);
    if candidate.Some? {
      if m !in selected {
        selected := selected[m := candidate.value];
        assert Candidates(all, m) == [candidate.value];
      } else {
        PickOneMore(Candidates(done, m), candidate.value, Candidates(all, m));
        if Replaces(candidate.value, selected[m]) {
          selected := selected[m := candidate.value];
        }
      }
    }
  }

  lemma SameSelection(all: seq<Provider>, before: map<string, Candidate>, after: map<string, Candidate>, m: string)
    requires Selected(all, before, m) && (m in before <==> m in after) && (m in before ==> before[m] == after[m])
    ensures Selected(all, after, m)
  {
  }

  lemma NotListed(done: seq<Provider>, provider: Provider, all: seq<Provider>, m: string)
    requires all == done + [provider] && m !in provider.models
    ensures Candidates(all, m) == Candidates(done, m)
  {
    assert all[|done|] == provider && all[..|done|] == done;
  }

  /** The inner loop, over one provider's models. */
  method Merge(ghost done: seq<Provider>, provider: Provider, ghost all: seq<Provider>, before: map<string, Candidate>)
    returns (selected: map<string, Candidate>)
    requires all == done + [provider]
    requires forall m :: Selected(done, before, m)
    ensures forall m :: Selected(all, selected, m)
  {
    selected := before;
    var todo := provider.models.Keys;
    forall m | m !in todo ensures Selected(all, selected, m) {
      assert Selected(done, before, m);
      NotListed(done, provider, all, m);
    }
    while todo != {}
      invariant todo <= provider.models.Keys
      invariant forall m | m in todo :: Selected(done, selected, m)
      invariant forall m | m !in todo :: Selected(all, selected, m)
      decreases |todo|
    {
      var m := AnyOf(todo);
      ghost var last := selected;
      selected := Consider(done, provider, all, m, selected);
      forall m' | m' in todo && m' != m ensures Selected(done, selected, m') {
        SameSelection(done, last, selected, m');
      }
      forall m' | m' !in todo ensures Selected(all, selected, m') {
        SameSelection(all, last, selected, m');
      }
      todo := todo - {m};
    }
  }

  /** A free price is chosen exactly when every usable price is free. */
  lemma FreeOnlyIfAllFree(cs: seq<Candidate>)
    requires cs != [] && Ordered(cs)
    ensures cs[Pick(cs)].input == 0.0 <==> forall i | 0 <= i < |cs| :: cs[i].input == 0.0
  {
    PickIsChosen(cs);
  }

  /** The chosen positive price is within the tolerance of the cheapest. */
  lemma WithinToleranceOfCheapest(cs: seq<Candidate>, i: nat)
    requires Ordered(cs) && i < |cs| && cs[i].input > 0.0
    ensures 0.0 < cs[Pick(cs)].input < cs[i].input + EPSILON
  {
    PickIsChosen(cs);
  }

  /** Candidate `k` is the first of the cheapest positive ones. */
  predicate FirstCheapest(cs: seq<Candidate>, k: nat) {
    && k < |cs| && cs[k].input > 0.0
    && (forall j | 0 <= j < |cs| && cs[j].input > 0.0 :: cs[k].input <= cs[j].input)
    && (forall j | 0 <= j < k && cs[j].input > 0.0 :: cs[k].input < cs[j].input)
  }

  /** What is kept of `before` is so near to `next` that `next` does not replace it. */
  predicate Shadowed(before: seq<Candidate>, next: Candidate) {
    before != [] && before[Pick(before)].input > 0.0 && NearlyEqual(next.input, before[Pick(before)].input)
  }

  function KeptPrice(before: seq<Candidate>, next: Candidate): real {
    if Shadowed(before, next) then before[Pick(before)].input else next.input
  }

  /** The cheapest replaces what is kept exactly when that is free or not near. */
  lemma CheapestArrives(kept: Candidate, next: Candidate)
    requires next.input > 0.0 && (kept.input > 0.0 ==> next.input < kept.input) && !Less(next.provider, kept.provider)
    ensures Replaces(next, kept) <==> !(kept.input > 0.0 && NearlyEqual(next.input, kept.input))
  {
  }

  /** A price within the tolerance of the cheapest is not replaced. */
  lemma NearCheapestStays(kept: Candidate, next: Candidate, cheapest: real)
    requires 0.0 < cheapest <= kept.input < cheapest + EPSILON && !Less(next.provider, kept.provider)
    requires next.input > 0.0 ==> cheapest <= next.input
    ensures !Replaces(next, kept)
  {
  }

  lemma CheapestBefore(cs: seq<Candidate>, k: nat, before: seq<Candidate>)
    requires Ordered(cs) && FirstCheapest(cs, k) && k < |cs| - 1 && before == cs[..|cs| - 1]
    ensures Ordered(before) && FirstCheapest(before, k) && before[..k] == cs[..k] && before[k] == cs[k]
    ensures cs[k].input <= before[Pick(before)].input < cs[k].input + EPSILON
    ensures !Less(cs[|cs| - 1].provider, before[Pick(before)].provider)
  {
    PickIsChosen(before);
  }

  lemma LastIsCheapest(cs: seq<Candidate>, before: seq<Candidate>)
    requires cs != [] && Ordered(cs) && FirstCheapest(cs, |cs| - 1) && before == cs[..|cs| - 1]
    ensures cs[Pick(cs)].input == KeptPrice(before, cs[|cs| - 1])
  {
    if before != [] {
      CheapestArrives(before[Pick(before)], cs[|cs| - 1]);
    }
  }

  /** From the arrival of the cheapest on, the kept price does not change. */
  lemma {:induction false} KeptFromCheapest(cs: seq<Candidate>, k: nat)
    requires Ordered(cs) && FirstCheapest(cs, k)
    ensures cs[Pick(cs)].input == KeptPrice(cs[..k], cs[k])
  {
    var last := |cs| - 1;
    if k < last {
      var before := cs[..last];
      CheapestBefore(cs, k, before);
      KeptFromCheapest(before, k);
      NearCheapestStays(before[Pick(before)], cs[last], cs[k].input);
    } else {
      LastIsCheapest(cs, cs[..last]);
    }
  }

  /** The documented choice, the cheapest positive price, is made if and only if the cheapest is not shadowed. */
  lemma CheapestExactly(cs: seq<Candidate>, k: nat)
    requires Ordered(cs) && FirstCheapest(cs, k)
    ensures cs[Pick(cs)].input == cs[k].input <==> !Shadowed(cs[..k], cs[k])
  {
    KeptFromCheapest(cs, k);
  }

  /** Prices that are equal or at least the tolerance apart. */
  predicate Separated(cs: seq<Candidate>) {
    forall i, j | 0 <= i < |cs| && 0 <= j < |cs| :: cs[i].input == cs[j].input || !NearlyEqual(cs[i].input, cs[j].input)
  }

  /** So it is made whenever near-equal prices are equal. */
  lemma CheapestWhenSeparated(cs: seq<Candidate>, i: nat)
    requires Ordered(cs) && Separated(cs) && i < |cs| && cs[i].input > 0.0
    ensures cs[Pick(cs)].input <= cs[i].input
  {
    PickIsChosen(cs);
  }

  /** Of two near-equal prices the first provider's is kept, though the second is lower. */
  lemma NearlyCheapest(a: Candidate, b: Candidate)
    requires 0.0 < b.input < a.input < b.input + EPSILON && Less(a.provider, b.provider)
    ensures Pick([a, b]) == 0
  {
    LessIsAsymmetric(a.provider, b.provider);
    assert [a, b][..1] == [a];
  }

  // ---- Ratios

  /** roundRatioValue, on non-negative numbers: to six decimals */
  function RoundRatio(x: real): real {
    (x * 1000000.0 + 0.5).Floor as real / 1000000.0
  }

  lemma RoundRatioIsClose(x: real)
    ensures x - 0.0000005 <= RoundRatio(x) <= x + 0.0000005
  {
  }

  datatype Ratios = Ratios(model: real, completion: Option<real>, cache: Option<real>)

  /** The ratios of one chosen price; the divisor is positive. */
  function Convert(c: Candidate): (r: Ratios)
    ensures c.input <= 0.0 ==> r == Ratios(0.0, None, None)
  {
    if !(c.input > 0.0) then Ratios(0.0, None, None)
    else
      Ratios(RoundRatio(c.input * 500.0 / 1000.0),
             if c.output.Some? then Some(RoundRatio(c.output.value / c.input)) else None,
             if c.cacheRead.Some? then Some(RoundRatio(c.cacheRead.value / c.input)) else None)
  }

  /** A ratio of prices, multiplied back, is the price up to rounding. */
  lemma MultipliedBack(price: real, base: real)
    requires base > 0.0
    ensures price - 0.0000005 * base <= RoundRatio(price / base) * base <= price + 0.0000005 * base
  {
    var q := price / base;
    RoundRatioIsClose(q);
    Rescaled(price, base, q, RoundRatio(q));
  }

  lemma Rescaled(price: real, base: real, q: real, r: real)
    requires base > 0.0 && q * base == price && q - 0.0000005 <= r <= q + 0.0000005
    ensures price - 0.0000005 * base <= r * base <= price + 0.0000005 * base
  {
    var d := r - q;
    assert r * base == price + d * base;
    assert -0.0000005 * base <= d * base <= 0.0000005 * base;
  }

  /** The ratios give the provider's prices back: two dollars per unit of model ratio, and the multiples of it. */
  lemma RatiosKeepPrices(c: Candidate)
    requires c.input > 0.0
    ensures var r := Convert(c);
            && c.input - 0.000001 <= 2.0 * r.model <= c.input + 0.000001
            && (r.completion.Some? <==> c.output.Some?) && (r.cache.Some? <==> c.cacheRead.Some?)
            && (c.output.Some? ==>
                  c.output.value - 0.0000005 * c.input <= r.completion.value * c.input <= c.output.value + 0.0000005 * c.input)
            && (c.cacheRead.Some? ==>
                  c.cacheRead.value - 0.0000005 * c.input <= r.cache.value * c.input <= c.cacheRead.value + 0.0000005 * c.input)
  {
    RoundRatioIsClose(c.input * 500.0 / 1000.0);
    if c.output.Some? {
      MultipliedBack(c.output.value, c.input);
    }
    if c.cacheRead.Some? {
      MultipliedBack(c.cacheRead.value, c.input);
    }
  }
}
