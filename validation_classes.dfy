/** Evidence units and the per-document container
    (src/inukai/validate/validation_classes.py). */
module ValidationClasses {
  import opened Results
  import Text

  /** The value a criterion holds: a Python bool, a Python str, or any
      other Python value (an int, None, ...). */
  datatype Value = Bool(b: bool) | Str(s: string) | Other

  /** CriteriaResult: a keyed pass/fail value with a weight (1 by default). */
  datatype Criterion = Criterion(key: string, value: Value, weight: real)

  /** Reference reading of "true" in any mixture of letter cases. */
  predicate SpellsTrue(s: string) {
    |s| == 4 && s[0] in "tT" && s[1] in "rR" && s[2] in "uU" && s[3] in "eE"
  }

  lemma LowerIsTrue(s: string)
    ensures Text.Lower(s) == "true" <==> SpellsTrue(s)
  {
    var l := Text.Lower(s);
    if |s| == 4 {
      assert l == [l[0], l[1], l[2], l[3]];
    }
  }

  /** Whether score() reads the value as true. */
  predicate Passes(v: Value) {
    match v
    case Bool(b) => b
    case Str(s) => SpellsTrue(s)
    case Other => false
  }

  predicate Scorable(c: Criterion) {
    !c.value.Other?
  }

  /** CriteriaResult.score(): a bool counts as itself, a str counts as true
      exactly when it spells "true" in any letter case, and anything else
      raises. */
  function Score(c: Criterion): (r: Result<nat>)
    ensures r.Ok? <==> Scorable(c)
    ensures r.Ok? ==> r.value <= 1
    ensures c.value.Bool? ==> (r == Ok(1) <==> c.value.b)
    ensures c.value.Str? ==> (r == Ok(1) <==> SpellsTrue(c.value.s))
    ensures r.Ok? ==> (r.value == 1 <==> Passes(c.value))
  {
    match c.value
    case Bool(b) => Ok(if b then 1 else 0)
    case Str(s) => LowerIsTrue(s); Ok(if Text.Lower(s) == "true" then 1 else 0)
    case Other => Err(NonBooleanValue)
  }

  /** Σ weight. */
  function TotalWeight(cs: seq<Criterion>): real {
    if cs == [] then 0.0 else cs[0].weight + TotalWeight(cs[1..])
  }

  /** Σ score·weight, with score 1 for a passing criterion and 0 otherwise. */
  function PassedWeight(cs: seq<Criterion>): real {
    if cs == [] then 0.0
    else (if Passes(cs[0].value) then cs[0].weight else 0.0) + PassedWeight(cs[1..])
  }

  predicate AllScorable(cs: seq<Criterion>) {
    forall c | c in cs :: Scorable(c)
  }

  predicate AllPositive(cs: seq<Criterion>) {
    forall c | c in cs :: c.weight > 0.0
  }

  /** weighted_score(): Σ score·weight / Σ weight, 0 when Σ weight is 0;
      raises when some value cannot be scored (the sum is taken first). */
  function WeightedAverage(cs: seq<Criterion>): (r: Result<real>)
    ensures r.Ok? <==> AllScorable(cs)
    ensures r.Ok? && TotalWeight(cs) == 0.0 ==> r.value == 0.0
    ensures r.Ok? && TotalWeight(cs) != 0.0 ==> r.value * TotalWeight(cs) == PassedWeight(cs)
  {
    if exists c | c in cs :: !Scorable(c) then Err(NonBooleanValue)
    else if TotalWeight(cs) == 0.0 then Ok(0.0)
    else Ok(PassedWeight(cs) / TotalWeight(cs))
  }

  /** The weighted score times the total weight is the passed weight. */
  lemma AverageTimesWeight(cs: seq<Criterion>)
    requires AllScorable(cs) && TotalWeight(cs) != 0.0
    ensures WeightedAverage(cs).Ok?
    ensures WeightedAverage(cs).value * TotalWeight(cs) == PassedWeight(cs)
  {
  }

  lemma {:induction false} SumsOfConcat(a: seq<Criterion>, b: seq<Criterion>)
    ensures TotalWeight(a + b) == TotalWeight(a) + TotalWeight(b)
    ensures PassedWeight(a + b) == PassedWeight(a) + PassedWeight(b)
  {
    if a != [] {
      assert (a + b)[1..] == a[1..] + b;
      SumsOfConcat(a[1..], b);
    } else {
      assert a + b == b;
    }
  }

  /** With positive weights the passed weight lies between 0 and the total
      weight, reaches the total exactly when every criterion passes, and is
      0 exactly when none does. */
  lemma {:induction false} PassedWeightBounds(cs: seq<Criterion>)
    requires AllPositive(cs)
    ensures 0.0 <= PassedWeight(cs) <= TotalWeight(cs)
    ensures cs != [] ==> TotalWeight(cs) > 0.0
    ensures PassedWeight(cs) == TotalWeight(cs) <==> forall c | c in cs :: Passes(c.value)
    ensures PassedWeight(cs) == 0.0 <==> forall c | c in cs :: !Passes(c.value)
  {
    if cs != [] {
      assert forall c | c in cs[1..] :: c in cs;
      PassedWeightBounds(cs[1..]);
      assert forall c | c in cs :: c == cs[0] || c in cs[1..];
    }
  }

  /** A share p of a positive total w is a ratio in [0, 1]. */
  lemma Ratio(p: real, w: real)
    requires w > 0.0 && 0.0 <= p <= w
    ensures 0.0 <= p / w <= 1.0
    ensures p / w == 1.0 <==> p == w
    ensures p / w == 0.0 <==> p == 0.0
  {
    var r := p / w;
    assert r * w == p;
    assert (1.0 - r) * w == w - p;
  }

  /** With positive weights, weighted_score lies in [0, 1]. */
  lemma WeightedScoreInUnitInterval(cs: seq<Criterion>)
    requires AllScorable(cs) && AllPositive(cs)
    ensures WeightedAverage(cs).Ok?
    ensures 0.0 <= WeightedAverage(cs).value <= 1.0
  {
    PassedWeightBounds(cs);
    if cs != [] {
      Ratio(PassedWeight(cs), TotalWeight(cs));
    }
  }

  /** With positive weights and at least one criterion, weighted_score is 1
      exactly when every criterion passes. */
  lemma WeightedScoreOneIffAllPass(cs: seq<Criterion>)
    requires AllScorable(cs) && AllPositive(cs) && cs != []
    ensures WeightedAverage(cs).Ok?
    ensures WeightedAverage(cs).value == 1.0 <==> forall c | c in cs :: Passes(c.value)
  {
    PassedWeightBounds(cs);
    Ratio(PassedWeight(cs), TotalWeight(cs));
  }

  /** With positive weights, weighted_score is 0 exactly when no criterion
      passes, the empty list included. */
  lemma WeightedScoreZeroIffNonePass(cs: seq<Criterion>)
    requires AllScorable(cs) && AllPositive(cs)
    ensures WeightedAverage(cs).Ok?
    ensures WeightedAverage(cs).value == 0.0 <==> forall c | c in cs :: !Passes(c.value)
  {
    PassedWeightBounds(cs);
    if cs != [] {
      Ratio(PassedWeight(cs), TotalWeight(cs));
    }
  }

  /** ValidationResult: a named, append-only list of criteria. */
  class ValidationResult {
    var componentName: string
    var criteria: seq<Criterion>

    constructor (componentName: string)
      ensures this.componentName == componentName
      ensures criteria == []
    {
      this.componentName := componentName;
      criteria := [];
    }

    /** add_criteria: appends at the end and changes nothing else. */
    method AddCriteria(c: Criterion)
      modifies this
      ensures criteria == old(criteria) + [c]
      ensures |criteria| == |old(criteria)| + 1 && criteria[|criteria| - 1] == c
      ensures componentName == old(componentName)
    {
      criteria := criteria + [c];
    }

    /** weighted_score() of the criteria added so far. */
    function WeightedScore(): (r: Result<real>)
      reads this
      ensures r.Ok? <==> AllScorable(criteria)
      ensures r.Ok? && AllPositive(criteria) ==> 0.0 <= r.value <= 1.0
    {
      var avg := WeightedAverage(criteria);
      if avg.Ok? && AllPositive(criteria) then WeightedScoreInUnitInterval(criteria); avg else avg
    }
  }
}
