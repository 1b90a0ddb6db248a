/** Aggregator and reporter (src/inukai/validate/application_validation.py):
    the pooled confidence score over the three per-document results and the
    feedback emitted for every failed criterion. */
module ApplicationValidation {
  import opened Results
  import opened ValidationClasses

  /** ERROR_MSGS: the fixed message for each criterion key. */
  const ErrorMessages: map<string, string> := map[
    "geotag_address" := "The geotag information in the image does not seem to match the address on the application form.",
    "image" := "The object in the image does not seem to match the object mentioned on the application form (or it is not fully captured).",
    "bank_statement" := "We could not find the purchase evidence of this equipment on the bank statement.",
    "business_name" := "The business name on the invoice does not seem to match the business name on the application form.",
    "address" := "The address on the invoice does not seem to match the address on the application form.",
    "model" := "The equipment model on the invoice does not seem to match the equipment model on the application form.",
    "date" := "The date on the invoice does not seem to match the date on the application form.",
    "cost" := "The cost on the invoice does not seem to match the cost on the application form."
  ]

  /** The keys that have a message. The loop below looks keys up here, so
      that the message texts stay out of its proofs. */
  const MessageKeys: set<string> :=
    {"geotag_address", "image", "bank_statement", "business_name", "address", "model", "date", "cost"}

  lemma ErrorMessageKeys()
    ensures ErrorMessages.Keys == MessageKeys
  {
  }

  /** Every criterion of the three results: form first, then bank statement,
      then invoice, each in insertion order. */
  function Pool(form: ValidationResult, bank: ValidationResult, invoice: ValidationResult): seq<Criterion>
    reads form, bank, invoice
  {
    form.criteria + bank.criteria + invoice.criteria
  }

  /** calculate_confidence_score: Σ weight·score over the pooled criteria
      divided by Σ weight over the same pool. The scores are summed first, so
      an unscorable value is reported before the division; a zero pooled
      weight (an empty pool, in particular) fails the division. */
  function ConfidenceScore(form: ValidationResult, bank: ValidationResult, invoice: ValidationResult): (r: Result<real>)
    reads form, bank, invoice
    ensures !AllScorable(Pool(form, bank, invoice)) ==> r == Err(NonBooleanValue)
    ensures AllScorable(Pool(form, bank, invoice)) && TotalWeight(Pool(form, bank, invoice)) == 0.0 ==> r == Err(ZeroTotalWeight)
    ensures r.Ok? <==> AllScorable(Pool(form, bank, invoice)) && TotalWeight(Pool(form, bank, invoice)) != 0.0
  {
    var pool := Pool(form, bank, invoice);
    if exists c | c in pool :: !Scorable(c) then Err(NonBooleanValue)
    else if TotalWeight(pool) == 0.0 then Err(ZeroTotalWeight)
    else Ok(PassedWeight(pool) / TotalWeight(pool))
  }

  /** With positive weights the confidence score is a fraction in [0, 1]: 1
      exactly when every pooled criterion passes, 0 exactly when none does. */
  lemma ConfidenceScoreInUnitInterval(form: ValidationResult, bank: ValidationResult, invoice: ValidationResult)
    requires AllScorable(Pool(form, bank, invoice)) && AllPositive(Pool(form, bank, invoice))
    requires Pool(form, bank, invoice) != []
    ensures ConfidenceScore(form, bank, invoice).Ok?
    ensures 0.0 <= ConfidenceScore(form, bank, invoice).value <= 1.0
    ensures ConfidenceScore(form, bank, invoice).value == 1.0 <==> forall c | c in Pool(form, bank, invoice) :: Passes(c.value)
    ensures ConfidenceScore(form, bank, invoice).value == 0.0 <==> forall c | c in Pool(form, bank, invoice) :: !Passes(c.value)
  {
    var pool := Pool(form, bank, invoice);
    PassedWeightBounds(pool);
    Ratio(PassedWeight(pool), TotalWeight(pool));
  }

  /** The pooled score is the documents' summed passed weight over their summed
      total weight: each document counts in proportion to its total weight,
      not as one third of a plain mean of the document scores. */
  lemma PooledScoreWeighsDocumentsByWeight(form: ValidationResult, bank: ValidationResult, invoice: ValidationResult)
    requires AllScorable(Pool(form, bank, invoice))
    requires TotalWeight(form.criteria) + TotalWeight(bank.criteria) + TotalWeight(invoice.criteria) != 0.0
    ensures ConfidenceScore(form, bank, invoice).Ok?
    ensures ConfidenceScore(form, bank, invoice).value
            == (PassedWeight(form.criteria) + PassedWeight(bank.criteria) + PassedWeight(invoice.criteria))
               / (TotalWeight(form.criteria) + TotalWeight(bank.criteria) + TotalWeight(invoice.criteria))
  {
    SumsOfConcat(form.criteria, bank.criteria);
    SumsOfConcat(form.criteria + bank.criteria, invoice.criteria);
  }

  /** A concrete application where the pooled score (9/10) differs from the
      plain mean of the three document scores (5/6). */
  lemma PooledScoreIsNotMeanOfDocuments(form: ValidationResult, bank: ValidationResult, invoice: ValidationResult)
    requires form.criteria == [Criterion("geotag_address", Bool(true), 1.0), Criterion("image", Bool(false), 1.0)]
    requires bank.criteria == [Criterion("bank_statement", Bool(true), 3.0)]
    requires invoice.criteria == [Criterion("date", Bool(true), 1.0), Criterion("model", Bool(true), 1.0),
                                  Criterion("cost", Bool(true), 1.0), Criterion("address", Bool(true), 1.0),
                                  Criterion("business_name", Bool(true), 1.0)]
    ensures ConfidenceScore(form, bank, invoice) == Ok(0.9)
    ensures (WeightedAverage(form.criteria).value + WeightedAverage(bank.criteria).value
             + WeightedAverage(invoice.criteria).value) / 3.0 == 5.0 / 6.0
  {
    var f, b, v := form.criteria, bank.criteria, invoice.criteria;
    assert f[1..][1..] == [];
    assert b[1..] == [];
    assert v[1..][1..][1..][1..][1..] == [];
    assert TotalWeight(f[1..]) == 1.0 && PassedWeight(f[1..]) == 0.0;
    assert TotalWeight(f) == 2.0 && PassedWeight(f) == 1.0;
    assert TotalWeight(b) == 3.0 && PassedWeight(b) == 3.0;
    assert TotalWeight(v[1..][1..][1..][1..]) == 1.0 && PassedWeight(v[1..][1..][1..][1..]) == 1.0;
    assert TotalWeight(v[1..][1..][1..]) == 2.0 && PassedWeight(v[1..][1..][1..]) == 2.0;
    assert TotalWeight(v[1..][1..]) == 3.0 && PassedWeight(v[1..][1..]) == 3.0;
    assert TotalWeight(v[1..]) == 4.0 && PassedWeight(v[1..]) == 4.0;
    assert TotalWeight(v) == 5.0 && PassedWeight(v) == 5.0;
    PooledScoreWeighsDocumentsByWeight(form, bank, invoice);
  }

  /** A line log_feedback writes: ErrorEntry(k) is logger.error with the text
      ErrorMessages[k], ScoreEntry the final logger.info with the score. */
  datatype LogEntry = ErrorEntry(key: string) | ScoreEntry(score: real)

  /** The lines written, and the exception that ended the run, if any. */
  datatype Report = Report(log: seq<LogEntry>, failure: Option<Error>)

  /** Keys of the criteria that score 0, in pool order. */
  function FailedKeys(pool: seq<Criterion>): (keys: seq<string>)
    ensures |keys| <= |pool|
  {
    if pool == [] then []
    else FailedKeys(pool[..|pool| - 1])
         + (if Passes(pool[|pool| - 1].value) then [] else [pool[|pool| - 1].key])
  }

  /** The message of each key, in order. */
  function Messages(keys: seq<string>): seq<LogEntry>
    requires forall k | k in keys :: k in MessageKeys
  {
    seq(|keys|, i requires 0 <= i < |keys| => ErrorEntry(keys[i]))
  }

  /** What the message loop of log_feedback writes for `pool`: one error line
      per criterion that scores 0, stopping at the first criterion that cannot
      be scored or whose key has no message. */
  function FailureLog(pool: seq<Criterion>): Report
  {
    if pool == [] then Report([], None)
    else
      Step(FailureLog(pool[..|pool| - 1]), pool[|pool| - 1])
  }

  /** One iteration of the message loop, from the report so far. */
  function Step(before: Report, c: Criterion): Report
  {
    if before.failure.Some? then before
    else match Score(c)
      case Err(e) => Report(before.log, Some(e))
      case Ok(s) =>
        if s != 0 then before
        else if c.key in MessageKeys then Report(before.log + [ErrorEntry(c.key)], None)
        else Report(before.log, Some(MissingMessage(c.key)))
  }

  lemma FailureLogAppend(front: seq<Criterion>, c: Criterion)
    ensures FailureLog(front + [c]) == Step(FailureLog(front), c)
  {
    assert (front + [c])[..|front|] == front;
  }

  /** The message loop run left to right over `cs`, from the report `r`. */
  function Run(r: Report, cs: seq<Criterion>): Report
    decreases |cs|
  {
    if cs == [] then r else Run(Step(r, cs[0]), cs[1..])
  }

  lemma {:induction false} RunAppend(r: Report, cs: seq<Criterion>, c: Criterion)
    ensures Run(r, cs + [c]) == Step(Run(r, cs), c)
    decreases |cs|
  {
    if cs == [] {
      assert [c][1..] == [];
    } else {
      assert (cs + [c])[1..] == cs[1..] + [c];
      RunAppend(Step(r, cs[0]), cs[1..], c);
    }
  }

  lemma {:induction false} RunConcat(r: Report, a: seq<Criterion>, b: seq<Criterion>)
    ensures Run(r, a + b) == Run(Run(r, a), b)
    decreases |a|
  {
    if a == [] {
      assert a + b == b;
    } else {
      assert (a + b)[1..] == a[1..] + b;
      RunConcat(Step(r, a[0]), a[1..], b);
    }
  }

  lemma {:induction false} RunStopped(r: Report, cs: seq<Criterion>)
    requires r.failure.Some?
    ensures Run(r, cs) == r
    decreases |cs|
  {
    if cs != [] {
      RunStopped(Step(r, cs[0]), cs[1..]);
    }
  }

  /** Running the loop over more criteria carries on from where it stood. */
  lemma {:induction false} FailureLogRun(before: seq<Criterion>, cs: seq<Criterion>)
    ensures FailureLog(before + cs) == Run(FailureLog(before), cs)
    decreases |cs|
  {
    if cs == [] {
      assert before + cs == before;
    } else {
      var front, c := cs[..|cs| - 1], cs[|cs| - 1];
      assert cs == front + [c];
      assert before + cs == (before + front) + [c];
      FailureLogRun(before, front);
      FailureLogAppend(before + front, c);
      RunAppend(FailureLog(before), front, c);
    }
  }

  /** The loop writes only error lines, at most one per criterion, and on
      scorable criteria it can only stop at a key without a message. */
  lemma {:induction false} FailureLogShape(pool: seq<Criterion>)
    ensures forall e | e in FailureLog(pool).log :: e.ErrorEntry?
    ensures |FailureLog(pool).log| <= |pool|
    ensures FailureLog(pool).failure.Some? && AllScorable(pool) ==>
              FailureLog(pool).failure.value.MissingMessage? && FailureLog(pool).failure.value.key !in MessageKeys
  {
    if pool != [] {
      var front := pool[..|pool| - 1];
      assert forall x | x in front :: x in pool;
      FailureLogShape(front);
    }
  }

  /** Once the message loop has stopped, later criteria change nothing. */
  lemma {:induction false} FailureLogStops(a: seq<Criterion>, b: seq<Criterion>)
    requires FailureLog(a).failure.Some?
    ensures FailureLog(a + b) == FailureLog(a)
    decreases |b|
  {
    if b != [] {
      var front := b[..|b| - 1];
      FailureLogStops(a, front);
      assert (a + b)[..|a + b| - 1] == a + front;
    } else {
      assert a + b == a;
    }
  }

  /** When every failed key has a message, the loop writes exactly the
      messages of the failed criteria, in order. */
  lemma {:induction false} FailureLogListsFailures(pool: seq<Criterion>)
    requires AllScorable(pool)
    requires forall k | k in FailedKeys(pool) :: k in MessageKeys
    ensures FailureLog(pool) == Report(Messages(FailedKeys(pool)), None)
  {
    if pool != [] {
      var front := pool[..|pool| - 1];
      var c := pool[|pool| - 1];
      assert forall x | x in front :: x in pool;
      assert forall k | k in FailedKeys(front) :: k in FailedKeys(pool);
      FailureLogListsFailures(front);
      if !Passes(c.value) {
        assert FailedKeys(pool) == FailedKeys(front) + [c.key];
        assert Messages(FailedKeys(pool)) == Messages(FailedKeys(front)) + [ErrorEntry(c.key)];
      }
    }
  }

  /** A failed criterion whose key has no message stops the loop with a
      lookup failure. */
  lemma {:induction false} FailureLogFailsOnUnknownKey(pool: seq<Criterion>, i: nat)
    requires AllScorable(pool)
    requires i < |pool| && !Passes(pool[i].value) && pool[i].key !in MessageKeys
    ensures FailureLog(pool).failure.Some?
    ensures FailureLog(pool).failure.value.MissingMessage?
    ensures FailureLog(pool).failure.value.key !in MessageKeys
  {
    var front := pool[..|pool| - 1];
    assert forall x | x in front :: x in pool;
    if i < |pool| - 1 {
      assert front[i] == pool[i];
      FailureLogFailsOnUnknownKey(front, i);
    } else {
      FailureLogShape(front);
    }
  }

  /** log_feedback: the confidence score is computed before anything is
      written, then one message per failed criterion, then the score. */
  function FeedbackReport(form: ValidationResult, bank: ValidationResult, invoice: ValidationResult): (r: Report)
    reads form, bank, invoice
    ensures ConfidenceScore(form, bank, invoice).Err? ==>
              r == Report([], Some(ConfidenceScore(form, bank, invoice).error))
    ensures r.failure.None? ==> ConfidenceScore(form, bank, invoice).Ok?
  {
    match ConfidenceScore(form, bank, invoice)
    case Err(e) => Report([], Some(e))
    case Ok(score) =>
      var messages := FailureLog(Pool(form, bank, invoice));
      if messages.failure.Some? then messages
      else Report(messages.log + [ScoreEntry(score)], None)
  }

  /** The shape of what log_feedback writes: with an empty pool nothing is
      written and the division fails; a run that completes ends with the score
      line after error lines only; a run that fails writes error lines only. */
  lemma FeedbackReportShape(form: ValidationResult, bank: ValidationResult, invoice: ValidationResult)
    ensures Pool(form, bank, invoice) == [] ==> FeedbackReport(form, bank, invoice) == Report([], Some(ZeroTotalWeight))
    ensures var r := FeedbackReport(form, bank, invoice);
            r.failure.None? ==>
              && ConfidenceScore(form, bank, invoice).Ok?
              && |r.log| >= 1
              && r.log[|r.log| - 1] == ScoreEntry(ConfidenceScore(form, bank, invoice).value)
              && forall i | 0 <= i < |r.log| - 1 :: r.log[i].ErrorEntry?
    ensures var r := FeedbackReport(form, bank, invoice);
            r.failure.Some? ==> forall e | e in r.log :: e.ErrorEntry?
  {
    FailureLogShape(Pool(form, bank, invoice));
  }

  /** When every failed key has a message, the report is those messages in
      order followed by the score. */
  lemma FeedbackListsEveryFailure(form: ValidationResult, bank: ValidationResult, invoice: ValidationResult)
    requires ConfidenceScore(form, bank, invoice).Ok?
    requires forall k | k in FailedKeys(Pool(form, bank, invoice)) :: k in MessageKeys
    ensures FeedbackReport(form, bank, invoice)
            == Report(Messages(FailedKeys(Pool(form, bank, invoice)))
                      + [ScoreEntry(ConfidenceScore(form, bank, invoice).value)], None)
  {
    FailureLogListsFailures(Pool(form, bank, invoice));
  }

  /** A failed criterion whose key has no message makes log_feedback
      fail with a lookup error, before the score line is written. */
  lemma FeedbackFailsOnUnknownKey(form: ValidationResult, bank: ValidationResult, invoice: ValidationResult, i: nat)
    requires ConfidenceScore(form, bank, invoice).Ok?
    requires i < |Pool(form, bank, invoice)|
    requires !Passes(Pool(form, bank, invoice)[i].value)
    requires Pool(form, bank, invoice)[i].key !in MessageKeys
    ensures FeedbackReport(form, bank, invoice).failure.Some?
    ensures FeedbackReport(form, bank, invoice).failure.value.MissingMessage?
    ensures forall e | e in FeedbackReport(form, bank, invoice).log :: !e.ScoreEntry?
  {
    FailureLogFailsOnUnknownKey(Pool(form, bank, invoice), i);
    FailureLogShape(Pool(form, bank, invoice));
  }

  /** The criteria of a list of results, in order. */
  ghost function CriteriaOf(results: seq<ValidationResult>): seq<Criterion>
    reads results
  {
    if results == [] then [] else results[0].criteria + CriteriaOf(results[1..])
  }

  lemma CriteriaOfFrom(results: seq<ValidationResult>, d: nat)
    requires d < |results|
    ensures CriteriaOf(results[d..]) == results[d].criteria + CriteriaOf(results[d + 1..])
  {
    assert results[d..][1..] == results[d + 1..];
  }

  lemma CriteriaOfThree(form: ValidationResult, bank: ValidationResult, invoice: ValidationResult)
    ensures CriteriaOf([form, bank, invoice]) == Pool(form, bank, invoice)
  {
    var results := [form, bank, invoice];
    assert results[1..] == [bank, invoice];
    assert results[1..][1..] == [invoice];
    assert results[1..][1..][1..] == [];
    assert CriteriaOf(results[1..][1..]) == invoice.criteria + [];
  }

  /** The inner loop of log_feedback over the criteria of one result,
      carrying on from the lines `log0` already written. */
  method LogCriteria(cs: seq<Criterion>, log0: seq<LogEntry>) returns (log: seq<LogEntry>, failure: Option<Error>)
    ensures Run(Report(log0, None), cs) == Report(log, failure)
  {
    log := log0;
    assert cs[0..] == cs;
    for i := 0 to |cs|
      invariant Run(Report(log, None), cs[i..]) == Run(Report(log0, None), cs)
    {
      var c := cs[i];
      var score := Score(c);
      var stop: Option<Error> := None;
      if score.Err? {
        stop := Some(score.error);
      } else if score.value == 0 {
        if c.key in MessageKeys {
          log := log + [ErrorEntry(c.key)];
        } else {
          stop := Some(MissingMessage(c.key));
        }
      }
      assert cs[i..][1..] == cs[i + 1..];
      if stop.Some? {
        RunStopped(Report(log, stop), cs[i + 1..]);
        return log, stop;
      }
    }
    assert cs[|cs|..] == [];
    return log, None;
  }

  /** The outer loop of log_feedback, over the results in order. */
  method LogResults(results: seq<ValidationResult>) returns (log: seq<LogEntry>, failure: Option<Error>)
    ensures FailureLog(CriteriaOf(results)) == Report(log, failure)
  {
    log := [];
    FailureLogRun([], CriteriaOf(results));
    assert [] + CriteriaOf(results) == CriteriaOf(results);
    assert results[0..] == results;
    for d := 0 to |results|
      invariant Run(Report(log, None), CriteriaOf(results[d..])) == FailureLog(CriteriaOf(results))
    {
      var cs := results[d].criteria;
      CriteriaOfFrom(results, d);
      RunConcat(Report(log, None), cs, CriteriaOf(results[d + 1..]));
      log, failure := LogCriteria(cs, log);
      if failure.Some? {
        RunStopped(Report(log, failure), CriteriaOf(results[d + 1..]));
        return;
      }
    }
    assert results[|results|..] == [];
    failure := None;
  }

  /** log_feedback, as the source runs it: the score first, then the loop
      over the three results and their criteria. */
  method LogFeedback(form: ValidationResult, bank: ValidationResult, invoice: ValidationResult) returns (report: Report)
    ensures report == FeedbackReport(form, bank, invoice)
  {
    var score := ConfidenceScore(form, bank, invoice);
    if score.Err? {
      return Report([], Some(score.error));
    }
    var log, failure := LogResults([form, bank, invoice]);
    CriteriaOfThree(form, bank, invoice);
    if failure.Some? {
      return Report(log, failure);
    }
    report := Report(log + [ScoreEntry(score.value)], None);
  }
}
