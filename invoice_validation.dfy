/** Invoice checks (src/inukai/validate/invoice_validation.py): the scanner
    that reads the language model's verdicts, the Textract query-response
    parser, and the criteria built from the verdicts. */
module InvoiceValidation {
  import opened Results
  import Text
  import opened Textract
  import opened ValidationClasses

  // ---------------------------------------------------------------------
  // extract_validation
  // ---------------------------------------------------------------------

  /** The three verdicts the pattern accepts. */
  datatype Verdict = Match | Mismatch | NotGiven

  function VerdictText(v: Verdict): string {
    match v
    case Match => "MATCH"
    case Mismatch => "MISMATCH"
    case NotGiven => "NOT GIVEN"
  }

  /** A key of the pattern: one or more word characters. */
  predicate IsKey(key: string) {
    |key| > 0 && forall k | 0 <= k < |key| :: Text.IsWordChar(key[k])
  }

  /** The separator of the pattern: one or more whitespace characters. */
  predicate IsGap(gap: string) {
    |gap| > 0 && forall k | 0 <= k < |gap| :: Text.IsSpace(gap[k])
  }

  /** s reads t from position p on. */
  predicate ReadsAt(s: string, p: nat, t: string)
    decreases |t|
  {
    p + |t| <= |s| && (t == [] || (s[p] == t[0] && ReadsAt(s, p + 1, t[1..])))
  }

  /** ReadsAt is a comparison of t with the slice of s at p. */
  lemma {:induction false} ReadsAtSlice(s: string, p: nat, t: string)
    ensures ReadsAt(s, p, t) <==> p + |t| <= |s| && s[p..p + |t|] == t
    decreases |t|
  {
    if t != [] && p + |t| <= |s| {
      ReadsAtSlice(s, p + 1, t[1..]);
      assert s[p..p + |t|] == [s[p]] + s[p + 1..p + |t|];
      assert t == [t[0]] + t[1..];
    }
  }

  /** The verdict's text followed by a double quote starts at p. */
  predicate VerdictThenQuote(s: string, p: nat, v: Verdict) {
    var e := p + |VerdictText(v)|;
    ReadsAt(s, p, VerdictText(v)) && e < |s| && s[e] == '"'
  }

  /** The text at i reads `"key":gap"VERDICT"`: this is what the pattern
      `"(\w+)":\s+"(MATCH|MISMATCH|NOT GIVEN)"` matches there, with key and
      gap of the right characters. */
  predicate MatchesAt(s: string, i: nat, key: string, gap: string, v: Verdict) {
    var j := i + 1 + |key|;
    var q := j + 2 + |gap|;
    && q < |s|
    && s[i] == '"' && s[i + 1..j] == key && s[j] == '"' && s[j + 1] == ':'
    && s[j + 2..q] == gap && s[q] == '"'
    && VerdictThenQuote(s, q + 1, v)
  }

  /** The alternation of the pattern, tried in order. At most one
      alternative can match, since they differ in their first two letters. */
  function VerdictAt(s: string, p: nat): (v: Option<Verdict>)
    ensures v.Some? ==> p + |VerdictText(v.value)| < |s|
  {
    if VerdictThenQuote(s, p, Match) then Some(Match)
    else if VerdictThenQuote(s, p, Mismatch) then Some(Mismatch)
    else if VerdictThenQuote(s, p, NotGiven) then Some(NotGiven)
    else None
  }

  /** The alternative found is the only one that matches at p. */
  lemma VerdictAtUnique(s: string, p: nat)
    ensures VerdictAt(s, p).Some? ==> VerdictThenQuote(s, p, VerdictAt(s, p).value)
    ensures forall w :: VerdictThenQuote(s, p, w) ==> VerdictAt(s, p) == Some(w)
  {
    assert "MATCH"[1..] == "ATCH" && "MISMATCH"[1..] == "ISMATCH";
  }

  /** What one match yields: the key group, the whitespace it skipped and
      the verdict group. */
  datatype Hit = Hit(key: string, gap: string, verdict: Verdict)

  /** The position just after a match at i. */
  function End(i: nat, h: Hit): nat {
    i + |h.key| + |h.gap| + |VerdictText(h.verdict)| + 5
  }

  /** Where the key and the whitespace of an attempt end: the key runs up
      to keyEnd, the whitespace from keyEnd + 2 up to gapEnd, and the
      verdict starts at gapEnd + 1. */
  datatype Head = Head(keyEnd: nat, gapEnd: nat)

  /** The part of an attempt at i before the verdict, read as a greedy
      scanner: an opening quote, the key's word characters, `":`, the
      whitespace and a quote. \w+ and \s+ take maximal runs: giving
      characters back cannot help, because the character after each run
      must be a quote. */
  function HeadAt(s: string, i: nat): (r: Option<Head>)
    requires i <= |s|
    ensures r.Some? ==> i + 1 < r.value.keyEnd && r.value.keyEnd + 2 < r.value.gapEnd < |s|
  {
    if i < |s| && s[i] == '"' then KeyFrom(s, i, i + 1) else None
  }

  /** Consumes the key's word characters from k on. */
  function KeyFrom(s: string, i: nat, k: nat): (r: Option<Head>)
    requires i < k <= |s|
    ensures r.Some? ==> i + 1 < r.value.keyEnd && r.value.keyEnd + 2 < r.value.gapEnd < |s|
    decreases |s| - k
  {
    if k < |s| && Text.IsWordChar(s[k]) then KeyFrom(s, i, k + 1) else AfterKey(s, i, k)
  }

  /** The key ended at j: it must be non-empty and followed by `":`. */
  function AfterKey(s: string, i: nat, j: nat): (r: Option<Head>)
    requires i < j <= |s|
    ensures r.Some? ==> i + 1 < r.value.keyEnd && r.value.keyEnd + 2 < r.value.gapEnd < |s|
  {
    if j > i + 1 && j + 1 < |s| && s[j] == '"' && s[j + 1] == ':' then GapFrom(s, j, j + 2) else None
  }

  /** Consumes the whitespace from k on; the key ended at j. */
  function GapFrom(s: string, j: nat, k: nat): (r: Option<Head>)
    requires j + 2 <= k <= |s|
    ensures r.Some? ==> r.value.keyEnd == j && j + 2 < r.value.gapEnd < |s|
    decreases |s| - k
  {
    if k < |s| && Text.IsSpace(s[k]) then GapFrom(s, j, k + 1) else AfterGap(s, j, k)
  }

  /** The whitespace ended at q: it must be non-empty and followed by a
      quote. */
  function AfterGap(s: string, j: nat, q: nat): (r: Option<Head>)
    requires j + 2 <= q <= |s|
    ensures r.Some? ==> r.value.keyEnd == j && j + 2 < r.value.gapEnd < |s|
  {
    if q > j + 2 && q < |s| && s[q] == '"' then Some(Head(j, q)) else None
  }

  /** An attempt of the pattern at position i: the head, then the verdict
      and its closing quote. */
  function MatchAt(s: string, i: nat): (r: Option<Hit>)
    requires i <= |s|
    ensures r.Some? ==> i < End(i, r.value) <= |s|
  {
    match HeadAt(s, i)
    case None => None
    case Some(h) =>
      match VerdictAt(s, h.gapEnd + 1)
      case None => None
      case Some(v) => Some(Hit(s[i + 1..h.keyEnd], s[h.keyEnd + 2..h.gapEnd], v))
  }

  /** The key scanner stops where the run of word characters ends. */
  lemma {:induction false} KeyFromRun(s: string, i: nat, k: nat)
    requires i < k <= |s|
    ensures KeyFrom(s, i, k) == AfterKey(s, i, k + Text.Run(s, k, Text.IsWordChar))
    decreases |s| - k
  {
    if k < |s| && Text.IsWordChar(s[k]) {
      KeyFromRun(s, i, k + 1);
    }
  }

  /** The whitespace scanner stops where the run of whitespace ends. */
  lemma {:induction false} GapFromRun(s: string, j: nat, k: nat)
    requires j + 2 <= k <= |s|
    ensures GapFrom(s, j, k) == AfterGap(s, j, k + Text.Run(s, k, Text.IsSpace))
    decreases |s| - k
  {
    if k < |s| && Text.IsSpace(s[k]) {
      GapFromRun(s, j, k + 1);
    }
  }

  /** A head found at i ends where the two runs end, and the quotes and
      the colon are in their places. */
  lemma HeadAtParts(s: string, i: nat)
    requires i <= |s| && HeadAt(s, i).Some?
    ensures var j := HeadAt(s, i).value.keyEnd;
            var q := HeadAt(s, i).value.gapEnd;
            && j == i + 1 + Text.Run(s, i + 1, Text.IsWordChar)
            && q == j + 2 + Text.Run(s, j + 2, Text.IsSpace)
            && s[i] == '"' && s[j] == '"' && s[j + 1] == ':' && s[q] == '"'
  {
    var j := i + 1 + Text.Run(s, i + 1, Text.IsWordChar);
    KeyFromRun(s, i, i + 1);
    GapFromRun(s, j, j + 2);
  }

  /** The head at i, read off from the two run lengths. */
  lemma HeadAtIs(s: string, i: nat, j: nat, q: nat)
    requires i + 1 < j && j + 2 < q < |s|
    requires s[i] == '"' && s[j] == '"' && s[j + 1] == ':' && s[q] == '"'
    requires Text.Run(s, i + 1, Text.IsWordChar) == j - i - 1
    requires Text.Run(s, j + 2, Text.IsSpace) == q - j - 2
    ensures HeadAt(s, i) == Some(Head(j, q))
  {
    KeyFromRun(s, i, i + 1);
    GapFromRun(s, j, j + 2);
  }

  /** What the attempt at i finds is an occurrence of the pattern there. */
  lemma MatchAtSound(s: string, i: nat)
    requires i <= |s|
    ensures MatchAt(s, i).Some? ==> IsKey(MatchAt(s, i).value.key) && IsGap(MatchAt(s, i).value.gap)
    ensures MatchAt(s, i).Some? ==>
              MatchesAt(s, i, MatchAt(s, i).value.key, MatchAt(s, i).value.gap, MatchAt(s, i).value.verdict)
  {
    if MatchAt(s, i).Some? {
      HitGroups(s, i);
      HitMatches(s, i);
    }
  }

  /** The groups of a successful attempt are a key and a gap. */
  lemma HitGroups(s: string, i: nat)
    requires i <= |s| && MatchAt(s, i).Some?
    ensures IsKey(MatchAt(s, i).value.key) && IsGap(MatchAt(s, i).value.gap)
  {
    HitKey(s, i);
    HitGap(s, i);
  }

  /** The key group is a run of word characters. */
  lemma HitKey(s: string, i: nat)
    requires i <= |s| && MatchAt(s, i).Some?
    ensures IsKey(MatchAt(s, i).value.key)
  {
    MatchAtHead(s, i);
    var m := MatchAt(s, i).value;
    HeadAtParts(s, i);
    Text.RunMaximal(s, i + 1, Text.IsWordChar);
    forall k | 0 <= k < |m.key|
      ensures Text.IsWordChar(m.key[k])
    {
      assert m.key[k] == s[i + 1 + k];
    }
  }

  /** The gap group is a run of white space. */
  lemma HitGap(s: string, i: nat)
    requires i <= |s| && MatchAt(s, i).Some?
    ensures IsGap(MatchAt(s, i).value.gap)
  {
    MatchAtHead(s, i);
    var m := MatchAt(s, i).value;
    var h := HeadAt(s, i).value;
    HeadAtParts(s, i);
    Text.RunMaximal(s, h.keyEnd + 2, Text.IsSpace);
    forall k | 0 <= k < |m.gap|
      ensures Text.IsSpace(m.gap[k])
    {
      assert m.gap[k] == s[h.keyEnd + 2 + k];
    }
  }

  /** A successful attempt at i spells out the pattern at i. */
  lemma HitMatches(s: string, i: nat)
    requires i <= |s| && MatchAt(s, i).Some?
    ensures MatchesAt(s, i, MatchAt(s, i).value.key, MatchAt(s, i).value.gap, MatchAt(s, i).value.verdict)
  {
    MatchAtHead(s, i);
    var h := HeadAt(s, i).value;
    HeadAtParts(s, i);
    VerdictAtUnique(s, h.gapEnd + 1);
    MatchesAtFrom(s, i, h.keyEnd, h.gapEnd, MatchAt(s, i).value.verdict);
  }

  /** The pieces of an occurrence, put together. */
  lemma MatchesAtFrom(s: string, i: nat, j: nat, q: nat, v: Verdict)
    requires i + 1 < j && j + 2 < q < |s|
    requires s[i] == '"' && s[j] == '"' && s[j + 1] == ':' && s[q] == '"'
    requires VerdictThenQuote(s, q + 1, v)
    ensures MatchesAt(s, i, s[i + 1..j], s[j + 2..q], v)
  {
  }

  /** A piece t of s whose characters satisfy p, followed by one that does
      not, is the run at its start. */
  lemma PieceIsRun(s: string, a: nat, t: string, p: char -> bool)
    requires a + |t| < |s| && s[a..a + |t|] == t
    requires forall k | 0 <= k < |t| :: p(t[k])
    requires !p(s[a + |t|])
    ensures Text.Run(s, a, p) == |t|
  {
    forall k | a <= k < a + |t|
      ensures p(s[k])
    {
      assert s[k] == t[k - a];
    }
    Text.RunIs(s, a, a + |t|, p);
  }

  /** Every occurrence of the pattern at i is found by the attempt at i. */
  lemma MatchAtComplete(s: string, i: nat, key: string, gap: string, v: Verdict)
    requires i <= |s| && IsKey(key) && IsGap(gap) && MatchesAt(s, i, key, gap, v)
    ensures MatchAt(s, i) == Some(Hit(key, gap, v))
  {
    var j := i + 1 + |key|;
    var q := j + 2 + |gap|;
    OccurrenceHead(s, i, key, gap, v);
    MatchAtOf(s, i, j, q, v);
  }

  /** An occurrence at i has its head and its verdict where the scanner
      looks for them. */
  lemma OccurrenceHead(s: string, i: nat, key: string, gap: string, v: Verdict)
    requires i <= |s| && IsKey(key) && IsGap(gap) && MatchesAt(s, i, key, gap, v)
    ensures var j := i + 1 + |key|;
            var q := j + 2 + |gap|;
            && HeadAt(s, i) == Some(Head(j, q)) && VerdictAt(s, q + 1) == Some(v)
            && s[i + 1..j] == key && s[j + 2..q] == gap
  {
    var j := i + 1 + |key|;
    var q := j + 2 + |gap|;
    PieceIsRun(s, i + 1, key, Text.IsWordChar);
    PieceIsRun(s, j + 2, gap, Text.IsSpace);
    HeadAtIs(s, i, j, q);
    VerdictAtUnique(s, q + 1);
  }

  /** The attempt at i, read off from its head and its verdict. */
  lemma MatchAtOf(s: string, i: nat, j: nat, q: nat, v: Verdict)
    requires i <= |s| && HeadAt(s, i) == Some(Head(j, q)) && VerdictAt(s, q + 1) == Some(v)
    ensures MatchAt(s, i) == Some(Hit(s[i + 1..j], s[j + 2..q], v))
  {
  }

  /** A successful attempt at i is made of its head and its verdict. */
  lemma MatchAtHead(s: string, i: nat)
    requires i <= |s| && MatchAt(s, i).Some?
    ensures HeadAt(s, i).Some?
    ensures var h := HeadAt(s, i).value;
            && VerdictAt(s, h.gapEnd + 1) == Some(MatchAt(s, i).value.verdict)
            && MatchAt(s, i).value.key == s[i + 1..h.keyEnd]
            && MatchAt(s, i).value.gap == s[h.keyEnd + 2..h.gapEnd]
  {
  }

  /** One element of re.findall: the two groups. */
  datatype Pair = Pair(key: string, verdict: Verdict)

  /** re.findall from position i: matches are taken left to right and do not
      overlap; a failed attempt moves on by one character. */
  function FindAll(s: string, i: nat): (pairs: seq<Pair>)
    requires i <= |s|
    ensures |pairs| <= |s| - i
    decreases |s| - i
  {
    if i == |s| then []
    else
      match MatchAt(s, i)
      case Some(h) => [Pair(h.key, h.verdict)] + FindAll(s, End(i, h))
      case None => FindAll(s, i + 1)
  }

  /** Every pair found comes from an occurrence of the pattern at or after
      the starting position. */
  lemma {:induction false} FindAllSound(s: string, i: nat)
    requires i <= |s|
    ensures forall p | p in FindAll(s, i) ::
              IsKey(p.key) && exists j, gap | i <= j < |s| :: IsGap(gap) && MatchesAt(s, j, p.key, gap, p.verdict)
    decreases |s| - i
  {
    if i < |s| {
      match MatchAt(s, i)
      case Some(h) =>
        MatchAtSound(s, i);
        FindAllSound(s, End(i, h));
      case None =>
        FindAllSound(s, i + 1);
    }
  }

  /** An occurrence of the pattern at the starting position is the first
      pair found, whatever its key: keys are not limited to a fixed list. */
  lemma FindAllFirst(s: string, i: nat, key: string, gap: string, v: Verdict)
    requires i < |s| && IsKey(key) && IsGap(gap) && MatchesAt(s, i, key, gap, v)
    ensures FindAll(s, i) == [Pair(key, v)] + FindAll(s, End(i, Hit(key, gap, v)))
  {
    MatchAtComplete(s, i, key, gap, v);
  }

  /** The index of the entry with key k, if any. */
  function KeyIndex(d: seq<Pair>, k: string): (r: Option<nat>)
    ensures r.Some? ==> r.value < |d| && d[r.value].key == k
    ensures r.None? ==> forall q | q in d :: q.key != k
  {
    if d == [] then None
    else if d[0].key == k then Some(0)
    else
      match KeyIndex(d[1..], k)
      case None => None
      case Some(n) => Some(n + 1)
  }

  /** d[key] = value on an insertion-ordered dict: an existing key keeps its
      place and takes the new value, a new key goes to the end. */
  function Insert(d: seq<Pair>, p: Pair): (r: seq<Pair>)
    ensures |d| <= |r| <= |d| + 1
    ensures forall n | 0 <= n < |d| :: r[n].key == d[n].key
    ensures |r| == |d| + 1 ==> r[|d|] == p
  {
    match KeyIndex(d, p.key)
    case Some(n) => d[n := p]
    case None => d + [p]
  }

  /** Inserting into a dict with distinct keys keeps the keys distinct. */
  lemma InsertDistinct(d: seq<Pair>, p: Pair)
    requires forall m, n | 0 <= m < n < |d| :: d[m].key != d[n].key
    ensures forall m, n | 0 <= m < n < |Insert(d, p)| :: Insert(d, p)[m].key != Insert(d, p)[n].key
  {
  }

  /** After the insertion the new pair is an entry, and every other entry
      was there before. */
  lemma InsertFrom(d: seq<Pair>, p: Pair)
    ensures p in Insert(d, p)
    ensures forall q | q in Insert(d, p) :: q == p || q in d
  {
  }

  /** Every entry with another key survives the insertion. */
  lemma InsertKeeps(d: seq<Pair>, p: Pair)
    ensures forall q | q in d && q.key != p.key :: q in Insert(d, p)
  {
    match KeyIndex(d, p.key)
    case Some(n) =>
      forall q | q in d && q.key != p.key
        ensures q in d[n := p]
      {
        var m :| 0 <= m < |d| && d[m] == q;
        assert d[n := p][m] == q;
      }
    case None =>
  }

  /** {key: value for key, value in pairs}, as an insertion-ordered list of
      entries. */
  function ToDict(pairs: seq<Pair>): seq<Pair> {
    if pairs == [] then []
    else Insert(ToDict(pairs[..|pairs| - 1]), pairs[|pairs| - 1])
  }

  /** The dict has each key once. */
  lemma {:induction false} ToDictDistinct(pairs: seq<Pair>)
    ensures forall m, n | 0 <= m < n < |ToDict(pairs)| :: ToDict(pairs)[m].key != ToDict(pairs)[n].key
  {
    if pairs != [] {
      var front, last := pairs[..|pairs| - 1], pairs[|pairs| - 1];
      ToDictDistinct(front);
      InsertDistinct(ToDict(front), last);
    }
  }

  /** The dict holds only pairs that were given. */
  lemma {:induction false} ToDictFromPairs(pairs: seq<Pair>)
    ensures forall q | q in ToDict(pairs) :: q in pairs
  {
    if pairs != [] {
      var front, last := pairs[..|pairs| - 1], pairs[|pairs| - 1];
      assert pairs == front + [last];
      ToDictFromPairs(front);
      InsertFrom(ToDict(front), last);
    }
  }

  /** The dict has an entry for every key given. */
  lemma {:induction false} ToDictCovers(pairs: seq<Pair>)
    ensures forall p | p in pairs :: exists q | q in ToDict(pairs) :: q.key == p.key
  {
    if pairs != [] {
      var front, last := pairs[..|pairs| - 1], pairs[|pairs| - 1];
      assert pairs == front + [last];
      ToDictCovers(front);
      InsertFrom(ToDict(front), last);
      InsertKeeps(ToDict(front), last);
      forall p | p in pairs
        ensures exists q | q in ToDict(pairs) :: q.key == p.key
      {
        if p != last {
          assert p in front;
          var q :| q in ToDict(front) && q.key == p.key;
          if q.key != last.key {
            assert q in ToDict(pairs);
          }
        }
      }
    }
  }

  /** A pair with no later pair for its key is the dict's entry for it. */
  lemma {:induction false} ToDictLastWins(pairs: seq<Pair>, k: nat)
    requires k < |pairs|
    requires forall j | k < j < |pairs| :: pairs[j].key != pairs[k].key
    ensures pairs[k] in ToDict(pairs)
  {
    var front, last := pairs[..|pairs| - 1], pairs[|pairs| - 1];
    if k < |pairs| - 1 {
      ToDictLastWins(front, k);
      InsertKeeps(ToDict(front), last);
    } else {
      InsertFrom(ToDict(front), last);
    }
  }

  /** extract_validation: the verdict for each key the response mentions,
      each key once, every entry a pair the pattern matched. */
  function ExtractValidation(response: string): (d: seq<Pair>)
    ensures forall m, n | 0 <= m < n < |d| :: d[m].key != d[n].key
    ensures forall q | q in d :: q in FindAll(response, 0)
    ensures forall p | p in FindAll(response, 0) :: exists q | q in d :: q.key == p.key
  {
    var pairs := FindAll(response, 0);
    ToDictDistinct(pairs);
    ToDictFromPairs(pairs);
    ToDictCovers(pairs);
    ToDict(pairs)
  }

  // ---------------------------------------------------------------------
  // validate_document
  // ---------------------------------------------------------------------

  /** The criterion for one verdict: weight 1, passing only on MATCH. */
  function InvoiceCriterion(p: Pair): (c: Criterion)
    ensures c.key == p.key && c.weight == 1.0
    ensures Score(c) == Ok(if p.verdict == Match then 1 else 0)
  {
    Criterion(p.key, Bool(p.verdict == Match), 1.0)
  }

  /** The criteria validate_document adds, one per dict entry in order. */
  function InvoiceCriteria(d: seq<Pair>): (cs: seq<Criterion>)
    ensures |cs| == |d|
    ensures forall n | 0 <= n < |d| :: cs[n] == InvoiceCriterion(d[n])
  {
    if d == [] then [] else InvoiceCriteria(d[..|d| - 1]) + [InvoiceCriterion(d[|d| - 1])]
  }

  /** validate_document on the language model's reply (the prompt and the
      model call are not modelled): one criterion per extracted key. */
  method ValidateDocument(response: string) returns (result: ValidationResult)
    ensures fresh(result) && result.componentName == "invoice"
    ensures result.criteria == InvoiceCriteria(ExtractValidation(response))
  {
    result := RecordVerdicts(ExtractValidation(response));
  }

  /** The loop of validate_document over the extracted dict. */
  method RecordVerdicts(verdicts: seq<Pair>) returns (result: ValidationResult)
    ensures fresh(result) && result.componentName == "invoice"
    ensures result.criteria == InvoiceCriteria(verdicts)
  {
    result := new ValidationResult("invoice");
    for n := 0 to |verdicts|
      invariant result.componentName == "invoice"
      invariant result.criteria == InvoiceCriteria(verdicts[..n])
    {
      assert verdicts[..n + 1][..n] == verdicts[..n];
      result.AddCriteria(Criterion(verdicts[n].key, Bool(verdicts[n].verdict == Match), 1.0));
    }
    assert verdicts[..|verdicts|] == verdicts;
  }

  /** The invoice criteria have distinct keys, and each passes exactly when
      the verdict extracted for its key is MATCH. */
  lemma InvoiceKeysDistinct(response: string)
    ensures forall m, n | 0 <= m < n < |InvoiceCriteria(ExtractValidation(response))| ::
              InvoiceCriteria(ExtractValidation(response))[m].key != InvoiceCriteria(ExtractValidation(response))[n].key
    ensures forall n | 0 <= n < |InvoiceCriteria(ExtractValidation(response))| ::
              && InvoiceCriteria(ExtractValidation(response))[n].key == ExtractValidation(response)[n].key
              && (Score(InvoiceCriteria(ExtractValidation(response))[n]) == Ok(1)
                  <==> ExtractValidation(response)[n].verdict == Match)
  {
    var d := ExtractValidation(response);
    var cs := InvoiceCriteria(d);
    forall n | 0 <= n < |cs|
      ensures cs[n].key == d[n].key && (Score(cs[n]) == Ok(1) <==> d[n].verdict == Match)
    {
      assert cs[n] == InvoiceCriterion(d[n]);
    }
  }

  // ---------------------------------------------------------------------
  // parse_queries_response
  // ---------------------------------------------------------------------

  /** An output entry: the query's name and its answer, None until a
      QUERY_RESULT block supplies one. */
  datatype QueryAnswer = QueryAnswer(query: string, answer: Option<string>)

  /** One iteration of the loop over the blocks; an error ends the parse. */
  function QueryStep(r: Result<seq<QueryAnswer>>, b: Block, queries: map<string, string>): Result<seq<QueryAnswer>> {
    match r
    case Err(_) => r
    case Ok(out) =>
      match b
      case Query(_, text) =>
        if text in queries then Ok(out + [QueryAnswer(queries[text], None)]) else Err(UnknownQuery(text))
      case QueryResult(_, answer) =>
        if out == [] then Err(ResultBeforeQuery)
        else
          var text := if answer.Some? then answer.value else "";
          Ok(out[|out| - 1 := out[|out| - 1].(answer := Some(text))])
      case _ => r
  }

  /** The loop from a given output over the given blocks. */
  function QueryRun(r: Result<seq<QueryAnswer>>, blocks: seq<Block>, queries: map<string, string>): Result<seq<QueryAnswer>>
    decreases |blocks|
  {
    if blocks == [] then r else QueryRun(QueryStep(r, blocks[0], queries), blocks[1..], queries)
  }

  /** parse_queries_response: the list built in place. */
  method ParseQueriesResponse(blocks: seq<Block>, queries: map<string, string>) returns (r: Result<seq<QueryAnswer>>)
    ensures r == QueryRun(Ok([]), blocks, queries)
  {
    var output: seq<QueryAnswer> := [];
    assert blocks[0..] == blocks;
    for i := 0 to |blocks|
      invariant QueryRun(Ok(output), blocks[i..], queries) == QueryRun(Ok([]), blocks, queries)
    {
      var block := blocks[i];
      assert blocks[i..][1..] == blocks[i + 1..];
      if block.Query? {
        if block.queryText !in queries {
          QueryRunFailed(UnknownQuery(block.queryText), blocks[i + 1..], queries);
          return Err(UnknownQuery(block.queryText));
        }
        output := output + [QueryAnswer(queries[block.queryText], None)];
      } else if block.QueryResult? {
        if output == [] {
          QueryRunFailed(ResultBeforeQuery, blocks[i + 1..], queries);
          return Err(ResultBeforeQuery);
        }
        var text := if block.answer.Some? then block.answer.value else "";
        output := output[|output| - 1 := output[|output| - 1].(answer := Some(text))];
      }
    }
    assert blocks[|blocks|..] == [];
    return Ok(output);
  }

  /** Once the parse has failed, the remaining blocks change nothing. */
  lemma {:induction false} QueryRunFailed(e: Error, blocks: seq<Block>, queries: map<string, string>)
    ensures QueryRun(Err(e), blocks, queries) == Err(e)
  {
    if blocks != [] {
      QueryRunFailed(e, blocks[1..], queries);
    }
  }

  /** Running over two stretches of blocks is running over one, then the
      other. */
  lemma {:induction false} QueryRunConcat(r: Result<seq<QueryAnswer>>, a: seq<Block>, b: seq<Block>, queries: map<string, string>)
    ensures QueryRun(r, a + b, queries) == QueryRun(QueryRun(r, a, queries), b, queries)
    decreases |a|
  {
    if a == [] {
      assert a + b == b;
    } else {
      assert (a + b)[1..] == a[1..] + b;
      QueryRunConcat(QueryStep(r, a[0], queries), a[1..], b, queries);
    }
  }

  /** The texts of the QUERY blocks, in order. */
  function QueryTexts(blocks: seq<Block>): seq<string> {
    if blocks == [] then []
    else (if blocks[0].Query? then [blocks[0].queryText] else []) + QueryTexts(blocks[1..])
  }

  /** The query names of the output entries. */
  function Names(out: seq<QueryAnswer>): (names: seq<string>)
    ensures |names| == |out|
  {
    if out == [] then [] else [out[0].query] + Names(out[1..])
  }

  /** The names the queries table gives to a list of query texts. */
  function Lookup(texts: seq<string>, queries: map<string, string>): seq<string>
    requires forall t | t in texts :: t in queries
  {
    if texts == [] then [] else [queries[texts[0]]] + Lookup(texts[1..], queries)
  }

  lemma {:induction false} NamesConcat(a: seq<QueryAnswer>, b: seq<QueryAnswer>)
    ensures Names(a + b) == Names(a) + Names(b)
  {
    if a == [] {
      assert a + b == b;
    } else {
      assert (a + b)[1..] == a[1..] + b;
      NamesConcat(a[1..], b);
    }
  }

  /** Filling in an answer leaves the names where they are. */
  lemma {:induction false} NamesKeepOnAnswer(out: seq<QueryAnswer>, n: nat, a: Option<string>)
    requires n < |out|
    ensures Names(out[n := out[n].(answer := a)]) == Names(out)
  {
    if n > 0 {
      assert out[n := out[n].(answer := a)][1..] == out[1..][n - 1 := out[n].(answer := a)];
      NamesKeepOnAnswer(out[1..], n - 1, a);
    }
  }

  /** A successful parse names one entry per QUERY block, in block order,
      and only for query texts the table knows; so its length is the number
      of QUERY blocks, and an unknown query text makes the parse fail. */
  lemma {:induction false} QueryRunNames(out: seq<QueryAnswer>, blocks: seq<Block>, queries: map<string, string>)
    requires QueryRun(Ok(out), blocks, queries).Ok?
    ensures forall t | t in QueryTexts(blocks) :: t in queries
    ensures Names(QueryRun(Ok(out), blocks, queries).value) == Names(out) + Lookup(QueryTexts(blocks), queries)
    decreases |blocks|
  {
    if blocks != [] {
      var b := blocks[0];
      var next := QueryStep(Ok(out), b, queries);
      if next.Err? {
        QueryRunFailed(next.error, blocks[1..], queries);
      } else {
        QueryRunNames(next.value, blocks[1..], queries);
        QueryStepNames(out, b, queries);
        var rest := QueryTexts(blocks[1..]);
        var own := if b.Query? then [b.queryText] else [];
        assert QueryTexts(blocks) == own + rest;
        if b.Query? {
          assert (own + rest)[1..] == rest;
          var x := queries[b.queryText];
          assert Lookup(own + rest, queries) == [x] + Lookup(rest, queries);
          assert Names(out) + [x] + Lookup(rest, queries) == Names(out) + ([x] + Lookup(rest, queries));
        } else {
          assert own + rest == rest;
        }
      }
    }
  }

  /** One step of the loop names one more entry on a QUERY block and keeps
      the names otherwise. */
  lemma QueryStepNames(out: seq<QueryAnswer>, b: Block, queries: map<string, string>)
    requires QueryStep(Ok(out), b, queries).Ok?
    ensures b.Query? ==> b.queryText in queries
    ensures Names(QueryStep(Ok(out), b, queries).value)
            == Names(out) + (if b.Query? then [queries[b.queryText]] else [])
  {
    match b
    case Query(_, text) =>
      NamesConcat(out, [QueryAnswer(queries[text], None)]);
    case QueryResult(_, answer) =>
      NamesKeepOnAnswer(out, |out| - 1, Some(if answer.Some? then answer.value else ""));
    case _ =>
  }

  /** A QUERY_RESULT before any QUERY block makes the parse fail. */
  lemma ResultBeforeQueryFails(blocks: seq<Block>, k: nat, queries: map<string, string>)
    requires k < |blocks| && blocks[k].QueryResult?
    requires forall j | 0 <= j < k :: !blocks[j].Query? && !blocks[j].QueryResult?
    ensures QueryRun(Ok([]), blocks, queries) == Err(ResultBeforeQuery)
  {
    QuietBlocks(blocks[..k], queries);
    assert blocks == blocks[..k] + blocks[k..];
    QueryRunConcat(Ok([]), blocks[..k], blocks[k..], queries);
    QueryRunFailed(ResultBeforeQuery, blocks[k + 1..], queries);
    assert blocks[k..][1..] == blocks[k + 1..];
  }

  /** Blocks other than QUERY and QUERY_RESULT change nothing. */
  lemma {:induction false} QuietBlocks(blocks: seq<Block>, queries: map<string, string>)
    requires forall b | b in blocks :: !b.Query? && !b.QueryResult?
    ensures QueryRun(Ok([]), blocks, queries) == Ok([])
  {
    if blocks != [] {
      assert forall b | b in blocks[1..] :: b in blocks;
      QuietBlocks(blocks[1..], queries);
    }
  }

  /** A QUERY followed by its QUERY_RESULT adds one entry holding the
      answer, or "" when the result block has no text. */
  lemma QueryThenAnswer(out: seq<QueryAnswer>, q: Block, a: Block, rest: seq<Block>, queries: map<string, string>)
    requires q.Query? && q.queryText in queries && a.QueryResult?
    ensures QueryRun(Ok(out), [q, a] + rest, queries)
            == QueryRun(Ok(out + [QueryAnswer(queries[q.queryText], Some(if a.answer.Some? then a.answer.value else ""))]), rest, queries)
  {
    assert ([q, a] + rest)[1..] == [a] + rest;
    assert ([a] + rest)[1..] == rest;
    var entry := QueryAnswer(queries[q.queryText], None);
    var text := if a.answer.Some? then a.answer.value else "";
    var added := out + [entry];
    assert added[|added| - 1 := entry.(answer := Some(text))] == out + [QueryAnswer(queries[q.queryText], Some(text))];
  }
}
