/** Photo checks of an application form: the LLaVA answer parser, the
    geotag-against-address criterion, the image criterion and the
    ValidationResult that gathers them
    (src/inukai/validate/application_form_validator.py). */
module ApplicationFormValidator {
  import opened Results
  import Text
  import opened ValidationClasses

  // ---------------------------------------------------------------------
  // parse_llm_response: re.search(r"object: (\w+), fully captured: (\w+)")
  // ---------------------------------------------------------------------

  const ObjectTag: string := "object: "
  const CapturedTag: string := ", fully captured: "

  /** The two groups of one match. */
  datatype Groups = Groups(objectWord: string, capturedWord: string)

  /** A word in the sense of \w+. */
  predicate IsWord(w: string) {
    |w| > 0 && forall k | 0 <= k < |w| :: Text.IsWordChar(w[k])
  }

  /** Reference reading of the pattern: it occurs at i with the words w1 and
      w2 as its groups. The first word is followed by ',', which is not a
      word character, so only its longest run can match. */
  predicate OccursAt(s: string, i: nat, w1: string, w2: string) {
    var a := i + |ObjectTag|;
    var j := a + |w1|;
    var k := j + |CapturedTag|;
    k + |w2| <= |s|
    && IsWord(w1) && IsWord(w2)
    && s[i..a] == ObjectTag && s[a..j] == w1
    && s[j..k] == CapturedTag && s[k..k + |w2|] == w2
  }

  /** An occurrence whose second word is as long as it can be, which is the
      one the greedy \w+ captures. */
  predicate GreedyAt(s: string, i: nat, w1: string, w2: string) {
    OccursAt(s, i, w1, w2)
    && var e := i + |ObjectTag| + |w1| + |CapturedTag| + |w2|;
    (e == |s| || !Text.IsWordChar(s[e]))
  }

  /** The attempt of the pattern at position i. */
  function AttemptAt(s: string, i: nat): Option<Groups>
    requires i <= |s|
  {
    var a := i + |ObjectTag|;
    if a <= |s| && s[i..a] == ObjectTag then AfterObject(s, a) else None
  }

  /** The rest of the attempt, from just after "object: ". */
  function AfterObject(s: string, a: nat): Option<Groups>
    requires a <= |s|
  {
    var j := a + Text.Run(s, a, Text.IsWordChar);
    var k := j + |CapturedTag|;
    if j > a && k <= |s| && s[j..k] == CapturedTag then
      var e := k + Text.Run(s, k, Text.IsWordChar);
      if e > k then Some(Groups(s[a..j], s[k..e])) else None
    else None
  }

  /** re.search: the first position from i on where the attempt succeeds. */
  function Search(s: string, i: nat): (r: Option<(nat, Groups)>)
    requires i <= |s|
    ensures r.Some? ==> i <= r.value.0 <= |s|
    decreases |s| - i
  {
    match AttemptAt(s, i)
    case Some(g) => Some((i, g))
    case None => if i < |s| then Search(s, i + 1) else None
  }

  /** parse_llm_response: both groups compared with "True", letter case
      included; no match raises ValueError. */
  function ParseLlmResponse(response: string): (r: Result<(bool, bool)>)
    ensures r.Err? ==> r.error == BadResponseFormat
  {
    match Search(response, 0)
    case None => Err(BadResponseFormat)
    case Some((_, g)) => Ok((g.objectWord == "True", g.capturedWord == "True"))
  }

  /** A successful attempt is a greedy occurrence of the pattern. */
  lemma AttemptSound(s: string, i: nat)
    requires i <= |s| && AttemptAt(s, i).Some?
    ensures GreedyAt(s, i, AttemptAt(s, i).value.objectWord, AttemptAt(s, i).value.capturedWord)
  {
    var a := i + |ObjectTag|;
    var j := a + Text.Run(s, a, Text.IsWordChar);
    var k := j + |CapturedTag|;
    RunIsWord(s, a);
    RunIsWord(s, k);
  }

  /** A non-empty run of word characters is a word, and the character after
      it, if any, is not a word character. */
  lemma RunIsWord(s: string, a: nat)
    requires a <= |s| && Text.Run(s, a, Text.IsWordChar) > 0
    ensures IsWord(s[a..a + Text.Run(s, a, Text.IsWordChar)])
    ensures var e := a + Text.Run(s, a, Text.IsWordChar); e == |s| || !Text.IsWordChar(s[e])
  {
    var w := s[a..a + Text.Run(s, a, Text.IsWordChar)];
    Text.RunMaximal(s, a, Text.IsWordChar);
    assert forall n | 0 <= n < |w| :: w[n] == s[a + n];
  }

  /** Any occurrence of the pattern at i makes the attempt at i succeed,
      with the occurrence's first word; the greedy occurrence is exactly the
      one the attempt returns. */
  lemma AttemptComplete(s: string, i: nat, w1: string, w2: string)
    requires OccursAt(s, i, w1, w2)
    ensures i <= |s| && AttemptAt(s, i).Some?
    ensures AttemptAt(s, i).value.objectWord == w1
    ensures GreedyAt(s, i, w1, w2) ==> AttemptAt(s, i) == Some(Groups(w1, w2))
  {
    var a := i + |ObjectTag|;
    var j := a + |w1|;
    var k := j + |CapturedTag|;
    assert forall n | a <= n < j :: Text.IsWordChar(s[n]) by {
      forall n | a <= n < j ensures Text.IsWordChar(s[n]) {
        assert s[n] == w1[n - a];
      }
    }
    assert !Text.IsWordChar(s[j]) by {
      assert s[j] == CapturedTag[0];
    }
    Text.RunIs(s, a, j, Text.IsWordChar);
    var n2 := Text.Run(s, k, Text.IsWordChar);
    Text.RunMaximal(s, k, Text.IsWordChar);
    assert n2 > 0 by {
      assert s[k] == w2[0];
    }
    if GreedyAt(s, i, w1, w2) {
      WordRunIs(s, k, w2);
    }
  }

  /** A word that ends where the word characters end is the whole run. */
  lemma WordRunIs(s: string, k: nat, w: string)
    requires k + |w| <= |s| && IsWord(w) && s[k..k + |w|] == w
    requires k + |w| == |s| || !Text.IsWordChar(s[k + |w|])
    ensures Text.Run(s, k, Text.IsWordChar) == |w|
  {
    assert forall n | k <= n < k + |w| :: Text.IsWordChar(s[n]) by {
      forall n | k <= n < k + |w| ensures Text.IsWordChar(s[n]) {
        assert s[n] == w[n - k];
      }
    }
    if k + |w| < |s| {
      Text.RunIs(s, k, k + |w|, Text.IsWordChar);
    } else {
      RunToEnd(s, k);
    }
  }

  /** A run of word characters reaching the end of s. */
  lemma {:induction false} RunToEnd(s: string, k: nat)
    requires k <= |s|
    requires forall n | k <= n < |s| :: Text.IsWordChar(s[n])
    ensures Text.Run(s, k, Text.IsWordChar) == |s| - k
    decreases |s| - k
  {
    if k < |s| {
      RunToEnd(s, k + 1);
    }
  }

  /** Search returns the first position from i on whose attempt succeeds. */
  lemma {:induction false} SearchSound(s: string, i: nat)
    requires i <= |s| && Search(s, i).Some?
    ensures AttemptAt(s, Search(s, i).value.0) == Some(Search(s, i).value.1)
    ensures forall q | i <= q < Search(s, i).value.0 :: AttemptAt(s, q).None?
    decreases |s| - i
  {
    if AttemptAt(s, i).None? {
      SearchSound(s, i + 1);
    }
  }

  /** Search finds a position at or before any position whose attempt
      succeeds. */
  lemma {:induction false} SearchComplete(s: string, i: nat, p: nat)
    requires i <= p <= |s| && AttemptAt(s, p).Some?
    ensures Search(s, i).Some? && Search(s, i).value.0 <= p
    decreases p - i
  {
    if AttemptAt(s, i).None? {
      SearchComplete(s, i + 1, p);
    }
  }

  /** parse_llm_response fails, with ValueError, exactly when the pattern
      occurs nowhere in the response. */
  lemma ParseLlmResponseFails(s: string)
    ensures ParseLlmResponse(s).Err? <==> forall i: nat, w1, w2 :: !OccursAt(s, i, w1, w2)
    ensures ParseLlmResponse(s).Err? ==> ParseLlmResponse(s).error == BadResponseFormat
  {
    var r := Search(s, 0);
    if r.Some? {
      SearchSound(s, 0);
      AttemptSound(s, r.value.0);
    } else {
      forall i: nat, w1, w2 | OccursAt(s, i, w1, w2) ensures false {
        AttemptComplete(s, i, w1, w2);
        SearchComplete(s, 0, i);
      }
    }
  }

  /** On success, parse_llm_response reads the leftmost occurrence of the
      pattern, with greedy groups, and reports whether each group is exactly
      "True": "true" or "TRUE" read as false. */
  lemma ParseLlmResponseReads(s: string)
    requires ParseLlmResponse(s).Ok?
    ensures exists i: nat, w1, w2 ::
      GreedyAt(s, i, w1, w2)
      && (forall q: nat, v1, v2 | q < i :: !OccursAt(s, q, v1, v2))
      && ParseLlmResponse(s).value == (w1 == "True", w2 == "True")
  {
    var r := Search(s, 0);
    var i := r.value.0;
    var g := r.value.1;
    SearchSound(s, 0);
    AttemptSound(s, i);
    forall q: nat, v1, v2 | q < i ensures !OccursAt(s, q, v1, v2) {
      if OccursAt(s, q, v1, v2) {
        AttemptComplete(s, q, v1, v2);
      }
    }
    assert GreedyAt(s, i, g.objectWord, g.capturedWord);
  }

  /** The comparison is case-sensitive: a lower-case "true" reads as false. */
  lemma LowerCaseTrueIsFalse()
    ensures ParseLlmResponse(ObjectTag + "true" + CapturedTag + "True") == Ok((false, true))
  {
    var p := ObjectTag + "true";
    var q := p + CapturedTag;
    var s := q + "True";
    assert s[0..8] == p[0..8] == ObjectTag;
    assert s[8..12] == p[8..12] == "true";
    assert s[12..30] == q[12..30] == CapturedTag;
    assert s[30..34] == "True";
    assert GreedyAt(s, 0, "true", "True");
    AttemptComplete(s, 0, "true", "True");
  }

  // ---------------------------------------------------------------------
  // The geotag criterion
  // ---------------------------------------------------------------------

  /** The radius, in metres, an ApplicationFormProcessor uses by default. */
  const DefaultRadius: int := 500

  datatype Coordinates = Coordinates(latitude: real, longitude: real)

  /** validate_geotag_against_address, given the geodesic distance in metres
      between the photo's geotag and the address: within the radius,
      boundary included, and the distance itself. */
  function GeotagAgainstAddress(distance: real, radius: int): (r: (bool, real))
    ensures r.1 == distance
    ensures r.0 <==> distance <= radius as real
    ensures distance == radius as real ==> r.0
  {
    (distance <= radius as real, distance)
  }

  /** With the processor's default radius, a geotag exactly 500 metres from
      the address still passes, and one any farther fails. */
  lemma DefaultRadiusBoundary(geotag: Coordinates, address: Coordinates, distance: (Coordinates, Coordinates) -> real)
    ensures GeotagAgainstAddress(500.0, DefaultRadius) == (true, 500.0)
    ensures Score(GeotagAddressCriterion(Some(address), geotag, distance, DefaultRadius)) == Ok(1)
            <==> distance(geotag, address) <= 500.0
  {
  }

  /** validate_geotag_address, given the geocoder's answer for the form's
      address (None when it did not resolve) and the geodesic distance. */
  function GeotagAddressCriterion(address: Option<Coordinates>, geotag: Coordinates,
                                  distance: (Coordinates, Coordinates) -> real, radius: int): (c: Criterion)
    ensures c.key == "geotag_address" && c.weight == 1.0
    ensures address.None? ==> c.value == Str("False")
    ensures address.Some? ==> c.value == Bool(distance(geotag, address.value) <= radius as real)
    ensures Score(c) == Ok(if address.Some? && distance(geotag, address.value) <= radius as real then 1 else 0)
  {
    match address
    case None => Criterion("geotag_address", Str("False"), 1.0)
    case Some(coords) =>
      var (within, _) := GeotagAgainstAddress(distance(geotag, coords), radius);
      Criterion("geotag_address", Bool(within), 1.0)
  }

  // ---------------------------------------------------------------------
  // The image criterion and validate_photo
  // ---------------------------------------------------------------------

  /** What describe_image produced: the model's answer text, or a
      RuntimeError. */
  datatype Description = Response(text: string) | DescribeFailed

  /** validate_image_contains_object, given whether the image reached the
      temporary file and what describe_image produced. */
  method ValidateImageContainsObject(written: bool, description: Description) returns (r: Result<Criterion>)
    ensures r.Err? <==> written && description.Response? && ParseLlmResponse(description.text).Err?
    ensures r.Err? ==> r.error == BadResponseFormat
    ensures r.Ok? ==> r.value.key == "image" && r.value.weight == 1.0 && r.value.value.Bool?
    ensures r.Ok? ==> (r.value.value.b <==>
      written && description.Response? && ParseLlmResponse(description.text) == Ok((true, true)))
  {
    if !written {
      return Ok(Criterion("image", Bool(false), 1.0));
    }
    var objectStatus: bool, fullyCapturedStatus: bool;
    match description {
      case DescribeFailed =>
        objectStatus, fullyCapturedStatus := false, false;
      case Response(text) =>
        var parsed := ParseLlmResponse(text);
        if parsed.Err? {
          ParseLlmResponseFails(text);
          return Err(parsed.error);
        }
        objectStatus, fullyCapturedStatus := parsed.value.0, parsed.value.1;
    }
    r := Ok(Criterion("image", Bool(objectStatus && fullyCapturedStatus), 1.0));
  }

  /** validate_photo: a fresh "ApplicationForm" result holding the geotag
      criterion and then the image criterion; an unreadable model answer
      propagates. */
  method ValidatePhoto(address: Option<Coordinates>, geotag: Coordinates,
                       distance: (Coordinates, Coordinates) -> real, radius: int,
                       written: bool, description: Description)
    returns (r: Result<ValidationResult>)
    ensures r.Err? <==> written && description.Response? && ParseLlmResponse(description.text).Err?
    ensures r.Ok? ==> fresh(r.value)
    ensures r.Ok? ==> r.value.componentName == "ApplicationForm"
    ensures r.Ok? ==> |r.value.criteria| == 2
    ensures r.Ok? ==> r.value.criteria[0] == GeotagAddressCriterion(address, geotag, distance, radius)
    ensures r.Ok? ==> r.value.criteria[1] == Criterion("image",
      Bool(written && description.Response? && ParseLlmResponse(description.text) == Ok((true, true))), 1.0)
  {
    var result := new ValidationResult("ApplicationForm");
    result.AddCriteria(GeotagAddressCriterion(address, geotag, distance, radius));
    var image := ValidateImageContainsObject(written, description);
    if image.Err? {
      return Err(image.error);
    }
    result.AddCriteria(image.value);
    r := Ok(result);
  }

  /** The weighted score of a validate_photo result is the mean of its two
      criteria's scores: 1 exactly when the address resolved within the
      radius and the model saw the whole object, 0 when neither holds. */
  lemma PhotoScore(geo: Criterion, image: Criterion)
    requires geo.weight == 1.0 && image.weight == 1.0
    requires Scorable(geo) && Scorable(image)
    ensures WeightedAverage([geo, image]).Ok?
    ensures WeightedAverage([geo, image]).value
      == ((if Passes(geo.value) then 1.0 else 0.0) + (if Passes(image.value) then 1.0 else 0.0)) / 2.0
    ensures WeightedAverage([geo, image]).value == 1.0 <==> Passes(geo.value) && Passes(image.value)
    ensures WeightedAverage([geo, image]).value == 0.0 <==> !Passes(geo.value) && !Passes(image.value)
  {
    var cs := [geo, image];
    assert cs[1..] == [image];
    assert [image][1..] == [];
    assert TotalWeight([image]) == 1.0;
    assert TotalWeight(cs) == 2.0;
    assert PassedWeight(cs) == (if Passes(geo.value) then 1.0 else 0.0) + PassedWeight([image]);
    assert AllScorable(cs);
  }
}
