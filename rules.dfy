/**
 * Suggesting, projecting and recognising harmonic moves (app/core/rules.ts):
 * each operation parses its Open-Key strings leniently and then consults the
 * fixed rule catalogue.
 */
module Rules {
  import opened Wrappers
  import opened OpenKeys
  import opened Transitions

  /** `HarmonicSuggestion`: a catalogue rule without its transform. */
  datatype HarmonicSuggestion = HarmonicSuggestion(
    id: string,
    name: string,
    shortLabel: string,
    ruleType: RuleType,
    mood: Mood,
    description: string)

  function Metadata(rule: Rule): HarmonicSuggestion {
    HarmonicSuggestion(rule.id, rule.name, rule.shortLabel, rule.ruleType, rule.mood, rule.description)
  }

  /** The metadata of each rule, in order. */
  function Suggestions(rules: seq<Rule>): (r: seq<HarmonicSuggestion>)
    ensures |r| == |rules|
    ensures forall i :: 0 <= i < |r| ==> r[i] == Metadata(rules[i])
  {
    seq(|rules|, i requires 0 <= i < |rules| => Metadata(rules[i]))
  }

  /** `getHarmonicSuggestions`: the catalogue's metadata when the key parses, else nothing. */
  function GetHarmonicSuggestions(keyString: string): (r: seq<HarmonicSuggestion>)
    ensures ParseKey(keyString).None? <==> r == []
    ensures r != [] ==> |r| == |HarmonicRuleDefinitions|
    ensures r != [] ==> forall i :: 0 <= i < |r| ==> r[i] == Metadata(HarmonicRuleDefinitions[i])
  {
    if ParseKey(keyString).None? then []
    else
      CatalogueShape();
      Suggestions(HarmonicRuleDefinitions)
  }

  /** The suggestions do not depend on which parsable key was given. */
  lemma SuggestionsIgnoreRoot(a: string, b: string)
    requires ParseKey(a).Some? && ParseKey(b).Some?
    ensures GetHarmonicSuggestions(a) == GetHarmonicSuggestions(b)
  {
    var sa, sb := GetHarmonicSuggestions(a), GetHarmonicSuggestions(b);
    assert |sa| == |sb|;
    assert forall i :: 0 <= i < |sa| ==> sa[i] == sb[i];
  }

  /** `projectHarmonicSuggestion`: the formatted key a rule leads to from a parsable key. */
  function ProjectHarmonicSuggestion(keyString: string, ruleId: string): (r: Option<string>)
    ensures r.Some? <==> ParseKey(keyString).Some? && GetHarmonicRule(ruleId).Some?
    ensures r.Some? ==>
      r.value == FormatOpenKey(Apply(GetHarmonicRule(ruleId).value.transform, ParseKey(keyString).value))
    ensures r.Some? ==>
      ParseKey(r.value) == Some(Apply(GetHarmonicRule(ruleId).value.transform, ParseKey(keyString).value))
  {
    match ParseKey(keyString)
    case None => None
    case Some(root) =>
      match GetHarmonicRule(ruleId)
      case None => None
      case Some(rule) =>
        var projected := Apply(rule.transform, root);
        ParseFormatRoundTrip(projected);
        Some(FormatOpenKey(projected))
  }

  /** Every suggestion offered for a parsable key can be projected from that key. */
  lemma SuggestionsProject(keyString: string, i: nat)
    requires i < |GetHarmonicSuggestions(keyString)|
    ensures ProjectHarmonicSuggestion(keyString, GetHarmonicSuggestions(keyString)[i].id).Some?
  {
    GetHarmonicRuleOfCatalogue(i);
  }

  /** Whether a rule's transform takes `from` exactly to `to`. */
  predicate Hits(rule: Rule, from: OpenKey, to: OpenKey) {
    Apply(rule.transform, from) == to
  }

  /** The position of the first rule that hits, or `|rules|` when none does (`Array.prototype.find`). */
  function FirstMatch(rules: seq<Rule>, from: OpenKey, to: OpenKey): (i: nat)
    ensures i <= |rules|
    ensures i < |rules| ==> Hits(rules[i], from, to)
    ensures forall j :: 0 <= j < i ==> !Hits(rules[j], from, to)
    decreases |rules|
  {
    if rules == [] then 0
    else if Hits(rules[0], from, to) then 0
    else 1 + FirstMatch(rules[1..], from, to)
  }

  /** The first of `rules` whose transform takes `from` to `to` (`Array.prototype.find`). */
  function FindRule(rules: seq<Rule>, from: OpenKey, to: OpenKey): (r: Option<Rule>)
    ensures r.None? <==> forall j :: 0 <= j < |rules| ==> !Hits(rules[j], from, to)
    ensures r.Some? ==>
      exists i :: 0 <= i < |rules| && r.value == rules[i] && Hits(r.value, from, to)
        && forall j :: 0 <= j < i ==> !Hits(rules[j], from, to)
  {
    var i := FirstMatch(rules, from, to);
    if i < |rules| then Some(rules[i]) else None
  }

  /** The catalogue rule whose transform first takes `from` to `to`. */
  function MatchKeys(from: OpenKey, to: OpenKey): (r: Option<Rule>)
    ensures r.None? <==> forall j :: 0 <= j < |HarmonicRuleDefinitions| ==> !Hits(HarmonicRuleDefinitions[j], from, to)
    ensures r.Some? ==>
      exists i :: 0 <= i < |HarmonicRuleDefinitions| && r.value == HarmonicRuleDefinitions[i]
        && Hits(r.value, from, to)
        && forall j :: 0 <= j < i ==> !Hits(HarmonicRuleDefinitions[j], from, to)
  {
    FindRule(HarmonicRuleDefinitions, from, to)
  }

  /** `matchHarmonicRule`: the first catalogue rule that takes the first parsed key to the second. */
  function MatchHarmonicRule(fromKey: string, toKey: string): (r: Option<Rule>)
    ensures ParseKey(fromKey).None? || ParseKey(toKey).None? ==> r.None?
    ensures r.Some? ==>
      r.value in HarmonicRuleDefinitions
        && Apply(r.value.transform, ParseKey(fromKey).value) == ParseKey(toKey).value
  {
    match (ParseKey(fromKey), ParseKey(toKey))
    case (Some(from), Some(to)) => MatchKeys(from, to)
    case _ => None
  }

  /** Matching two strings is matching the keys they parse to. */
  lemma MatchHarmonicRuleOfParsed(fromKey: string, toKey: string, from: OpenKey, to: OpenKey)
    requires ParseKey(fromKey) == Some(from) && ParseKey(toKey) == Some(to)
    ensures MatchHarmonicRule(fromKey, toKey) == MatchKeys(from, to)
  {
  }

  function RuleIdOf(r: Option<Rule>): Option<string> {
    match r
    case None => None
    case Some(rule) => Some(rule.id)
  }

  /**
   * An independent statement of which rule names a move between two valid
   * keys, from the distance travelled around the wheel and the letters.
   */
  function ExpectedRuleId(from: OpenKey, to: OpenKey): Option<string> {
    var steps := (to.number - from.number) % 12;
    if from.letter == to.letter then
      if steps == 0 then Some("maintain")
      else if steps == 1 then Some("adjacent-number-uplift")
      else if steps == 11 then Some("adjacent-number-downlift")
      else if steps == 7 then Some("boost-one-semitone")
      else if steps == 2 then Some("boost-two-semitone")
      else if steps == 9 then Some("parallel-key-minor")
      else if steps == 3 then Some("parallel-key-major")
      else None
    else if steps != 0 then None
    else if to.letter == D then Some("adjacent-letter-uplift")
    else Some("adjacent-letter-downlift")
  }

  /** Two integers differ by a multiple of 12 exactly when they leave the same remainder. */
  lemma SameResidue(x: int, y: int)
    ensures (x - y) % 12 == 0 <==> x % 12 == y % 12
  {
    var qx, qy := x / 12, y / 12;
    assert x - y == 12 * (qx - qy) + (x % 12 - y % 12);
    if (x - y) % 12 == 0 {
      var m := (x - y) / 12;
      assert x % 12 - y % 12 == 12 * (m - qx + qy);
    } else {
      assert (12 * (qx - qy)) % 12 == 0;
    }
  }

  /** On valid keys, a shift hits exactly when the letters agree and the distance matches modulo 12. */
  lemma ShiftHits(from: OpenKey, to: OpenKey, delta: int)
    requires IsValidKey(from) && IsValidKey(to)
    ensures Apply(Shift(delta), from) == to
        <==> from.letter == to.letter && (to.number - from.number) % 12 == delta % 12
  {
    var k := AdjustNumber(from, delta);
    var x := k.number;
    var p := x - (from.number + delta);
    var q := to.number - from.number - delta;
    assert p % 12 == 0;
    SameResidue(to.number - from.number, delta);
    // x - to.number == p - q, where p is a multiple of 12
    if q % 12 == 0 {
      MultiplesOfTwelve(p, q);
      assert (x - to.number) % 12 == 0;
      WheelPositionUnique(x, to.number);
    }
  }

  /** When a transform takes a valid key to another, stated by wheel distance and letters. */
  predicate HitSpec(t: Transform, from: OpenKey, to: OpenKey) {
    var steps := (to.number - from.number) % 12;
    match t
    case Identity => from.letter == to.letter && steps == 0
    case Shift(delta) => from.letter == to.letter && steps == delta % 12
    case SetTo(letter) => to.letter == letter && steps == 0
  }

  lemma TransformHits(t: Transform, from: OpenKey, to: OpenKey)
    requires IsValidKey(from) && IsValidKey(to)
    ensures Apply(t, from) == to <==> HitSpec(t, from, to)
  {
    assert (to.number - from.number) % 12 == 0 <==> from.number == to.number by {
      assert -11 <= to.number - from.number <= 11;
    }
    if t.Shift? {
      ShiftHits(from, to, t.delta);
    }
  }

  /** Which rules hit, for valid keys. */
  lemma RulesHit(rules: seq<Rule>, from: OpenKey, to: OpenKey)
    requires IsValidKey(from) && IsValidKey(to)
    ensures forall i :: 0 <= i < |rules| ==> Hits(rules[i], from, to) == HitSpec(Transforms(rules)[i], from, to)
  {
    forall i | 0 <= i < |rules|
      ensures Hits(rules[i], from, to) == HitSpec(Transforms(rules)[i], from, to)
    {
      TransformHits(rules[i].transform, from, to);
    }
  }

  /** The first match is pinned down by one hit with no hit before it. */
  lemma FirstMatchAt(rules: seq<Rule>, from: OpenKey, to: OpenKey, i: nat)
    requires i <= |rules|
    requires i < |rules| ==> Hits(rules[i], from, to)
    requires forall j :: 0 <= j < i ==> !Hits(rules[j], from, to)
    ensures FirstMatch(rules, from, to) == i
  {
  }

  /** The position in the catalogue of the rule `ExpectedRuleId` names, 9 for none. */
  function ExpectedIndex(from: OpenKey, to: OpenKey): nat {
    var steps := (to.number - from.number) % 12;
    if from.letter == to.letter then
      if steps == 0 then 0 else if steps == 1 then 1 else if steps == 11 then 2
      else if steps == 7 then 5 else if steps == 2 then 6 else if steps == 9 then 7
      else if steps == 3 then 8 else 9
    else if steps != 0 then 9
    else if to.letter == D then 3
    else 4
  }

  /** Which of the catalogue's nine transforms hit, in order, by wheel distance and letters. */
  function HitVector(from: OpenKey, to: OpenKey): seq<bool> {
    var steps, same := (to.number - from.number) % 12, from.letter == to.letter;
    [same && steps == 0, same && steps == 1, same && steps == 11,
     to.letter == D && steps == 0, to.letter == M && steps == 0, same && steps == 7,
     same && steps == 2, same && steps == 9, same && steps == 3]
  }

  lemma CatalogueHitVector(from: OpenKey, to: OpenKey)
    ensures forall j :: 0 <= j < 9 ==> HitSpec(CatalogueTransformList[j], from, to) == HitVector(from, to)[j]
  {
  }

  /** `ExpectedIndex` is the first true entry of the hit vector. */
  lemma ExpectedIndexFirstHit(from: OpenKey, to: OpenKey)
    ensures var i, hit := ExpectedIndex(from, to), HitVector(from, to);
      (i < 9 ==> hit[i]) && forall j :: 0 <= j < i ==> !hit[j]
  {
  }

  /** Over rules with the catalogue's transforms, the first rule that hits is the one at `ExpectedIndex`. */
  lemma FirstMatchIsExpected(rules: seq<Rule>, from: OpenKey, to: OpenKey)
    requires IsValidKey(from) && IsValidKey(to)
    requires Transforms(rules) == CatalogueTransformList
    ensures FirstMatch(rules, from, to) == ExpectedIndex(from, to)
  {
    RulesHit(rules, from, to);
    CatalogueHitVector(from, to);
    ExpectedIndexFirstHit(from, to);
    FirstMatchAt(rules, from, to, ExpectedIndex(from, to));
  }

  /** `ExpectedRuleId` names the id at `ExpectedIndex`. */
  lemma ExpectedIdAtIndex(from: OpenKey, to: OpenKey)
    ensures var i := ExpectedIndex(from, to);
      ExpectedRuleId(from, to) == if i < 9 then Some(CatalogueIds[i]) else None
  {
  }

  /** On valid keys the first match names exactly the rule `ExpectedRuleId` predicts. */
  lemma MatchKeysClassifies(from: OpenKey, to: OpenKey)
    requires IsValidKey(from) && IsValidKey(to)
    ensures RuleIdOf(MatchKeys(from, to)) == ExpectedRuleId(from, to)
  {
    CatalogueTransforms();
    CatalogueShape();
    FirstMatchIsExpected(HarmonicRuleDefinitions, from, to);
    ExpectedIdAtIndex(from, to);
    var i := ExpectedIndex(from, to);
    assert i < 9 ==> HarmonicRuleDefinitions[i].id == Ids(HarmonicRuleDefinitions)[i];
  }

  /** A key matched against itself is always `maintain`, even though a letter rule also hits it. */
  lemma MatchSelfIsMaintain(k: OpenKey)
    requires IsValidKey(k)
    ensures MatchKeys(k, k) == Some(HarmonicRuleDefinitions[0])
    ensures Hits(HarmonicRuleDefinitions[if k.letter == D then 3 else 4], k, k)
  {
    CatalogueTransforms();
    FirstMatchIsExpected(HarmonicRuleDefinitions, k, k);
    RulesHit(HarmonicRuleDefinitions, k, k);
    if k.letter == D {
      assert HitSpec(Transforms(HarmonicRuleDefinitions)[3], k, k);
    } else {
      assert HitSpec(Transforms(HarmonicRuleDefinitions)[4], k, k);
    }
  }

  /** A move that changes both the number and the letter matches no rule. */
  lemma MatchBothChangedIsNone(from: OpenKey, to: OpenKey)
    requires IsValidKey(from) && IsValidKey(to)
    requires from.letter != to.letter && from.number != to.number
    ensures MatchKeys(from, to).None?
  {
    CatalogueTransforms();
    FirstMatchIsExpected(HarmonicRuleDefinitions, from, to);
    assert -11 <= to.number - from.number <= 11;
  }

  /** Matching strings is classification of their parsed keys. */
  lemma MatchHarmonicRuleClassifies(fromKey: string, toKey: string)
    requires ParseKey(fromKey).Some? && ParseKey(toKey).Some?
    ensures RuleIdOf(MatchHarmonicRule(fromKey, toKey))
         == ExpectedRuleId(ParseKey(fromKey).value, ParseKey(toKey).value)
  {
    MatchKeysClassifies(ParseKey(fromKey).value, ParseKey(toKey).value);
  }

  /**
   * Projecting a rule and matching the result back finds that rule or an
   * earlier one that reaches the same key.
   */
  lemma ProjectThenMatch(keyString: string, i: nat)
    requires ParseKey(keyString).Some? && i < |HarmonicRuleDefinitions|
    ensures var p := ProjectHarmonicSuggestion(keyString, HarmonicRuleDefinitions[i].id);
      && p.Some?
      && MatchHarmonicRule(keyString, p.value).Some?
      && FirstMatch(HarmonicRuleDefinitions, ParseKey(keyString).value, ParseKey(p.value).value) <= i
  {
    var rule, from := HarmonicRuleDefinitions[i], ParseKey(keyString).value;
    GetHarmonicRuleOfCatalogue(i);
    var p := ProjectHarmonicSuggestion(keyString, rule.id);
    var to := Apply(rule.transform, from);
    assert ParseKey(p.value) == Some(to);
    assert Hits(HarmonicRuleDefinitions[i], from, to);
    MatchHarmonicRuleOfParsed(keyString, p.value, from, to);
  }

  datatype EnergyLevel = SmoothEnergy | ImpactEnergy | TensionEnergy

  /** `suggestionEnergy` (app/routes/mix.tsx): tension mood first, then the rule type. */
  function SuggestionEnergy(s: HarmonicSuggestion): (e: EnergyLevel)
    ensures e == TensionEnergy <==> s.mood == Tension
    ensures e == ImpactEnergy <==> s.mood != Tension && s.ruleType == Impact
  {
    if s.mood == Tension then TensionEnergy
    else if s.ruleType == Impact then ImpactEnergy
    else SmoothEnergy
  }

  /** The energy badge of every catalogue rule, in order. */
  lemma CatalogueEnergies()
    ensures seq(9, i requires 0 <= i < 9 => SuggestionEnergy(Metadata(HarmonicRuleDefinitions[i]))) == [
      SmoothEnergy, TensionEnergy, SmoothEnergy, SmoothEnergy, SmoothEnergy,
      TensionEnergy, TensionEnergy, ImpactEnergy, ImpactEnergy]
  {
  }
}
