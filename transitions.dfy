/**
 * The harmonic rule catalogue (app/core/transitions.ts): nine fixed transforms
 * over Open-Key values, each built from a 1-based modular shift of the number
 * or a replacement of the letter, and a lookup by rule id.
 */
module Transitions {
  import opened Wrappers
  import opened JsRuntime
  import opened OpenKeys

  datatype RuleType = Smooth | Impact

  datatype Mood = Neutral | Tension | Moodier | Happier

  /**
   * A rule's transform, as data: the source's arrow functions are all a copy of
   * the key, `adjustNumber(key, delta)` or `setLetter(key, letter)`.
   */
  datatype Transform = Identity | Shift(delta: int) | SetTo(letter: Letter)

  /** `HarmonicRuleDefinition` */
  datatype Rule = Rule(
    id: string,
    name: string,
    shortLabel: string,
    ruleType: RuleType,
    mood: Mood,
    description: string,
    transform: Transform)

  /** Two integers in 1..12 that are congruent modulo 12 are equal. */
  lemma WheelPositionUnique(x: int, y: int)
    requires 1 <= x <= 12 && 1 <= y <= 12 && (x - y) % 12 == 0
    ensures x == y
  {
    assert -11 <= x - y <= 11;
  }

  /** Multiples of 12 are closed under sums and differences. */
  lemma MultiplesOfTwelve(p: int, q: int)
    requires p % 12 == 0 && q % 12 == 0
    ensures (p + q) % 12 == 0 && (p - q) % 12 == 0
  {
    assert p == 12 * (p / 12) && q == 12 * (q / 12);
    assert p + q == 12 * (p / 12 + q / 12);
    assert p - q == 12 * (p / 12 - q / 12);
  }

  /** `wrapNumber`: 1-based modular arithmetic over 12 with JavaScript's truncating `%`. */
  function WrapNumber(value: int): (r: int)
    ensures 1 <= r <= 12
    ensures (r - value) % 12 == 0
    ensures 1 <= value <= 12 ==> r == value
  {
    var normalized := JsRem12(JsRem12(value - 1) + 12);
    var r := normalized + 1;
    if 1 <= value <= 12 then WheelPositionUnique(r, value); r else r
  }

  /** Within one turn of the wheel either side, wrapping adds or removes at most one turn. */
  lemma WrapSmall(value: int)
    requires -11 <= value <= 24
    ensures WrapNumber(value) == if value < 1 then value + 12 else if value > 12 then value - 12 else value
  {
    JsRem12Small(if value >= 1 then value - 1 else value + 11);
  }

  /** `adjustNumber`: shift the number by `delta` around the wheel, keeping the letter. */
  function AdjustNumber(key: OpenKey, delta: int): (r: OpenKey)
    ensures r.letter == key.letter
    ensures IsValidKey(r)
    ensures (r.number - (key.number + delta)) % 12 == 0
  {
    key.(number := WrapNumber(key.number + delta))
  }

  /** `setLetter`: replace the letter, keeping the number. */
  function SetLetter(key: OpenKey, letter: Letter): (r: OpenKey)
    ensures r.number == key.number && r.letter == letter
  {
    key.(letter := letter)
  }

  function Apply(t: Transform, key: OpenKey): (r: OpenKey)
    ensures IsValidKey(key) ==> IsValidKey(r)
    ensures t.Shift? ==> IsValidKey(r)
  {
    match t
    case Identity => key
    case Shift(delta) => AdjustNumber(key, delta)
    case SetTo(letter) => SetLetter(key, letter)
  }

  /** `harmonicRuleDefinitions`, in declared order. */
  const HarmonicRuleDefinitions: seq<Rule> := [
    Rule("maintain", "Maintain", "same key", Smooth, Neutral,
      "Identical keys (e.g., 8m → 8m) keep the blend seamless and neutral.", Identity),
    Rule("adjacent-number-uplift", "Adjacent Number Uplift", "+1", Smooth, Tension,
      "Move one number up (e.g., 8m → 9m) to add drive and tension.", Shift(1)),
    Rule("adjacent-number-downlift", "Adjacent Number Downlift", "-1", Smooth, Moodier,
      "Move one number down (e.g., 8m → 7m) for a softer, moodier feel.", Shift(-1)),
    Rule("adjacent-letter-uplift", "Adjacent Letter Uplift", "m → d", Smooth, Happier,
      "Switch minor to relative major (e.g., 8m → 8d) to brighten.", SetTo(D)),
    Rule("adjacent-letter-downlift", "Adjacent Letter Downlift", "d → m", Smooth, Moodier,
      "Switch major to relative minor (e.g., 8d → 8m) to add depth.", SetTo(M)),
    Rule("boost-one-semitone", "Boost One Semitone", "+7", Impact, Tension,
      "Jump a semitone (e.g., 8m → 3m) for dramatic, dissonant tension.", Shift(7)),
    Rule("boost-two-semitone", "Boost Two Semitone", "+2", Impact, Tension,
      "Go up two semitones (e.g., 8m → 10m) for an intense energy spike.", Shift(2)),
    Rule("parallel-key-minor", "Parallel Key Minor", "-3", Impact, Moodier,
      "Subtract three numbers (e.g., 8d → 5d) to keep majors but darken the tone.", Shift(-3)),
    Rule("parallel-key-major", "Parallel Key Major", "+3", Impact, Happier,
      "Add three numbers (e.g., 8m → 11m) to keep minors but lift the mood.", Shift(3))
  ]

  function Ids(rules: seq<Rule>): (ids: seq<string>)
    ensures |ids| == |rules|
    ensures forall i :: 0 <= i < |rules| ==> ids[i] == rules[i].id
  {
    seq(|rules|, i requires 0 <= i < |rules| => rules[i].id)
  }

  predicate DistinctIds(rules: seq<Rule>) {
    forall i, j :: 0 <= i < j < |rules| ==> rules[i].id != rules[j].id
  }

  /** The catalogue holds nine rules with distinct ids, in this order; `maintain` leaves every key alone. */
  /** The rule ids in catalogue order (the `HarmonicRule` union type). */
  const CatalogueIds: seq<string> := [
    "maintain", "adjacent-number-uplift", "adjacent-number-downlift",
    "adjacent-letter-uplift", "adjacent-letter-downlift", "boost-one-semitone",
    "boost-two-semitone", "parallel-key-minor", "parallel-key-major"]

  /** The transforms in catalogue order. */
  const CatalogueTransformList: seq<Transform> := [
    Identity, Shift(1), Shift(-1), SetTo(D), SetTo(M), Shift(7), Shift(2), Shift(-3), Shift(3)]

  lemma CatalogueShape()
    ensures |HarmonicRuleDefinitions| == 9
    ensures Ids(HarmonicRuleDefinitions) == CatalogueIds
    ensures forall k :: Apply(HarmonicRuleDefinitions[0].transform, k) == k
  {
  }

  lemma CatalogueIdsDistinct()
    ensures DistinctIds(HarmonicRuleDefinitions)
  {
    var r := HarmonicRuleDefinitions;
    assert |r[0].id| == 8 && |r[1].id| == |r[3].id| == 22 && |r[2].id| == |r[4].id| == 24;
    assert |r[5].id| == |r[6].id| == |r[7].id| == |r[8].id| == 18;
    // ids of equal length differ at a known position
    assert r[1].id[9] != r[3].id[9] && r[2].id[9] != r[4].id[9];
    assert r[5].id[6] != r[6].id[6] && r[5].id[0] != r[7].id[0] && r[5].id[0] != r[8].id[0];
    assert r[6].id[0] != r[7].id[0] && r[6].id[0] != r[8].id[0] && r[7].id[14] != r[8].id[14];
  }

  /**
   * `ruleMap`: the catalogue folded into a record keyed by id, a later rule
   * overwriting an earlier one with the same id.
   */
  function BuildRuleMap(rules: seq<Rule>): (m: map<string, Rule>)
    ensures forall x :: x in m <==> x in Ids(rules)
    ensures forall x :: x in m ==> m[x] in rules && m[x].id == x
    decreases |rules|
  {
    if rules == [] then map[]
    else
      var init := rules[..|rules| - 1];
      var last := rules[|rules| - 1];
      assert Ids(rules) == Ids(init) + [last.id];
      assert forall r :: r in init ==> r in rules;
      BuildRuleMap(init)[last.id := last]
  }

  /** With distinct ids, the fold indexes every rule under its own id. */
  lemma {:induction false} BuildRuleMapIndexes(rules: seq<Rule>)
    requires DistinctIds(rules)
    ensures forall i :: 0 <= i < |rules| ==> BuildRuleMap(rules)[rules[i].id] == rules[i]
    decreases |rules|
  {
    if rules != [] {
      var init, last := rules[..|rules| - 1], rules[|rules| - 1];
      assert DistinctIds(init);
      BuildRuleMapIndexes(init);
      assert Ids(rules) == Ids(init) + [last.id];
      forall i | 0 <= i < |rules|
        ensures BuildRuleMap(rules)[rules[i].id] == rules[i]
      {
        if i < |init| {
          assert rules[i] == init[i] && rules[i].id != last.id;
        }
      }
    }
  }

  const RuleMap: map<string, Rule> := BuildRuleMap(HarmonicRuleDefinitions)

  /** `getHarmonicRule`: the catalogue rule with this id, if there is one. */
  function GetHarmonicRule(id: string): (r: Option<Rule>)
    ensures r.Some? <==> id in Ids(HarmonicRuleDefinitions)
    ensures r.Some? ==> r.value.id == id && r.value in HarmonicRuleDefinitions
  {
    if id in RuleMap then
      Some(RuleMap[id])
    else None
  }

  /** Looking up any catalogue rule by its id gives that rule back. */
  lemma GetHarmonicRuleOfCatalogue(i: nat)
    requires i < |HarmonicRuleDefinitions|
    ensures GetHarmonicRule(HarmonicRuleDefinitions[i].id) == Some(HarmonicRuleDefinitions[i])
  {
    CatalogueIdsDistinct();
    BuildRuleMapIndexes(HarmonicRuleDefinitions);
  }

  /** The change a transform makes to the number, when it changes only the number. */
  function NumberDelta(t: Transform): Option<int> {
    match t
    case Identity => Some(0)
    case Shift(delta) => Some(delta)
    case SetTo(_) => None
  }

  /** The transforms of the catalogue, in order. */
  function Transforms(rules: seq<Rule>): (ts: seq<Transform>)
    ensures |ts| == |rules|
    ensures forall i :: 0 <= i < |rules| ==> ts[i] == rules[i].transform
  {
    seq(|rules|, i requires 0 <= i < |rules| => rules[i].transform)
  }

  lemma CatalogueTransforms()
    ensures Transforms(HarmonicRuleDefinitions) == CatalogueTransformList
  {
  }

  /** On a valid key, shifting by `a` and by `b` give the same key exactly when `a` and `b` agree modulo 12. */
  lemma ShiftsAgree(k: OpenKey, a: int, b: int)
    requires IsValidKey(k)
    ensures Apply(Shift(a), k) == Apply(Shift(b), k) <==> (a - b) % 12 == 0
  {
    var x, y := AdjustNumber(k, a).number, AdjustNumber(k, b).number;
    var p, q := x - (k.number + a), y - (k.number + b);
    if (a - b) % 12 == 0 {
      MultiplesOfTwelve(p, q);
      MultiplesOfTwelve(p - q, a - b);
      assert x - y == (p - q) + (a - b);
      WheelPositionUnique(x, y);
    } else if x == y {
      assert a - b == q - p;
      MultiplesOfTwelve(q, p);
    }
  }

  /** The catalogue's transforms read off by position. */
  lemma CatalogueTransformAt(i: nat)
    requires i < |HarmonicRuleDefinitions|
    ensures HarmonicRuleDefinitions[i].transform == CatalogueTransformList[i]
  {
    CatalogueTransforms();
    assert HarmonicRuleDefinitions[i].transform == Transforms(HarmonicRuleDefinitions)[i];
  }

  /** Among the transforms that only move the number, the amounts differ pairwise modulo 12. */
  lemma TransformDeltasDistinct(i: nat, j: nat)
    requires i < j < |CatalogueTransformList|
    requires NumberDelta(CatalogueTransformList[i]).Some? && NumberDelta(CatalogueTransformList[j]).Some?
    ensures (NumberDelta(CatalogueTransformList[i]).value - NumberDelta(CatalogueTransformList[j]).value) % 12 != 0
  {
  }

  /** The rules that only move the number do so by pairwise different amounts modulo 12. */
  lemma NumberDeltasDistinct(i: nat, j: nat)
    requires i < j < |HarmonicRuleDefinitions|
    requires NumberDelta(HarmonicRuleDefinitions[i].transform).Some?
    requires NumberDelta(HarmonicRuleDefinitions[j].transform).Some?
    ensures (NumberDelta(HarmonicRuleDefinitions[i].transform).value
           - NumberDelta(HarmonicRuleDefinitions[j].transform).value) % 12 != 0
  {
    CatalogueTransformAt(i);
    CatalogueTransformAt(j);
    TransformDeltasDistinct(i, j);
  }

  /** Two transforms that move only the number, by amounts that differ modulo 12, never agree on a valid key. */
  lemma DeltaTransformsDiffer(ti: Transform, tj: Transform, k: OpenKey)
    requires IsValidKey(k)
    requires NumberDelta(ti).Some? && NumberDelta(tj).Some?
    requires (NumberDelta(ti).value - NumberDelta(tj).value) % 12 != 0
    ensures Apply(ti, k) != Apply(tj, k)
  {
    var a, b := NumberDelta(ti).value, NumberDelta(tj).value;
    assert Apply(ti, k) == Apply(Shift(a), k);
    assert Apply(tj, k) == Apply(Shift(b), k);
    ShiftsAgree(k, a, b);
  }

  /** Hence no two of them take a valid key to the same key. */
  lemma NumberRulesDistinctTargets(k: OpenKey, i: nat, j: nat)
    requires IsValidKey(k)
    requires i < j < |HarmonicRuleDefinitions|
    requires NumberDelta(HarmonicRuleDefinitions[i].transform).Some?
    requires NumberDelta(HarmonicRuleDefinitions[j].transform).Some?
    ensures Apply(HarmonicRuleDefinitions[i].transform, k) != Apply(HarmonicRuleDefinitions[j].transform, k)
  {
    NumberDeltasDistinct(i, j);
    DeltaTransformsDiffer(HarmonicRuleDefinitions[i].transform, HarmonicRuleDefinitions[j].transform, k);
  }

  /** Shifting by `a` and then by `b` with `a + b` a multiple of 12 restores a valid key. */
  lemma ShiftInverse(k: OpenKey, a: int, b: int)
    requires IsValidKey(k) && (a + b) % 12 == 0
    ensures Apply(Shift(b), Apply(Shift(a), k)) == k
  {
    var k1 := AdjustNumber(k, a);
    var k2 := AdjustNumber(k1, b);
    var p, q := k1.number - (k.number + a), k2.number - (k1.number + b);
    MultiplesOfTwelve(p, q);
    MultiplesOfTwelve(p + q, a + b);
    assert k2.number - k.number == (p + q) + (a + b);
    WheelPositionUnique(k2.number, k.number);
  }

  /** Number uplift and downlift undo each other, and so do the two parallel-key rules. */
  lemma InverseRules(k: OpenKey)
    requires IsValidKey(k)
    ensures Apply(HarmonicRuleDefinitions[2].transform, Apply(HarmonicRuleDefinitions[1].transform, k)) == k
    ensures Apply(HarmonicRuleDefinitions[1].transform, Apply(HarmonicRuleDefinitions[2].transform, k)) == k
    ensures Apply(HarmonicRuleDefinitions[8].transform, Apply(HarmonicRuleDefinitions[7].transform, k)) == k
    ensures Apply(HarmonicRuleDefinitions[7].transform, Apply(HarmonicRuleDefinitions[8].transform, k)) == k
  {
    CatalogueTransforms();
    assert HarmonicRuleDefinitions[1].transform == Shift(1);
    assert HarmonicRuleDefinitions[2].transform == Shift(-1);
    assert HarmonicRuleDefinitions[7].transform == Shift(-3);
    assert HarmonicRuleDefinitions[8].transform == Shift(3);
    ShiftInverse(k, 1, -1);
    ShiftInverse(k, -1, 1);
    ShiftInverse(k, -3, 3);
    ShiftInverse(k, 3, -3);
  }

  /** The two letter rules set the letter to d and to m, keep the number, and are idempotent. */
  lemma LetterRules(k: OpenKey)
    ensures Apply(HarmonicRuleDefinitions[3].transform, k) == OpenKey(D, k.number)
    ensures Apply(HarmonicRuleDefinitions[4].transform, k) == OpenKey(M, k.number)
    ensures Apply(HarmonicRuleDefinitions[3].transform, Apply(HarmonicRuleDefinitions[3].transform, k))
         == Apply(HarmonicRuleDefinitions[3].transform, k)
    ensures Apply(HarmonicRuleDefinitions[4].transform, Apply(HarmonicRuleDefinitions[4].transform, k))
         == Apply(HarmonicRuleDefinitions[4].transform, k)
  {
  }
}
