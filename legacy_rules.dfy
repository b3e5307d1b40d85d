/**
 * The legacy seven-rule switch (src/core/rules.ts): each rule maps a root key
 * to the next one with a 1-based wrap `((n + c) % 12) + 1`.
 */
module LegacyRules {
  import opened JsRuntime
  import opened OpenKeys
  import opened Transitions

  /** `HarmonicMixRule` of src/core/rules.ts */
  datatype LegacyRule =
    | Maintain
    | AdjacentUplift
    | AdjacentDownlift
    | BoostOneSemitone
    | BoostTwoSemitone
    | ParallelKeyMinor
    | ParallelKeyMajor

  /** `nextRootKey(rule)(rootKey)`, with JavaScript's truncating `%`. */
  function NextRootKey(rule: LegacyRule, rootKey: OpenKey): (r: OpenKey)
    ensures IsValidKey(rootKey) ==> IsValidKey(r)
  {
    match rule
    case Maintain => rootKey
    case AdjacentUplift => rootKey.(number := JsRem12(rootKey.number) + 1)
    case AdjacentDownlift => OpenKey(if rootKey.letter == D then M else D, rootKey.number)
    case BoostOneSemitone => rootKey.(number := JsRem12(rootKey.number + 6) + 1)
    case BoostTwoSemitone => rootKey.(number := JsRem12(rootKey.number + 1) + 1)
    case ParallelKeyMinor => OpenKey(M, JsRem12(rootKey.number - 4 + 12) + 1)
    case ParallelKeyMajor => OpenKey(D, JsRem12(rootKey.number + 3) + 1)
  }

  /** `maintain` copies the key. */
  lemma MaintainIsIdentity(k: OpenKey)
    ensures NextRootKey(Maintain, k) == k
  {
  }

  /** `adjacent-uplift` steps one position up the wheel, from 12 back to 1, and keeps the letter. */
  lemma UpliftSteps(k: OpenKey)
    requires IsValidKey(k)
    ensures NextRootKey(AdjacentUplift, k) == OpenKey(k.letter, if k.number == 12 then 1 else k.number + 1)
  {
  }

  /** `adjacent-downlift` flips the letter and keeps the number; twice, it is the identity. */
  lemma DownliftFlips(k: OpenKey)
    ensures NextRootKey(AdjacentDownlift, k).letter != k.letter
    ensures NextRootKey(AdjacentDownlift, k).number == k.number
    ensures NextRootKey(AdjacentDownlift, NextRootKey(AdjacentDownlift, k)) == k
  {
  }

  /** `adjacent-uplift` is the app's wheel step by +1. */
  lemma UpliftMatchesApp(k: OpenKey)
    requires IsValidKey(k)
    ensures NextRootKey(AdjacentUplift, k) == Apply(Shift(1), k)
  {
    WrapStepMatches(k.number, 0, 1);
  }

  /** `boost-one-semitone` is the app's wheel step by +7. */
  lemma BoostOneMatchesApp(k: OpenKey)
    requires IsValidKey(k)
    ensures NextRootKey(BoostOneSemitone, k) == Apply(Shift(7), k)
  {
    WrapStepMatches(k.number, 6, 7);
  }

  /** `boost-two-semitone` is the app's wheel step by +2. */
  lemma BoostTwoMatchesApp(k: OpenKey)
    requires IsValidKey(k)
    ensures NextRootKey(BoostTwoSemitone, k) == Apply(Shift(2), k)
  {
    WrapStepMatches(k.number, 1, 2);
  }

  /** The legacy wrap `((n + c) % 12) + 1` is the app's wheel step by `d`, one more than `c`. */
  lemma WrapStepMatches(n: int, c: int, d: int)
    requires 1 <= n <= 12 && 0 <= c <= 10 && d == c + 1
    ensures JsRem12(n + c) + 1 == WrapNumber(n + d)
  {
    JsRem12Small(n + c);
    WrapSmall(n + d);
  }

  /** `parallel-key-minor` sets the letter to m and steps three positions down. */
  lemma ParallelMinorSteps(k: OpenKey)
    requires IsValidKey(k)
    ensures NextRootKey(ParallelKeyMinor, k) == OpenKey(M, Apply(Shift(-3), k).number)
  {
    JsRem12Small(k.number - 4 + 12);
    WrapSmall(k.number + -3);
  }

  /** `parallel-key-major` sets the letter to d and steps four positions up, not three. */
  lemma ParallelMajorSteps(k: OpenKey)
    requires IsValidKey(k)
    ensures NextRootKey(ParallelKeyMajor, k) == OpenKey(D, Apply(Shift(4), k).number)
    ensures NextRootKey(ParallelKeyMajor, k).number != Apply(Shift(3), k).number
  {
    JsRem12Small(k.number + 3);
    WrapSmall(k.number + 4);
    WrapSmall(k.number + 3);
  }

  /** As written, `parallel-key-major` does not undo `parallel-key-minor`: 1d goes to 10m and then to 2d. */
  lemma ParallelRoundTripAsWritten()
    ensures NextRootKey(ParallelKeyMinor, OpenKey(D, 1)) == OpenKey(M, 10)
    ensures NextRootKey(ParallelKeyMajor, NextRootKey(ParallelKeyMinor, OpenKey(D, 1))) == OpenKey(D, 2)
  {
  }

  /** `parallel-key-major` with the evidently intended `((n + 2) % 12) + 1`, three positions up. */
  function IntendedParallelMajor(rootKey: OpenKey): (r: OpenKey)
    ensures IsValidKey(rootKey) ==> IsValidKey(r)
  {
    OpenKey(D, JsRem12(rootKey.number + 2) + 1)
  }

  /** Two 1-based wraps whose offsets add up to a full turn return to the start. */
  lemma WrapsReturn(n: int, a: int, b: int)
    requires 1 <= n <= 12 && 0 <= a && 0 <= b && a + b == 10
    ensures JsRem12(JsRem12(n + a) + 1 + b) + 1 == n
  {
    JsRem12Small(n + a);
    JsRem12Small(JsRem12(n + a) + 1 + b);
  }

  /** The intended rule undoes `parallel-key-minor` on every major key. */
  lemma IntendedMajorUndoesMinor(n: int)
    requires 1 <= n <= 12
    ensures IntendedParallelMajor(NextRootKey(ParallelKeyMinor, OpenKey(D, n))) == OpenKey(D, n)
  {
    assert NextRootKey(ParallelKeyMinor, OpenKey(D, n)).number == JsRem12(n + 8) + 1;
    WrapsReturn(n, 8, 2);
  }

  /** `parallel-key-minor` undoes the intended rule on every minor key. */
  lemma MinorUndoesIntendedMajor(n: int)
    requires 1 <= n <= 12
    ensures NextRootKey(ParallelKeyMinor, IntendedParallelMajor(OpenKey(M, n))) == OpenKey(M, n)
  {
    var j := IntendedParallelMajor(OpenKey(M, n)).number;
    assert j == JsRem12(n + 2) + 1;
    assert NextRootKey(ParallelKeyMinor, OpenKey(D, j)).number == JsRem12(j + 8) + 1;
    WrapsReturn(n, 2, 8);
  }
}
