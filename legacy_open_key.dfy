/**
 * The legacy key parser (src/core/openKey.ts): the same `isOpenKey` guard as the
 * app, and a strict `openKeyFromString` that takes digits and a lower-case `d` or
 * `m` and nothing else, without trimming and without Camelot aliases.
 */
module LegacyOpenKey {
  import opened Wrappers
  import opened JsRuntime
  import opened OpenKeys

  /** `/^(\d+)([dm])$/` */
  predicate MatchesStrictPattern(s: string) {
    && |s| >= 2
    && AllDigits(s[..|s| - 1])
    && (s[|s| - 1] == 'd' || s[|s| - 1] == 'm')
  }

  /** The strict `openKeyFromString`. */
  function ParseStrict(keyString: string): (r: Option<OpenKey>)
    ensures r.Some? ==> IsValidKey(r.value) && IsOpenKey(ToValue(r.value))
    ensures keyString == "" || |keyString| > 3 ==> r == None
    ensures r.Some? <==>
      && 0 < |keyString| <= 3
      && MatchesStrictPattern(keyString)
      && 1 <= ParseDigits(keyString[..|keyString| - 1]) <= 12
  {
    if keyString == "" || |keyString| > 3 then None
    else if !MatchesStrictPattern(keyString) then None
    else
      var number := ParseDigits(keyString[..|keyString| - 1]);
      if number < 1 || number > 12 then None
      else
        var key := OpenKey(if keyString[|keyString| - 1] == 'd' then D else M, number);
        IsOpenKeyOfKey(key);
        if !IsOpenKey(ToValue(key)) then None else Some(key)
  }

  /** The strict parser applied to a value of unknown type: anything but a string gives none. */
  function ParseStrictValue(v: Value): (r: Option<OpenKey>)
    ensures !v.Str? ==> r == None
    ensures v.Str? ==> r == ParseStrict(v.s)
  {
    match v
    case Str(s) => ParseStrict(s)
    case _ => None
  }

  /** Digits with value 1..12 and a lower-case `d` or `m` parse to that key. */
  lemma ParseStrictDigits(ds: string, c: char, n: int)
    requires 1 <= |ds| <= 2 && AllDigits(ds) && ParseDigits(ds) == n && 1 <= n <= 12
    requires c == 'd' || c == 'm'
    ensures ParseStrict(ds + [c]) == Some(OpenKey(if c == 'd' then D else M, n))
  {
    var s := ds + [c];
    assert s[..|s| - 1] == ds;
  }

  /** The strict parser reads back every formatted valid key. */
  lemma ParseStrictFormat(k: OpenKey)
    requires IsValidKey(k)
    ensures ParseStrict(FormatOpenKey(k)) == Some(k)
  {
    ParseNatToString(k.number);
    assert FormatOpenKey(k) == NatToString(k.number) + [LetterText(k.letter)[0]];
    ParseStrictDigits(NatToString(k.number), LetterText(k.letter)[0], k.number);
  }

  /** Whatever the strict parser accepts, the app's parser accepts with the same result. */
  lemma StrictRefinesApp(s: string)
    requires ParseStrict(s).Some?
    ensures ParseKey(s) == ParseStrict(s)
  {
    var ds, c := s[..|s| - 1], s[|s| - 1];
    assert s == ds + [c];
    ParseDigitsLetter(ds, c, ParseDigits(ds));
  }

  /** A leading blank, which the app's parser trims away, is refused here. */
  lemma StrictRefusesBlank(k: OpenKey)
    requires IsValidKey(k) && k.number < 10
    ensures ParseKey(" " + FormatOpenKey(k)) == Some(k) && ParseStrict(" " + FormatOpenKey(k)) == None
  {
    ParseLeadingBlank(k);
    var s := " " + FormatOpenKey(k);
    assert !MatchesStrictPattern(s) by {
      assert s[..|s| - 1][0] == ' ' && !IsDigit(' ');
    }
  }

  /** Camelot letters and upper case, which the app's parser reads, are refused here. */
  lemma StrictRefusesAliases(n: int, c: char)
    requires 1 <= n <= 12 && (c == 'a' || c == 'b' || c == 'A' || c == 'B' || c == 'D' || c == 'M')
    ensures ParseKey(NatToString(n) + [c]) == Some(OpenKey(if c == 'a' || c == 'A' || c == 'M' then M else D, n))
    ensures ParseStrict(NatToString(n) + [c]) == None
  {
    ParseAliases(n, c);
  }

  /** `openKeyFromString("1d")`, `("12m")` and `("6d")` give the expected keys. */
  lemma ParseStrictAccepts()
    ensures ParseStrict("1d") == Some(OpenKey(D, 1))
    ensures ParseStrict("12m") == Some(OpenKey(M, 12))
    ensures ParseStrict("6d") == Some(OpenKey(D, 6))
  {
    assert ParseDigits("1") == 1 by { assert "1"[..0] == ""; }
    ParseStrictDigits("1", 'd', 1);
    assert "1" + ['d'] == "1d";
    assert ParseDigits("12") == 12 by { assert "12"[..1] == "1"; assert "1"[..0] == ""; }
    ParseStrictDigits("12", 'm', 12);
    assert "12" + ['m'] == "12m";
    assert ParseDigits("6") == 6 by { assert "6"[..0] == ""; }
    ParseStrictDigits("6", 'd', 6);
    assert "6" + ['d'] == "6d";
  }

  /** The empty string, a bare letter, a bare digit and a letter before the digit are refused. */
  lemma ParseStrictRefusesShapes()
    ensures ParseStrict("") == None && ParseStrict("d") == None && ParseStrict("1") == None
    ensures ParseStrict("d1") == None
  {
    assert "d1"[..1] == "d";
  }

  /** "13d", "0d" and the Camelot letter of "1a" are refused. */
  lemma ParseStrictRefusesValues()
    ensures ParseStrict("13d") == None && ParseStrict("0d") == None && ParseStrict("1a") == None
  {
    assert "13d"[..2] == "13" && "13"[..1] == "1" && "1"[..0] == "";
    assert "0d"[..1] == "0" && "0"[..0] == "";
  }

  /** `null`, `undefined`, a number and an object are not strings, so they give none. */
  lemma ParseStrictRefusesNonStrings()
    ensures ParseStrictValue(Null) == None && ParseStrictValue(Undefined) == None
    ensures ParseStrictValue(Num(1)) == None && ParseStrictValue(Obj(map[])) == None
  {
  }

  /** `isOpenKey` on the objects of the legacy tests: valid letters and numbers only. */
  lemma IsOpenKeyAccepts()
    ensures IsOpenKey(ToValue(OpenKey(D, 1))) && IsOpenKey(ToValue(OpenKey(M, 12))) && IsOpenKey(ToValue(OpenKey(D, 6)))
    ensures !IsOpenKey(ToValue(OpenKey(D, 0))) && !IsOpenKey(ToValue(OpenKey(D, 13))) && !IsOpenKey(ToValue(OpenKey(D, -1)))
  {
    IsOpenKeyOfKey(OpenKey(D, 1));
    IsOpenKeyOfKey(OpenKey(M, 12));
    IsOpenKeyOfKey(OpenKey(D, 6));
    IsOpenKeyOfKey(OpenKey(D, 0));
    IsOpenKeyOfKey(OpenKey(D, 13));
    IsOpenKeyOfKey(OpenKey(D, -1));
  }

  /** `isOpenKey` refuses any letter other than "d" and "m", including "a", "D" and "M". */
  lemma IsOpenKeyRefusesLetters(letter: string, number: int)
    requires letter != "d" && letter != "m"
    ensures !IsOpenKey(Obj(map["letter" := Str(letter), "number" := Num(number)]))
  {
  }

  /** `isOpenKey` refuses non-objects and objects missing a property. */
  lemma IsOpenKeyRefusesShapes(letter: Value, number: Value)
    ensures !IsOpenKey(Null) && !IsOpenKey(Undefined) && !IsOpenKey(Str("1d")) && !IsOpenKey(Num(1))
    ensures !IsOpenKey(Obj(map["letter" := letter])) && !IsOpenKey(Obj(map["number" := number]))
    ensures !IsOpenKey(Obj(map[]))
  {
  }
}
