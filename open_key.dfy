/**
 * The Open-Key value type and its string codec (app/core/openKey.ts): a key is a
 * number on the 12-position wheel and a letter, `d` for major and `m` for minor.
 */
module OpenKeys {
  import opened Wrappers
  import opened JsRuntime

  datatype Letter = D | M

  /** `{ letter, number }`; the number is any integer, a valid key has it in 1..12. */
  datatype OpenKey = OpenKey(letter: Letter, number: int)

  predicate IsValidKey(k: OpenKey) {
    1 <= k.number <= 12
  }

  function LetterText(l: Letter): (s: string)
    ensures |s| == 1 && !IsWhitespace(s[0]) && !IsDigit(s[0])
  {
    match l
    case D => "d"
    case M => "m"
  }

  /** The plain object `{ letter, number }` a key is at run time. */
  function ToValue(k: OpenKey): Value {
    Obj(map["letter" := Str(LetterText(k.letter)), "number" := Num(k.number)])
  }

  /**
   * `isOpenKey`: a truthy object with a `letter` that is "d" or "m" and a numeric
   * `number` in 1..12. An array is an object too, but has neither property.
   */
  predicate IsOpenKey(v: Value) {
    && Truthy(v)
    && v.Obj?
    && "letter" in v.fields
    && "number" in v.fields
    && (v.fields["letter"] == Str("d") || v.fields["letter"] == Str("m"))
    && v.fields["number"].Num?
    && 1 <= v.fields["number"].n <= 12
  }

  /** The key an object accepted by `IsOpenKey` stands for. */
  function KeyOf(v: Value): (k: OpenKey)
    requires IsOpenKey(v)
    ensures IsValidKey(k)
    ensures ToValue(k).fields["letter"] == v.fields["letter"]
    ensures ToValue(k).fields["number"] == v.fields["number"]
  {
    OpenKey(if v.fields["letter"] == Str("d") then D else M, v.fields["number"].n)
  }

  lemma IsOpenKeyOfKey(k: OpenKey)
    ensures IsOpenKey(ToValue(k)) <==> IsValidKey(k)
    ensures IsValidKey(k) ==> KeyOf(ToValue(k)) == k
  {
  }

  /** `letterMap`: Camelot's `a`/`b` are accepted as aliases of `m`/`d`. */
  function LetterMap(c: char): (r: Option<Letter>)
    ensures r == Some(M) <==> c == 'a' || c == 'm'
    ensures r == Some(D) <==> c == 'b' || c == 'd'
  {
    match c
    case 'a' => Some(M)
    case 'm' => Some(M)
    case 'b' => Some(D)
    case 'd' => Some(D)
    case _ => None
  }

  predicate IsKeyLetterChar(c: char) {
    c == 'a' || c == 'b' || c == 'd' || c == 'm' || c == 'A' || c == 'B' || c == 'D' || c == 'M'
  }

  /** `/^(\d{1,2})([abdmABDM])$/` */
  predicate MatchesKeyPattern(t: string) {
    && 2 <= |t| <= 3
    && AllDigits(t[..|t| - 1])
    && IsKeyLetterChar(t[|t| - 1])
  }

  /**
   * `openKeyFromString`: at most 3 characters before trimming, then one or two
   * digits and a letter in either case.
   */
  function ParseKey(keyString: string): (r: Option<OpenKey>)
    ensures r.Some? ==> IsValidKey(r.value)
    ensures keyString == "" ==> r == None
    ensures |keyString| > 3 ==> r == None
    ensures r.Some? ==> MatchesKeyPattern(Trim(keyString))
  {
    if keyString == "" || |keyString| > 3 then None else ParseTrimmed(Trim(keyString))
  }

  /** The part of `openKeyFromString` after trimming: the pattern match and the range checks. */
  function ParseTrimmed(trimmed: string): (r: Option<OpenKey>)
    ensures r.Some? ==> IsValidKey(r.value) && MatchesKeyPattern(trimmed)
  {
    if !MatchesKeyPattern(trimmed) then None
    else
      var number := ParseDigits(trimmed[..|trimmed| - 1]);
      if number < 1 || number > 12 then None
      else
        match LetterMap(LowerChar(trimmed[|trimmed| - 1]))
        case None => None
        case Some(letter) =>
          var key := OpenKey(letter, number);
          // the final `isOpenKey(key)` guard; on a freshly built object it is `IsValidKey` (IsOpenKeyOfKey)
          if !IsValidKey(key) then None else Some(key)
  }

  /** One or two digits with value `n` in 1..12 and a key letter parse to that number. */
  lemma ParseTrimmedDigits(ds: string, c: char, n: int)
    requires 1 <= |ds| <= 2 && AllDigits(ds) && ParseDigits(ds) == n && 1 <= n <= 12
    requires IsKeyLetterChar(c)
    ensures ParseTrimmed(ds + [c]) == Some(OpenKey(if c == 'a' || c == 'A' || c == 'm' || c == 'M' then M else D, n))
  {
    var t := ds + [c];
    assert t[..|t| - 1] == ds;
  }

  /** Digits followed by a key letter have no surrounding whitespace. */
  lemma DigitsLetterTrimmed(ds: string, c: char)
    requires AllDigits(ds) && IsKeyLetterChar(c)
    ensures Trimmed(ds + [c])
  {
    var s := ds + [c];
    if ds != [] { assert s[0] == ds[0] && IsDigit(ds[0]); }
  }

  /** Trimming is a no-op on input without surrounding whitespace. */
  lemma ParseTrimmedInput(s: string)
    requires Trimmed(s) && 0 < |s| <= 3
    ensures ParseKey(s) == ParseTrimmed(s)
  {
  }

  /** `openKeyFromString` applied to a value of unknown type: anything but a string gives none. */
  function ParseKeyValue(v: Value): (r: Option<OpenKey>)
    ensures !v.Str? ==> r == None
    ensures v.Str? ==> r == ParseKey(v.s)
  {
    match v
    case Str(s) => ParseKey(s)
    case _ => None
  }

  /** `formatOpenKey`: the number in decimal followed by the letter. */
  function FormatOpenKey(key: OpenKey): (s: string)
    ensures IsValidKey(key) ==> 2 <= |s| <= 3 && Trimmed(s)
    ensures |s| >= 2 && s[|s| - 1] == LetterText(key.letter)[0]
  {
    IntToString(key.number) + LetterText(key.letter)
  }

  /** Parsing a formatted valid key gives the key back. */
  lemma ParseFormatRoundTrip(k: OpenKey)
    requires IsValidKey(k)
    ensures ParseKey(FormatOpenKey(k)) == Some(k)
  {
    var digits := NatToString(k.number);
    var c := LetterText(k.letter)[0];
    assert FormatOpenKey(k) == digits + [c];
    ParseAliases(k.number, c);
  }

  /** Every key the parser returns is a fixed point of format-then-parse. */
  lemma ParseNormalises(s: string)
    requires ParseKey(s).Some?
    ensures ParseKey(FormatOpenKey(ParseKey(s).value)) == ParseKey(s)
  {
    ParseFormatRoundTrip(ParseKey(s).value);
  }

  /** One or two digits with value 1..12 followed by a key letter parse, whatever the case and alias. */
  lemma ParseDigitsLetter(ds: string, c: char, n: int)
    requires 1 <= |ds| <= 2 && AllDigits(ds) && ParseDigits(ds) == n && 1 <= n <= 12
    requires IsKeyLetterChar(c)
    ensures ParseKey(ds + [c]) == Some(OpenKey(if c == 'a' || c == 'A' || c == 'm' || c == 'M' then M else D, n))
  {
    DigitsLetterTrimmed(ds, c);
    ParseTrimmedInput(ds + [c]);
    ParseTrimmedDigits(ds, c, n);
  }

  /** The letter aliases: `a`/`A`/`m`/`M` read as minor, `b`/`B`/`d`/`D` as major. */
  lemma ParseAliases(n: int, c: char)
    requires 1 <= n <= 12
    requires IsKeyLetterChar(c)
    ensures ParseKey(NatToString(n) + [c]) == Some(OpenKey(if c == 'a' || c == 'A' || c == 'm' || c == 'M' then M else D, n))
  {
    ParseNatToString(n);
    ParseDigitsLetter(NatToString(n), c, n);
  }

  /** A last character other than a/b/d/m (either case) is rejected. */
  lemma ParseRejectsLetter(ds: string, c: char)
    requires AllDigits(ds) && !IsKeyLetterChar(c)
    ensures ParseKey(ds + [c]) == None
  {
  }

  /** Numbers outside 1..12 are rejected, whatever the letter. */
  lemma ParseRejectsRange(ds: string, c: char)
    requires 1 <= |ds| <= 2 && AllDigits(ds) && !(1 <= ParseDigits(ds) <= 12)
    ensures ParseKey(ds + [c]) == None
  {
    var s := ds + [c];
    if IsKeyLetterChar(c) {
      DigitsLetterTrimmed(ds, c);
      ParseTrimmedInput(s);
      assert s[..|s| - 1] == ds;
    } else {
      ParseRejectsLetter(ds, c);
    }
  }

  /** The trimming happens after the length check, so one leading blank is tolerated on a single-digit key. */
  lemma ParseLeadingBlank(k: OpenKey)
    requires IsValidKey(k) && k.number < 10
    ensures ParseKey(" " + FormatOpenKey(k)) == Some(k)
    ensures ParseKey("  " + FormatOpenKey(k)) == None
  {
    var f := FormatOpenKey(k);
    var s := " " + f;
    assert s[1..] == f;
    assert TrimStart(s) == TrimStart(f);
    assert Trim(s) == Trim(f);
    ParseFormatRoundTrip(k);
  }

  /** Camelot's minor letter `a` reads as `m`. */
  lemma ParseCamelotMinor()
    ensures ParseKey("8a") == Some(OpenKey(M, 8))
  {
    assert ParseDigits("8") == 8 by { assert "8"[..0] == ""; }
    ParseDigitsLetter("8", 'a', 8);
    assert "8" + ['a'] == "8a";
  }

  /** Letters are read in either case. */
  lemma ParseUpperCase()
    ensures ParseKey("8A") == Some(OpenKey(M, 8))
  {
    assert ParseDigits("8") == 8 by { assert "8"[..0] == ""; }
    ParseDigitsLetter("8", 'A', 8);
    assert "8" + ['A'] == "8A";
  }

  lemma DigitsZeroOne()
    ensures ParseDigits("01") == 1
  {
    assert "01"[..1] == "0";
    assert "0"[..0] == "";
  }

  /** A leading zero is accepted. */
  lemma ParseLeadingZero()
    ensures ParseKey("01d") == Some(OpenKey(D, 1))
  {
    DigitsZeroOne();
    ParseDigitsLetter("01", 'd', 1);
    assert "01" + ['d'] == "01d";
  }

  /** Formatting writes no leading zero, so format-then-parse does not restore `"01d"`. */
  lemma FormatNoLeadingZero()
    ensures FormatOpenKey(OpenKey(D, 1)) == "1d"
  {
  }

  /** Zero is out of range. */
  lemma ParseRejectsZero()
    ensures ParseKey("0d") == None
  {
    assert ParseDigits("0") == 0 by { assert "0"[..0] == ""; }
    ParseRejectsRange("0", 'd');
    assert "0" + ['d'] == "0d";
  }

  /** Thirteen is out of range. */
  lemma ParseRejectsThirteen()
    ensures ParseKey("13m") == None
  {
    assert ParseDigits("13") == 13 by { assert "13"[..1] == "1"; assert "1"[..0] == ""; }
    ParseRejectsRange("13", 'm');
    assert "13" + ['m'] == "13m";
  }

  /** A trimmed input that does not start with a digit is rejected. */
  lemma ParseRejectsNonDigitStart(s: string)
    requires 2 <= |s| <= 3 && Trimmed(s) && !IsDigit(s[0])
    ensures ParseKey(s) == None
  {
    ParseTrimmedInput(s);
    assert s[..|s| - 1][0] == s[0];
  }

  /** The letter must come last. */
  lemma ParseRejectsLetterFirst()
    ensures ParseKey("d1") == None
  {
    ParseRejectsNonDigitStart("d1");
  }

  /** Letters other than a, b, d and m are rejected. */
  lemma ParseRejectsUnknownLetter()
    ensures ParseKey("8x") == None
  {
    ParseRejectsLetter("8", 'x');
    assert "8" + ['x'] == "8x";
  }

  /** `generateAllRootKeys`: the 12 minor keys in ascending order, then the 12 major keys. */
  method GenerateAllRootKeys() returns (result: seq<OpenKey>)
    ensures |result| == 24
    ensures forall i :: 0 <= i < 24 ==> result[i] == OpenKey(if i < 12 then M else D, i % 12 + 1)
    ensures forall i :: 0 <= i < 24 ==> IsValidKey(result[i])
    ensures forall i, j :: 0 <= i < j < 24 ==> result[i] != result[j]
    ensures forall k :: IsValidKey(k) ==> k in result
  {
    var numbers := [1, 2, 3, 4, 5, 6, 7, 8, 9, 10, 11, 12];
    var letters := [M, D];
    result := [];
    for li := 0 to |letters|
      invariant |result| == 12 * li
      invariant forall i :: 0 <= i < |result| ==> result[i] == OpenKey(if i < 12 then M else D, i % 12 + 1)
    {
      var letter := letters[li];
      for ni := 0 to |numbers|
        invariant |result| == 12 * li + ni
        invariant forall i :: 0 <= i < |result| ==> result[i] == OpenKey(if i < 12 then M else D, i % 12 + 1)
      {
        result := result + [OpenKey(letter, numbers[ni])];
      }
    }
    forall k | IsValidKey(k) ensures k in result {
      var i := (if k.letter == M then 0 else 12) + k.number - 1;
      assert result[i] == k;
    }
  }
}
