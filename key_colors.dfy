/**
 * The wheel colour of a key name (app/core/key-colors.ts): the name is trimmed
 * and lower-cased, must be a number 1..12 without a leading zero followed by one
 * of `a`, `b`, `m`, `d` (Camelot's `a`/`b` read as `m`/`d`), and is then looked
 * up in a table whose colour depends on the number only. Anything else is grey.
 */
module KeyColors {
  import opened Wrappers
  import opened JsRuntime
  import opened OpenKeys

  /** The fallback colour. */
  const Grey := "#9ca3af"

  /** The colour of wheel position `i + 1`, shared by its minor and its major entry. */
  const Palette: seq<string> := [
    "#FF1AF1", "#B85FFF", "#068CFF", "#00CDFF", "#00EBE9", "#00D989",
    "#00FF00", "#70FF00", "#FFD400", "#FF8500", "#FF5500", "#FF2F3E"]

  /**
   * `keyColors[name]`: the record's 24 entries are "1m".."12m" and "1d".."12d",
   * so an entry is a number 1..12 in plain decimal and `m` or `d`.
   */
  function KeyColorEntry(name: string): (r: Option<string>)
    ensures r.Some? ==> r.value in Palette
  {
    if 2 <= |name| <= 3 && (name[|name| - 1] == 'm' || name[|name| - 1] == 'd') then
      var digits := name[..|name| - 1];
      if AllDigits(digits) && digits[0] != '0' && 1 <= ParseDigits(digits) <= 12 then
        Some(Palette[ParseDigits(digits) - 1])
      else None
    else None
  }

  /** `camelotToOpenMap[letter] ?? letter` */
  function CamelotToOpen(c: char): (r: char)
    ensures r == (if c == 'a' then 'm' else if c == 'b' then 'd' else c)
  {
    match c
    case 'a' => 'm'
    case 'b' => 'd'
    case _ => c
  }

  predicate IsColorLetter(c: char) {
    c == 'a' || c == 'b' || c == 'm' || c == 'd'
  }

  /** `1[0-2]|[1-9]` */
  predicate IsColorNumber(ds: string) {
    || (|ds| == 1 && '1' <= ds[0] <= '9')
    || (|ds| == 2 && ds[0] == '1' && '0' <= ds[1] <= '2')
  }

  /** `/^(1[0-2]|[1-9])([abmd])$/` */
  predicate MatchesColorPattern(t: string) {
    && 2 <= |t| <= 3
    && IsColorNumber(t[..|t| - 1])
    && IsColorLetter(t[|t| - 1])
  }

  /**
   * `normalizeKey` of key-colors.ts: some name exactly when the trimmed and
   * lower-cased input matches the pattern, and that name is a key of the record.
   */
  function NormalizeColorKey(keyName: string): (r: Option<string>)
    ensures r.Some? ==> KeyColorEntry(r.value).Some?
  {
    NormalizeTrimmed(ToLower(Trim(keyName)))
  }

  /** The pattern match and the letter mapping of `normalizeKey`, on the trimmed and lower-cased name. */
  function NormalizeTrimmed(t: string): (r: Option<string>)
    ensures r.Some? <==> MatchesColorPattern(t)
    ensures r.Some? ==> r.value == t[..|t| - 1] + [CamelotToOpen(t[|t| - 1])]
    ensures r.Some? ==> KeyColorEntry(r.value).Some?
  {
    if !MatchesColorPattern(t) then None
    else
      EntryOfColorNumber(t[..|t| - 1], CamelotToOpen(t[|t| - 1]));
      Some(t[..|t| - 1] + [CamelotToOpen(t[|t| - 1])])
  }

  /** A number the pattern accepts, followed by `m` or `d`, is an entry of the record. */
  lemma EntryOfColorNumber(ds: string, l: char)
    requires IsColorNumber(ds) && (l == 'm' || l == 'd')
    ensures AllDigits(ds) && 1 <= ParseDigits(ds) <= 12
    ensures KeyColorEntry(ds + [l]) == Some(Palette[ParseDigits(ds) - 1])
  {
    var name := ds + [l];
    assert name[..|name| - 1] == ds;
    if |ds| == 2 {
      assert ds[..1] == [ds[0]] && ds[..1][..0] == [];
      assert AllDigits(ds[..1]) && ParseDigits(ds[..1]) == ParseDigits(ds[..1][..0]) * 10 + DigitValue(ds[0]) == 1;
      assert ParseDigits(ds) == ParseDigits(ds[..1]) * 10 + DigitValue(ds[1]);
    } else {
      assert ds[..0] == [];
    }
  }

  /** The colour of a normalised name; the record's `?? "#9ca3af"` never applies. */
  function ColorOf(normalized: Option<string>): string {
    match normalized
    case None => Grey
    case Some(name) => KeyColorEntry(name).GetOr(Grey)
  }

  /** `getKeyColor`: grey exactly when the name does not normalise, a palette colour otherwise. */
  function GetKeyColor(keyName: string): (r: string)
    ensures r == Grey <==> NormalizeColorKey(keyName).None?
    ensures r != Grey ==> r in Palette
  {
    var normalized := NormalizeColorKey(keyName);
    PaletteNotGrey();
    ColorOf(normalized)
  }

  /** No palette colour is the fallback. */
  lemma PaletteNotGrey()
    ensures Grey !in Palette
  {
    assert forall i :: 0 <= i < |Palette| ==> Palette[i][1] != '9';
  }

  /** The 12 wheel positions have 12 different colours. */
  lemma PaletteDistinct()
    ensures |Palette| == 12
    ensures forall i, j :: 0 <= i < j < |Palette| ==> Palette[i] != Palette[j]
  {
  }

  /** A run of digits followed by a key letter in either case, as `normalizeKey` sees it. */
  lemma NormalizeDigitsLetter(ds: string, c: char)
    requires AllDigits(ds) && IsKeyLetterChar(c)
    ensures NormalizeColorKey(ds + [c]) ==
      if 1 <= |ds| <= 2 && IsColorNumber(ds) then Some(ds + [CamelotToOpen(LowerChar(c))]) else None
  {
    var s := ds + [c];
    DigitsLetterTrimmed(ds, c);
    var t := ToLower(s);
    assert t == ds + [LowerChar(c)];
    assert t[..|t| - 1] == ds && t[|t| - 1] == LowerChar(c);
    assert IsColorLetter(LowerChar(c));
    assert NormalizeColorKey(s) == NormalizeTrimmed(t);
  }

  /** The decimal text of 1..12 is a number the pattern accepts. */
  lemma ColorNumberOfNat(n: int)
    requires 1 <= n <= 12
    ensures IsColorNumber(NatToString(n)) && ParseDigits(NatToString(n)) == n
  {
    ParseNatToString(n);
    if n >= 10 {
      assert NatToString(n) == NatToString(n / 10) + [DigitChar(n % 10)];
    }
  }

  /** Every number 1..12 followed by a key letter in either case gets its position's colour. */
  lemma ColorOfNotation(n: int, c: char)
    requires 1 <= n <= 12 && IsKeyLetterChar(c)
    ensures GetKeyColor(NatToString(n) + [c]) == Palette[n - 1]
  {
    ColorNumberOfNat(n);
    NormalizeDigitsLetter(NatToString(n), c);
    EntryOfColorNumber(NatToString(n), CamelotToOpen(LowerChar(c)));
  }

  /** Every valid key, as the app formats it, gets its position's colour, which is not grey. */
  lemma ColorOfKey(k: OpenKey)
    requires IsValidKey(k)
    ensures GetKeyColor(FormatOpenKey(k)) == Palette[k.number - 1] != Grey
  {
    PaletteNotGrey();
    assert FormatOpenKey(k) == NatToString(k.number) + [LetterText(k.letter)[0]];
    ColorOfNotation(k.number, LetterText(k.letter)[0]);
  }

  /** The colour depends on the number only: a key's minor and major form share it. */
  lemma ColorIgnoresLetter(n: int)
    requires 1 <= n <= 12
    ensures GetKeyColor(FormatOpenKey(OpenKey(M, n))) == GetKeyColor(FormatOpenKey(OpenKey(D, n)))
  {
    SameNumberSameColor(OpenKey(M, n), OpenKey(D, n));
  }

  lemma SameNumberSameColor(a: OpenKey, b: OpenKey)
    requires IsValidKey(a) && IsValidKey(b) && a.number == b.number
    ensures GetKeyColor(FormatOpenKey(a)) == GetKeyColor(FormatOpenKey(b))
  {
    var i := a.number - 1;
    assert GetKeyColor(FormatOpenKey(a)) == Palette[i] by { ColorOfKey(a); }
    assert GetKeyColor(FormatOpenKey(b)) == Palette[i] by { ColorOfKey(b); }
  }

  /** A trimmed, lower-cased name is its own trimmed, lower-cased form. */
  lemma CanonicalFixed(keyName: string)
    ensures ToLower(Trim(ToLower(Trim(keyName)))) == ToLower(Trim(keyName))
  {
    var t := ToLower(Trim(keyName));
    ToLowerTrimmed(Trim(keyName));
    assert Trim(t) == t;
    ToLowerIdempotent(Trim(keyName));
  }

  /** Normalisation, and so the colour, ignores surrounding whitespace and letter case. */
  lemma ColorIgnoresCaseAndBlanks(keyName: string)
    ensures NormalizeColorKey(ToLower(Trim(keyName))) == NormalizeColorKey(keyName)
    ensures GetKeyColor(ToLower(Trim(keyName))) == GetKeyColor(keyName)
  {
    CanonicalFixed(keyName);
  }

  /** Digits the pattern refuses are grey whatever the letter. */
  lemma GreyDigits(ds: string, c: char)
    requires AllDigits(ds) && IsKeyLetterChar(c) && !IsColorNumber(ds)
    ensures GetKeyColor(ds + [c]) == Grey
  {
    NormalizeDigitsLetter(ds, c);
  }

  /** A leading zero is grey, although the key parser reads "01m" as 1m. */
  lemma ColorRejectsLeadingZero()
    ensures GetKeyColor("01m") == Grey
  {
    assert "01m" == "01" + ['m'] && "01"[0] == '0';
    GreyDigits("01", 'm');
  }

  /** Zero is grey. */
  lemma ColorRejectsZero()
    ensures GetKeyColor("0m") == Grey
  {
    assert "0m" == "0" + ['m'];
    GreyDigits("0", 'm');
  }

  /** Numbers above 12 are grey. */
  lemma ColorRejectsAboveTwelve()
    ensures GetKeyColor("13m") == Grey
  {
    assert "13m" == "13" + ['m'] && "13"[1] == '3';
    GreyDigits("13", 'm');
  }

  /** The record holds exactly the 24 names: a number 1..12 in plain decimal followed by `m` or `d`. */
  lemma KeyColorsDomain(name: string)
    ensures KeyColorEntry(name).Some? <==>
      exists n, l :: 1 <= n <= 12 && name == NatToString(n) + LetterText(l)
  {
    if KeyColorEntry(name).Some? {
      var digits := name[..|name| - 1];
      var n := ParseDigits(digits);
      var l := if name[|name| - 1] == 'm' then M else D;
      CanonicalDigits(digits);
      assert name == NatToString(n) + LetterText(l);
    }
    if exists n, l :: 1 <= n <= 12 && name == NatToString(n) + LetterText(l) {
      var n, l :| 1 <= n <= 12 && name == NatToString(n) + LetterText(l);
      ParseNatToString(n);
      assert name[..|name| - 1] == NatToString(n);
      assert n >= 10 ==> NatToString(n) == NatToString(n / 10) + [DigitChar(n % 10)];
    }
  }

  /** One or two digits without a leading zero are the decimal text of their value. */
  lemma CanonicalDigits(digits: string)
    requires 1 <= |digits| <= 2 && AllDigits(digits) && digits[0] != '0'
    ensures NatToString(ParseDigits(digits)) == digits
  {
    if |digits| == 2 {
      assert digits[..1] == [digits[0]];
      assert [digits[0]][..0] == [];
      var n := ParseDigits(digits);
      assert n / 10 == DigitValue(digits[0]) && n % 10 == DigitValue(digits[1]);
    } else {
      assert digits[..0] == [];
    }
  }
}
