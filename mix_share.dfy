/**
 * Sharing a mix as a URL token (app/core/mix-share.ts): the mix becomes a
 * small JSON payload, the JSON is base64-encoded and rewritten into the
 * URL-safe alphabet of section 5 of RFC 4648 with the padding dropped;
 * decoding reverses the rewrite, restores the padding, and sanitises
 * whatever the JSON turns out to hold.
 *
 * JSON serialisation and the base64 byte coding are parameters: `serialize`
 * plays `JSON.stringify`, `toBase64` the encoder, `fromBase64` the decoder
 * (none when it throws) and `parse` plays `JSON.parse` (none when it throws).
 */
module MixShare {
  import opened Wrappers
  import opened JsRuntime
  import opened OpenKeys
  import opened MixStorage

  /** `EncodedMixTrack`; an absent field is `undefined` and is dropped by `JSON.stringify`. */
  datatype EncodedMixTrack = EncodedMixTrack(key: string, title: Option<string>, details: Option<string>)

  /** `MixSharePayload` */
  datatype MixSharePayload = MixSharePayload(name: Option<string>, tracks: seq<EncodedMixTrack>)

  /** A track of `DecodedMixSharePayload`. */
  datatype DecodedTrack = DecodedTrack(key: OpenKey, title: string, details: string)

  /** `DecodedMixSharePayload` */
  datatype DecodedMixSharePayload = DecodedMixSharePayload(name: Option<string>, tracks: seq<DecodedTrack>)

  /** `value || undefined` on a string. */
  function NonEmpty(s: string): (r: Option<string>)
    ensures r.None? <==> s == ""
    ensures r.Some? ==> r.value == s
  {
    if s == "" then None else Some(s)
  }

  function EncodeTrack(track: MixTrack): EncodedMixTrack {
    EncodedMixTrack(FormatOpenKey(track.key), NonEmpty(track.title), NonEmpty(track.details))
  }

  function EncodeTracks(tracks: seq<MixTrack>): (r: seq<EncodedMixTrack>)
    ensures |r| == |tracks| && forall i :: 0 <= i < |r| ==> r[i] == EncodeTrack(tracks[i])
  {
    seq(|tracks|, i requires 0 <= i < |tracks| => EncodeTrack(tracks[i]))
  }

  /** The payload `encodeMixSharePayload` serialises. */
  function BuildPayload(mix: Mix): (p: MixSharePayload)
    ensures p.name == Some(mix.name)
    ensures |p.tracks| == |mix.tracks|
    ensures forall i :: 0 <= i < |p.tracks| ==>
      && p.tracks[i].key == FormatOpenKey(mix.tracks[i].key)
      && p.tracks[i].title == NonEmpty(mix.tracks[i].title)
      && p.tracks[i].details == NonEmpty(mix.tracks[i].details)
  {
    MixSharePayload(Some(mix.name), EncodeTracks(mix.tracks))
  }

  /** An optional field of a JSON object: present only when it has a value. */
  function WithField(fields: map<string, Value>, name: string, value: Option<string>): map<string, Value> {
    if value.Some? then fields[name := Str(value.value)] else fields
  }

  /** The JavaScript object for a track, as `JSON.stringify` sees it. */
  function TrackValue(t: EncodedMixTrack): Value {
    Obj(WithField(WithField(map["key" := Str(t.key)], "title", t.title), "details", t.details))
  }

  function TracksValue(tracks: seq<EncodedMixTrack>): (v: seq<Value>)
    ensures |v| == |tracks| && forall i :: 0 <= i < |v| ==> v[i] == TrackValue(tracks[i])
  {
    seq(|tracks|, i requires 0 <= i < |tracks| => TrackValue(tracks[i]))
  }

  /** The JavaScript object for a payload. */
  function PayloadValue(p: MixSharePayload): Value {
    Obj(WithField(map["tracks" := Arr(TracksValue(p.tracks))], "name", p.name))
  }

  /** `replace(/\+/g, "-").replace(/\//g, "_")` */
  function ToUrlAlphabet(s: string): (r: string)
    ensures |r| == |s|
    ensures forall i :: 0 <= i < |r| ==> r[i] != '+' && r[i] != '/'
  {
    seq(|s|, i requires 0 <= i < |s| => if s[i] == '+' then '-' else if s[i] == '/' then '_' else s[i])
  }

  /** `replace(/=+$/, "")`: drop the run of `=` at the end. */
  function StripPadding(s: string): (r: string)
    ensures |r| <= |s| && r == s[..|r|]
    ensures r == [] || r[|r| - 1] != '='
    ensures forall i :: |r| <= i < |s| ==> s[i] == '='
    decreases |s|
  {
    if s != [] && s[|s| - 1] == '=' then StripPadding(s[..|s| - 1]) else s
  }

  /** The URL-safe rewrite of a base64 string: no `+`, no `/`, no trailing `=`. */
  function UrlSafe(base64: string): (token: string)
    ensures forall i :: 0 <= i < |token| ==> token[i] != '+' && token[i] != '/'
    ensures token == [] || token[|token| - 1] != '='
  {
    StripPadding(ToUrlAlphabet(base64))
  }

  /** `encodeMixSharePayload` */
  function EncodeMixSharePayload(mix: Mix, serialize: Value -> string, toBase64: string -> string): (token: string)
    ensures forall i :: 0 <= i < |token| ==> token[i] != '+' && token[i] != '/'
    ensures token == [] || token[|token| - 1] != '='
  {
    UrlSafe(toBase64(serialize(PayloadValue(BuildPayload(mix)))))
  }

  /** `replace(/-/g, "+").replace(/_/g, "/")` */
  function FromUrlAlphabet(s: string): (r: string)
    ensures |r| == |s|
    ensures forall i :: 0 <= i < |r| ==> r[i] != '-' && r[i] != '_'
  {
    seq(|s|, i requires 0 <= i < |s| => if s[i] == '-' then '+' else if s[i] == '_' then '/' else s[i])
  }

  function Repeat(c: char, n: nat): (r: string)
    ensures |r| == n && forall i :: 0 <= i < n ==> r[i] == c
  {
    seq(n, _ => c)
  }

  /** `padEnd(length + ((4 - (length % 4)) % 4), "=")` */
  function Pad(s: string): (r: string)
    ensures |r| % 4 == 0
    ensures |s| <= |r| <= |s| + 3
    ensures r[..|s|] == s
    ensures forall i :: |s| <= i < |r| ==> r[i] == '='
  {
    s + Repeat('=', (4 - |s| % 4) % 4)
  }

  /** Padding an already padded length adds nothing. */
  lemma PadAligned(s: string)
    requires |s| % 4 == 0
    ensures Pad(s) == s
  {
  }

  /** The standard base64 alphabet of section 4 of RFC 4648. */
  predicate IsBase64Char(c: char) {
    ('A' <= c <= 'Z') || ('a' <= c <= 'z') || ('0' <= c <= '9') || c == '+' || c == '/'
  }

  /** A standard base64 string: alphabet characters, then at most two `=`, length a multiple of 4. */
  predicate IsStandardBase64(s: string) {
    && |s| % 4 == 0
    && exists n :: 0 <= n <= 2 && n <= |s| && IsPaddedBy(s, n)
  }

  predicate IsPaddedBy(s: string, n: nat)
    requires n <= |s|
  {
    && (forall i :: 0 <= i < |s| - n ==> IsBase64Char(s[i]))
    && (forall i :: |s| - n <= i < |s| ==> s[i] == '=')
  }

  /** Stripping a run of `=` from a string that does not otherwise end in `=`. */
  lemma {:induction false} StripPaddingRun(body: string, n: nat)
    requires body == [] || body[|body| - 1] != '='
    ensures StripPadding(body + Repeat('=', n)) == body
    decreases n
  {
    if n == 0 {
      assert body + Repeat('=', n) == body;
    } else {
      assert (body + Repeat('=', n))[..|body| + n - 1] == body + Repeat('=', n - 1);
      StripPaddingRun(body, n - 1);
    }
  }

  /** A string `n` characters short of a multiple of 4 is padded with `n` characters. */
  lemma PadBy(s: string, n: nat)
    requires n <= 3 && (|s| + n) % 4 == 0
    ensures Pad(s) == s + Repeat('=', n)
  {
    PadCount(|s|, n);
  }

  lemma PadCount(len: nat, n: nat)
    requires n <= 3 && (len + n) % 4 == 0
    ensures (4 - len % 4) % 4 == n
  {
    var q := (len + n) / 4;
    assert len + n == 4 * q;
    if n == 0 {
      assert len % 4 == 0;
    } else {
      assert len == 4 * (q - 1) + (4 - n);
      assert len % 4 == 4 - n;
    }
  }

  /** On the standard alphabet, the two rewrites are inverse. */
  lemma UrlAlphabetInverse(body: string)
    requires forall i :: 0 <= i < |body| ==> IsBase64Char(body[i])
    ensures FromUrlAlphabet(ToUrlAlphabet(body)) == body
  {
  }

  /** The rewrite leaves padding alone. */
  lemma UrlAlphabetPadding(body: string, n: nat)
    ensures ToUrlAlphabet(body + Repeat('=', n)) == ToUrlAlphabet(body) + Repeat('=', n)
  {
  }

  /** Restoring a token: undoing the alphabet rewrite and re-padding gives back the standard base64 string. */
  lemma RestoreBase64(base64: string)
    requires IsStandardBase64(base64)
    ensures Pad(FromUrlAlphabet(UrlSafe(base64))) == base64
  {
    var n :| 0 <= n <= 2 && n <= |base64| && IsPaddedBy(base64, n);
    var body := base64[..|base64| - n];
    SplitPadding(base64, n, body);
    RestorePadded(body, n);
  }

  /** A string padded by `n` is its first `|s| - n` characters followed by `n` times `=`. */
  lemma SplitPadding(s: string, n: nat, body: string)
    requires n <= |s| && IsPaddedBy(s, n) && body == s[..|s| - n]
    ensures s == body + Repeat('=', n)
    ensures forall i :: 0 <= i < |body| ==> IsBase64Char(body[i])
  {
  }

  /** Base64 characters followed by the padding that makes the length a multiple of 4 survive the round trip. */
  lemma RestorePadded(body: string, n: nat)
    requires forall i :: 0 <= i < |body| ==> IsBase64Char(body[i])
    requires n <= 3 && (|body| + n) % 4 == 0
    ensures Pad(FromUrlAlphabet(UrlSafe(body + Repeat('=', n)))) == body + Repeat('=', n)
  {
    var url := ToUrlAlphabet(body);
    assert url == [] || url[|url| - 1] != '=' by {
      if url != [] {
        assert IsBase64Char(body[|body| - 1]);
      }
    }
    calc {
      UrlSafe(body + Repeat('=', n));
      StripPadding(ToUrlAlphabet(body + Repeat('=', n)));
      { UrlAlphabetPadding(body, n); }
      StripPadding(url + Repeat('=', n));
      { StripPaddingRun(url, n); }
      url;
    }
    UrlAlphabetInverse(body);
    PadBy(body, n);
  }

  /** `typeof v === "string" ? v : ""` */
  function StringOrEmpty(v: Value): string {
    if v.Str? then v.s else ""
  }

  /** The sanitised form of one decoded track; `track.key` on `null` or `undefined` throws. */
  function SanitizeTrack(track: Value): (r: Option<Option<DecodedTrack>>)
    ensures r.None? <==> IsNullish(track)
    ensures r.Some? && r.value.Some? ==> IsValidKey(r.value.value.key)
    ensures r.Some? ==> (r.value.Some? <==> ParseKeyValue(Get(track, "key")).Some?)
  {
    if IsNullish(track) then None
    else
      match ParseKeyValue(Get(track, "key"))
      case None => Some(None)
      case Some(key) =>
        Some(Some(DecodedTrack(key, StringOrEmpty(Get(track, "title")), StringOrEmpty(Get(track, "details")))))
  }

  /**
   * The `map`/`filter` over the decoded tracks: none when an entry throws (is
   * `null` or `undefined`), else the parsable ones in order, each with a valid key.
   */
  function SanitizeTracks(items: seq<Value>): (r: Option<seq<DecodedTrack>>)
    ensures r.Some? ==> |r.value| <= |items|
    ensures r.Some? ==> forall i :: 0 <= i < |r.value| ==> IsValidKey(r.value[i].key)
    decreases |items|
  {
    if items == [] then Some([])
    else
      var init := SanitizeTracks(items[..|items| - 1]);
      var last := SanitizeTrack(items[|items| - 1]);
      SanitizeStep(init, last)
  }

  /** The sanitiser's step: one more decoded entry. */
  function SanitizeStep(init: Option<seq<DecodedTrack>>, last: Option<Option<DecodedTrack>>): Option<seq<DecodedTrack>> {
    if init.None? || last.None? then None
    else if last.value.None? then init
    else Some(init.value + [last.value.value])
  }

  lemma SanitizeTracksSnoc(items: seq<Value>, x: Value)
    ensures SanitizeTracks(items + [x]) == SanitizeStep(SanitizeTracks(items), SanitizeTrack(x))
  {
    assert (items + [x])[..|items|] == items;
  }

  /** The whole decode throws exactly when some entry is `null` or `undefined`. */
  lemma {:induction false} SanitizeTracksThrows(items: seq<Value>)
    ensures SanitizeTracks(items).None? <==> exists i :: 0 <= i < |items| && IsNullish(items[i])
    decreases |items|
  {
    if items != [] {
      var init, x := items[..|items| - 1], items[|items| - 1];
      SanitizeTracksThrows(init);
      assert SanitizeTracks(items) == SanitizeStep(SanitizeTracks(init), SanitizeTrack(x));
      if SanitizeTracks(items).None? {
        if SanitizeTracks(init).None? {
          var i :| 0 <= i < |init| && IsNullish(init[i]);
          assert items[i] == init[i];
        } else {
          assert IsNullish(items[|items| - 1]);
        }
      } else {
        forall i | 0 <= i < |items|
          ensures !IsNullish(items[i])
        {
          if i < |init| {
            assert items[i] == init[i];
          }
        }
      }
    }
  }

  lemma SanitizeStepAppends(prefix: seq<DecodedTrack>, init: seq<DecodedTrack>, last: Option<Option<DecodedTrack>>)
    requires last.Some?
    ensures SanitizeStep(Some(prefix + init), last) == Some(prefix + SanitizeStep(Some(init), last).value)
  {
    if last.value.Some? {
      assert (prefix + init) + [last.value.value] == prefix + (init + [last.value.value]);
    }
  }

  /** Sanitising distributes over concatenation, so the kept tracks keep their order. */
  lemma {:induction false} SanitizeTracksConcat(a: seq<Value>, b: seq<Value>)
    requires SanitizeTracks(a).Some? && SanitizeTracks(b).Some?
    ensures SanitizeTracks(a + b) == Some(SanitizeTracks(a).value + SanitizeTracks(b).value)
    decreases |b|
  {
    if b == [] {
      assert a + b == a;
      assert SanitizeTracks(a).value + SanitizeTracks(b).value == SanitizeTracks(a).value;
    } else {
      var b0, last := b[..|b| - 1], SanitizeTrack(b[|b| - 1]);
      var prefix := SanitizeTracks(a).value;
      SanitizeTracksUnfold(b);
      calc {
        SanitizeTracks(a + b);
        { ConcatInit(a, b); SanitizeTracksUnfold(a + b); }
        SanitizeStep(SanitizeTracks(a + b0), last);
        { SanitizeTracksConcat(a, b0); }
        SanitizeStep(Some(prefix + SanitizeTracks(b0).value), last);
        { SanitizeStepAppends(prefix, SanitizeTracks(b0).value, last); }
        Some(prefix + SanitizeTracks(b).value);
      }
    }
  }

  lemma SanitizeTracksUnfold(items: seq<Value>)
    requires items != []
    ensures SanitizeTracks(items) == SanitizeStep(SanitizeTracks(items[..|items| - 1]), SanitizeTrack(items[|items| - 1]))
  {
  }

  lemma ConcatInit(a: seq<Value>, b: seq<Value>)
    requires b != []
    ensures (a + b)[..|a + b| - 1] == a + b[..|b| - 1] && (a + b)[|a + b| - 1] == b[|b| - 1]
  {
  }

  /** `decodeMixSharePayload`; none stands for `null`, whether returned or caught. */
  function DecodeMixSharePayload(
    token: string,
    fromBase64: string -> Option<string>,
    parse: string -> Option<Value>): (r: Option<DecodedMixSharePayload>)
    ensures fromBase64(Pad(FromUrlAlphabet(token))).None? ==> r.None?
    ensures fromBase64(Pad(FromUrlAlphabet(token))).Some? ==>
      var parsed := parse(fromBase64(Pad(FromUrlAlphabet(token))).value);
      (parsed.Some? && Truthy(parsed.value) && Get(parsed.value, "tracks").Arr?
       && SanitizeTracks(Get(parsed.value, "tracks").items).Some?) ==> r.Some?
    ensures r.Some? ==>
      var parsed := parse(fromBase64(Pad(FromUrlAlphabet(token))).value);
      && parsed.Some? && Truthy(parsed.value)
      && Get(parsed.value, "tracks").Arr?
      && SanitizeTracks(Get(parsed.value, "tracks").items) == Some(r.value.tracks)
      && r.value.name == (if Get(parsed.value, "name").Str? then Some(Get(parsed.value, "name").s) else None)
  {
    match fromBase64(Pad(FromUrlAlphabet(token)))
    case None => None
    case Some(json) =>
      match parse(json)
      case None => None
      case Some(parsed) =>
        if !Truthy(parsed) || !Get(parsed, "tracks").Arr? then None
        else
          match SanitizeTracks(Get(parsed, "tracks").items)
          case None => None
          case Some(tracks) =>
            var name := Get(parsed, "name");
            Some(DecodedMixSharePayload(if name.Str? then Some(name.s) else None, tracks))
  }

  /** A value that is not an object with a `tracks` array decodes to nothing. */
  lemma DecodeRejectsShape(token: string, fromBase64: string -> Option<string>, parse: string -> Option<Value>)
    requires fromBase64(Pad(FromUrlAlphabet(token))).Some?
    requires var parsed := parse(fromBase64(Pad(FromUrlAlphabet(token))).value);
      parsed.None? || !Truthy(parsed.value) || !Get(parsed.value, "tracks").Arr?
    ensures DecodeMixSharePayload(token, fromBase64, parse).None?
  {
  }

  /** What a mix's tracks decode to: the keys, with absent titles and details read back as "". */
  function DecodedTracks(tracks: seq<MixTrack>): (r: seq<DecodedTrack>)
    ensures |r| == |tracks|
  {
    seq(|tracks|, i requires 0 <= i < |tracks| => DecodedTrack(tracks[i].key, tracks[i].title, tracks[i].details))
  }

  lemma EncodedValuesSnoc(tracks: seq<MixTrack>)
    requires tracks != []
    ensures TracksValue(EncodeTracks(tracks))
         == TracksValue(EncodeTracks(tracks[..|tracks| - 1])) + [TrackValue(EncodeTrack(tracks[|tracks| - 1]))]
  {
  }

  lemma DecodedTracksSnoc(tracks: seq<MixTrack>)
    requires tracks != []
    ensures DecodedTracks(tracks) == DecodedTracks(tracks[..|tracks| - 1])
      + [DecodedTrack(tracks[|tracks| - 1].key, tracks[|tracks| - 1].title, tracks[|tracks| - 1].details)]
  {
  }

  /** The three field names of a track object are distinct. */
  lemma TrackFieldNamesDistinct()
    ensures "key" != "title" && "key" != "details" && "title" != "details"
  {
    assert "key"[0] != "title"[0] && "key"[0] != "details"[0] && "title"[0] != "details"[0];
  }

  /** Reading the fields back from a track object. */
  lemma TrackValueFields(e: EncodedMixTrack)
    ensures Get(TrackValue(e), "key") == Str(e.key)
    ensures StringOrEmpty(Get(TrackValue(e), "title")) == e.title.GetOr("")
    ensures StringOrEmpty(Get(TrackValue(e), "details")) == e.details.GetOr("")
  {
    TrackFieldNamesDistinct();
  }

  /** One encoded track of a valid key sanitises back to its key, title and details. */
  lemma SanitizeEncodedTrack(t: MixTrack)
    requires IsValidKey(t.key)
    ensures SanitizeTrack(TrackValue(EncodeTrack(t))) == Some(Some(DecodedTrack(t.key, t.title, t.details)))
  {
    ParseFormatRoundTrip(t.key);
    TrackValueFields(EncodeTrack(t));
  }

  /** At payload level, sanitising an encoded mix's tracks reproduces every track. */
  lemma {:induction false} SanitizeEncodedTracks(tracks: seq<MixTrack>)
    requires forall i :: 0 <= i < |tracks| ==> IsValidKey(tracks[i].key)
    ensures SanitizeTracks(TracksValue(EncodeTracks(tracks))) == Some(DecodedTracks(tracks))
    decreases |tracks|
  {
    if tracks != [] {
      var init, last := tracks[..|tracks| - 1], tracks[|tracks| - 1];
      SanitizeEncodedTracks(init);
      EncodedValuesSnoc(tracks);
      SanitizeTracksSnoc(TracksValue(EncodeTracks(init)), TrackValue(EncodeTrack(last)));
      SanitizeEncodedTrack(last);
      DecodedTracksSnoc(tracks);
    }
  }

  /**
   * The share round trip: when the JSON and base64 codings invert each other
   * and the encoder emits standard base64, decoding a mix's token gives back
   * its name and every track's key, title and details.
   */
  lemma ShareRoundTrip(
    mix: Mix,
    serialize: Value -> string,
    parse: string -> Option<Value>,
    toBase64: string -> string,
    fromBase64: string -> Option<string>)
    requires forall i :: 0 <= i < |mix.tracks| ==> IsValidKey(mix.tracks[i].key)
    requires var json := serialize(PayloadValue(BuildPayload(mix)));
      && parse(json) == Some(PayloadValue(BuildPayload(mix)))
      && IsStandardBase64(toBase64(json))
      && fromBase64(toBase64(json)) == Some(json)
    ensures DecodeMixSharePayload(EncodeMixSharePayload(mix, serialize, toBase64), fromBase64, parse)
         == Some(DecodedMixSharePayload(Some(mix.name), DecodedTracks(mix.tracks)))
  {
    var json := serialize(PayloadValue(BuildPayload(mix)));
    RestoreBase64(toBase64(json));
    var pv := PayloadValue(BuildPayload(mix));
    assert Get(pv, "tracks") == Arr(TracksValue(EncodeTracks(mix.tracks)));
    assert Get(pv, "name") == Str(mix.name);
    SanitizeEncodedTracks(mix.tracks);
  }
}
