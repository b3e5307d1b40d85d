/**
 * The mix timeline (app/core/mix-storage.ts): a mix is an ordered list of
 * tracks, each with an Open Key. Every edit returns a new mix record, and
 * records read back from storage are normalised so that every key is valid
 * and every field has a value.
 *
 * Ids and timestamps, which the source draws from `crypto`/`Math.random` and
 * `Date.now()`, are parameters here.
 */
module MixStorage {
  import opened Wrappers
  import opened JsRuntime
  import opened OpenKeys
  import opened Transitions
  import opened Rules

  /** `MixTrack` */
  datatype MixTrack = MixTrack(id: string, key: OpenKey, title: string, details: string)

  /** `Mix` */
  datatype Mix = Mix(id: string, name: string, startKey: OpenKey, tracks: seq<MixTrack>, createdAt: int)

  const OpeningTitle: string := "Opening Track"
  const UntitledName: string := "Untitled Mix"

  /** `DEFAULT_KEY`: 8m, the key written as the fallback beside the parse of "8a". */
  const DefaultKey: OpenKey := OpenKey(M, 8)

  /** The fallback is never taken: "8a" parses to that same key. */
  lemma DefaultKeyParses()
    ensures ParseKey("8a").GetOr(OpenKey(M, 8)) == DefaultKey
  {
    ParseCamelotMinor();
  }

  /** `describeTransition`: no rule without a previous key, else matching of the two formatted keys. */
  function DescribeTransition(previousKey: Option<OpenKey>, nextKey: OpenKey): (r: Option<Rule>)
    ensures previousKey.None? ==> r.None?
    ensures r.Some? ==> r.value in HarmonicRuleDefinitions
  {
    match previousKey
    case None => None
    case Some(prev) => MatchHarmonicRule(FormatOpenKey(prev), FormatOpenKey(nextKey))
  }

  /** Between valid keys the format/parse round trip is lossless, so this is matching of the keys themselves. */
  lemma DescribeTransitionMatches(previousKey: OpenKey, nextKey: OpenKey)
    requires IsValidKey(previousKey) && IsValidKey(nextKey)
    ensures DescribeTransition(Some(previousKey), nextKey) == MatchKeys(previousKey, nextKey)
  {
    ParseFormatRoundTrip(previousKey);
    ParseFormatRoundTrip(nextKey);
    MatchHarmonicRuleOfParsed(FormatOpenKey(previousKey), FormatOpenKey(nextKey), previousKey, nextKey);
  }

  /** Between valid keys, the described transition is the one the wheel distance and letters name. */
  lemma DescribeTransitionClassifies(previousKey: OpenKey, nextKey: OpenKey)
    requires IsValidKey(previousKey) && IsValidKey(nextKey)
    ensures RuleIdOf(DescribeTransition(Some(previousKey), nextKey)) == ExpectedRuleId(previousKey, nextKey)
  {
    DescribeTransitionMatches(previousKey, nextKey);
    MatchKeysClassifies(previousKey, nextKey);
  }

  /**
   * `normalizeKey`: a valid key object is kept, a parsable string is parsed,
   * and anything else becomes the default key.
   */
  function NormalizeKey(value: Value): (r: OpenKey)
    ensures IsValidKey(r)
    ensures IsOpenKey(value) ==> r == KeyOf(value)
    ensures !IsOpenKey(value) && ParseKeyValue(value).Some? ==> r == ParseKeyValue(value).value
    ensures !IsOpenKey(value) && ParseKeyValue(value).None? ==> r == DefaultKey
  {
    if Truthy(value) && value.Obj? && IsOpenKey(value) then KeyOf(value)
    else if value.Str? && ParseKey(value.s).Some? then ParseKey(value.s).value
    else DefaultKey
  }

  /** A valid key survives normalisation both as an object and as its formatted string. */
  lemma NormalizeKeyKeeps(k: OpenKey)
    requires IsValidKey(k)
    ensures NormalizeKey(ToValue(k)) == k
    ensures NormalizeKey(Str(FormatOpenKey(k))) == k
  {
    IsOpenKeyOfKey(k);
    ParseFormatRoundTrip(k);
    assert !IsOpenKey(Str(FormatOpenKey(k)));
  }

  /** Normalising the object form of a normalised key changes nothing. */
  lemma NormalizeKeyIdempotent(v: Value)
    ensures NormalizeKey(ToValue(NormalizeKey(v))) == NormalizeKey(v)
  {
    NormalizeKeyKeeps(NormalizeKey(v));
  }

  /** `normalizeKeys`: every given key normalised, or the default key alone when none are given. */
  function NormalizeKeys(keys: Option<seq<Value>>): (r: seq<OpenKey>)
    ensures |r| >= 1
    ensures forall i :: 0 <= i < |r| ==> IsValidKey(r[i])
    ensures keys.Some? && |keys.value| > 0 ==>
      |r| == |keys.value| && forall i :: 0 <= i < |r| ==> r[i] == NormalizeKey(keys.value[i])
    ensures keys.None? || |keys.value| == 0 ==> r == [DefaultKey]
  {
    if keys.Some? && |keys.value| > 0 then
      seq(|keys.value|, i requires 0 <= i < |keys.value| => NormalizeKey(keys.value[i]))
    else [DefaultKey]
  }

  /** `name?.trim() || "Untitled Mix"` */
  function MixName(name: Option<string>): (r: string)
    ensures r != "" && Trimmed(r)
    ensures name.Some? && Trim(name.value) != "" ==> r == Trim(name.value)
    ensures name.None? || Trim(name.value) == "" ==> r == UntitledName
  {
    var trimmed := if name.Some? then Trim(name.value) else "";
    if trimmed != "" then trimmed else UntitledName
  }

  /** Naming is stable: naming a mix by its own name keeps that name. */
  lemma MixNameStable(name: Option<string>)
    ensures MixName(Some(MixName(name))) == MixName(name)
  {
  }

  /** `CreateMixOptions`; an absent options object is both fields absent. */
  datatype CreateMixOptions = CreateMixOptions(name: Option<string>, keys: Option<seq<Value>>)

  /** The title and details a newly created track at `index` starts with. */
  function CreatedTrack(id: string, key: OpenKey, index: nat): MixTrack {
    MixTrack(id, key, if index == 0 then OpeningTitle else "", "")
  }

  /**
   * `createMixRecord`: one track per normalised key (a single default-key
   * track when no keys are given), the first titled "Opening Track", and the
   * start key equal to the first track's key.
   */
  function CreateMixRecord(options: CreateMixOptions, mixId: string, trackId: nat -> string, createdAt: int): (r: Mix)
    ensures r.id == mixId && r.createdAt == createdAt
    ensures r.name == MixName(options.name)
    ensures |r.tracks| == if options.keys.Some? && |options.keys.value| > 0 then |options.keys.value| else 1
    ensures r.startKey == r.tracks[0].key
    ensures forall i :: 0 <= i < |r.tracks| ==>
      && r.tracks[i].id == trackId(i)
      && r.tracks[i].key == NormalizeKeys(options.keys)[i]
      && IsValidKey(r.tracks[i].key)
      && r.tracks[i].title == (if i == 0 then OpeningTitle else "")
      && r.tracks[i].details == ""
  {
    var keys := NormalizeKeys(options.keys);
    var tracks := seq(|keys|, i requires 0 <= i < |keys| => CreatedTrack(trackId(i), keys[i], i));
    assert tracks[0] == CreatedTrack(trackId(0), keys[0], 0);
    Mix(mixId, MixName(options.name), keys[0], tracks, createdAt)
  }

  /** Creating a mix without keys seeds a single 8m opening track rather than an empty timeline. */
  lemma CreateWithoutKeys(name: Option<string>, mixId: string, trackId: nat -> string, createdAt: int)
    ensures CreateMixRecord(CreateMixOptions(name, None), mixId, trackId, createdAt).tracks
         == [MixTrack(trackId(0), OpenKey(M, 8), OpeningTitle, "")]
    ensures CreateMixRecord(CreateMixOptions(name, Some([])), mixId, trackId, createdAt).tracks
         == [MixTrack(trackId(0), OpenKey(M, 8), OpeningTitle, "")]
  {
  }

  /** `appendTrack`: one new untitled track at the end; nothing else changes, `startKey` included. */
  function AppendTrack(mix: Mix, key: OpenKey, trackId: string): (r: Mix)
    ensures |r.tracks| == |mix.tracks| + 1
    ensures r.tracks[..|mix.tracks|] == mix.tracks
    ensures r.tracks[|mix.tracks|] == MixTrack(trackId, key, "", "")
    ensures r.id == mix.id && r.name == mix.name && r.startKey == mix.startKey && r.createdAt == mix.createdAt
  {
    mix.(tracks := mix.tracks + [MixTrack(trackId, key, "", "")])
  }

  /** `renameMix`: the trimmed name, or "Untitled Mix" when blank; nothing else changes. */
  function RenameMix(mix: Mix, name: string): (r: Mix)
    ensures r.name == MixName(Some(name))
    ensures r.id == mix.id && r.startKey == mix.startKey && r.tracks == mix.tracks && r.createdAt == mix.createdAt
  {
    mix.(name := MixName(Some(name)))
  }

  /** Renaming twice with the same name is renaming once, and renaming to the current name changes nothing. */
  lemma RenameMixIdempotent(mix: Mix, name: string)
    ensures RenameMix(RenameMix(mix, name), name) == RenameMix(mix, name)
    ensures RenameMix(RenameMix(mix, name), RenameMix(mix, name).name) == RenameMix(mix, name)
  {
    MixNameStable(Some(name));
  }

  /** The fields an `updateTrackInfo` call supplies; an absent field is left alone. */
  datatype TrackUpdates = TrackUpdates(title: Option<string>, details: Option<string>)

  function ApplyUpdates(track: MixTrack, updates: TrackUpdates): MixTrack {
    track.(title := updates.title.GetOr(track.title), details := updates.details.GetOr(track.details))
  }

  /** `updateTrackInfo`: the tracks with this id take the supplied fields; every other track is unchanged. */
  function UpdateTrackInfo(mix: Mix, trackId: string, updates: TrackUpdates): (r: Mix)
    ensures |r.tracks| == |mix.tracks|
    ensures forall i :: 0 <= i < |r.tracks| ==>
      && r.tracks[i].id == mix.tracks[i].id
      && r.tracks[i].key == mix.tracks[i].key
      && (mix.tracks[i].id == trackId ==>
            r.tracks[i].title == updates.title.GetOr(mix.tracks[i].title)
            && r.tracks[i].details == updates.details.GetOr(mix.tracks[i].details))
      && (mix.tracks[i].id != trackId ==> r.tracks[i] == mix.tracks[i])
    ensures r.id == mix.id && r.name == mix.name && r.startKey == mix.startKey && r.createdAt == mix.createdAt
  {
    mix.(tracks := seq(|mix.tracks|, i requires 0 <= i < |mix.tracks| =>
      if mix.tracks[i].id == trackId then ApplyUpdates(mix.tracks[i], updates) else mix.tracks[i]))
  }

  predicate HasTrack(tracks: seq<MixTrack>, trackId: string) {
    exists i :: 0 <= i < |tracks| && tracks[i].id == trackId
  }

  /** Updating an id no track carries returns an equal mix; applying the same update twice is applying it once. */
  lemma UpdateTrackInfoLaws(mix: Mix, trackId: string, updates: TrackUpdates)
    ensures !HasTrack(mix.tracks, trackId) ==> UpdateTrackInfo(mix, trackId, updates) == mix
    ensures UpdateTrackInfo(UpdateTrackInfo(mix, trackId, updates), trackId, updates)
         == UpdateTrackInfo(mix, trackId, updates)
  {
    var once := UpdateTrackInfo(mix, trackId, updates);
    assert UpdateTrackInfo(once, trackId, updates).tracks == once.tracks;
    if !HasTrack(mix.tracks, trackId) {
      assert once.tracks == mix.tracks;
    }
  }

  /** `tracks.filter((track) => track.id !== trackId)` */
  function WithoutTrack(tracks: seq<MixTrack>, trackId: string): (r: seq<MixTrack>)
    ensures |r| <= |tracks|
    ensures forall t :: t in r <==> t in tracks && t.id != trackId
    ensures |r| == |tracks| <==> !HasTrack(tracks, trackId)
    ensures !HasTrack(tracks, trackId) ==> r == tracks
    decreases |tracks|
  {
    if tracks == [] then []
    else
      var rest := WithoutTrack(tracks[1..], trackId);
      assert HasTrack(tracks, trackId) <==> tracks[0].id == trackId || HasTrack(tracks[1..], trackId) by {
        if HasTrack(tracks[1..], trackId) {
          var i :| 0 <= i < |tracks[1..]| && tracks[1..][i].id == trackId;
          assert tracks[i + 1].id == trackId;
        }
        if HasTrack(tracks, trackId) && tracks[0].id != trackId {
          var i :| 0 <= i < |tracks| && tracks[i].id == trackId;
          assert tracks[1..][i - 1].id == trackId;
        }
      }
      assert forall t :: t in tracks <==> t == tracks[0] || t in tracks[1..];
      if tracks[0].id == trackId then rest else [tracks[0]] + rest
  }

  /** Filtering distributes over concatenation, so the surviving tracks keep their order. */
  lemma {:induction false} WithoutTrackConcat(a: seq<MixTrack>, b: seq<MixTrack>, trackId: string)
    ensures WithoutTrack(a + b, trackId) == WithoutTrack(a, trackId) + WithoutTrack(b, trackId)
    decreases |a|
  {
    if a == [] {
      assert a + b == b;
    } else {
      assert (a + b)[1..] == a[1..] + b;
      WithoutTrackConcat(a[1..], b, trackId);
    }
  }

  /**
   * `removeTrack`: the tracks without this id, in order; the very same mix
   * when no track has it. `startKey` is never touched.
   */
  function RemoveTrack(mix: Mix, trackId: string): (r: Mix)
    ensures r.tracks == WithoutTrack(mix.tracks, trackId)
    ensures !HasTrack(mix.tracks, trackId) ==> r == mix
    ensures r.id == mix.id && r.name == mix.name && r.startKey == mix.startKey && r.createdAt == mix.createdAt
  {
    var nextTracks := WithoutTrack(mix.tracks, trackId);
    if |nextTracks| == |mix.tracks| then mix else mix.(tracks := nextTracks)
  }

  /** Removing a freshly appended track gives back the mix it was appended to. */
  lemma RemoveAfterAppend(mix: Mix, key: OpenKey, trackId: string)
    requires !HasTrack(mix.tracks, trackId)
    ensures RemoveTrack(AppendTrack(mix, key, trackId), trackId) == mix
  {
    AppendWithout(mix.tracks, MixTrack(trackId, key, "", ""));
  }

  lemma {:induction false} AppendWithout(tracks: seq<MixTrack>, t: MixTrack)
    requires !HasTrack(tracks, t.id)
    ensures WithoutTrack(tracks + [t], t.id) == tracks
    decreases |tracks|
  {
    if tracks == [] {
      assert [t][1..] == [];
    } else {
      assert (tracks + [t])[1..] == tracks[1..] + [t];
      AppendWithout(tracks[1..], t);
      assert tracks[0].id != t.id;
    }
  }

  /** `StoredTrack`: a track as read back from storage, every field possibly missing. */
  datatype StoredTrack = StoredTrack(
    id: Option<string>,
    key: Value,
    title: Option<string>,
    details: Option<string>,
    bpm: Value)

  /** The details of a stored track: its own when non-empty, else "N BPM" from a numeric bpm. */
  function StoredDetails(track: StoredTrack): (details: string)
    ensures track.details.Some? && track.details.value != "" ==> details == track.details.value
    ensures (track.details.None? || track.details.value == "") && track.bpm.Num? ==>
      details == IntToString(track.bpm.n) + " BPM"
    ensures (track.details.None? || track.details.value == "") && !track.bpm.Num? ==> details == ""
  {
    var details := track.details.GetOr("");
    if details == "" && !track.bpm.Undefined? then
      if track.bpm.Num? then IntToString(track.bpm.n) + " BPM" else ""
    else details
  }

  /** `normalizeTrack`: fill in a stored track at `index`, taking `freshId` when it has no id. */
  function NormalizeTrack(track: StoredTrack, index: nat, freshId: string): (r: MixTrack)
    ensures IsValidKey(r.key) && r.key == NormalizeKey(track.key)
    ensures r.id == if track.id.Some? && track.id.value != "" then track.id.value else freshId
    ensures track.title.Some? && track.title.value != "" ==> r.title == track.title.value
    ensures track.title.None? || track.title.value == "" ==> r.title == if index == 0 then OpeningTitle else ""
    ensures r.details == StoredDetails(track)
  {
    var fallbackTitle := if index == 0 then OpeningTitle else "";
    MixTrack(
      if track.id.Some? && track.id.value != "" then track.id.value else freshId,
      NormalizeKey(track.key),
      if track.title.Some? && |track.title.value| > 0 then track.title.value else fallbackTitle,
      StoredDetails(track))
  }

  /** `Partial<Mix>` as read back from storage; `tracks` is `None` when it is not an array. */
  datatype StoredMix = StoredMix(
    id: Option<string>,
    name: Value,
    startKey: Value,
    tracks: Option<seq<StoredTrack>>,
    createdAt: Option<int>)

  /** The normalised tracks, one per stored track, in order. */
  function NormalizedTracks(stored: seq<StoredTrack>, trackId: nat -> string): (r: seq<MixTrack>)
    ensures |r| == |stored|
    ensures forall i :: 0 <= i < |r| ==> r[i] == NormalizeTrack(stored[i], i, trackId(i))
  {
    seq(|stored|, i requires 0 <= i < |stored| => NormalizeTrack(stored[i], i, trackId(i)))
  }

  /** `typeof name === "string" && name.trim().length > 0 ? name : "Untitled Mix"`: kept untrimmed. */
  function StoredName(name: Value): (r: string)
    ensures r != ""
    ensures name.Str? && Trim(name.s) != "" ==> r == name.s
    ensures !name.Str? || Trim(name.s) == "" ==> r == UntitledName
  {
    if name.Str? && |Trim(name.s)| > 0 then name.s else UntitledName
  }

  /**
   * `normalizeKey(mix.startKey ?? tracks[0]?.key)`. The first track's key is
   * already a normalised key object, which `normalizeKey` returns unchanged
   * (`NormalizeKeyKeeps`), so it is used directly.
   */
  function StoredStartKey(startKey: Value, tracks: seq<MixTrack>): (r: OpenKey)
    requires forall i :: 0 <= i < |tracks| ==> IsValidKey(tracks[i].key)
    ensures IsValidKey(r)
    ensures !IsNullish(startKey) ==> r == NormalizeKey(startKey)
    ensures IsNullish(startKey) && tracks == [] ==> r == DefaultKey
    ensures IsNullish(startKey) && tracks != [] ==> r == tracks[0].key
  {
    if !IsNullish(startKey) then NormalizeKey(startKey)
    else if tracks == [] then NormalizeKey(Undefined)
    else tracks[0].key
  }

  /** The normalised mix, as a value. */
  function NormalizedMix(mix: StoredMix, mixId: string, trackId: nat -> string, now: int): (r: Mix)
    ensures |r.tracks| == if mix.tracks.Some? then |mix.tracks.value| else 0
    ensures forall i :: 0 <= i < |r.tracks| ==> IsValidKey(r.tracks[i].key)
    ensures mix.tracks.Some? ==> r.tracks == NormalizedTracks(mix.tracks.value, trackId)
    ensures r.id == if mix.id.Some? && mix.id.value != "" then mix.id.value else mixId
    ensures r.name == StoredName(mix.name)
    ensures r.startKey == StoredStartKey(mix.startKey, r.tracks)
    ensures r.createdAt == if mix.createdAt.Some? && mix.createdAt.value != 0 then mix.createdAt.value else now
  {
    var tracks := if mix.tracks.Some? then NormalizedTracks(mix.tracks.value, trackId) else [];
    Mix(
      if mix.id.Some? && mix.id.value != "" then mix.id.value else mixId,
      StoredName(mix.name),
      StoredStartKey(mix.startKey, tracks),
      tracks,
      if mix.createdAt.Some? && mix.createdAt.value != 0 then mix.createdAt.value else now)
  }

  /** Normalising one more stored track appends its normalised form. */
  lemma NormalizedTracksSnoc(stored: seq<StoredTrack>, index: nat, trackId: nat -> string)
    requires index < |stored|
    ensures NormalizedTracks(stored[..index + 1], trackId)
         == NormalizedTracks(stored[..index], trackId) + [NormalizeTrack(stored[index], index, trackId(index))]
  {
    var s1, s0 := stored[..index + 1], stored[..index];
    var a, b := NormalizedTracks(s1, trackId), NormalizedTracks(s0, trackId);
    var last := NormalizeTrack(stored[index], index, trackId(index));
    assert forall i :: 0 <= i < |b| ==> a[i] == b[i] by {
      forall i | 0 <= i < |b|
        ensures a[i] == b[i]
      {
        assert s1[i] == s0[i];
      }
    }
    assert a[|b|] == last by {
      assert s1[index] == stored[index];
    }
    SnocOfPrefix(a, b, last);
  }

  lemma SnocOfPrefix<T>(a: seq<T>, b: seq<T>, last: T)
    requires |a| == |b| + 1 && a[|b|] == last
    requires forall i :: 0 <= i < |b| ==> a[i] == b[i]
    ensures a == b + [last]
  {
  }

  /** `normalizeMix`: the stored tracks are normalised one by one into a fresh list. */
  method NormalizeMix(mix: StoredMix, mixId: string, trackId: nat -> string, now: int) returns (r: Mix)
    ensures r == NormalizedMix(mix, mixId, trackId, now)
  {
    var tracks: seq<MixTrack> := [];
    if mix.tracks.Some? {
      var stored := mix.tracks.value;
      for index := 0 to |stored|
        invariant tracks == NormalizedTracks(stored[..index], trackId)
      {
        var normalized := NormalizeTrack(stored[index], index, trackId(index));
        NormalizedTracksSnoc(stored, index, trackId);
        tracks := tracks + [normalized];
      }
      assert stored[..|stored|] == stored;
    }
    r := Mix(
      if mix.id.Some? && mix.id.value != "" then mix.id.value else mixId,
      StoredName(mix.name),
      StoredStartKey(mix.startKey, tracks),
      tracks,
      if mix.createdAt.Some? && mix.createdAt.value != 0 then mix.createdAt.value else now);
  }

  /** A track as it is written to storage. */
  function StoreTrack(t: MixTrack): StoredTrack {
    StoredTrack(Some(t.id), ToValue(t.key), Some(t.title), Some(t.details), Undefined)
  }

  /** A mix as it is written to storage. */
  function StoreMix(m: Mix): StoredMix {
    StoredMix(Some(m.id), Str(m.name), ToValue(m.startKey),
      Some(StoreTracks(m.tracks)), Some(m.createdAt))
  }

  /** Mixes that normalisation leaves alone. */
  predicate WellFormedMix(m: Mix) {
    && m.id != "" && Trim(m.name) != "" && m.createdAt != 0 && IsValidKey(m.startKey)
    && (forall i :: 0 <= i < |m.tracks| ==> m.tracks[i].id != "" && IsValidKey(m.tracks[i].key))
    && (|m.tracks| > 0 ==> m.tracks[0].title != "")
  }

  /** A stored well-formed track normalises back to itself. */
  lemma LoadTrackAfterSave(t: MixTrack, index: nat, freshId: string)
    requires t.id != "" && IsValidKey(t.key) && (index == 0 ==> t.title != "")
    ensures NormalizeTrack(StoreTrack(t), index, freshId) == t
  {
    NormalizeKeyKeeps(t.key);
  }

  function StoreTracks(tracks: seq<MixTrack>): (r: seq<StoredTrack>)
    ensures |r| == |tracks| && forall i :: 0 <= i < |r| ==> r[i] == StoreTrack(tracks[i])
  {
    seq(|tracks|, i requires 0 <= i < |tracks| => StoreTrack(tracks[i]))
  }

  lemma LoadTracksAfterSave(tracks: seq<MixTrack>, trackId: nat -> string)
    requires forall i :: 0 <= i < |tracks| ==> tracks[i].id != "" && IsValidKey(tracks[i].key)
    requires |tracks| > 0 ==> tracks[0].title != ""
    ensures NormalizedTracks(StoreTracks(tracks), trackId) == tracks
  {
    var r := NormalizedTracks(StoreTracks(tracks), trackId);
    forall i | 0 <= i < |tracks|
      ensures r[i] == tracks[i]
    {
      LoadTrackAfterSave(tracks[i], i, trackId(i));
    }
  }

  /** Loading what was saved: normalising the stored form of a well-formed mix gives it back. */
  lemma LoadAfterSave(m: Mix, mixId: string, trackId: nat -> string, now: int)
    requires WellFormedMix(m)
    ensures NormalizedMix(StoreMix(m), mixId, trackId, now) == m
  {
    var stored := StoreMix(m);
    var r := NormalizedMix(stored, mixId, trackId, now);
    assert r.tracks == m.tracks by {
      LoadTracksAfterSave(m.tracks, trackId);
    }
    assert r.startKey == m.startKey by {
      NormalizeKeyKeeps(m.startKey);
    }
    assert r.id == m.id && r.name == m.name && r.createdAt == m.createdAt;
  }

  /** The stored form of every mix, as `JSON.stringify` writes the list. */
  function StoreMixes(mixes: seq<Mix>): (r: seq<StoredMix>)
    ensures |r| == |mixes| && forall i :: 0 <= i < |r| ==> r[i] == StoreMix(mixes[i])
  {
    seq(|mixes|, i requires 0 <= i < |mixes| => StoreMix(mixes[i]))
  }

  /** `saveMixes`: the text written under the storage key. */
  function SaveMixes(mixes: seq<Mix>, serialize: seq<StoredMix> -> string): (r: string)
    ensures exists stored ::
      && r == serialize(stored)
      && |stored| == |mixes|
      && forall i :: 0 <= i < |mixes| ==> stored[i] == StoreMix(mixes[i])
  {
    var stored := StoreMixes(mixes);
    serialize(stored)
  }

  /**
   * `loadMixes`: nothing for a missing or empty entry, or when `parse` fails
   * (`None` stands for invalid JSON, a non-array, or an entry that makes
   * `normalizeMix` throw, all of which the `catch` turns into nothing);
   * otherwise every stored mix normalised, in order. Mix `i` takes
   * `mixIds(i)` and its track `j` takes `trackIds(i)(j)` when it has no id.
   */
  function LoadMixes(raw: Option<string>, parse: string -> Option<seq<StoredMix>>,
                     mixIds: nat -> string, trackIds: nat -> nat -> string, now: int): (r: seq<Mix>)
    ensures raw.None? || raw.value == "" || parse(raw.value).None? ==> r == []
    ensures raw.Some? && raw.value != "" && parse(raw.value).Some? ==>
      var stored := parse(raw.value).value;
      |r| == |stored| && forall i :: 0 <= i < |r| ==> r[i] == NormalizedMix(stored[i], mixIds(i), trackIds(i), now)
  {
    if raw.None? || raw.value == "" then []
    else
      match parse(raw.value)
      case None => []
      case Some(stored) =>
        seq(|stored|, i requires 0 <= i < |stored| => NormalizedMix(stored[i], mixIds(i), trackIds(i), now))
  }

  /**
   * Saving well-formed mixes and loading them back gives the same mixes, when
   * `parse` reads back what `serialize` wrote and the text is not empty.
   */
  lemma LoadMixesAfterSave(mixes: seq<Mix>, serialize: seq<StoredMix> -> string,
                           parse: string -> Option<seq<StoredMix>>,
                           mixIds: nat -> string, trackIds: nat -> nat -> string, now: int)
    requires forall i :: 0 <= i < |mixes| ==> WellFormedMix(mixes[i])
    requires SaveMixes(mixes, serialize) != ""
    requires parse(SaveMixes(mixes, serialize)) == Some(StoreMixes(mixes))
    ensures LoadMixes(Some(SaveMixes(mixes, serialize)), parse, mixIds, trackIds, now) == mixes
  {
    var r := LoadMixes(Some(SaveMixes(mixes, serialize)), parse, mixIds, trackIds, now);
    forall i | 0 <= i < |mixes|
      ensures r[i] == mixes[i]
    {
      LoadAfterSave(mixes[i], mixIds(i), trackIds(i), now);
    }
  }

  /** A freshly created mix is well formed when its ids are non-empty and its timestamp is set. */
  lemma CreatedMixWellFormed(options: CreateMixOptions, mixId: string, trackId: nat -> string, createdAt: int)
    requires mixId != "" && createdAt != 0
    requires forall i: nat :: trackId(i) != ""
    ensures WellFormedMix(CreateMixRecord(options, mixId, trackId, createdAt))
  {
  }

  /**
   * Appending a track with a valid key and a non-empty id to a non-empty mix
   * keeps it well formed. (Appended to an empty timeline the new track is
   * untitled, and loading it back titles it "Opening Track".)
   */
  lemma AppendKeepsWellFormed(mix: Mix, key: OpenKey, trackId: string)
    requires WellFormedMix(mix) && IsValidKey(key) && trackId != "" && |mix.tracks| > 0
    ensures WellFormedMix(AppendTrack(mix, key, trackId))
  {
    var m := AppendTrack(mix, key, trackId);
    forall i | 0 <= i < |m.tracks|
      ensures m.tracks[i].id != "" && IsValidKey(m.tracks[i].key)
    {
      if i < |mix.tracks| {
        assert m.tracks[i] == mix.tracks[i];
      }
    }
    assert m.tracks[0] == mix.tracks[0];
  }

  /** Renaming keeps a mix well formed. */
  lemma RenameKeepsWellFormed(mix: Mix, name: string)
    requires WellFormedMix(mix)
    ensures WellFormedMix(RenameMix(mix, name))
  {
  }

  /** Updating with a non-empty title, if any, keeps a mix well formed. */
  lemma UpdateKeepsWellFormed(mix: Mix, trackId: string, updates: TrackUpdates)
    requires WellFormedMix(mix)
    requires updates.title.Some? ==> updates.title.value != ""
    ensures WellFormedMix(UpdateTrackInfo(mix, trackId, updates))
  {
  }

  /** Removing a track keeps a mix well formed when the opening track keeps a title. */
  lemma RemoveKeepsWellFormed(mix: Mix, trackId: string)
    requires WellFormedMix(mix)
    requires forall i :: 0 <= i < |mix.tracks| ==> mix.tracks[i].title != ""
    ensures WellFormedMix(RemoveTrack(mix, trackId))
  {
    var r := RemoveTrack(mix, trackId);
    forall i | 0 <= i < |r.tracks|
      ensures r.tracks[i].id != "" && IsValidKey(r.tracks[i].key) && r.tracks[i].title != ""
    {
      assert r.tracks[i] in mix.tracks;
    }
  }
}
