/**
 * Importing a Traktor NML playlist (app/core/nml-parser.ts): Traktor's
 * MUSICAL_KEY codes are translated to Open Keys through a fixed table, the
 * collection is indexed by file location, and the playlist's references are
 * joined against that index in playlist order.
 *
 * The XML document is given already extracted into records: which elements
 * and attributes are present, the BPM as an already rounded integer, and the
 * key code as an integer (absent when the attribute is missing or does not
 * parse as a number).
 */
module NmlParser {
  import opened Wrappers
  import opened OpenKeys
  import opened Transitions

  /**
   * `TRAKTOR_KEY_TO_OPEN_KEY`, a record whose own properties are exactly the
   * codes 0..23, here listed by code: 0..11 are the d keys, 12..23 the m keys.
   */
  const TraktorTable: seq<OpenKey> := [
    OpenKey(D, 1), OpenKey(D, 8), OpenKey(D, 3), OpenKey(D, 10),
    OpenKey(D, 5), OpenKey(D, 12), OpenKey(D, 7), OpenKey(D, 2),
    OpenKey(D, 9), OpenKey(D, 4), OpenKey(D, 11), OpenKey(D, 6),
    OpenKey(M, 10), OpenKey(M, 5), OpenKey(M, 12), OpenKey(M, 7),
    OpenKey(M, 2), OpenKey(M, 9), OpenKey(M, 4), OpenKey(M, 11),
    OpenKey(M, 6), OpenKey(M, 1), OpenKey(M, 8), OpenKey(M, 3)]

  /** `traktorKeyToOpenKey`: the table entry for a code, if the record has one. */
  function TraktorKeyToOpenKey(value: int): (r: Option<OpenKey>)
    ensures r.Some? <==> 0 <= value < |TraktorTable|
    ensures r.Some? ==> r.value == TraktorTable[value]
  {
    if 0 <= value < |TraktorTable| then Some(TraktorTable[value]) else None
  }

  /** The table is defined on exactly the codes 0..23; the first half are d keys, the second m keys. */
  lemma TraktorDomain(value: int)
    ensures TraktorKeyToOpenKey(value).Some? <==> 0 <= value < 24
    ensures 0 <= value < 12 ==> TraktorKeyToOpenKey(value).value.letter == D
    ensures 12 <= value < 24 ==> TraktorKeyToOpenKey(value).value.letter == M
    ensures 0 <= value < 24 ==> IsValidKey(TraktorKeyToOpenKey(value).value)
  {
  }

  /** The inverse of the table: the code Traktor uses for an Open Key. */
  function TraktorCode(k: OpenKey): int {
    if k.letter == D then (7 * (k.number - 1)) % 12 else 12 + (7 * (k.number + 2)) % 12
  }

  /** Every code is recovered from its key... */
  lemma TraktorCodeOfTable(value: int)
    requires 0 <= value < 24
    ensures TraktorCode(TraktorTable[value]) == value
  {
  }

  /** ...and every valid key has a code that maps back to it, so the table is a bijection onto the valid keys. */
  lemma TableOfTraktorCode(k: OpenKey)
    requires IsValidKey(k)
    ensures TraktorKeyToOpenKey(TraktorCode(k)) == Some(k)
  {
    // where each number sits in the d half and in the m half of the table
    var dCodes := [0, 7, 2, 9, 4, 11, 6, 1, 8, 3, 10, 5];
    var mCodes := [21, 16, 23, 18, 13, 20, 15, 22, 17, 12, 19, 14];
    var c := if k.letter == D then dCodes[k.number - 1] else mCodes[k.number - 1];
    assert 0 <= c < 24 && TraktorTable[c] == k;
    TraktorCodeOfTable(c);
  }

  /** Hence distinct codes give distinct keys. */
  lemma TraktorInjective(a: int, b: int)
    requires 0 <= a < 24 && 0 <= b < 24 && a != b
    ensures TraktorTable[a] != TraktorTable[b]
  {
    TraktorCodeOfTable(a);
    TraktorCodeOfTable(b);
  }

  /** Within each half the next code is seven steps on around the wheel; the m half trails the d half by three. */
  lemma TraktorWheelSteps(value: int)
    requires 0 <= value < 24
    ensures value != 11 && value != 23 ==>
      TraktorTable[value + 1].letter == TraktorTable[value].letter
      && (TraktorTable[value + 1].number - (TraktorTable[value].number + 7)) % 12 == 0
    ensures value < 12 ==> (TraktorTable[value + 12].number - (TraktorTable[value].number - 3)) % 12 == 0
  {
  }

  /** `LOCATION`: each attribute may be missing. */
  datatype Location = Location(volume: Option<string>, dir: Option<string>, file: Option<string>)

  /** A `COLLECTION > ENTRY` element. */
  datatype CollectionEntry = CollectionEntry(
    title: Option<string>,
    artist: Option<string>,
    bpm: Option<int>,
    keyCode: Option<int>,
    location: Option<Location>)

  /** A `PLAYLIST > ENTRY > PRIMARYKEY` element: its `KEY` attribute, if present. */
  datatype PrimaryKey = PrimaryKey(key: Option<string>)

  /** The `NODE[TYPE="PLAYLIST"]` element. */
  datatype PlaylistNode = PlaylistNode(name: Option<string>, entries: seq<PrimaryKey>)

  /** The parsed document. */
  datatype NmlDocument = NmlDocument(
    parserError: bool,
    collection: seq<CollectionEntry>,
    playlist: Option<PlaylistNode>)

  /** `NmlTrack` (also the shape of `CollectionTrack`). */
  datatype NmlTrack = NmlTrack(title: string, artist: string, bpm: Option<int>, key: Option<OpenKey>)

  /** `NmlPlaylist` */
  datatype NmlPlaylist = NmlPlaylist(name: string, tracks: seq<NmlTrack>)

  const ParseErrorMessage: string := "Invalid NML file: XML parsing failed"
  const ImportedName: string := "Imported Mix"

  /** `getAttribute(...) || ""` */
  function OrEmpty(attr: Option<string>): string {
    attr.GetOr("")
  }

  /** The track metadata a collection entry contributes. */
  function EntryTrack(e: CollectionEntry): (t: NmlTrack)
    ensures t.title == OrEmpty(e.title) && t.artist == OrEmpty(e.artist) && t.bpm == e.bpm
    ensures e.keyCode.None? ==> t.key.None?
    ensures e.keyCode.Some? ==> t.key == TraktorKeyToOpenKey(e.keyCode.value)
    ensures t.key.Some? ==> IsValidKey(t.key.value)
  {
    NmlTrack(OrEmpty(e.title), OrEmpty(e.artist), e.bpm,
      if e.keyCode.Some? then
        TraktorDomain(e.keyCode.value);
        TraktorKeyToOpenKey(e.keyCode.value)
      else None)
  }

  /** `${volume}${dir}${file}` */
  function FileKey(loc: Location): string {
    OrEmpty(loc.volume) + OrEmpty(loc.dir) + OrEmpty(loc.file)
  }

  /** Whether entry `i` is indexed under `fileKey`. */
  predicate IndexedAs(entries: seq<CollectionEntry>, i: int, fileKey: string)
    requires 0 <= i < |entries|
  {
    entries[i].location.Some? && FileKey(entries[i].location.value) == fileKey
  }

  /** The collection index after processing the entries in order (`collectionMap`). */
  function CollectionIndex(entries: seq<CollectionEntry>): map<string, NmlTrack>
    decreases |entries|
  {
    if entries == [] then map[]
    else
      var index := CollectionIndex(entries[..|entries| - 1]);
      var last := entries[|entries| - 1];
      if last.location.Some? then index[FileKey(last.location.value) := EntryTrack(last)] else index
  }

  /**
   * A file key is indexed exactly when some located entry has it, and it maps to
   * the last such entry: entries without LOCATION are skipped and later entries
   * overwrite earlier ones.
   */
  lemma {:induction false} CollectionIndexLastWins(entries: seq<CollectionEntry>, fileKey: string)
    ensures fileKey in CollectionIndex(entries) <==> exists i :: 0 <= i < |entries| && IndexedAs(entries, i, fileKey)
    ensures fileKey in CollectionIndex(entries) ==>
      exists i :: 0 <= i < |entries| && IndexedAs(entries, i, fileKey)
        && CollectionIndex(entries)[fileKey] == EntryTrack(entries[i])
        && forall j :: i < j < |entries| ==> !IndexedAs(entries, j, fileKey)
    decreases |entries|
  {
    if entries != [] {
      var init := entries[..|entries| - 1];
      var n := |entries| - 1;
      CollectionIndexLastWins(init, fileKey);
      assert forall i :: 0 <= i < n ==> (IndexedAs(init, i, fileKey) <==> IndexedAs(entries, i, fileKey));
      if IndexedAs(entries, n, fileKey) {
        assert CollectionIndex(entries)[fileKey] == EntryTrack(entries[n]);
      } else if fileKey in CollectionIndex(init) {
        var i :| 0 <= i < n && IndexedAs(init, i, fileKey)
          && CollectionIndex(init)[fileKey] == EntryTrack(init[i])
          && forall j :: i < j < n ==> !IndexedAs(init, j, fileKey);
        assert IndexedAs(entries, i, fileKey) && CollectionIndex(entries)[fileKey] == EntryTrack(entries[i]);
      }
    }
  }

  /** The tracks a playlist's references resolve to, in playlist order (spec of the second loop). */
  function JoinPlaylist(refs: seq<PrimaryKey>, index: map<string, NmlTrack>): (tracks: seq<NmlTrack>)
    ensures |tracks| <= |refs|
    decreases |refs|
  {
    if refs == [] then []
    else
      var tracks := JoinPlaylist(refs[..|refs| - 1], index);
      var key := refs[|refs| - 1].key;
      if key.Some? && key.value != "" && key.value in index then tracks + [index[key.value]] else tracks
  }

  /** Whether a playlist entry resolves to a collection track. */
  predicate Resolves(r: PrimaryKey, index: map<string, NmlTrack>) {
    r.key.Some? && r.key.value != "" && r.key.value in index
  }

  /** The join distributes over concatenation: order is kept and unresolved entries are dropped. */
  lemma {:induction false} JoinPlaylistConcat(a: seq<PrimaryKey>, b: seq<PrimaryKey>, index: map<string, NmlTrack>)
    ensures JoinPlaylist(a + b, index) == JoinPlaylist(a, index) + JoinPlaylist(b, index)
    decreases |b|
  {
    if b == [] {
      assert a + b == a;
    } else {
      var b0 := b[..|b| - 1];
      assert (a + b)[..|a + b| - 1] == a + b0;
      assert (a + b)[|a + b| - 1] == b[|b| - 1];
      JoinPlaylistConcat(a, b0, index);
    }
  }

  /** A single entry contributes its collection track when it resolves and nothing otherwise. */
  lemma JoinPlaylistSingle(r: PrimaryKey, index: map<string, NmlTrack>)
    ensures JoinPlaylist([r], index) == if Resolves(r, index) then [index[r.key.value]] else []
  {
    assert [r][..0] == [];
  }

  /** When every entry resolves, there is one track per entry, each the indexed track. */
  lemma {:induction false} JoinPlaylistAllResolve(refs: seq<PrimaryKey>, index: map<string, NmlTrack>)
    requires forall i :: 0 <= i < |refs| ==> Resolves(refs[i], index)
    ensures |JoinPlaylist(refs, index)| == |refs|
    ensures forall i :: 0 <= i < |refs| ==>
      Resolves(refs[i], index) && JoinPlaylist(refs, index)[i] == index[refs[i].key.value]
    decreases |refs|
  {
    if refs != [] {
      JoinPlaylistAllResolve(refs[..|refs| - 1], index);
    }
  }

  /** `playlistNode?.getAttribute("NAME") || "Imported Mix"` */
  function PlaylistName(node: Option<PlaylistNode>): (name: string)
    ensures name != ""
    ensures node.Some? && node.value.name.Some? && node.value.name.value != "" ==> name == node.value.name.value
    ensures node.None? || node.value.name.None? || node.value.name.value == "" ==> name == ImportedName
  {
    if node.Some? && node.value.name.Some? && node.value.name.value != "" then node.value.name.value
    else ImportedName
  }

  /** What importing a document yields. */
  function ImportSpec(doc: NmlDocument): Result<NmlPlaylist, string> {
    if doc.parserError then Failure(ParseErrorMessage)
    else
      var index := CollectionIndex(doc.collection);
      Success(NmlPlaylist(PlaylistName(doc.playlist),
        if doc.playlist.Some? then JoinPlaylist(doc.playlist.value.entries, index) else []))
  }

  /** `parseNmlFile`: a parse error is the only failure; otherwise index the collection, then walk the playlist. */
  method ParseNmlFile(doc: NmlDocument) returns (r: Result<NmlPlaylist, string>)
    ensures r == ImportSpec(doc)
    ensures r.Failure? <==> doc.parserError
    ensures r.Success? ==> |r.value.tracks| <= if doc.playlist.Some? then |doc.playlist.value.entries| else 0
    ensures r.Success? ==> forall i :: 0 <= i < |r.value.tracks| ==>
      r.value.tracks[i].key.Some? ==> IsValidKey(r.value.tracks[i].key.value)
  {
    if doc.parserError {
      return Failure(ParseErrorMessage);
    }
    var collectionMap: map<string, NmlTrack> := map[];
    for i := 0 to |doc.collection|
      invariant collectionMap == CollectionIndex(doc.collection[..i])
    {
      var entry := doc.collection[i];
      if entry.location.Some? {
        collectionMap := collectionMap[FileKey(entry.location.value) := EntryTrack(entry)];
      }
      assert doc.collection[..i + 1][..i] == doc.collection[..i];
    }
    assert doc.collection[..|doc.collection|] == doc.collection;
    IndexKeysValid(doc.collection);
    var playlistName := PlaylistName(doc.playlist);
    var tracks: seq<NmlTrack> := [];
    if doc.playlist.Some? {
      var entries := doc.playlist.value.entries;
      for j := 0 to |entries|
        invariant tracks == JoinPlaylist(entries[..j], collectionMap)
      {
        var key := entries[j].key;
        if key.Some? && key.value != "" {
          if key.value in collectionMap {
            tracks := tracks + [collectionMap[key.value]];
          }
        }
        assert entries[..j + 1][..j] == entries[..j];
      }
      assert entries[..|entries|] == entries;
      JoinedKeysValid(entries, collectionMap);
    }
    r := Success(NmlPlaylist(playlistName, tracks));
  }

  /** Every key in the collection index is a valid Open Key. */
  lemma {:induction false} IndexKeysValid(entries: seq<CollectionEntry>)
    ensures forall fk :: fk in CollectionIndex(entries) && CollectionIndex(entries)[fk].key.Some? ==>
      IsValidKey(CollectionIndex(entries)[fk].key.value)
    decreases |entries|
  {
    if entries != [] {
      IndexKeysValid(entries[..|entries| - 1]);
    }
  }

  /** The joined tracks are tracks of the index. */
  lemma {:induction false} JoinedKeysValid(refs: seq<PrimaryKey>, index: map<string, NmlTrack>)
    requires forall fk :: fk in index && index[fk].key.Some? ==> IsValidKey(index[fk].key.value)
    ensures forall i :: 0 <= i < |JoinPlaylist(refs, index)| ==>
      JoinPlaylist(refs, index)[i].key.Some? ==> IsValidKey(JoinPlaylist(refs, index)[i].key.value)
    decreases |refs|
  {
    if refs != [] {
      JoinedKeysValid(refs[..|refs| - 1], index);
    }
  }

  /** Without a playlist node the import is empty and named "Imported Mix". */
  lemma ImportWithoutPlaylist(doc: NmlDocument)
    requires !doc.parserError && doc.playlist.None?
    ensures ImportSpec(doc) == Success(NmlPlaylist(ImportedName, []))
  {
  }
}
