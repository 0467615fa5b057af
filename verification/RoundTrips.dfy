/** What parsing an archive accepts, what it can hold at most, and that it undoes writing one. */
module RoundTrips {
  import opened Common
  import opened Uuids
  import opened Archive

  // --- The scan, told without its running state ---------------------------------------------------

  function DeclaredTotal(entries: seq<Entry>): nat {
    if entries == [] then 0 else DeclaredTotal(entries[..|entries| - 1]) + entries[|entries| - 1].declared
  }

  function LastManifest(entries: seq<Entry>): Option<Entry> {
    if entries == [] then None
    else if entries[|entries| - 1].name == MANIFEST then Some(entries[|entries| - 1])
    else LastManifest(entries[..|entries| - 1])
  }

  function AssetEntries(entries: seq<Entry>): seq<(Uuid, Entry)> {
    if entries == [] then []
    else
      var before, e := AssetEntries(entries[..|entries| - 1]), entries[|entries| - 1];
      if e.name != MANIFEST && AssetOf(e.name).Some? then before + [(AssetOf(e.name).value, e)] else before
  }

  predicate Fine(e: Entry, limits: Limits) {
    !IsDirectory(e.name) && !Suspicious(e, limits.ratio) && (e.name == MANIFEST || AssetOf(e.name).Some?)
  }

  // --- One entry, told from its name and its sizes --------------------------------------------------

  /** A name of at most 200 characters in which nothing separates directories or controls a terminal. */
  predicate IsFileName(s: string) {
    1 <= |s| <= 200 && forall i :: 0 <= i < |s| ==> s[i] != '/' && s[i] != '\\' && s[i] as int >= 0x20
  }

  /** Written out: "assets/", an id in some spelling, "/", a file name. */
  ghost predicate IsEntryOf(name: string, id: Uuid, filename: string) {
    IsFileName(filename) && exists text :: IsIdText(text) && Lower(NoDashes(text)) == id && name == "assets/" + text + "/" + filename
  }

  /** An entry is taken for an asset exactly when its name is written so, and then its file name is what stands last. */
  lemma AssetOfIff(name: string, id: Uuid)
    ensures AssetOf(name) == Some(id) <==> exists filename :: IsEntryOf(name, id, filename)
    ensures forall filename :: IsEntryOf(name, id, filename) ==> name[44..] == filename
  {
    hide NoDashes, Lower, IsEntryOf, AssetOf;
    forall filename | IsEntryOf(name, id, filename) ensures |name| > 44 && name[44..] == filename && AssetOf(name) == Some(id) {
      EntryIsAsset(name, id, filename);
    }
    if AssetOf(name) == Some(id) {
      var filename := AssetIsEntry(name, id);
    }
  }

  lemma EntryIsAsset(name: string, id: Uuid, filename: string)
    requires IsEntryOf(name, id, filename)
    ensures |name| > 44 && name[44..] == filename && AssetOf(name) == Some(id)
  {
    hide NoDashes, Lower;
    var text :| IsIdText(text) && Lower(NoDashes(text)) == id && name == "assets/" + text + "/" + filename;
    assert name[..7] == ASSETS && name[7..43] == text && name[43] == '/' && name[44..] == filename;
    assert forall i :: 7 <= i < 43 ==> name[i] == text[i - 7];
  }

  lemma AssetIsEntry(name: string, id: Uuid) returns (filename: string)
    requires AssetOf(name) == Some(id)
    ensures IsEntryOf(name, id, filename)
  {
    hide NoDashes, Lower;
    var text := name[7..43];
    filename := name[44..];
    NameInParts(name);
    assert IsIdText(text) by {
      assert forall i :: 0 <= i < 36 ==> text[i] == name[i + 7];
    }
  }

  lemma NameInParts(name: string)
    requires |name| > 44 && name[..7] == ASSETS && name[43] == '/'
    ensures name == "assets/" + name[7..43] + "/" + name[44..]
  {
    assert name == name[..7] + name[7..43] + name[43..44] + name[44..];
    assert name[43..44] == "/";
  }

  /** No entry is blown up to more than the permitted multiple of its size in the archive. */
  predicate IsModest(e: Entry, ratio: nat) {
    e.declared <= ratio * e.packed
  }

  /** An entry is fine exactly when it is the manifest or an asset's, by its name, and is modest. */
  lemma FineIff(e: Entry, limits: Limits)
    ensures Fine(e, limits) <==>
              (e.name == "module.json" || exists id, filename :: IsEntryOf(e.name, id, filename)) && IsModest(e, limits.ratio)
  {
    hide AssetOf, IsEntryOf;
    if AssetOf(e.name).Some? {
      AssetOfIff(e.name, AssetOf(e.name).value);
      assert !IsDirectory(e.name) by { AssetsAreNoDirectories(e.name); }
    }
    if id, filename :| IsEntryOf(e.name, id, filename) {
      AssetOfIff(e.name, id);
    }
  }

  lemma AssetsAreNoDirectories(name: string)
    requires AssetOf(name).Some?
    ensures !IsDirectory(name)
  {
    hide Parse;
    assert name[|name| - 1] == name[44..][|name| - 45];
  }

  predicate AllFine(entries: seq<Entry>, limits: Limits) {
    forall i :: 0 <= i < |entries| ==> Fine(entries[i], limits)
  }

  predicate DistinctIds<T>(pairs: seq<(Uuid, T)>) {
    forall i, j :: 0 <= i < j < |pairs| ==> pairs[i].0 != pairs[j].0
  }

  lemma NothingTwice<T>()
    ensures DistinctIds<T>([])
  {
  }

  lemma DistinctAfter<T>(pairs: seq<(Uuid, T)>, p: (Uuid, T))
    ensures DistinctIds(pairs + [p]) <==> DistinctIds(pairs) && p.0 !in Ids(pairs)
  {
    var all := pairs + [p];
    if DistinctIds(all) {
      assert forall i :: 0 <= i < |pairs| ==> all[i].0 == pairs[i].0 != all[|pairs|].0;
    }
  }

  /** The scan accepts exactly the lists whose entries are all fine, of distinct assets, and within the declared total. */
  lemma {:induction false} ScanAcceptsIff(entries: seq<Entry>, limits: Limits)
    ensures Scanned(entries, limits).Ok? <==>
            DeclaredTotal(entries) <= limits.bytes && AllFine(entries, limits) && DistinctIds(AssetEntries(entries))
    ensures Scanned(entries, limits).Ok? ==>
              Scanned(entries, limits).value == Scan(DeclaredTotal(entries), LastManifest(entries), AssetEntries(entries))
  {
    hide IsDirectory, Suspicious, AssetOf, Ids, DistinctIds;
    if entries == [] {
      NothingTwice<Entry>();
    } else {
      var n := |entries| - 1;
      var front, e := entries[..n], entries[n];
      ScanAcceptsIff(front, limits);
      assert AllFine(entries, limits) <==> AllFine(front, limits) && Fine(e, limits);
      if AssetOf(e.name).Some? {
        DistinctAfter(AssetEntries(front), (AssetOf(e.name).value, e));
      }
    }
  }

  // --- The reads, told without the shared budget -----------------------------------------------------

  function Held(infos: seq<(Uuid, Entry)>): nat {
    if infos == [] then 0 else |infos[0].1.bytes| + Held(infos[1..])
  }

  function Contents(infos: seq<(Uuid, Entry)>): seq<(Uuid, seq<Byte>)> {
    if infos == [] then [] else [(infos[0].0, infos[0].1.bytes)] + Contents(infos[1..])
  }

  predicate Intact(infos: seq<(Uuid, Entry)>) {
    forall i :: 0 <= i < |infos| ==> !infos[i].1.broken
  }

  lemma {:induction false} ReadEachIff(infos: seq<(Uuid, Entry)>, budget: nat)
    ensures ReadEach(infos, budget).Ok? <==> Intact(infos) && Held(infos) <= budget
    ensures ReadEach(infos, budget).Ok? ==> ReadEach(infos, budget).value == Contents(infos)
  {
    if infos == [] {
    } else {
      hide ReadBounded, Intact;
      assert Intact(infos) <==> !infos[0].1.broken && Intact(infos[1..]) by { IntactUnfold(infos); }
      var chunk := ReadBounded(infos[0].1, budget);
      if chunk.Ok? {
        ReadEachIff(infos[1..], budget - |chunk.value|);
      }
    }
  }

  lemma IntactUnfold(infos: seq<(Uuid, Entry)>)
    requires infos != []
    ensures Intact(infos) <==> !infos[0].1.broken && Intact(infos[1..])
  {
    assert infos == [infos[0]] + infos[1..];
    assert forall i :: 0 <= i < |infos[1..]| ==> infos[1..][i] == infos[i + 1];
  }

  lemma {:induction false} ContentsAt(infos: seq<(Uuid, Entry)>)
    ensures |Contents(infos)| == |infos|
    ensures forall i :: 0 <= i < |infos| ==> Contents(infos)[i] == (infos[i].0, infos[i].1.bytes)
  {
    if infos != [] {
      ContentsAt(infos[1..]);
    }
  }

  // --- The manifest, told without counting set members -------------------------------------------------

  predicate DeclaresEachOnce(assets: seq<ExportedAsset>) {
    forall i, j :: 0 <= i < j < |assets| ==> assets[i].id != assets[j].id
  }

  lemma DeclaredAfter(assets: seq<ExportedAsset>, a: ExportedAsset)
    ensures DeclaredIds(assets + [a]) == DeclaredIds(assets) + {a.id}
    ensures DeclaresEachOnce(assets + [a]) <==> DeclaresEachOnce(assets) && a.id !in DeclaredIds(assets)
  {
    var all := assets + [a];
    assert forall i :: 0 <= i < |assets| ==> all[i] == assets[i];
    assert all[|assets|] == a;
    if DeclaresEachOnce(all) {
      assert forall i :: 0 <= i < |assets| ==> all[i].id != all[|assets|].id;
    }
  }

  lemma {:induction false} CountedOnce(assets: seq<ExportedAsset>)
    ensures |DeclaredIds(assets)| <= |assets|
    ensures |DeclaredIds(assets)| == |assets| <==> DeclaresEachOnce(assets)
    decreases |assets|, 2
  {
    if assets == [] {
    } else {
      var front, a := assets[..|assets| - 1], assets[|assets| - 1];
      Counted(front, a);
      assert front + [a] == assets;
    }
  }

  lemma Counted(front: seq<ExportedAsset>, a: ExportedAsset)
    ensures |DeclaredIds(front + [a])| <= |front| + 1
    ensures |DeclaredIds(front + [a])| == |front| + 1 <==> DeclaresEachOnce(front + [a])
    decreases |front| + 1, 0
  {
    hide DeclaredIds, DeclaresEachOnce;
    CountedOnce(front);
    DeclaredAfter(front, a);
  }

  /** This declaration describes that entry: the same id, and the file name its path ends in. */
  predicate Describes(a: ExportedAsset, info: (Uuid, Entry)) {
    a.id == info.0 && |info.1.name| > 44 && a.filename == info.1.name[44..]
  }

  predicate IsDescribed(a: ExportedAsset, infos: seq<(Uuid, Entry)>) {
    exists k :: 0 <= k < |infos| && Describes(a, infos[k])
  }

  predicate IsDeclared(info: (Uuid, Entry), assets: seq<ExportedAsset>) {
    exists i :: 0 <= i < |assets| && Describes(assets[i], info)
  }

  /** Declarations and entries pair off: ids are declared once, each is described by an entry, each entry by a declaration. */
  predicate Matching(assets: seq<ExportedAsset>, infos: seq<(Uuid, Entry)>) {
    && DeclaresEachOnce(assets)
    && (forall i :: 0 <= i < |assets| ==> IsDescribed(assets[i], infos))
    && (forall k :: 0 <= k < |infos| ==> IsDeclared(infos[k], assets))
  }

  predicate AreAssets(infos: seq<(Uuid, Entry)>) {
    forall k :: 0 <= k < |infos| ==> IsAssetName(infos[k].1.name)
  }

  predicate IsAssetEntry(p: (Uuid, Entry), entries: seq<Entry>) {
    p.1 in entries && AssetOf(p.1.name) == Some(p.0)
  }

  lemma {:induction false} AssetEntriesAreAssets(entries: seq<Entry>)
    ensures AreAssets(AssetEntries(entries))
    ensures forall k :: 0 <= k < |AssetEntries(entries)| ==> IsAssetEntry(AssetEntries(entries)[k], entries)
  {
    hide IsAssetName, AssetOf;
    if entries != [] {
      var front, last := entries[..|entries| - 1], entries[|entries| - 1];
      AssetEntriesAreAssets(front);
      AssetsHaveNames(last.name);
      forall k | 0 <= k < |AssetEntries(front)| ensures IsAssetEntry(AssetEntries(front)[k], entries) {
        StillAmong(AssetEntries(front)[k].1, front, last);
        assert entries == front + [last];
      }
    }
  }

  lemma StillAmong(e: Entry, front: seq<Entry>, last: Entry)
    requires e in front
    ensures e in front + [last]
  {
  }

  lemma AssetsHaveNames(name: string)
    ensures AssetOf(name).Some? ==> IsAssetName(name)
  {
  }

  predicate Fits(a: ExportedAsset, infos: seq<(Uuid, Entry)>) {
    forall k :: 0 <= k < |infos| && infos[k].0 == a.id ==> Describes(a, infos[k])
  }

  predicate NamesFit(assets: seq<ExportedAsset>, infos: seq<(Uuid, Entry)>) {
    forall i :: 0 <= i < |assets| ==> Fits(assets[i], infos)
  }

  lemma SameIdsAndNames(assets: seq<ExportedAsset>, infos: seq<(Uuid, Entry)>)
    requires DeclaresEachOnce(assets)
    requires DeclaredIds(assets) == Ids(infos) && NamesFit(assets, infos)
    ensures Matching(assets, infos)
  {
    forall i | 0 <= i < |assets| ensures IsDescribed(assets[i], infos) {
      assert Fits(assets[i], infos) && assets[i].id in Ids(infos);
      var k :| 0 <= k < |infos| && infos[k].0 == assets[i].id;
      assert Describes(assets[i], infos[k]);
    }
    forall k | 0 <= k < |infos| ensures IsDeclared(infos[k], assets) {
      assert infos[k].0 in DeclaredIds(assets);
      var i :| 0 <= i < |assets| && assets[i].id == infos[k].0;
      assert Fits(assets[i], infos) && Describes(assets[i], infos[k]);
    }
  }

  lemma PairedOff(assets: seq<ExportedAsset>, infos: seq<(Uuid, Entry)>)
    requires DistinctIds(infos) && Matching(assets, infos)
    ensures DeclaredIds(assets) == Ids(infos) && NamesFit(assets, infos)
  {
    hide DeclaresEachOnce;
    forall i | 0 <= i < |assets| ensures Fits(assets[i], infos) && assets[i].id in Ids(infos) {
      assert IsDescribed(assets[i], infos);
      var k :| 0 <= k < |infos| && Describes(assets[i], infos[k]);
    }
    forall k | 0 <= k < |infos| ensures infos[k].0 in DeclaredIds(assets) {
      assert IsDeclared(infos[k], assets);
      var i :| 0 <= i < |assets| && Describes(assets[i], infos[k]);
    }
  }

  lemma NamedAlikeIff(a: ExportedAsset, infos: seq<(Uuid, Entry)>)
    requires AreAssets(infos)
    ensures NamedAlike(a, infos) <==> Fits(a, infos)
  {
    forall k | 0 <= k < |infos| ensures AfterLast(infos[k].1.name, IsSlash) == infos[k].1.name[44..] {
      AssetFilename(infos[k].1.name);
    }
  }

  /** The three checks on the manifest accept exactly when declarations and entries pair off. */
  lemma MatchesIff(assets: seq<ExportedAsset>, infos: seq<(Uuid, Entry)>)
    requires AreAssets(infos) && DistinctIds(infos)
    ensures Mismatch(assets, infos) == None <==> Matching(assets, infos)
  {
    hide NamedAlike, Fits, AreAssets, DistinctIds, DeclaresEachOnce, DeclaredIds, Ids, Describes;
    CountedOnce(assets);
    forall i | 0 <= i < |assets| ensures NamedAlike(assets[i], infos) <==> Fits(assets[i], infos) {
      NamedAlikeIff(assets[i], infos);
    }
    if Mismatch(assets, infos) == None {
      SameIdsAndNames(assets, infos);
    }
    if Matching(assets, infos) {
      PairedOff(assets, infos);
    }
  }

  // --- Exactly what is accepted -----------------------------------------------------------------------------

  function FileBytes(files: seq<(Uuid, seq<Byte>)>): nat {
    if files == [] then 0 else |files[0].1| + FileBytes(files[1..])
  }

  lemma {:induction false} HeldInContents(infos: seq<(Uuid, Entry)>)
    ensures FileBytes(Contents(infos)) == Held(infos)
  {
    if infos != [] {
      HeldInContents(infos[1..]);
    }
  }

  predicate MetadataAccepted(entries: seq<Entry>, limits: Limits) {
    && 0 < |entries| <= limits.entries
    && DeclaredTotal(entries) <= limits.bytes
    && AllFine(entries, limits)
    && DistinctIds(AssetEntries(entries))
  }

  /** A manifest that reads and decodes to this document, whose declarations pair off with intact entries, all within the budget. */
  ghost predicate ContentsAccepted<D(!new)>(entries: seq<Entry>, limit: nat,
        decode: seq<Byte> -> Result<Document<D>, Rejection>, p: Parsed<D>) {
    var m, infos := LastManifest(entries), AssetEntries(entries);
    && m.Some? && !m.value.broken
    && decode(m.value.bytes) == Ok(p.document)
    && Matching(p.document.assets, infos)
    && Intact(infos)
    && |m.value.bytes| + Held(infos) <= limit
    && p.files == Contents(infos)
  }

  lemma UnpackedIff<D(!new)>(entries: seq<Entry>, limit: nat, decode: seq<Byte> -> Result<Document<D>, Rejection>, p: Parsed<D>)
    requires DistinctIds(AssetEntries(entries))
    ensures Unpacked(Scan(DeclaredTotal(entries), LastManifest(entries), AssetEntries(entries)), limit, decode) == Ok(p) <==>
            ContentsAccepted(entries, limit, decode, p)
  {
    hide AssetEntries, LastManifest, DeclaredTotal, Matching, Mismatch, Intact, Held, Contents, ReadEach, DistinctIds, AreAssets;
    var m, infos := LastManifest(entries), AssetEntries(entries);
    AssetEntriesAreAssets(entries);
    if m.Some? && |m.value.bytes| <= limit && !m.value.broken {
      var document := decode(m.value.bytes);
      if document.Ok? {
        MatchesIff(document.value.assets, infos);
        ReadEachIff(infos, limit - |m.value.bytes|);
      }
    }
  }

  /** For any archive, whatever its metadata claims: parsing gives `p` if and only if the metadata and the contents are accepted for `p`. */
  lemma ParseAcceptsIff<D(!new)>(entries: seq<Entry>, limits: Limits, decode: seq<Byte> -> Result<Document<D>, Rejection>, p: Parsed<D>)
    ensures ParseArchive(Some(entries), limits, decode) == Ok(p) <==>
            MetadataAccepted(entries, limits) && ContentsAccepted(entries, limits.bytes, decode, p)
  {
    hide Scanned, Unpacked, ContentsAccepted, AllFine, DistinctIds, AssetEntries, LastManifest, DeclaredTotal;
    ScanAcceptsIff(entries, limits);
    if DistinctIds(AssetEntries(entries)) {
      UnpackedIff(entries, limits.bytes, decode, p);
    }
  }

  /** The file a parse returns for a declared asset: the whole content of the one entry at the asset's own path. */
  ghost predicate Delivered(a: ExportedAsset, entries: seq<Entry>, files: seq<(Uuid, seq<Byte>)>) {
    exists i, e :: 0 <= i < |files| && e in entries && AssetOf(e.name) == Some(a.id) && e.name[44..] == a.filename &&
        files[i] == (a.id, e.bytes)
  }

  lemma FilesAreDeclared(assets: seq<ExportedAsset>, infos: seq<(Uuid, Entry)>)
    requires DistinctIds(infos) && Matching(assets, infos)
    ensures DistinctIds(Contents(infos)) && Ids(Contents(infos)) == DeclaredIds(assets)
  {
    hide Matching, NamesFit, Contents;
    ContentsAt(infos);
    PairedOff(assets, infos);
    forall id ensures id in Ids(Contents(infos)) <==> id in Ids(infos) {
      if id in Ids(infos) {
        var k :| 0 <= k < |infos| && infos[k].0 == id;
        assert Contents(infos)[k].0 == id;
      }
    }
  }

  lemma FileIsDelivered(entries: seq<Entry>, assets: seq<ExportedAsset>, i: nat)
    requires i < |assets| && Matching(assets, AssetEntries(entries))
    ensures Delivered(assets[i], entries, Contents(AssetEntries(entries)))
  {
    hide AssetEntries, Contents, AssetOf, AreAssets, DeclaresEachOnce;
    var infos := AssetEntries(entries);
    ContentsAt(infos);
    AssetEntriesAreAssets(entries);
    assert IsDescribed(assets[i], infos);
    var k :| 0 <= k < |infos| && Describes(assets[i], infos[k]);
    assert Contents(infos)[k] == (infos[k].0, infos[k].1.bytes);
  }

  /**
   * A parse that succeeds holds at most the limit, manifest included, and returns exactly one file for every asset
   * the manifest declares and for nothing else.
   */
  lemma ParseIsBounded<D(!new)>(entries: seq<Entry>, limits: Limits, decode: seq<Byte> -> Result<Document<D>, Rejection>, p: Parsed<D>)
    requires ParseArchive(Some(entries), limits, decode) == Ok(p)
    ensures LastManifest(entries).Some? && |LastManifest(entries).value.bytes| + FileBytes(p.files) <= limits.bytes
    ensures DistinctIds(p.files) && Ids(p.files) == DeclaredIds(p.document.assets)
    ensures forall i :: 0 <= i < |p.document.assets| ==> Delivered(p.document.assets[i], entries, p.files)
  {
    hide ParseArchive, LastManifest, AllFine, DeclaredTotal, FileBytes, Held, AssetEntries, Contents, Matching,
        Delivered, DistinctIds, Ids, DeclaredIds;
    ParseAcceptsIff(entries, limits, decode, p);
    HeldInContents(AssetEntries(entries));
    FilesAreDeclared(p.document.assets, AssetEntries(entries));
    forall i | 0 <= i < |p.document.assets| ensures Delivered(p.document.assets[i], entries, p.files) {
      FileIsDelivered(entries, p.document.assets, i);
    }
  }

  // --- Parsing undoes building ----------------------------------------------------------------------------------

  function FilesOf(assets: seq<ExportedAsset>, files: map<Uuid, seq<Byte>>): seq<(Uuid, seq<Byte>)>
    requires forall i :: 0 <= i < |assets| ==> assets[i].id in files
  {
    seq(|assets|, i requires 0 <= i < |assets| => (assets[i].id, files[assets[i].id]))
  }

  /** What a module row's assets and stored files are: each id once, each file present, each name one an entry may end in. */
  predicate Exportable(assets: seq<ExportedAsset>, files: map<Uuid, seq<Byte>>) {
    DeclaresEachOnce(assets) && forall i :: 0 <= i < |assets| ==> assets[i].id in files && IsBasename(assets[i].filename)
  }

  /** The entry, size and ratio caps, on the entries about to be written. */
  predicate WithinCaps(entries: seq<Entry>, limits: Limits) {
    && |entries| <= limits.entries
    && DeclaredTotal(entries) <= limits.bytes
    && forall i :: 0 <= i < |entries| ==> !Suspicious(entries[i], limits.ratio)
  }

  lemma {:induction false} HeldAfter(infos: seq<(Uuid, Entry)>, info: (Uuid, Entry))
    ensures Held(infos + [info]) == Held(infos) + |info.1.bytes|
  {
    if infos == [] {
    } else {
      HeldAfter(infos[1..], info);
      assert (infos + [info])[1..] == infos[1..] + [info];
    }
  }

  /** Scanning what was built finds the manifest and the assets again, in order, and all it declares is what it holds. */
  lemma {:induction false} BuiltIsScanned(assets: seq<ExportedAsset>, manifest: seq<Byte>,
        files: map<Uuid, seq<Byte>>, pack: seq<Byte> -> nat)
    requires forall i :: 0 <= i < |assets| ==> assets[i].id in files && IsBasename(assets[i].filename)
    ensures var built := Built(assets, manifest, files, pack);
            && |built| == |assets| + 1
            && LastManifest(built) == Some(Written(MANIFEST, manifest, pack))
            && |AssetEntries(built)| == |assets|
            && DeclaredTotal(built) == |manifest| + Held(AssetEntries(built))
    ensures forall i :: 0 <= i < |assets| ==>
        AssetEntries(Built(assets, manifest, files, pack))[i] == (assets[i].id, AssetEntry(assets[i], files, pack))
  {
    hide AssetOf, Format, IsBasename, AssetZipPath;
    var built := Built(assets, manifest, files, pack);
    if assets == [] {
      NothingBefore(built);
    } else {
      var front, a := assets[..|assets| - 1], assets[|assets| - 1];
      BuiltIsScanned(front, manifest, files, pack);
      AssetZipPathNames(a.id, a.filename);
      assert built[..|built| - 1] == Built(front, manifest, files, pack);
      HeldAfter(AssetEntries(Built(front, manifest, files, pack)), (a.id, AssetEntry(a, files, pack)));
    }
  }

  lemma NothingBefore(entries: seq<Entry>)
    requires |entries| == 1 && entries[0].name == MANIFEST
    ensures AssetEntries(entries) == [] && DeclaredTotal(entries) == entries[0].declared
  {
    assert entries[..0] == [];
  }

  lemma {:induction false} BuiltNamesAreFine(assets: seq<ExportedAsset>, manifest: seq<Byte>,
        files: map<Uuid, seq<Byte>>, pack: seq<Byte> -> nat)
    requires forall i :: 0 <= i < |assets| ==> assets[i].id in files && IsBasename(assets[i].filename)
    ensures forall i :: 0 <= i < |Built(assets, manifest, files, pack)| ==>
              var e := Built(assets, manifest, files, pack)[i]; !IsDirectory(e.name) && (e.name == MANIFEST || AssetOf(e.name).Some?)
  {
    hide AssetOf, Format, IsBasename, AssetZipPath;
    if assets != [] {
      var a := assets[|assets| - 1];
      BuiltNamesAreFine(assets[..|assets| - 1], manifest, files, pack);
      AssetZipPathNames(a.id, a.filename);
    }
  }

  lemma BuiltDescribes(a: ExportedAsset, files: map<Uuid, seq<Byte>>, pack: seq<Byte> -> nat)
    requires a.id in files && IsBasename(a.filename)
    ensures Describes(a, (a.id, AssetEntry(a, files, pack)))
  {
    AssetZipPathNames(a.id, a.filename);
  }

  /** The entries of a built archive pair off with the declarations they were built from. */
  lemma BuiltMatches(assets: seq<ExportedAsset>, files: map<Uuid, seq<Byte>>, pack: seq<Byte> -> nat, infos: seq<(Uuid, Entry)>)
    requires Exportable(assets, files) && |infos| == |assets|
    requires forall i :: 0 <= i < |assets| ==> infos[i] == (assets[i].id, AssetEntry(assets[i], files, pack))
    ensures DistinctIds(infos) && Matching(assets, infos)
  {
    hide AssetEntry, IsBasename, Describes;
    forall i | 0 <= i < |assets| ensures IsDescribed(assets[i], infos) && IsDeclared(infos[i], assets) {
      BuiltDescribes(assets[i], files, pack);
    }
  }

  lemma BuiltHolds(assets: seq<ExportedAsset>, files: map<Uuid, seq<Byte>>, pack: seq<Byte> -> nat, infos: seq<(Uuid, Entry)>)
    requires Exportable(assets, files) && |infos| == |assets|
    requires forall i :: 0 <= i < |assets| ==> infos[i] == (assets[i].id, AssetEntry(assets[i], files, pack))
    ensures Intact(infos) && Contents(infos) == FilesOf(assets, files)
  {
    hide Contents, AssetZipPath, IsBasename, DeclaresEachOnce;
    ContentsAt(infos);
  }

  /** The round trip: a built archive parses back to the same document and the same files, exactly when it keeps within the caps. */
  lemma ParseUndoesBuild<D(!new)>(document: Document<D>, files: map<Uuid, seq<Byte>>, limits: Limits,
        encode: Document<D> -> seq<Byte>, decode: seq<Byte> -> Result<Document<D>, Rejection>, pack: seq<Byte> -> nat)
    requires Exportable(document.assets, files)
    requires decode(encode(document)) == Ok(document)
    ensures var built := Built(document.assets, encode(document), files, pack);
            ParseArchive(Some(built), limits, decode) == Ok(Parsed(document, FilesOf(document.assets, files))) <==>
                WithinCaps(built, limits)
  {
    hide Built, ParseArchive, AssetEntries, LastManifest, DeclaredTotal, Held, Suspicious, IsDirectory, AssetOf,
        IsBasename, AssetEntry, Matching, DistinctIds, Contents, FilesOf, Intact;
    var assets, manifest := document.assets, encode(document);
    var built := Built(assets, manifest, files, pack);
    BuiltIsScanned(assets, manifest, files, pack);
    BuiltNamesAreFine(assets, manifest, files, pack);
    BuiltMatches(assets, files, pack, AssetEntries(built));
    BuiltHolds(assets, files, pack, AssetEntries(built));
    ParseAcceptsIff(built, limits, decode, Parsed(document, FilesOf(assets, files)));
  }

  // --- File names survive the trip ---------------------------------------------------------------------------------

  predicate IsSeparator(c: char) { c == '/' || c == '\\' }

  predicate IsDot(c: char) { c == '.' }

  /** `_check_filename`: the basename under which an upload is kept, or `None` when it is refused. */
  function CheckFilename(filename: string, extensions: set<string>): Option<string> {
    if exists i :: 0 <= i < |filename| && IsControl(filename[i]) then None
    else
      var basename := Strip(AfterLast(filename, IsSeparator));
      if basename in {"", ".", ".."} || |basename| > MAX_FILENAME_LENGTH then None
      else if Lower(AfterLast(basename, IsDot)) !in extensions then None
      else Some(basename)
  }

  lemma {:induction false} StripLeftIsASuffix(s: string)
    ensures |StripLeft(s)| <= |s| && StripLeft(s) == s[|s| - |StripLeft(s)|..]
    ensures StripLeft(s) != [] ==> !IsSpace(StripLeft(s)[0])
  {
    if s != [] && IsSpace(s[0]) {
      StripLeftIsASuffix(s[1..]);
    }
  }

  lemma {:induction false} StripRightIsAPrefix(s: string)
    ensures StripRight(s) <= s
    ensures StripRight(s) != [] ==> !IsSpace(StripRight(s)[|StripRight(s)| - 1])
    ensures s != [] && !IsSpace(s[0]) ==> StripRight(s) != []
  {
    if s != [] && IsSpace(s[|s| - 1]) {
      StripRightIsAPrefix(s[..|s| - 1]);
    }
  }

  lemma StripAgain(s: string)
    ensures Strip(Strip(s)) == Strip(s)
  {
    hide IsSpace;
    StripLeftIsASuffix(s);
    StripRightIsAPrefix(StripLeft(s));
  }

  lemma StripIsASlice(s: string) returns (k: nat)
    ensures k + |Strip(s)| <= |s| && Strip(s) == s[k..k + |Strip(s)|]
  {
    hide StripLeft, StripRight;
    StripLeftIsASuffix(s);
    StripRightIsAPrefix(StripLeft(s));
    k := |s| - |StripLeft(s)|;
  }

  lemma AfterLastOfNone(s: string, separator: char -> bool)
    requires forall i :: 0 <= i < |s| ==> !separator(s[i])
    ensures AfterLast(s, separator) == s
  {
    AfterLastIs(s, separator, 0);
    assert s[0..] == s;
  }

  predicate IsControl(c: char) { c as int < 0x20 || c as int == 0x7F }

  /** What is kept of a name is a stretch of it without separators. */
  lemma KeptIsASlice(filename: string) returns (k: nat)
    ensures var kept := Strip(AfterLast(filename, IsSeparator));
            k + |kept| <= |filename| && kept == filename[k..k + |kept|] && forall i :: 0 <= i < |kept| ==> !IsSeparator(kept[i])
  {
    hide Strip, IsSeparator, AfterLast;
    var last := AfterLast(filename, IsSeparator);
    var inLast := StripIsASlice(last);
    k := |filename| - |last| + inLast;
  }

  /** The last part of a name with dots in it, or all of one without. */
  ghost predicate EndsWith(name: string, extension: string) {
    && (forall i :: 0 <= i < |extension| ==> extension[i] != '.')
    && (name == extension || exists stem :: name == stem + "." + extension)
  }

  /** What is kept of a file name says nothing about directories, controls no terminal, and ends in a permitted extension. */
  lemma KeptNamesAreSafe(filename: string, extensions: set<string>)
    requires CheckFilename(filename, extensions).Some?
    ensures var kept := CheckFilename(filename, extensions).value;
            && IsFileName(kept) && IsTrimmed(kept) && kept != "." && kept != ".."
            && exists extension :: EndsWith(kept, extension) && Lower(extension) in extensions
  {
    hide CheckFilename, EndsWith, AfterLast, Lower;
    var kept := CheckFilename(filename, extensions).value;
    KeptNamesSurvive(filename, extensions);
    CheckedMeans(filename, extensions);
    ExtensionEnds(kept);
  }

  lemma CheckedMeans(filename: string, extensions: set<string>)
    requires CheckFilename(filename, extensions).Some?
    ensures var kept := CheckFilename(filename, extensions).value;
            IsTrimmed(kept) && kept != "." && kept != ".." && Lower(AfterLast(kept, IsDot)) in extensions
  {
    hide Strip, Lower, AfterLast, IsTrimmed;
    StrippedMeans(AfterLast(filename, IsSeparator));
  }

  lemma ExtensionEnds(name: string)
    ensures EndsWith(name, AfterLast(name, IsDot))
  {
    hide AfterLast, EndsWith;
    var extension := AfterLast(name, IsDot);
    assert forall i :: 0 <= i < |extension| ==> !IsDot(extension[i]);
    if |extension| < |name| {
      SplitAtTheDot(name, |name| - |extension| - 1);
      StemAndExtension(name[..|name| - |extension| - 1], extension);
    } else {
      assert name == extension;
      WholeName(name);
    }
  }

  lemma SplitAtTheDot(name: string, k: nat)
    requires k < |name| && name[k] == '.'
    ensures name == name[..k] + "." + name[k + 1..]
  {
  }

  lemma StemAndExtension(stem: string, extension: string)
    requires forall i :: 0 <= i < |extension| ==> extension[i] != '.'
    ensures EndsWith(stem + "." + extension, extension)
  {
  }

  lemma WholeName(name: string)
    requires forall i :: 0 <= i < |name| ==> name[i] != '.'
    ensures EndsWith(name, name)
  {
  }

  /** A name an upload was kept under can be exported, and is kept as it is when the archive is imported again. */
  lemma KeptNamesSurvive(filename: string, extensions: set<string>)
    requires CheckFilename(filename, extensions).Some?
    ensures var kept := CheckFilename(filename, extensions).value;
            IsBasename(kept) && CheckFilename(kept, extensions) == Some(kept)
  {
    hide Strip, Lower, AfterLast, IsBasename, IsSeparator, IsControl;
    var kept := Strip(AfterLast(filename, IsSeparator));
    StripAgain(AfterLast(filename, IsSeparator));
    KeptIsPlain(filename);
    PlainIsBasename(kept);
    AfterLastOfNone(kept, IsSeparator);
  }

  predicate IsPlainName(s: string) {
    forall i :: 0 <= i < |s| ==> !IsControl(s[i]) && !IsSeparator(s[i])
  }

  lemma KeptIsPlain(filename: string)
    requires IsFree(filename)
    ensures IsPlainName(Strip(AfterLast(filename, IsSeparator)))
  {
    hide Strip, AfterLast, IsControl, IsSeparator;
    var kept := Strip(AfterLast(filename, IsSeparator));
    var k := KeptIsASlice(filename);
    SlicesStayFree(filename, kept, k);
  }

  predicate IsFree(s: string) {
    forall i :: 0 <= i < |s| ==> !IsControl(s[i])
  }

  lemma SlicesStayFree(s: string, slice: string, k: nat)
    requires IsFree(s) && k + |slice| <= |s| && slice == s[k..k + |slice|]
    ensures IsFree(slice)
  {
    hide IsControl;
    forall i | 0 <= i < |slice| ensures !IsControl(slice[i]) {
      assert slice[i] == s[k + i];
    }
  }

  lemma PlainIsBasename(name: string)
    requires IsPlainName(name)
    ensures 1 <= |name| <= 200 ==> IsBasename(name)
  {
  }
}
