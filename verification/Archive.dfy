/** The native export archive: writing one, and reading one back under a budget its own metadata cannot stretch. */
module Archive {
  import opened Common
  import opened Uuids

  type Byte = b: nat | b < 256

  /** One entry as the zip reader lists it. Reading yields `bytes`; when `broken`, reading past them raises. */
  datatype Entry = Entry(name: string, declared: nat, packed: nat, bytes: seq<Byte>, broken: bool)

  datatype Limits = Limits(entries: nat, ratio: nat, bytes: nat)

  /** The codes an archive is refused with; `Unreadable` is an exception nothing catches. */
  datatype Rejection =
    | BadArchive | EmptyArchive | TooManyEntries | UnexpectedEntry | ArchiveTooLarge | SuspiciousRatio | DuplicateEntry
    | MissingModuleJson | InvalidModuleJson | DuplicateAssetId | AssetMismatch | Unreadable

  datatype ExportedAsset = ExportedAsset(id: Uuid, filename: string, kind: string, contentType: string, size: int)

  /** The manifest; `rest` stands for its title, language, pages and the other fields this module never looks at. */
  datatype Document<+D> = Document(assets: seq<ExportedAsset>, rest: D)

  /** A dict of asset bytes is kept in its insertion order. */
  datatype Parsed<+D> = Parsed(document: Document<D>, files: seq<(Uuid, seq<Byte>)>)

  // --- Names -------------------------------------------------------------------------------------

  const MANIFEST := "module.json"
  const ASSETS := "assets/"
  const MAX_FILENAME_LENGTH := 200

  predicate IsBasename(s: string) {
    1 <= |s| <= 200 && forall i :: 0 <= i < |s| ==> s[i] != '/' && s[i] != '\\' && s[i] as int >= 0x20
  }

  /** `^assets/[0-9a-fA-F-]{36}/[^/\\\x00-\x1f]{1,200}$` */
  predicate IsAssetName(name: string) {
    && |name| > 44
    && name[..7] == ASSETS
    && (forall i :: 7 <= i < 43 ==> IsHexOrDash(name[i]))
    && name[43] == '/'
    && IsBasename(name[44..])
  }

  /** The asset an entry name belongs to, if it is a name an asset may have. */
  function AssetOf(name: string): Option<Uuid> {
    if IsAssetName(name) then Parse(name[7..43]) else None
  }

  /** `asset_zip_path(asset_id, filename)` */
  function AssetZipPath(id: Uuid, filename: string): string {
    ASSETS + Format(id) + "/" + filename
  }

  lemma AssetZipPathNames(id: Uuid, filename: string)
    requires IsBasename(filename)
    ensures AssetOf(AssetZipPath(id, filename)) == Some(id) && AssetZipPath(id, filename)[44..] == filename
    ensures AssetZipPath(id, filename) != MANIFEST && !IsDirectory(AssetZipPath(id, filename))
  {
    hide Format, Parse;
    var name := AssetZipPath(id, filename);
    assert name[..7] == ASSETS && name[7..43] == Format(id) && name[43] == '/' && name[44..] == filename;
    forall i | 7 <= i < 43 ensures IsHexOrDash(name[i]) {
      assert name[i] == Format(id)[i - 7];
    }
    FormatThenParse(id);
    assert name[|name| - 1] == filename[|filename| - 1];
  }

  predicate IsDirectory(name: string) {
    name != "" && name[|name| - 1] == '/'
  }

  /** The part after the last separator, or all of it when there is none. */
  function AfterLast(s: string, separator: char -> bool): (r: string)
    ensures |r| <= |s| && r == s[|s| - |r|..]
    ensures forall i :: 0 <= i < |r| ==> !separator(r[i])
    ensures |r| < |s| ==> separator(s[|s| - |r| - 1])
  {
    if s == "" || separator(s[|s| - 1]) then "" else AfterLast(s[..|s| - 1], separator) + [s[|s| - 1]]
  }

  predicate IsSlash(c: char) { c == '/' }

  lemma AfterLastIs(s: string, separator: char -> bool, k: nat)
    requires k <= |s| && (k > 0 ==> separator(s[k - 1])) && forall i :: k <= i < |s| ==> !separator(s[i])
    ensures AfterLast(s, separator) == s[k..]
  {
    var start := |s| - |AfterLast(s, separator)|;
    if start < k {
      assert false;
    }
  }

  /** What `rsplit("/", 1)[-1]` gives for an entry that passed the pattern is what the pattern called the file name. */
  lemma AssetFilename(name: string)
    requires IsAssetName(name)
    ensures AfterLast(name, IsSlash) == name[44..]
  {
    forall i | 44 <= i < |name| ensures !IsSlash(name[i]) {
      assert name[i] == name[44..][i - 44];
    }
    AfterLastIs(name, IsSlash, 44);
  }

  // --- First pass: every entry is judged by its metadata before any is read ------------------------

  datatype Scan = Scan(total: nat, manifest: Option<Entry>, assets: seq<(Uuid, Entry)>)

  /** The division in the source is between positive numbers; this is the same comparison without it. */
  predicate Suspicious(e: Entry, ratio: nat) {
    if e.packed > 0 then e.declared > ratio * e.packed else e.declared > 0
  }

  function Ids<T>(pairs: seq<(Uuid, T)>): set<Uuid> {
    set i | 0 <= i < |pairs| :: pairs[i].0
  }

  function Admit(s: Scan, e: Entry, limits: Limits): Result<Scan, Rejection> {
    var total := s.total + e.declared;
    if IsDirectory(e.name) then Err(UnexpectedEntry)
    else if total > limits.bytes then Err(ArchiveTooLarge)
    else if Suspicious(e, limits.ratio) then Err(SuspiciousRatio)
    else if e.name == MANIFEST then Ok(s.(total := total, manifest := Some(e)))
    else
      match AssetOf(e.name)
      case None => Err(UnexpectedEntry)
      case Some(id) => if id in Ids(s.assets) then Err(DuplicateEntry) else Ok(s.(total := total, assets := s.assets + [(id, e)]))
  }

  function Scanned(entries: seq<Entry>, limits: Limits): Result<Scan, Rejection> {
    if entries == [] then Ok(Scan(0, None, []))
    else
      var before := Scanned(entries[..|entries| - 1], limits);
      if before.Err? then before else Admit(before.value, entries[|entries| - 1], limits)
  }

  lemma {:induction false} ScanStopsAtTheFirst(entries: seq<Entry>, n: nat, limits: Limits)
    requires n <= |entries| && Scanned(entries[..n], limits).Err?
    ensures Scanned(entries, limits) == Scanned(entries[..n], limits)
  {
    if n < |entries| {
      assert entries[..|entries| - 1][..n] == entries[..n];
      ScanStopsAtTheFirst(entries[..|entries| - 1], n, limits);
    } else {
      assert entries[..n] == entries;
    }
  }

  method ScanEntries(entries: seq<Entry>, limits: Limits) returns (r: Result<Scan, Rejection>)
    ensures r == Scanned(entries, limits)
  {
    hide IsDirectory, Suspicious, AssetOf, Ids;
    var total: nat, manifest: Option<Entry>, assets: seq<(Uuid, Entry)> := 0, None, [];
    for i := 0 to |entries|
      invariant Scanned(entries[..i], limits) == Ok(Scan(total, manifest, assets))
    {
      var e := entries[i];
      assert entries[..i + 1][..i] == entries[..i];
      ghost var judged := Admit(Scan(total, manifest, assets), e, limits);
      assert Scanned(entries[..i + 1], limits) == judged;
      if judged.Err? {
        ScanStopsAtTheFirst(entries, i + 1, limits);
      }
      if IsDirectory(e.name) {
        return Err(UnexpectedEntry);
      }
      total := total + e.declared;
      if total > limits.bytes {
        return Err(ArchiveTooLarge);
      }
      if Suspicious(e, limits.ratio) {
        return Err(SuspiciousRatio);
      }
      if e.name == MANIFEST {
        manifest := Some(e);
        continue;
      }
      var id := AssetOf(e.name);
      if id == None {
        return Err(UnexpectedEntry);
      }
      if id.value in Ids(assets) {
        return Err(DuplicateEntry);
      }
      assets := assets + [(id.value, e)];
    }
    assert entries[..|entries|] == entries;
    r := Ok(Scan(total, manifest, assets));
  }

  // --- Second pass: bounded reads ------------------------------------------------------------------

  /** `stream.read(n)` */
  function Read(e: Entry, n: nat): Result<seq<Byte>, Rejection> {
    if |e.bytes| >= n then Ok(e.bytes[..n]) else if e.broken then Err(Unreadable) else Ok(e.bytes)
  }

  /** One read under the budget that is left, with the budget left after it. */
  function ReadBounded(e: Entry, budget: nat): (r: Result<seq<Byte>, Rejection>)
    ensures r.Ok? <==> |e.bytes| <= budget && !e.broken
    ensures r.Ok? ==> r.value == e.bytes
  {
    var chunk := Read(e, budget + 1);
    if chunk.Ok? && |chunk.value| > budget then Err(ArchiveTooLarge) else chunk
  }

  function ReadEach(infos: seq<(Uuid, Entry)>, budget: nat): Result<seq<(Uuid, seq<Byte>)>, Rejection> {
    if infos == [] then Ok([])
    else
      var chunk := ReadBounded(infos[0].1, budget);
      if chunk.Err? then Err(chunk.error)
      else
        var rest := ReadEach(infos[1..], budget - |chunk.value|);
        if rest.Err? then rest else Ok([(infos[0].0, chunk.value)] + rest.value)
  }

  method ReadAssets(infos: seq<(Uuid, Entry)>, limit: nat) returns (r: Result<seq<(Uuid, seq<Byte>)>, Rejection>)
    ensures r == ReadEach(infos, limit)
  {
    hide ReadBounded;
    var files: seq<(Uuid, seq<Byte>)>, budget: nat := [], limit;
    ghost var all := ReadEach(infos, limit);
    assert infos[0..] == infos && (all.Ok? ==> files + all.value == all.value);
    for i := 0 to |infos|
      invariant ReadEach(infos, limit) ==
                var rest := ReadEach(infos[i..], budget);
                if rest.Err? then rest else Ok(files + rest.value)
    {
      assert infos[i..][1..] == infos[i + 1..];
      var chunk := ReadBounded(infos[i].1, budget);
      if chunk.Err? {
        return Err(chunk.error);
      }
      ghost var rest := ReadEach(infos[i + 1..], budget - |chunk.value|);
      assert rest.Ok? ==> files + ([(infos[i].0, chunk.value)] + rest.value) == files + [(infos[i].0, chunk.value)] + rest.value;
      budget := budget - |chunk.value|;
      files := files + [(infos[i].0, chunk.value)];
    }
    assert infos[|infos|..] == [] && files + [] == files;
    r := Ok(files);
  }

  // --- The manifest against the entries ----------------------------------------------------------------

  function DeclaredIds(assets: seq<ExportedAsset>): set<Uuid> {
    set i | 0 <= i < |assets| :: assets[i].id
  }

  predicate NamedAlike(asset: ExportedAsset, infos: seq<(Uuid, Entry)>) {
    forall i :: 0 <= i < |infos| && infos[i].0 == asset.id ==> AfterLast(infos[i].1.name, IsSlash) == asset.filename
  }

  function Mismatch(assets: seq<ExportedAsset>, infos: seq<(Uuid, Entry)>): Option<Rejection> {
    if |DeclaredIds(assets)| != |assets| then Some(DuplicateAssetId)
    else if DeclaredIds(assets) != Ids(infos) then Some(AssetMismatch)
    else if exists i :: 0 <= i < |assets| && !NamedAlike(assets[i], infos) then Some(AssetMismatch)
    else None
  }

  /** `_check_assets_match` */
  method CheckAssetsMatch(assets: seq<ExportedAsset>, infos: seq<(Uuid, Entry)>) returns (r: Option<Rejection>)
    ensures r == Mismatch(assets, infos)
  {
    hide NamedAlike, DeclaredIds, Ids;
    if |DeclaredIds(assets)| != |assets| {
      return Some(DuplicateAssetId);
    }
    if DeclaredIds(assets) != Ids(infos) {
      return Some(AssetMismatch);
    }
    for i := 0 to |assets|
      invariant forall j :: 0 <= j < i ==> NamedAlike(assets[j], infos)
    {
      if !NamedAlike(assets[i], infos) {
        return Some(AssetMismatch);
      }
    }
    r := None;
  }

  // --- The whole parse -----------------------------------------------------------------------------------

  /** What the scan, the manifest and the reads amount to, once the entry count has been accepted. */
  function Unpacked<D>(s: Scan, limit: nat, decode: seq<Byte> -> Result<Document<D>, Rejection>): Result<Parsed<D>, Rejection> {
    if s.manifest == None then Err(MissingModuleJson)
    else
      var raw := ReadBounded(s.manifest.value, limit);
      if raw.Err? then Err(raw.error)
      else
        var document := decode(raw.value);
        if document.Err? then Err(document.error)
        else
          var mismatch := Mismatch(document.value.assets, s.assets);
          if mismatch.Some? then Err(mismatch.value)
          else
            var files := ReadEach(s.assets, limit - |raw.value|);
            if files.Err? then Err(files.error) else Ok(Parsed(document.value, files.value))
  }

  /** `archive` is `None` when the upload is not a zip file; `decode` is UTF-8, JSON and the manifest's schema in one. */
  function ParseArchive<D>(archive: Option<seq<Entry>>, limits: Limits,
        decode: seq<Byte> -> Result<Document<D>, Rejection>): Result<Parsed<D>, Rejection> {
    if archive == None then Err(BadArchive)
    else if archive.value == [] then Err(EmptyArchive)
    else if |archive.value| > limits.entries then Err(TooManyEntries)
    else
      var scan := Scanned(archive.value, limits);
      if scan.Err? then Err(scan.error) else Unpacked(scan.value, limits.bytes, decode)
  }

  method ParseExportArchive<D>(archive: Option<seq<Entry>>, limits: Limits, decode: seq<Byte> -> Result<Document<D>, Rejection>)
    returns (r: Result<Parsed<D>, Rejection>)
    ensures r == ParseArchive(archive, limits, decode)
  {
    hide Scanned, ReadEach, Mismatch, ReadBounded;
    if archive == None {
      return Err(BadArchive);
    }
    var infos := archive.value;
    if infos == [] {
      return Err(EmptyArchive);
    }
    if |infos| > limits.entries {
      return Err(TooManyEntries);
    }
    var scan := ScanEntries(infos, limits);
    if scan.Err? {
      return Err(scan.error);
    }
    if scan.value.manifest == None {
      return Err(MissingModuleJson);
    }
    var budget := limits.bytes;
    var raw := ReadBounded(scan.value.manifest.value, budget);
    if raw.Err? {
      return Err(raw.error);
    }
    budget := budget - |raw.value|;
    var document := decode(raw.value);
    if document.Err? {
      return Err(document.error);
    }
    var mismatch := CheckAssetsMatch(document.value.assets, scan.value.assets);
    if mismatch.Some? {
      return Err(mismatch.value);
    }
    var files := ReadAssets(scan.value.assets, budget);
    r := if files.Err? then Err(files.error) else Ok(Parsed(document.value, files.value));
  }

  // --- Writing one --------------------------------------------------------------------------------------------

  /** An entry the zip writer makes: its metadata is true, and `pack` is the size deflate brings the bytes to. */
  function Written(name: string, bytes: seq<Byte>, pack: seq<Byte> -> nat): Entry {
    Entry(name, |bytes|, pack(bytes), bytes, false)
  }

  function AssetEntry(a: ExportedAsset, files: map<Uuid, seq<Byte>>, pack: seq<Byte> -> nat): Entry
    requires a.id in files
  {
    Written(AssetZipPath(a.id, a.filename), files[a.id], pack)
  }

  function Built(assets: seq<ExportedAsset>, manifest: seq<Byte>, files: map<Uuid, seq<Byte>>, pack: seq<Byte> -> nat): seq<Entry>
    requires forall i :: 0 <= i < |assets| ==> assets[i].id in files
  {
    if assets == [] then [Written(MANIFEST, manifest, pack)]
    else Built(assets[..|assets| - 1], manifest, files, pack) + [AssetEntry(assets[|assets| - 1], files, pack)]
  }

  method BuildExportArchive<D>(document: Document<D>, files: map<Uuid, seq<Byte>>, encode: Document<D> -> seq<Byte>, pack: seq<Byte> -> nat)
    returns (archive: seq<Entry>)
    requires forall i :: 0 <= i < |document.assets| ==> document.assets[i].id in files
    ensures archive == Built(document.assets, encode(document), files, pack)
  {
    hide AssetEntry, Written;
    var assets := document.assets;
    archive := [Written(MANIFEST, encode(document), pack)];
    for i := 0 to |assets|
      invariant archive == Built(assets[..i], encode(document), files, pack)
    {
      assert assets[..i + 1][..i] == assets[..i];
      archive := archive + [AssetEntry(assets[i], files, pack)];
    }
    assert assets[..|assets|] == assets;
  }
}
