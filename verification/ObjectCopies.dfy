/** Copying stored objects for a duplicate and writing them for an import, with cleanup by hand when a step fails. */
module ObjectCopies {
  import opened Common
  import opened Domain
  import opened Documents
  import opened Uuids
  import opened Rewriting
  import opened Validation
  import opened Preservation
  import opened Archive
  import opened Leaves

  /** What the store does with one call: carry it out, refuse it, or carry it out and lose the reply. */
  datatype Fault = NoFault | Refused | LostReply

  type Objects = map<string, seq<Byte>>

  datatype AssetRow = AssetRow(id: Uuid, key: string)

  /** `object_key(module_id, asset_id)` */
  function ObjectKey(m: Uuid, a: Uuid): string {
    "modules/" + Format(m) + MIDDLE + Format(a)
  }

  lemma ObjectKeyIsInjective(m: Uuid, a: Uuid, b: Uuid)
    requires ObjectKey(m, a) == ObjectKey(m, b)
    ensures a == b
  {
    hide Format, Parse;
    FormatThenParse(a);
    FormatThenParse(b);
    assert ObjectKey(m, a)[52..] == Format(a) && ObjectKey(m, b)[52..] == Format(b);
  }

  function NewKeys(m: Uuid, ids: seq<Uuid>): (r: seq<string>)
    ensures |r| == |ids|
  {
    seq(|ids|, i requires 0 <= i < |ids| => ObjectKey(m, ids[i]))
  }

  lemma KeysOfTheNew(m: Uuid, ids: seq<Uuid>)
    ensures forall i :: 0 <= i < |ids| ==> NewKeys(m, ids)[i] == ObjectKey(m, ids[i])
  {
  }

  /** New ids as `uuid4` gives them: no two alike, and none names an object already stored. */
  predicate Unused(m: Uuid, ids: seq<Uuid>, objects: Objects) {
    NoDuplicates(ids) && forall i :: 0 <= i < |ids| ==> NewKeys(m, ids)[i] !in objects
  }

  lemma NewKeysDiffer(m: Uuid, ids: seq<Uuid>)
    requires NoDuplicates(ids)
    ensures NoDuplicates(NewKeys(m, ids))
  {
    hide ObjectKey;
    forall i, j | 0 <= i < j < |ids| ensures NewKeys(m, ids)[i] != NewKeys(m, ids)[j] {
      if NewKeys(m, ids)[i] == NewKeys(m, ids)[j] {
        ObjectKeyIsInjective(m, ids[i], ids[j]);
      }
    }
  }

  /** Every object there was is untouched, and there is one more at each of `keys`. */
  predicate Gained(before: Objects, after: Objects, keys: set<string>) {
    after.Keys == before.Keys + keys && forall k :: k in before ==> after[k] == before[k]
  }

  function First(keys: seq<string>, n: nat): set<string>
    requires n <= |keys|
  {
    set i | 0 <= i < n :: keys[i]
  }

  lemma OneMoreGained(before: Objects, objects: Objects, keys: seq<string>, n: nat, data: seq<Byte>)
    requires n < |keys| && keys[n] !in before
    requires Gained(before, objects, First(keys, n))
    ensures Gained(before, objects[keys[n] := data], First(keys, n + 1))
  {
    assert First(keys, n + 1) == First(keys, n) + {keys[n]};
  }

  lemma GainedNothing(objects: Objects, keys: seq<string>)
    ensures Gained(objects, objects, First(keys, 0))
  {
  }

  /** A key outside the new ones is stored now exactly when it was before. */
  lemma OthersStay(before: Objects, objects: Objects, keys: seq<string>, n: nat, key: string)
    requires n <= |keys| && Gained(before, objects, First(keys, n)) && key !in keys
    ensures key in objects <==> key in before
    ensures key in before ==> objects[key] == before[key]
  {
  }

  /** What a failure at step `n` leaves behind: objects whose cleanup failed too, and one whose creation went unnoticed. */
  function LeftBehind(keys: seq<string>, n: nat, cleanup: nat -> Fault, unnoticed: bool): set<string>
    requires n < |keys|
  {
    (set i: nat | i < n && cleanup(i) == Refused :: keys[i]) + if unnoticed then {keys[n]} else {}
  }

  lemma NothingLeftBehindIff(before: Objects, after: Objects, keys: seq<string>, n: nat, cleanup: nat -> Fault, unnoticed: bool)
    requires n < |keys| && forall i :: 0 <= i < |keys| ==> keys[i] !in before
    requires Gained(before, after, LeftBehind(keys, n, cleanup, unnoticed))
    ensures after == before <==> Unfelt(n, cleanup) && !unnoticed
  {
    var left := LeftBehind(keys, n, cleanup, unnoticed);
    if unnoticed {
      assert keys[n] in left;
    } else if i: nat :| i < n && cleanup(i) == Refused {
      assert keys[i] in left;
    }
  }

  /** The keys among the first `n` whose delete took effect. */
  function Deleted(keys: seq<string>, n: nat, cleanup: nat -> Fault): set<string>
    requires n <= |keys|
  {
    set i: nat | i < n && cleanup(i) != Refused :: keys[i]
  }

  lemma DeletedOnce(keys: seq<string>, n: nat, cleanup: nat -> Fault, i: nat)
    requires n <= |keys| && i < |keys| && NoDuplicates(keys)
    ensures keys[i] in Deleted(keys, n, cleanup) <==> i < n && cleanup(i) != Refused
  {
    if keys[i] in Deleted(keys, n, cleanup) {
      var k: nat :| k < n && cleanup(k) != Refused && keys[k] == keys[i];
      assert k == i;
    }
  }

  lemma WhatIsNotDeletedIsLeft(keys: seq<string>, n: nat, cleanup: nat -> Fault, unnoticed: bool)
    requires n < |keys| && NoDuplicates(keys)
    ensures First(keys, if unnoticed then n + 1 else n) - Deleted(keys, n, cleanup) == LeftBehind(keys, n, cleanup, unnoticed)
  {
    hide Deleted, NoDuplicates;
    forall i: nat | i <= n ensures keys[i] in Deleted(keys, n, cleanup) <==> i < n && cleanup(i) != Refused {
      DeletedOnce(keys, n, cleanup, i);
    }
  }

  lemma RemovalLeaves(before: Objects, written: Objects, after: Objects, keys: seq<string>, n: nat, cleanup: nat -> Fault, unnoticed: bool)
    requires n < |keys| && NoDuplicates(keys) && forall i :: 0 <= i < |keys| ==> keys[i] !in before
    requires Gained(before, written, First(keys, if unnoticed then n + 1 else n))
    requires after == written - Deleted(keys, n, cleanup)
    ensures Gained(before, after, LeftBehind(keys, n, cleanup, unnoticed))
  {
    hide First, LeftBehind, NoDuplicates;
    WhatIsNotDeletedIsLeft(keys, n, cleanup, unnoticed);
    assert before.Keys !! Deleted(keys, n, cleanup);
  }

  /** Did copying this row's object go through, and, where asked, is the copy there? */
  predicate Copied(row: AssetRow, key: string, fault: Fault, before: Objects, after: Objects, kept: bool) {
    && fault == NoFault
    && row.key in before
    && (kept ==> key in after && after[key] == before[row.key])
  }

  predicate Holds(objects: Objects, key: string, data: seq<Byte>) {
    key in objects && objects[key] == data
  }

  /** Every one of the first `n` deletes took effect. */
  ghost predicate Unfelt(n: nat, cleanup: nat -> Fault) {
    forall i: nat :: i < n ==> cleanup(i) != Refused
  }

  /** The source's asset URLs mapped to the copy's, for the first `n` rows. */
  function Urls(rows: seq<AssetRow>, source: Uuid, copy: Uuid, ids: seq<Uuid>, n: nat): map<string, string>
    requires n <= |rows| == |ids|
  {
    if n == 0 then map[] else Urls(rows, source, copy, ids, n - 1)[AssetUrl(source, rows[n - 1].id) := AssetUrl(copy, ids[n - 1])]
  }

  // --- The renaming a duplicate gives its pages -------------------------------------------------------

  predicate RowsDiffer(rows: seq<AssetRow>) {
    forall i, j :: 0 <= i < j < |rows| ==> rows[i].id != rows[j].id
  }

  /** Entry `i` of the renaming: the URL of row `i` goes to the URL of its copy. */
  predicate Renames(urls: map<string, string>, source: Uuid, a: Uuid, copy: Uuid, b: Uuid) {
    AssetUrl(source, a) in urls && urls[AssetUrl(source, a)] == AssetUrl(copy, b)
  }

  predicate Comes(u: string, rows: seq<AssetRow>, source: Uuid, n: nat)
    requires n <= |rows|
  {
    exists i :: 0 <= i < n && u == AssetUrl(source, rows[i].id)
  }

  lemma RenamesAfter(urls: map<string, string>, source: Uuid, a: Uuid, copy: Uuid, b: Uuid, a': Uuid, b': Uuid)
    ensures Renames(urls[AssetUrl(source, a) := AssetUrl(copy, b)], source, a, copy, b)
    ensures a != a' && Renames(urls, source, a', copy, b') ==> Renames(urls[AssetUrl(source, a) := AssetUrl(copy, b)], source, a', copy, b')
  {
    hide IsAssetPath, AssetPart, Format, AssetUrl;
    if a != a' && AssetUrl(source, a) == AssetUrl(source, a') {
      AssetUrlIsInjective(source, a, source, a');
    }
  }

  lemma {:induction false} UrlsAt(rows: seq<AssetRow>, source: Uuid, copy: Uuid, ids: seq<Uuid>, n: nat, i: nat)
    requires i < n <= |rows| == |ids| && RowsDiffer(rows)
    ensures Renames(Urls(rows, source, copy, ids, n), source, rows[i].id, copy, ids[i])
  {
    hide IsAssetPath, AssetPart, Format, AssetUrl, Renames;
    RenamesAfter(Urls(rows, source, copy, ids, n - 1), source, rows[n - 1].id, copy, ids[n - 1], rows[i].id, ids[i]);
    if i < n - 1 {
      UrlsAt(rows, source, copy, ids, n - 1, i);
    }
  }

  lemma {:induction false} UrlsCome(rows: seq<AssetRow>, source: Uuid, copy: Uuid, ids: seq<Uuid>, n: nat, u: string)
    requires n <= |rows| == |ids| && u in Urls(rows, source, copy, ids, n)
    ensures Comes(u, rows, source, n)
  {
    hide IsAssetPath, AssetPart, Format, AssetUrl;
    if u != AssetUrl(source, rows[n - 1].id) {
      UrlsCome(rows, source, copy, ids, n - 1, u);
    }
  }

  function RowIds(rows: seq<AssetRow>): (r: seq<Uuid>)
    ensures |r| == |rows|
  {
    seq(|rows|, i requires 0 <= i < |rows| => rows[i].id)
  }

  function AsRows(ids: seq<Uuid>): (r: seq<AssetRow>)
    ensures |r| == |ids|
  {
    seq(|ids|, i requires 0 <= i < |ids| => AssetRow(ids[i], ""))
  }

  /** The renaming a duplicate back into the source would use. */
  function Back(rows: seq<AssetRow>, source: Uuid, copy: Uuid, ids: seq<Uuid>): map<string, string>
    requires |rows| == |ids|
  {
    Urls(AsRows(ids), copy, source, RowIds(rows), |ids|)
  }

  /** Row `i` in both directions. */
  lemma BothWays(rows: seq<AssetRow>, source: Uuid, copy: Uuid, ids: seq<Uuid>, i: nat)
    requires i < |rows| == |ids| && RowsDiffer(rows) && NoDuplicates(ids)
    ensures Renames(Urls(rows, source, copy, ids, |rows|), source, rows[i].id, copy, ids[i])
    ensures Renames(Back(rows, source, copy, ids), copy, ids[i], source, rows[i].id)
  {
    hide IsAssetPath, AssetPart, Format, AssetUrl, Renames, Urls;
    UrlsAt(rows, source, copy, ids, |rows|, i);
    UrlsAt(AsRows(ids), copy, source, RowIds(rows), |ids|, i);
  }

  /** The renaming is one to one: duplicating back reads it backwards. */
  lemma UrlsAreInvertible(rows: seq<AssetRow>, source: Uuid, copy: Uuid, ids: seq<Uuid>)
    requires |rows| == |ids| && RowsDiffer(rows) && NoDuplicates(ids)
    ensures Inverse(Urls(rows, source, copy, ids, |rows|), Back(rows, source, copy, ids))
  {
    hide IsAssetPath, AssetPart, Format, AssetUrl, Urls, Back, RowsDiffer, NoDuplicates;
    var urls, back := Urls(rows, source, copy, ids, |rows|), Back(rows, source, copy, ids);
    forall u | u in urls ensures urls[u] in back && back[urls[u]] == u {
      UrlsCome(rows, source, copy, ids, |rows|, u);
      var i: nat :| i < |rows| && u == AssetUrl(source, rows[i].id);
      BothWays(rows, source, copy, ids, i);
    }
    forall v | v in back ensures back[v] in urls && urls[back[v]] == v {
      BackComes(rows, source, copy, ids, v);
      var i: nat :| i < |ids| && v == AssetUrl(copy, ids[i]);
      BothWays(rows, source, copy, ids, i);
    }
  }

  lemma BackComes(rows: seq<AssetRow>, source: Uuid, copy: Uuid, ids: seq<Uuid>, v: string)
    requires |rows| == |ids| && v in Back(rows, source, copy, ids)
    ensures exists i: nat :: i < |ids| && v == AssetUrl(copy, ids[i])
  {
    hide IsAssetPath, AssetPart, Format, AssetUrl, Urls;
    UrlsCome(AsRows(ids), copy, source, RowIds(rows), |ids|, v);
    var i: nat :| i < |ids| && v == AssetUrl(copy, AsRows(ids)[i].id);
  }

  /** The renaming leads from the source's asset paths to the copy's, which the source has none of. */
  lemma UrlsLeadAway(rows: seq<AssetRow>, source: Uuid, copy: Uuid, ids: seq<Uuid>, u: string)
    requires |rows| == |ids| && RowsDiffer(rows) && NoDuplicates(ids) && source != copy
    requires u in Urls(rows, source, copy, ids, |rows|)
    ensures var urls := Urls(rows, source, copy, ids, |rows|); IsAssetPath(u) && IsAssetPath(urls[u]) && urls[u] !in urls
  {
    hide IsAssetPath, AssetPart, Format, Urls, RowsDiffer, NoDuplicates;
    var urls := Urls(rows, source, copy, ids, |rows|);
    UrlsCome(rows, source, copy, ids, |rows|, u);
    var i: nat :| i < |rows| && u == AssetUrl(source, rows[i].id);
    BothWays(rows, source, copy, ids, i);
    if urls[u] in urls {
      UrlsCome(rows, source, copy, ids, |rows|, urls[u]);
      var k: nat :| k < |rows| && urls[u] == AssetUrl(source, rows[k].id);
      AssetUrlIsInjective(source, rows[k].id, copy, ids[i]);
    }
  }

  /**
   * A page body copied by a duplicate means what the original means, points at none of the source's assets any more,
   * and duplicating it back gives the original exactly when that did not point into the copy already.
   */
  lemma DuplicatedBody(j: Json, rows: seq<AssetRow>, source: Uuid, copy: Uuid, ids: seq<Uuid>)
    requires |rows| == |ids| && RowsDiffer(rows) && NoDuplicates(ids) && source != copy
    ensures var urls, back := Urls(rows, source, copy, ids, |rows|), Back(rows, source, copy, ids);
            && SameMeaning(ByUrl(j, urls), j)
            && (forall r :: r in References(ByUrl(j, urls)) ==> r !in urls)
            && (ByUrl(ByUrl(j, urls), back) == j <==> forall r :: r in References(j) ==> r !in back)
  {
    hide IsAssetPath, AssetPart, Format, Urls, Back, ByUrl, References, SameMeaning, RowsDiffer, NoDuplicates, Inverse;
    var urls, back := Urls(rows, source, copy, ids, |rows|), Back(rows, source, copy, ids);
    forall u | u in urls ensures IsAssetPath(u) && IsAssetPath(urls[u]) && urls[u] !in urls {
      UrlsLeadAway(rows, source, copy, ids, u);
    }
    UrlsAreInvertible(rows, source, copy, ids);
    DuplicatingKeepsMeaning(j, urls);
    NoneLeftBehind(j, urls);
    RewriteUndone(j, urls, back);
    TheTwoAreApart(urls, back);
  }

  lemma TheTwoAreApart(urls: map<string, string>, back: map<string, string>)
    requires Inverse(urls, back) && forall u :: u in urls ==> urls[u] !in urls
    ensures forall v :: v in back ==> v !in urls
  {
    forall v | v in back ensures v !in urls {
      assert urls[back[v]] == v;
    }
  }

  /** The import's new URLs by the archive's asset ids, for the first `n` assets. */
  function IdUrls(assets: seq<(Uuid, seq<Byte>)>, m: Uuid, ids: seq<Uuid>, n: nat): map<Uuid, string>
    requires n <= |assets| == |ids|
  {
    if n == 0 then map[] else IdUrls(assets, m, ids, n - 1)[assets[n - 1].0 := AssetUrl(m, ids[n - 1])]
  }

  predicate AssetsDiffer(assets: seq<(Uuid, seq<Byte>)>) {
    forall i, j :: 0 <= i < j < |assets| ==> assets[i].0 != assets[j].0
  }

  lemma {:induction false} IdUrlsAt(assets: seq<(Uuid, seq<Byte>)>, m: Uuid, ids: seq<Uuid>, n: nat, i: nat)
    requires i < n <= |assets| == |ids| && AssetsDiffer(assets)
    ensures assets[i].0 in IdUrls(assets, m, ids, n) && IdUrls(assets, m, ids, n)[assets[i].0] == AssetUrl(m, ids[i])
  {
    hide AssetUrl;
    if i < n - 1 {
      IdUrlsAt(assets, m, ids, n - 1, i);
    }
  }

  lemma {:induction false} IdUrlsCome(assets: seq<(Uuid, seq<Byte>)>, m: Uuid, ids: seq<Uuid>, n: nat, id: Uuid) returns (i: nat)
    requires n <= |assets| == |ids| && id in IdUrls(assets, m, ids, n)
    ensures i < n && assets[i].0 == id
  {
    hide AssetUrl;
    if id == assets[n - 1].0 {
      i := n - 1;
    } else {
      i := IdUrlsCome(assets, m, ids, n - 1, id);
    }
  }

  function AssetIds(assets: seq<(Uuid, seq<Byte>)>): (r: seq<Uuid>)
    ensures |r| == |assets|
  {
    seq(|assets|, i requires 0 <= i < |assets| => assets[i].0)
  }

  function AsAssets(ids: seq<Uuid>): (r: seq<(Uuid, seq<Byte>)>)
    ensures |r| == |ids|
  {
    seq(|ids|, i requires 0 <= i < |ids| => (ids[i], []))
  }

  /** The renaming an import of the copy, back into the source, would use. */
  function WayBack(assets: seq<(Uuid, seq<Byte>)>, source: Uuid, ids: seq<Uuid>): map<Uuid, string>
    requires |assets| == |ids|
  {
    IdUrls(AsAssets(ids), source, AssetIds(assets), |ids|)
  }

  lemma LeadsAt(assets: seq<(Uuid, seq<Byte>)>, source: Uuid, m: Uuid, ids: seq<Uuid>, i: nat)
    requires i < |assets| == |ids| && AssetsDiffer(assets) && NoDuplicates(ids)
    ensures Leads(source, m, IdUrls(assets, m, ids, |assets|), WayBack(assets, source, ids), assets[i].0, ids[i])
  {
    hide AssetUrl, IdUrls;
    IdUrlsAt(assets, m, ids, |assets|, i);
    IdUrlsAt(AsAssets(ids), source, AssetIds(assets), |ids|, i);
  }

  lemma IdUrlsAreInvertible(assets: seq<(Uuid, seq<Byte>)>, source: Uuid, m: Uuid, ids: seq<Uuid>)
    requires |assets| == |ids| && AssetsDiffer(assets) && NoDuplicates(ids)
    ensures InverseIds(source, m, IdUrls(assets, m, ids, |assets|), WayBack(assets, source, ids))
  {
    hide Leads, IdUrls, AssetUrl, AssetsDiffer, NoDuplicates;
    var urls, back := IdUrls(assets, m, ids, |assets|), WayBack(assets, source, ids);
    forall id | id in urls ensures exists made :: Leads(source, m, urls, back, id, made) {
      var i := IdUrlsCome(assets, m, ids, |assets|, id);
      LeadsAt(assets, source, m, ids, i);
    }
    forall made | made in back ensures exists id :: Leads(source, m, urls, back, id, made) {
      var i := IdUrlsCome(AsAssets(ids), source, AssetIds(assets), |ids|, made);
      LeadsAt(assets, source, m, ids, i);
    }
  }

  /** No new URL names an asset of the archive, as the new ids are not among its. */
  lemma NewUrlsNameNew(assets: seq<(Uuid, seq<Byte>)>, m: Uuid, ids: seq<Uuid>, id: Uuid)
    requires |assets| == |ids| && AssetsDiffer(assets)
    requires forall i, k :: 0 <= i < |assets| && 0 <= k < |ids| ==> assets[i].0 != ids[k]
    requires id in IdUrls(assets, m, ids, |assets|)
    ensures var urls := IdUrls(assets, m, ids, |assets|); IsAssetPath(urls[id]) && !NamesOneOf(urls, urls[id])
  {
    hide IdUrls, NamedAsset, IsAssetPath, AssetPart, Format;
    var urls := IdUrls(assets, m, ids, |assets|);
    var i := IdUrlsCome(assets, m, ids, |assets|, id);
    IdUrlsAt(assets, m, ids, |assets|, i);
    CanonicalNames(m, ids[i]);
    if ids[i] in urls {
      var k := IdUrlsCome(assets, m, ids, |assets|, ids[i]);
    }
  }

  /**
   * An imported page body, whenever the rewriter comes out at all, means what the archived one means, names none of the
   * archive's assets any more, and comes back under the way back exactly when every reference to them was canonical and
   * none named a new asset already.
   */
  lemma ImportedBody(j: Json, assets: seq<(Uuid, seq<Byte>)>, source: Uuid, m: Uuid, ids: seq<Uuid>)
    requires |assets| == |ids| && AssetsDiffer(assets) && NoDuplicates(ids)
    requires forall i, k :: 0 <= i < |assets| && 0 <= k < |ids| ==> assets[i].0 != ids[k]
    requires ById(j, IdUrls(assets, m, ids, |assets|)).Ok?
    ensures var urls, back := IdUrls(assets, m, ids, |assets|), WayBack(assets, source, ids);
            var imported := ById(j, urls).value;
            && SameMeaning(imported, j)
            && (forall r :: r in References(imported) ==> !NamesOneOf(urls, r))
            && (ById(imported, back) == Ok(j) <==> forall r :: r in References(j) ==> ComesBack(source, urls, back, r))
  {
    hide IdUrls, WayBack, ById, References, SameMeaning, NamesOneOf, ComesBack, InverseIds, IsAssetPath, AssetsDiffer, NoDuplicates;
    var urls, back := IdUrls(assets, m, ids, |assets|), WayBack(assets, source, ids);
    IdUrlsAreInvertible(assets, source, m, ids);
    forall id | id in urls ensures IsAssetPath(urls[id]) && !NamesOneOf(urls, urls[id]) {
      NewUrlsNameNew(assets, m, ids, id);
    }
    ImportingKeepsMeaning(j, urls);
    NoneLeftBehindById(j, urls);
    RewriteUndoneById(j, source, m, urls, back);
  }

  // --- What a reader of the new pages is shown ---------------------------------------------------------

  /** Behind this URL lies an object with these bytes: the one stored for the module and the asset it names. */
  ghost predicate Serves(objects: Objects, url: string, data: seq<Byte>) {
    exists m, a :: url == AssetUrl(m, a) && Holds(objects, ObjectKey(m, a), data)
  }

  /** Where a duplicated page showed a file of the source it shows, in the same place, the copy, with the same bytes. */
  lemma DuplicatedReferenceShowsTheFile(before: Objects, after: Objects, rows: seq<AssetRow>, source: Uuid, copy: Uuid,
        ids: seq<Uuid>, i: nat, j: Json, path: seq<Step>)
    requires i < |rows| == |ids| && RowsDiffer(rows)
    requires rows[i].key in before && Holds(after, ObjectKey(copy, ids[i]), before[rows[i].key])
    requires EndsOnReference(j, path) && ValueAt(j, path) == Some(Str(AssetUrl(source, rows[i].id)))
    ensures var v := ValueAt(ByUrl(j, Urls(rows, source, copy, ids, |rows|)), path);
            v.Some? && v.value.Str? && Serves(after, v.value.s, before[rows[i].key])
  {
    hide ValueAt, EndsOnReference, ByUrl, Urls, AssetUrl, ObjectKey, RowsDiffer;
    UrlsAt(rows, source, copy, ids, |rows|, i);
    DuplicateRewritesReferences(j, Urls(rows, source, copy, ids, |rows|), path);
  }

  /** And where an archived page showed a file of the archive, however its id was spelled, the imported one shows that file. */
  lemma ImportedReferenceShowsTheFile(after: Objects, assets: seq<(Uuid, seq<Byte>)>, m: Uuid, ids: seq<Uuid>,
        i: nat, j: Json, path: seq<Step>)
    requires i < |assets| == |ids| && AssetsDiffer(assets) && ById(j, IdUrls(assets, m, ids, |assets|)).Ok?
    requires Holds(after, ObjectKey(m, ids[i]), assets[i].1)
    requires EndsOnReference(j, path) && ValueAt(j, path).Some? && ValueAt(j, path).value.Str?
    requires Spells(ValueAt(j, path).value.s, assets[i].0)
    ensures var v := ValueAt(ById(j, IdUrls(assets, m, ids, |assets|)).value, path);
            v.Some? && v.value.Str? && Serves(after, v.value.s, assets[i].1)
  {
    hide ValueAt, EndsOnReference, ById, IdUrls, AssetUrl, ObjectKey, Spells, AssetsDiffer;
    IdUrlsAt(assets, m, ids, |assets|, i);
    ImportRewritesReferences(j, IdUrls(assets, m, ids, |assets|), path);
  }

  function Files(assets: seq<(Uuid, seq<Byte>)>): (r: seq<seq<Byte>>)
    ensures |r| == |assets|
  {
    seq(|assets|, i requires 0 <= i < |assets| => assets[i].1)
  }

  predicate AllRewritable(bodies: seq<Json>, urls: map<Uuid, string>, n: nat)
    requires n <= |bodies|
  {
    forall i :: 0 <= i < n ==> ById(bodies[i], urls).Ok?
  }

  predicate AreRewritten(pages: seq<Json>, bodies: seq<Json>, urls: map<Uuid, string>) {
    |pages| == |bodies| && forall i :: 0 <= i < |bodies| ==> ById(bodies[i], urls) == Ok(pages[i])
  }

  lemma AllGainedIff(before: Objects, after: Objects, keys: seq<string>)
    requires (forall i :: 0 <= i < |keys| ==> keys[i] !in before) && Gained(before, after, First(keys, |keys|))
    ensures after == before <==> |keys| == 0
  {
    if |keys| > 0 {
      assert keys[0] in First(keys, |keys|);
    }
  }

  class Store {
    var objects: Objects

    constructor ()
      ensures objects == map[]
    {
      objects := map[];
    }

    /** `put_asset` */
    method Put(key: string, data: seq<Byte>, fault: Fault) returns (ok: bool)
      modifies this
      ensures ok <==> fault == NoFault
      ensures objects == if fault == Refused then old(objects) else old(objects)[key := data]
    {
      if fault != Refused {
        objects := objects[key := data];
      }
      ok := fault == NoFault;
    }

    /** `copy_asset`, which fails on its own when there is nothing at the source. */
    method CopyObject(source: string, key: string, fault: Fault) returns (ok: bool)
      modifies this
      ensures ok <==> fault == NoFault && source in old(objects)
      ensures objects == if fault == Refused || source !in old(objects) then old(objects) else old(objects)[key := old(objects)[source]]
    {
      if source !in objects {
        return false;
      }
      ok := Put(key, objects[source], fault);
    }

    /** The cleanup loop: every delete is tried, and one that fails is logged and passed over. */
    method RemoveEach(keys: seq<string>, faults: nat -> Fault)
      modifies this
      ensures objects == old(objects) - Deleted(keys, |keys|, faults)
    {
      for i := 0 to |keys|
        invariant objects == old(objects) - Deleted(keys, i, faults)
      {
        if faults(i) != Refused {
          objects := objects - {keys[i]};
        }
      }
    }

    /** Undoing `n` noticed steps leaves exactly what the failed step and the failed deletes leave. */
    method TakeBack(keys: seq<string>, n: nat, cleanup: nat -> Fault, ghost before: Objects, ghost unnoticed: bool)
      requires n < |keys| && NoDuplicates(keys) && forall i :: 0 <= i < |keys| ==> keys[i] !in before
      requires Gained(before, objects, First(keys, if unnoticed then n + 1 else n))
      modifies this
      ensures Gained(before, objects, LeftBehind(keys, n, cleanup, unnoticed))
    {
      ghost var written := objects;
      RemoveEach(keys[..n], cleanup);
      assert Deleted(keys[..n], n, cleanup) == Deleted(keys, n, cleanup);
      RemovalLeaves(before, written, objects, keys, n, cleanup, unnoticed);
    }

    /** The second loop of `_duplicate_assets`: copy each object, and on a failure take the copies back. */
    method CopyEach(rows: seq<AssetRow>, keys: seq<string>, faults: nat -> Fault, cleanup: nat -> Fault) returns (done: nat)
      requires |keys| == |rows| && NoDuplicates(keys) && forall i :: 0 <= i < |keys| ==> keys[i] !in objects
      requires forall i :: 0 <= i < |rows| ==> rows[i].key !in keys
      modifies this
      ensures done <= |rows|
      ensures forall i: nat :: i < done ==> Copied(rows[i], keys[i], faults(i), old(objects), objects, done == |rows|)
      ensures done == |rows| ==> Gained(old(objects), objects, First(keys, done))
      ensures done < |rows| ==>
                !(faults(done) == NoFault && rows[done].key in old(objects)) &&
                Gained(old(objects), objects, LeftBehind(keys, done, cleanup, faults(done) == LostReply && rows[done].key in old(objects)))
    {
      hide First, Gained, LeftBehind;
      done := 0;
      GainedNothing(objects, keys);
      while done < |rows|
        invariant done <= |rows|
        invariant Gained(old(objects), objects, First(keys, done))
        invariant forall i: nat :: i < done ==> Copied(rows[i], keys[i], faults(i), old(objects), objects, true)
      {
        ghost var before := objects;
        OthersStay(old(objects), objects, keys, done, rows[done].key);
        var ok := CopyObject(rows[done].key, keys[done], faults(done));
        if rows[done].key in before {
          OneMoreGained(old(objects), before, keys, done, before[rows[done].key]);
        }
        if !ok {
          TakeBack(keys, done, cleanup, old(objects), faults(done) == LostReply && rows[done].key in old(objects));
          return;
        }
        done := done + 1;
      }
    }

    /** The loop of `import_module`: a row, then its object. `flushes(i)` says whether the database took row `i`. */
    method PutEach(files: seq<seq<Byte>>, keys: seq<string>, flushes: nat -> bool, faults: nat -> Fault,
          cleanup: nat -> Fault) returns (done: nat)
      requires |keys| == |files| && NoDuplicates(keys) && forall i :: 0 <= i < |keys| ==> keys[i] !in objects
      modifies this
      ensures done <= |files|
      ensures forall i: nat :: i < done ==> flushes(i) && faults(i) == NoFault
      ensures done == |files| ==> Gained(old(objects), objects, First(keys, done)) && forall i: nat :: i < done ==>
          Holds(objects, keys[i], files[i])
      ensures done < |files| ==>
                !(flushes(done) && faults(done) == NoFault) &&
                Gained(old(objects), objects, LeftBehind(keys, done, cleanup, flushes(done) && faults(done) == LostReply))
    {
      hide First, Gained, LeftBehind;
      done := 0;
      GainedNothing(objects, keys);
      while done < |files|
        invariant done <= |files|
        invariant Gained(old(objects), objects, First(keys, done))
        invariant forall i: nat :: i < done ==> flushes(i) && faults(i) == NoFault && Holds(objects, keys[i], files[i])
      {
        OneMoreGained(old(objects), objects, keys, done, files[done]);
        var ok := flushes(done);
        if ok {
          ok := Put(keys[done], files[done], faults(done));
        }
        if !ok {
          TakeBack(keys, done, cleanup, old(objects), flushes(done) && faults(done) == LostReply);
          return;
        }
        done := done + 1;
      }
    }

    /**
     * `_duplicate_assets`: a fresh id and key for every row, then the copies. `done` is the first copy that fails, or their
     * number. It ends with exactly one new object per row, each a copy of its original, or with nothing but what a
     * failed delete or a lost reply leaves.
     */
    method DuplicateAssets(rows: seq<AssetRow>, source: Uuid, copy: Uuid, ids: seq<Uuid>, faults: nat -> Fault, cleanup: nat -> Fault)
      returns (r: Option<map<string, string>>, done: nat)
      requires |ids| == |rows| && Unused(copy, ids, objects) && forall i :: 0 <= i < |rows| ==> rows[i].key !in NewKeys(copy, ids)
      modifies this
      ensures done <= |rows| && (r.Some? <==> done == |rows|)
      ensures r.Some? ==> r.value == Urls(rows, source, copy, ids, |rows|)
      ensures r.Some? ==> Gained(old(objects), objects, First(NewKeys(copy, ids), |rows|))
      ensures r.Some? ==> forall i: nat :: i < |rows| ==>
                rows[i].key in old(objects) && Holds(objects, ObjectKey(copy, ids[i]), old(objects)[rows[i].key])
      ensures forall i: nat :: i < done ==> faults(i) == NoFault && rows[i].key in old(objects)
      ensures r.None? ==> !(faults(done) == NoFault && rows[done].key in old(objects))
      ensures r.None? ==>
                Gained(old(objects), objects,
                  LeftBehind(NewKeys(copy, ids), done, cleanup, faults(done) == LostReply && rows[done].key in old(objects)))
      ensures r.None? ==> (objects == old(objects) <==>
                Unfelt(done, cleanup) && !(faults(done) == LostReply && rows[done].key in old(objects)))
    {
      hide First, Gained, LeftBehind, AssetUrl, NewKeys, ObjectKey;
      var urls: map<string, string> := map[];
      for i := 0 to |rows|
        invariant urls == Urls(rows, source, copy, ids, i)
      {
        urls := urls[AssetUrl(source, rows[i].id) := AssetUrl(copy, ids[i])];
      }
      var keys := NewKeys(copy, ids);
      NewKeysDiffer(copy, ids);
      done := CopyEach(rows, keys, faults, cleanup);
      if done < |rows| {
        NothingLeftBehindIff(old(objects), objects, keys, done, cleanup, faults(done) == LostReply && rows[done].key in old(objects));
        return None, done;
      }
      KeysOfTheNew(copy, ids);
      r := Some(urls);
    }

    /**
     * `import_module` once the archive is parsed. `accepted` says whether its pages and files passed their checks, made before
     * anything is created; `commits` whether the transaction went through. `done` is the first asset that fails, or their
     * number. The asset loop takes its objects back on a failure, but nothing takes them back when a page or the commit
     * fails after it.
     */
    method ImportModule(assets: seq<(Uuid, seq<Byte>)>, bodies: seq<Json>, accepted: bool, m: Uuid, ids: seq<Uuid>,
          flushes: nat -> bool, faults: nat -> Fault, cleanup: nat -> Fault, commits: bool)
      returns (r: Option<seq<Json>>, done: nat)
      requires |ids| == |assets| && Unused(m, ids, objects)
      modifies this
      ensures done <= |assets| && (!accepted ==> done == 0)
      ensures accepted ==> forall i: nat :: i < done ==> flushes(i) && faults(i) == NoFault
      ensures accepted && done < |assets| ==> !(flushes(done) && faults(done) == NoFault)
      ensures r.Some? <==> accepted && done == |assets| && AllRewritable(bodies, IdUrls(assets, m, ids, |assets|), |bodies|) && commits
      ensures r.Some? ==> AreRewritten(r.value, bodies, IdUrls(assets, m, ids, |assets|))
      ensures accepted && done == |assets| ==> Gained(old(objects), objects, First(NewKeys(m, ids), |assets|))
      ensures accepted && done == |assets| ==> forall i: nat :: i < |assets| ==> Holds(objects, ObjectKey(m, ids[i]), assets[i].1)
      ensures accepted && done < |assets| ==>
                Gained(old(objects), objects, LeftBehind(NewKeys(m, ids), done, cleanup, flushes(done) && faults(done) == LostReply))
      ensures r.None? ==> (objects == old(objects) <==>
                || !accepted || assets == []
                || (done < |assets| && Unfelt(done, cleanup) && !(flushes(done) && faults(done) == LostReply)))
    {
      hide First, Gained, LeftBehind, AssetUrl, NewKeys, ObjectKey, ById;
      if !accepted {
        return None, 0;
      }
      var keys := NewKeys(m, ids);
      NewKeysDiffer(m, ids);
      done := PutEach(Files(assets), keys, flushes, faults, cleanup);
      if done < |assets| {
        NothingLeftBehindIff(old(objects), objects, keys, done, cleanup, flushes(done) && faults(done) == LostReply);
        return None, done;
      }
      AllGainedIff(old(objects), objects, keys);
      KeysOfTheNew(m, ids);
      var urls: map<Uuid, string> := map[];
      for i := 0 to |assets|
        invariant urls == IdUrls(assets, m, ids, i)
      {
        urls := urls[assets[i].0 := AssetUrl(m, ids[i])];
      }
      var pages: seq<Json> := [];
      for i := 0 to |bodies|
        invariant |pages| == i && AllRewritable(bodies, urls, i) && AreRewritten(pages, bodies[..i], urls)
      {
        var rewritten := ById(bodies[i], urls);
        if rewritten.Err? {
          return None, done;
        }
        pages := pages + [rewritten.value];
      }
      assert bodies[..|bodies|] == bodies;
      r := if commits then Some(pages) else None;
    }
  }

  function AlwaysTaken(): nat -> bool {
    i => true
  }

  function NeverFaulty(): nat -> Fault {
    i => NoFault
  }

  /**
   * An archive of one asset and one page, imported into an empty store that does all it is asked. The validator accepts the
   * page, the rewriter raises on it, the import fails, and the asset's object stays.
   */
  method ImportThatLeaks(asset: (Uuid, seq<Byte>), m: Uuid, made: Uuid) returns (store: Store, body: Json, r: Option<seq<Json>>)
    ensures Verdict(body) == None && r == None
    ensures fresh(store) && store.objects == map[ObjectKey(m, made) := asset.1]
  {
    hide Verdict, WellFormed, ById, ObjectKey;
    store := new Store();
    body := PageOf(ImageNode(DashedPath()));
    ghost var urls := IdUrls([asset], m, [made], 1);
    ghost var refused := AcceptedYetNotRewritable(urls);
    assert ById([body][0], urls).Err?;
    var done;
    r, done := store.ImportModule([asset], [body], true, m, [made], AlwaysTaken(), NeverFaulty(), NeverFaulty(), true);
    OneKey(m, made);
  }

  lemma OneKey(m: Uuid, made: Uuid)
    ensures NewKeys(m, [made]) == [ObjectKey(m, made)] && First(NewKeys(m, [made]), 1) == {ObjectKey(m, made)}
  {
    hide ObjectKey;
    var keys := NewKeys(m, [made]);
    assert keys[0] in First(keys, 1);
  }
}
