/** Repointing a page body's asset references, by exact URL (duplicate) and by asset id (import). */
module Rewriting {
  import opened Common
  import opened Documents
  import opened Uuids

  /** The attributes a body points at an asset with. */
  predicate IsReferenceKey(key: string) {
    key == "src" || key == "href"
  }

  /** The tree with every reference string `s` replaced by `f(s)`. */
  function Redirect(j: Json, f: string -> string): Json
    decreases j
  {
    match j
    case Obj(fields) => Obj(RedirectFields(fields, f))
    case Arr(items) => Arr(RedirectItems(items, f))
    case _ => j
  }

  function RedirectFields(fields: seq<Field>, f: string -> string): seq<Field>
    decreases fields
  {
    if fields == [] then []
    else
      var key, v := fields[0].key, fields[0].value;
      var v' := if IsReferenceKey(key) && v.Str? then Str(f(v.s)) else Redirect(v, f);
      [Field(key, v')] + RedirectFields(fields[1..], f)
  }

  function RedirectItems(items: seq<Json>, f: string -> string): seq<Json>
    decreases items
  {
    if items == [] then [] else [Redirect(items[0], f)] + RedirectItems(items[1..], f)
  }

  /** Every reference string of the tree, in document order. */
  function References(j: Json): seq<string>
    decreases j
  {
    match j
    case Obj(fields) => FieldReferences(fields)
    case Arr(items) => ItemReferences(items)
    case _ => []
  }

  function FieldReferences(fields: seq<Field>): seq<string>
    decreases fields
  {
    if fields == [] then []
    else
      var key, v := fields[0].key, fields[0].value;
      (if IsReferenceKey(key) && v.Str? then [v.s] else References(v)) + FieldReferences(fields[1..])
  }

  function ItemReferences(items: seq<Json>): seq<string>
    decreases items
  {
    if items == [] then [] else References(items[0]) + ItemReferences(items[1..])
  }

  // --- The two rewriters ------------------------------------------------------------

  function FollowUrl(urls: map<string, string>): string -> string {
    s => if s in urls then urls[s] else s
  }

  /** `_rewrite_asset_references`: a string that is not a known URL is rewritten recursively, and so kept. */
  function ByUrl(j: Json, urls: map<string, string>): Json {
    Redirect(j, FollowUrl(urls))
  }

  /** The asset id a reference names, as `uuid.UUID` reads it: `Ok(None)` when it is no asset path, `Err` for its ValueError. */
  function NamedAsset(s: string): Result<Option<Uuid>, ()> {
    if !IsAssetPath(s) then Ok(None)
    else
      match Parse(AssetPart(s))
      case None => Err(())
      case Some(id) => Ok(Some(id))
  }

  /** `_rewrite_asset_references_by_id`, which fails as a whole when a path it matched holds no UUID. */
  function ById(j: Json, urls: map<Uuid, string>): Result<Json, ()>
    decreases j
  {
    match j
    case Obj(fields) =>
      (match ByIdFields(fields, urls)
       case Ok(r) => Ok(Obj(r))
       case Err(e) => Err(e))
    case Arr(items) =>
      (match ByIdItems(items, urls)
       case Ok(r) => Ok(Arr(r))
       case Err(e) => Err(e))
    case _ => Ok(j)
  }

  function ByIdFields(fields: seq<Field>, urls: map<Uuid, string>): Result<seq<Field>, ()>
    decreases fields
  {
    if fields == [] then Ok([])
    else
      var key, v := fields[0].key, fields[0].value;
      var first :=
        if IsReferenceKey(key) && v.Str? then
          match NamedAsset(v.s)
          case Err(e) => Err(e)
          case Ok(None) => Ok(v)
          case Ok(Some(id)) => Ok(if id in urls then Str(urls[id]) else v)
        else ById(v, urls);
      if first.Err? then Err(first.error)
      else
        var rest := ByIdFields(fields[1..], urls);
        if rest.Err? then rest else Ok([Field(key, first.value)] + rest.value)
  }

  function ByIdItems(items: seq<Json>, urls: map<Uuid, string>): Result<seq<Json>, ()>
    decreases items
  {
    if items == [] then Ok([])
    else
      var first := ById(items[0], urls);
      if first.Err? then Err(first.error)
      else
        var rest := ByIdItems(items[1..], urls);
        if rest.Err? then rest else Ok([first.value] + rest.value)
  }

  function FollowId(urls: map<Uuid, string>): string -> string {
    s => match NamedAsset(s)
         case Ok(Some(id)) => if id in urls then urls[id] else s
         case _ => s
  }

  /** Import rewriting fails exactly on a tree that references a path of the asset shape without a UUID; otherwise it redirects. */
  lemma {:induction false} ByIdOutcome(j: Json, urls: map<Uuid, string>)
    ensures ById(j, urls).Err? <==> exists r :: r in References(j) && NamedAsset(r).Err?
    ensures ById(j, urls).Ok? ==> ById(j, urls).value == Redirect(j, FollowId(urls))
    decreases j
  {
    match j
    case Obj(fields) => ByIdFieldsOutcome(fields, urls);
    case Arr(items) => ByIdItemsOutcome(items, urls);
    case _ =>
  }

  lemma {:induction false} ByIdFieldsOutcome(fields: seq<Field>, urls: map<Uuid, string>)
    ensures ByIdFields(fields, urls).Err? <==> exists r :: r in FieldReferences(fields) && NamedAsset(r).Err?
    ensures ByIdFields(fields, urls).Ok? ==> ByIdFields(fields, urls).value == RedirectFields(fields, FollowId(urls))
    decreases fields
  {
    if fields != [] {
      var v := fields[0].value;
      ByIdOutcome(v, urls);
      ByIdFieldsOutcome(fields[1..], urls);
      if IsReferenceKey(fields[0].key) && v.Str? {
        assert v.s in FieldReferences(fields);
      }
    }
  }

  lemma {:induction false} ByIdItemsOutcome(items: seq<Json>, urls: map<Uuid, string>)
    ensures ByIdItems(items, urls).Err? <==> exists r :: r in ItemReferences(items) && NamedAsset(r).Err?
    ensures ByIdItems(items, urls).Ok? ==> ByIdItems(items, urls).value == RedirectItems(items, FollowId(urls))
    decreases items
  {
    if items != [] {
      ByIdOutcome(items[0], urls);
      ByIdItemsOutcome(items[1..], urls);
    }
  }

  // --- The laws of redirecting --------------------------------------------------------

  function Then(f: string -> string, g: string -> string): string -> string {
    s => g(f(s))
  }

  function Keep(): string -> string {
    s => s
  }

  function Each(ss: seq<string>, f: string -> string): seq<string> {
    if ss == [] then [] else [f(ss[0])] + Each(ss[1..], f)
  }

  lemma {:induction false} EachConcat(a: seq<string>, b: seq<string>, f: string -> string)
    ensures Each(a + b, f) == Each(a, f) + Each(b, f)
  {
    if a == [] {
      assert a + b == b;
    } else {
      hide Each;
      EachConcat(a[1..], b, f);
      EachFirst(a, f);
      EachFirst(a + b, f);
      assert (a + b)[1..] == a[1..] + b;
      Reassociate([f(a[0])], Each(a[1..], f), Each(b, f));
    }
  }

  lemma EachFirst(ss: seq<string>, f: string -> string)
    requires ss != []
    ensures Each(ss, f) == [f(ss[0])] + Each(ss[1..], f)
  {
  }

  lemma {:induction false} EachElements(ss: seq<string>, f: string -> string)
    ensures forall r :: r in Each(ss, f) <==> exists s :: s in ss && r == f(s)
  {
    if ss != [] {
      EachElements(ss[1..], f);
      assert ss == [ss[0]] + ss[1..];
    }
  }

  /** The references of a redirected tree are exactly the old ones redirected, in the same places. */
  lemma {:induction false} RedirectedReferences(j: Json, f: string -> string)
    ensures References(Redirect(j, f)) == Each(References(j), f)
    decreases j
  {
    match j
    case Obj(fields) => RedirectedFieldReferences(fields, f);
    case Arr(items) => RedirectedItemReferences(items, f);
    case _ =>
  }

  lemma {:induction false} RedirectedFieldReferences(fields: seq<Field>, f: string -> string)
    ensures FieldReferences(RedirectFields(fields, f)) == Each(FieldReferences(fields), f)
    decreases fields
  {
    if fields != [] {
      var key, v := fields[0].key, fields[0].value;
      RedirectedReferences(v, f);
      RedirectedFieldReferences(fields[1..], f);
      var first := if IsReferenceKey(key) && v.Str? then [v.s] else References(v);
      EachConcat(first, FieldReferences(fields[1..]), f);
    }
  }

  lemma {:induction false} RedirectedItemReferences(items: seq<Json>, f: string -> string)
    ensures ItemReferences(RedirectItems(items, f)) == Each(ItemReferences(items), f)
    decreases items
  {
    if items != [] {
      RedirectedReferences(items[0], f);
      RedirectedItemReferences(items[1..], f);
      EachConcat(References(items[0]), ItemReferences(items[1..]), f);
    }
  }

  /** Two redirections give the same tree exactly when they agree on every reference in it: nothing else is touched. */
  lemma {:induction false} RedirectsAgree(j: Json, f: string -> string, g: string -> string)
    ensures Redirect(j, f) == Redirect(j, g) <==> forall r :: r in References(j) ==> f(r) == g(r)
    decreases j
  {
    match j
    case Obj(fields) => RedirectsAgreeOnFields(fields, f, g);
    case Arr(items) => RedirectsAgreeOnItems(items, f, g);
    case _ =>
  }

  lemma {:induction false} RedirectsAgreeOnFields(fields: seq<Field>, f: string -> string, g: string -> string)
    ensures RedirectFields(fields, f) == RedirectFields(fields, g) <==> forall r :: r in FieldReferences(fields) ==> f(r) == g(r)
    decreases fields
  {
    if fields != [] {
      var v := fields[0].value;
      RedirectsAgree(v, f, g);
      RedirectsAgreeOnFields(fields[1..], f, g);
      ConsEqual(RedirectFields(fields, f), RedirectFields(fields, g));
    }
  }

  lemma {:induction false} RedirectsAgreeOnItems(items: seq<Json>, f: string -> string, g: string -> string)
    ensures RedirectItems(items, f) == RedirectItems(items, g) <==> forall r :: r in ItemReferences(items) ==> f(r) == g(r)
    decreases items
  {
    if items != [] {
      RedirectsAgree(items[0], f, g);
      RedirectsAgreeOnItems(items[1..], f, g);
      ConsEqual(RedirectItems(items, f), RedirectItems(items, g));
    }
  }

  lemma ConsEqual<T>(a: seq<T>, b: seq<T>)
    requires a != [] && b != []
    ensures a == b <==> a[0] == b[0] && a[1..] == b[1..]
  {
    assert a == [a[0]] + a[1..];
    assert b == [b[0]] + b[1..];
  }

  lemma {:induction false} RedirectComposes(j: Json, f: string -> string, g: string -> string)
    ensures Redirect(Redirect(j, f), g) == Redirect(j, Then(f, g))
    decreases j
  {
    match j
    case Obj(fields) => RedirectFieldsCompose(fields, f, g);
    case Arr(items) => RedirectItemsCompose(items, f, g);
    case _ =>
  }

  lemma {:induction false} RedirectFieldsCompose(fields: seq<Field>, f: string -> string, g: string -> string)
    ensures RedirectFields(RedirectFields(fields, f), g) == RedirectFields(fields, Then(f, g))
    decreases fields
  {
    if fields != [] {
      RedirectComposes(fields[0].value, f, g);
      RedirectFieldsCompose(fields[1..], f, g);
    }
  }

  lemma {:induction false} RedirectItemsCompose(items: seq<Json>, f: string -> string, g: string -> string)
    ensures RedirectItems(RedirectItems(items, f), g) == RedirectItems(items, Then(f, g))
    decreases items
  {
    if items != [] {
      RedirectComposes(items[0], f, g);
      RedirectItemsCompose(items[1..], f, g);
    }
  }

  lemma {:induction false} RedirectingNowhere(j: Json)
    ensures Redirect(j, Keep()) == j
    decreases j
  {
    match j
    case Obj(fields) => RedirectingFieldsNowhere(fields);
    case Arr(items) => RedirectingItemsNowhere(items);
    case _ =>
  }

  lemma {:induction false} RedirectingFieldsNowhere(fields: seq<Field>)
    ensures RedirectFields(fields, Keep()) == fields
    decreases fields
  {
    if fields != [] {
      RedirectingNowhere(fields[0].value);
      RedirectingFieldsNowhere(fields[1..]);
    }
  }

  lemma {:induction false} RedirectingItemsNowhere(items: seq<Json>)
    ensures RedirectItems(items, Keep()) == items
    decreases items
  {
    if items != [] {
      RedirectingNowhere(items[0]);
      RedirectingItemsNowhere(items[1..]);
    }
  }

  // --- What the two rewriters do to a tree's references ---------------------------------

  /** When no new URL is also an old one, none of the source's own references is left behind. */
  lemma NoneLeftBehind(j: Json, urls: map<string, string>)
    requires forall u :: u in urls ==> urls[u] !in urls
    ensures forall r :: r in References(ByUrl(j, urls)) ==> r !in urls
  {
    RedirectedReferences(j, FollowUrl(urls));
    EachElements(References(j), FollowUrl(urls));
  }

  /** The map read backwards. */
  predicate Inverse(urls: map<string, string>, back: map<string, string>) {
    (forall u :: u in urls ==> urls[u] in back && back[urls[u]] == u) && (forall v :: v in back ==> back[v] in urls && urls[back[v]] == v)
  }

  /** A rewrite by URL is undone by the inverse map exactly when the tree did not already point at one of the new URLs. */
  lemma RewriteUndone(j: Json, urls: map<string, string>, back: map<string, string>)
    requires Inverse(urls, back)
    ensures ByUrl(ByUrl(j, urls), back) == j <==> forall r :: r in References(j) && r in back ==> r in urls
  {
    var f, g := FollowUrl(urls), FollowUrl(back);
    RedirectComposes(j, f, g);
    RedirectingNowhere(j);
    RedirectsAgree(j, Then(f, g), Keep());
    forall r | r in References(j) ensures Then(f, g)(r) == r <==> (r in back ==> r in urls) {
    }
  }

  // --- The same two laws for the import's rewriter -------------------------------------------------------

  /** Does this reference name one of these assets? */
  predicate NamesOneOf(ids: map<Uuid, string>, r: string) {
    NamedAsset(r).Ok? && NamedAsset(r).value.Some? && NamedAsset(r).value.value in ids
  }

  /** When no new URL names an old asset, no reference of an imported tree names one any more. */
  lemma NoneLeftBehindById(j: Json, ids: map<Uuid, string>)
    requires forall id :: id in ids ==> !NamesOneOf(ids, ids[id])
    ensures ById(j, ids).Ok? ==> forall r :: r in References(ById(j, ids).value) ==> !NamesOneOf(ids, r)
  {
    hide NamedAsset, ById, Redirect, References;
    ByIdOutcome(j, ids);
    RedirectedReferences(j, FollowId(ids));
    EachElements(References(j), FollowId(ids));
    forall r ensures !NamesOneOf(ids, FollowId(ids)(r)) {
    }
  }

  /** The import's renaming and the way back: old assets to URLs of module `m`, and those assets to URLs of the source. */
  ghost predicate InverseIds(source: Uuid, m: Uuid, ids: map<Uuid, string>, back: map<Uuid, string>) {
    && (forall id :: id in ids ==> exists made :: Leads(source, m, ids, back, id, made))
    && (forall made :: made in back ==> exists id :: Leads(source, m, ids, back, id, made))
  }

  predicate Leads(source: Uuid, m: Uuid, ids: map<Uuid, string>, back: map<Uuid, string>, id: Uuid, made: Uuid) {
    id in ids && made in back && ids[id] == AssetUrl(m, made) && back[made] == AssetUrl(source, id)
  }

  /** A reference that comes back: one that is moved spells the source's own URL, one that is not names no new asset. */
  predicate ComesBack(source: Uuid, ids: map<Uuid, string>, back: map<Uuid, string>, r: string) {
    if NamesOneOf(ids, r) then r == AssetUrl(source, NamedAsset(r).value.value) else !NamesOneOf(back, r)
  }

  lemma CanonicalNames(m: Uuid, id: Uuid)
    ensures NamedAsset(AssetUrl(m, id)) == Ok(Some(id))
  {
    hide IsAssetPath, AssetPart, Parse;
    AssetUrlNames(m, id);
  }

  lemma FollowNamed(ids: map<Uuid, string>, r: string)
    requires NamedAsset(r).Ok?
    ensures FollowId(ids)(r) == if NamesOneOf(ids, r) then ids[NamedAsset(r).value.value] else r
  {
    hide NamedAsset;
  }

  lemma ThereAndBack(source: Uuid, m: Uuid, ids: map<Uuid, string>, back: map<Uuid, string>, r: string)
    requires InverseIds(source, m, ids, back) && NamedAsset(r).Ok?
    ensures Then(FollowId(ids), FollowId(back))(r) == r <==> ComesBack(source, ids, back, r)
    ensures NamedAsset(FollowId(ids)(r)).Ok?
  {
    hide NamedAsset, AssetUrl, IsAssetPath, AssetPart, Format, FollowId;
    FollowNamed(ids, r);
    if NamesOneOf(ids, r) {
      var id := NamedAsset(r).value.value;
      var made :| Leads(source, m, ids, back, id, made);
      CanonicalNames(m, made);
      FollowNamed(back, AssetUrl(m, made));
    } else {
      FollowNamed(back, r);
      if NamesOneOf(back, r) {
        var made := NamedAsset(r).value.value;
        var id :| Leads(source, m, ids, back, id, made);
        CanonicalNames(source, id);
      }
    }
  }

  /**
   * An import's rewrite is undone by the way back exactly when every reference it moved spelled the source's canonical
   * URL and no other reference named one of the new assets already.
   */
  lemma RewriteUndoneById(j: Json, source: Uuid, m: Uuid, ids: map<Uuid, string>, back: map<Uuid, string>)
    requires InverseIds(source, m, ids, back) && ById(j, ids).Ok?
    ensures ById(ById(j, ids).value, back) == Ok(j) <==> forall r :: r in References(j) ==> ComesBack(source, ids, back, r)
  {
    hide NamedAsset, ById, Redirect, References, InverseIds, ComesBack, FollowId;
    var f, g := FollowId(ids), FollowId(back);
    var there := Redirect(j, f);
    ByIdOutcome(j, ids);
    ByIdOutcome(there, back);
    RedirectedReferences(j, f);
    EachElements(References(j), f);
    forall r | r in References(j)
      ensures Then(f, g)(r) == r <==> ComesBack(source, ids, back, r)
      ensures NamedAsset(f(r)).Ok?
    {
      ThereAndBack(source, m, ids, back, r);
    }
    RedirectComposes(j, f, g);
    RedirectingNowhere(j);
    RedirectsAgree(j, Then(f, g), Keep());
  }

  /** The same renaming, told once by URL and once by asset id. */
  predicate SameRenaming(source: Uuid, urls: map<string, string>, ids: map<Uuid, string>) {
    && (forall id :: id in ids ==> AssetUrl(source, id) in urls && urls[AssetUrl(source, id)] == ids[id])
    && (forall u :: u in urls ==> exists id :: id in ids && u == AssetUrl(source, id))
  }

  /** Does import rewriting move this reference? */
  predicate Moves(ids: map<Uuid, string>, r: string) {
    NamedAsset(r).Ok? && NamedAsset(r).value.Some? && NamedAsset(r).value.value in ids && ids[NamedAsset(r).value.value] != r
  }

  lemma ReferenceMovesAlike(r: string, source: Uuid, urls: map<string, string>, ids: map<Uuid, string>)
    requires SameRenaming(source, urls, ids) && NamedAsset(r).Ok?
    ensures FollowId(ids)(r) == FollowUrl(urls)(r) <==> (Moves(ids, r) ==> r in urls)
  {
    hide IsAssetPath, AssetPart, Parse, AssetUrl;
    if r in urls {
      var id :| id in ids && r == AssetUrl(source, id);
      AssetUrlNames(source, id);
      assert NamedAsset(r) == Ok(Some(id));
    }
  }

  /** The two rewriters agree exactly on trees whose movable references all spell the source module's own canonical URLs. */
  lemma RewritersAgree(j: Json, source: Uuid, urls: map<string, string>, ids: map<Uuid, string>)
    requires SameRenaming(source, urls, ids)
    ensures ById(j, ids) == Ok(ByUrl(j, urls)) <==>
            forall r :: r in References(j) ==> NamedAsset(r).Ok? && (Moves(ids, r) ==> r in urls)
  {
    hide NamedAsset, FollowId, FollowUrl, Moves, SameRenaming, ById, Redirect;
    ByIdOutcome(j, ids);
    RedirectsAgree(j, FollowId(ids), FollowUrl(urls));
    assert ByUrl(j, urls) == Redirect(j, FollowUrl(urls));
    forall r | r in References(j) && NamedAsset(r).Ok?
      ensures FollowId(ids)(r) == FollowUrl(urls)(r) <==> (Moves(ids, r) ==> r in urls)
    {
      ReferenceMovesAlike(r, source, urls, ids);
    }
  }
}
