/** Rewriting references keeps everything else a body means: its verdict, its size and its searchable text. */
module Preservation {
  import opened Common
  import opened Documents
  import opened Uuids
  import opened Validation
  import opened Rewriting

  /** A redirection between asset paths: whatever it moves was one and becomes one. */
  ghost predicate BetweenAssets(f: string -> string) {
    forall s :: f(s) != s ==> IsAssetPath(s) && IsAssetPath(f(s))
  }

  // --- Looking a key up in a redirected object ---------------------------------------

  function RedirectValue(key: string, v: Json, f: string -> string): Json {
    if IsReferenceKey(key) && v.Str? then Str(f(v.s)) else Redirect(v, f)
  }

  lemma {:induction false} RedirectedGet(fields: seq<Field>, f: string -> string, key: string)
    ensures Get(RedirectFields(fields, f), key) ==
            if Get(fields, key).None? then None else Some(RedirectValue(key, Get(fields, key).value, f))
  {
    if fields != [] {
      RedirectedGet(fields[1..], f, key);
    }
  }

  lemma RedirectedPresent(fields: seq<Field>, f: string -> string, key: string)
    requires !IsReferenceKey(key)
    ensures Present(RedirectFields(fields, f), key) ==
            if Present(fields, key).None? then None else Some(Redirect(Present(fields, key).value, f))
  {
    RedirectedGet(fields, f, key);
  }

  lemma {:induction false} RedirectedKeys(fields: seq<Field>, f: string -> string)
    ensures Keys(RedirectFields(fields, f)) == Keys(fields)
  {
    if fields != [] {
      RedirectedKeys(fields[1..], f);
      KeysUnfold(fields);
      KeysUnfold(RedirectFields(fields, f));
    }
  }

  lemma KeysUnfold(fields: seq<Field>)
    requires fields != []
    ensures Keys(fields) == {fields[0].key} + Keys(fields[1..])
  {
    assert forall key :: key in Keys(fields[1..]) ==> key in Keys(fields) by {
      forall key | key in Keys(fields[1..]) ensures key in Keys(fields) {
        var i :| 0 <= i < |fields[1..]| && fields[1..][i].key == key;
        assert fields[i + 1].key == key;
      }
    }
    assert forall key :: key in Keys(fields) ==> key == fields[0].key || key in Keys(fields[1..]) by {
      forall key | key in Keys(fields) && key != fields[0].key ensures key in Keys(fields[1..]) {
        var i :| 0 <= i < |fields| && fields[i].key == key;
        assert fields[1..][i - 1].key == key;
      }
    }
  }

  // --- The verdict --------------------------------------------------------------------

  lemma AssetPathsPass(s: string)
    requires IsAssetPath(s)
    ensures CheckSrc(Some(Str(s))) == None && CheckHref(Some(Str(s))) == None
  {
    assert s[0] == s[..13][0] && s[1] == s[..13][1];
    forall i | 0 <= i < |s| ensures !(s[i] as int <= 0x20 || s[i] as int == 0x7f) {
      if i < 13 {
        assert s[i] == PREFIX[i];
      } else if 49 <= i < 57 {
        assert s[i] == s[49..57][i - 49] == MIDDLE[i - 49];
      }
    }
  }

  lemma ReferenceVerdictsAgree(v: Json, key: string, f: string -> string)
    requires BetweenAssets(f) && IsReferenceKey(key)
    ensures CheckSrc(Some(RedirectValue(key, v, f))) == CheckSrc(Some(v))
    ensures CheckHref(Some(RedirectValue(key, v, f))) == CheckHref(Some(v))
  {
    if v.Str? && f(v.s) != v.s {
      AssetPathsPass(v.s);
      AssetPathsPass(f(v.s));
    }
  }

  lemma NodeAttrVerdictsAgree(t: NodeType, attrs: seq<Field>, f: string -> string)
    requires BetweenAssets(f)
    ensures CheckNodeAttrs(t, RedirectFields(attrs, f)) == CheckNodeAttrs(t, attrs)
  {
    hide CheckSrc, Get, RedirectFields;
    match t
    case Heading => RedirectedGet(attrs, f, "level");
    case OrderedList => RedirectedGet(attrs, f, "start");
    case CodeBlock => OptionalTextsAgree(attrs, f, "language");
    case Image =>
      OptionalTextsAgree(attrs, f, "alt");
      OptionalTextsAgree(attrs, f, "title");
      RedirectedGet(attrs, f, "src");
      if Get(attrs, "src").Some? {
        ReferenceVerdictsAgree(Get(attrs, "src").value, "src", f);
      }
    case _ =>
  }

  lemma OptionalTextsAgree(attrs: seq<Field>, f: string -> string, key: string)
    requires !IsReferenceKey(key)
    ensures CheckOptionalText(Get(RedirectFields(attrs, f), key)) == CheckOptionalText(Get(attrs, key))
  {
    hide Get, RedirectFields;
    RedirectedGet(attrs, f, key);
  }

  lemma MarkVerdictsAgree(m: Json, f: string -> string)
    requires BetweenAssets(f)
    ensures CheckMark(Redirect(m, f)) == CheckMark(m)
  {
    hide CheckHref, MarkTypeOf, AllowedMarkAttr, KnownMarkKey;
    if m.Obj? {
      RedirectedKeys(m.fields, f);
      RedirectedGet(m.fields, f, "type");
      RedirectedPresent(m.fields, f, "attrs");
      var attrs := Present(m.fields, "attrs");
      if attrs.Some? && attrs.value.Obj? {
        RedirectedKeys(attrs.value.fields, f);
        RedirectedGet(attrs.value.fields, f, "href");
        if Get(attrs.value.fields, "href").Some? {
          ReferenceVerdictsAgree(Get(attrs.value.fields, "href").value, "href", f);
        }
      }
    }
  }

  lemma {:induction false} MarkListVerdictsAgree(marks: seq<Json>, f: string -> string)
    requires BetweenAssets(f)
    ensures CheckMarks(RedirectItems(marks, f)) == CheckMarks(marks)
  {
    hide CheckMark, Redirect;
    if marks != [] {
      MarkVerdictsAgree(marks[0], f);
      MarkListVerdictsAgree(marks[1..], f);
      assert RedirectItems(marks, f)[0] == Redirect(marks[0], f);
      assert RedirectItems(marks, f)[1..] == RedirectItems(marks[1..], f);
    }
  }

  lemma AttrVerdictsAgree(t: NodeType, fields: seq<Field>, f: string -> string)
    requires BetweenAssets(f)
    ensures CheckAttrs(t, RedirectFields(fields, f)) == CheckAttrs(t, fields)
  {
    hide CheckNodeAttrs, AllowedNodeAttr, RedirectFields;
    RedirectedPresent(fields, f, "attrs");
    var attrs := Present(fields, "attrs");
    if attrs.Some? && attrs.value.Obj? {
      RedirectedKeys(attrs.value.fields, f);
      NodeAttrVerdictsAgree(t, attrs.value.fields, f);
    }
  }

  /** Node by node, the same first failure or none. */
  lemma LocalVerdictsAgree(fields: seq<Field>, f: string -> string)
    requires BetweenAssets(f)
    ensures LocalError(RedirectFields(fields, f)) == LocalError(fields)
  {
    hide CheckAttrs, CheckMarks, NodeTypeOf, KnownNodeKey, RedirectFields, RedirectItems;
    RedirectedKeys(fields, f);
    RedirectedGet(fields, f, "type");
    RedirectedGet(fields, f, "text");
    RedirectedPresent(fields, f, "marks");
    RedirectedPresent(fields, f, "content");
    var name, marks := Get(fields, "type"), Present(fields, "marks");
    if name.Some? && name.value.Str? && NodeTypeOf(name.value.s).Some? {
      AttrVerdictsAgree(NodeTypeOf(name.value.s).value, fields, f);
    }
    if marks.Some? && marks.value.Arr? {
      MarkListVerdictsAgree(marks.value.items, f);
    }
  }

  lemma {:induction false} RedirectedItemsAt(items: seq<Json>, f: string -> string)
    ensures |RedirectItems(items, f)| == |items|
    ensures forall i :: 0 <= i < |items| ==> RedirectItems(items, f)[i] == Redirect(items[i], f)
  {
    if items != [] {
      RedirectedItemsAt(items[1..], f);
    }
  }

  lemma RedirectedChildren(j: Json, f: string -> string)
    ensures |Children(Redirect(j, f))| == |Children(j)|
    ensures forall i :: 0 <= i < |Children(j)| ==> Children(Redirect(j, f))[i] == Redirect(Children(j)[i], f)
  {
    if j.Obj? {
      RedirectedPresent(j.fields, f, "content");
      RedirectedItemsAt(Children(j), f);
    }
  }

  /** The same verdict from the walk, for the same reasons: node count, depth and the first failure of each node. */
  lemma {:induction false} TreeVerdictsAgree(j: Json, f: string -> string)
    requires BetweenAssets(f)
    ensures WellFormed(Redirect(j, f)) == WellFormed(j)
    ensures NodeCount(Redirect(j, f)) == NodeCount(j)
    ensures Height(Redirect(j, f)) == Height(j)
    decreases j, |Children(j)| + 1
  {
    hide LocalError;
    RedirectedChildren(j, f);
    SubtreeVerdictsAgree(j, f, |Children(j)|);
    if j.Obj? {
      LocalVerdictsAgree(j.fields, f);
    }
  }

  lemma {:induction false} SubtreeVerdictsAgree(j: Json, f: string -> string, n: nat)
    requires BetweenAssets(f) && n <= |Children(j)| == |Children(Redirect(j, f))|
    ensures forall i :: 0 <= i < n ==> WellFormed(Children(Redirect(j, f))[i]) == WellFormed(Children(j)[i])
    ensures NodeCounts(Redirect(j, f), n) == NodeCounts(j, n)
    ensures Heights(Redirect(j, f), n) == Heights(j, n)
    decreases j, n
  {
    hide LocalError, WellFormed;
    RedirectedChildren(j, f);
    if n > 0 {
      SubtreeVerdictsAgree(j, f, n - 1);
      TreeVerdictsAgree(Children(j)[n - 1], f);
    }
  }

  // --- The verdict of the whole walk ------------------------------------------------------

  function RedirectedVisits(visits: seq<Place>, f: string -> string): (r: seq<Place>)
    ensures |r| == |visits|
  {
    seq(|visits|, i requires 0 <= i < |visits| => Place(Redirect(visits[i].node, f), visits[i].depth))
  }

  lemma RedirectedVisitsConcat(a: seq<Place>, b: seq<Place>, f: string -> string)
    ensures RedirectedVisits(a + b, f) == RedirectedVisits(a, f) + RedirectedVisits(b, f)
  {
    hide Redirect;
  }

  /** The walk comes to the same places in the same order. */
  lemma {:induction false} VisitsAgree(j: Json, f: string -> string, depth: nat)
    ensures Visits(Redirect(j, f), depth) == RedirectedVisits(Visits(j, depth), f)
    decreases j, |Children(j)| + 1
  {
    hide Redirect, ChildVisits;
    RedirectedChildren(j, f);
    ChildVisitsAgree(j, f, depth, |Children(j)|);
    RedirectedVisitsConcat([Place(j, depth)], ChildVisits(j, depth, |Children(j)|), f);
    assert RedirectedVisits([Place(j, depth)], f) == [Place(Redirect(j, f), depth)];
  }

  lemma {:induction false} ChildVisitsAgree(j: Json, f: string -> string, depth: nat, n: nat)
    requires n <= |Children(j)| == |Children(Redirect(j, f))|
    ensures ChildVisits(Redirect(j, f), depth, n) == RedirectedVisits(ChildVisits(j, depth, n), f)
    decreases j, n
  {
    hide Redirect, Visits;
    RedirectedChildren(j, f);
    if n > 0 {
      ChildVisitsAgree(j, f, depth, n - 1);
      VisitsAgree(Children(j)[n - 1], f, depth + 1);
      RedirectedVisitsConcat(ChildVisits(j, depth, n - 1), Visits(Children(j)[n - 1], depth + 1), f);
    }
  }

  lemma FaultAgrees(v: Place, f: string -> string, before: nat)
    requires BetweenAssets(f)
    ensures Fault(Place(Redirect(v.node, f), v.depth), before) == Fault(v, before)
  {
    hide LocalError;
    if v.node.Obj? {
      LocalVerdictsAgree(v.node.fields, f);
    }
  }

  lemma {:induction false} FaultsAgree(visits: seq<Place>, f: string -> string, before: nat)
    requires BetweenAssets(f)
    ensures FirstFault(RedirectedVisits(visits, f), before) == FirstFault(visits, before)
  {
    hide Fault, Redirect;
    if visits != [] {
      FaultAgrees(visits[0], f, before);
      FaultsAgree(visits[1..], f, before + 1);
      assert RedirectedVisits(visits, f)[1..] == RedirectedVisits(visits[1..], f);
    }
  }

  /** The same answer from the validator, whichever it is: acceptance, a refusal by its code, or the crash. */
  lemma VerdictsAgree(j: Json, f: string -> string)
    requires BetweenAssets(f)
    ensures Verdict(Redirect(j, f)) == Verdict(j)
  {
    hide Size, Visits, FirstFault;
    SizesAgree(j, f);
    VisitsAgree(j, f, 1);
    FaultsAgree(Visits(j, 1), f, 0);
    assert Redirect(j, f).Obj? <==> j.Obj?;
  }

  // --- The serialized size --------------------------------------------------------------

  lemma {:induction false} PlainTextBytes(s: string)
    requires forall i :: 0 <= i < |s| ==> CharBytes(s[i]) == 1
    ensures TextBytes(s) == |s|
  {
    if s != [] {
      PlainTextBytes(s[1..]);
    }
  }

  /** Every asset path takes the same room. */
  lemma AssetPathBytes(s: string)
    requires IsAssetPath(s)
    ensures TextBytes(s) == 93
  {
    forall i | 0 <= i < |s| ensures CharBytes(s[i]) == 1 {
      if i < 13 {
        assert s[i] == s[..13][i] == PREFIX[i];
      } else if 49 <= i < 57 {
        assert s[i] == s[49..57][i - 49] == MIDDLE[i - 49];
      }
    }
    PlainTextBytes(s);
  }

  lemma {:induction false} SizesAgree(j: Json, f: string -> string)
    requires BetweenAssets(f)
    ensures Size(Redirect(j, f)) == Size(j)
    decreases j
  {
    match j
    case Obj(fields) => FieldSizesAgree(fields, f);
    case Arr(items) => ItemSizesAgree(items, f);
    case _ =>
  }

  lemma {:induction false} FieldSizesAgree(fields: seq<Field>, f: string -> string)
    requires BetweenAssets(f)
    ensures FieldSizes(RedirectFields(fields, f)) == FieldSizes(fields)
    ensures |RedirectFields(fields, f)| == |fields|
    decreases fields
  {
    hide IsAssetPath, CharBytes, TextBytes;
    if fields != [] {
      var v := fields[0].value;
      SizesAgree(v, f);
      FieldSizesAgree(fields[1..], f);
      if v.Str? && f(v.s) != v.s {
        AssetPathBytes(v.s);
        AssetPathBytes(f(v.s));
      }
    }
  }

  lemma {:induction false} ItemSizesAgree(items: seq<Json>, f: string -> string)
    requires BetweenAssets(f)
    ensures ItemSizes(RedirectItems(items, f)) == ItemSizes(items)
    ensures |RedirectItems(items, f)| == |items|
    decreases items
  {
    if items != [] {
      SizesAgree(items[0], f);
      ItemSizesAgree(items[1..], f);
    }
  }

  // --- The searchable text ----------------------------------------------------------------

  /** The strings of the text nodes, in document order. */
  function Pieces(j: Json): seq<string>
    decreases j, |Children(j)| + 1
  {
    OwnPiece(j) + ChildPieces(j, |Children(j)|)
  }

  function OwnPiece(j: Json): seq<string> {
    if j.Obj? && Get(j.fields, "type") == Some(Str("text")) && Get(j.fields, "text").Some? && Get(j.fields, "text").value.Str?
    then [Get(j.fields, "text").value.s]
    else []
  }

  function ChildPieces(j: Json, n: nat): seq<string>
    requires n <= |Children(j)|
    decreases j, n
  {
    if n == 0 then [] else ChildPieces(j, n - 1) + Pieces(Children(j)[n - 1])
  }

  /** The pieces that are not blank, stripped, with one space between them. */
  function Joined(pieces: seq<string>): string {
    if pieces == [] then ""
    else
      var first, rest := Strip(pieces[0]), Joined(pieces[1..]);
      if first == "" then rest else if rest == "" then first else first + " " + rest
  }

  function SearchText(j: Json): string {
    Joined(Pieces(j))
  }

  method ExtractSearchText(document: Json) returns (text: string)
    ensures text == SearchText(document)
  {
    var pieces := Visit(document, []);
    assert pieces == Pieces(document);
    text := Joined(pieces);
  }

  method Visit(node: Json, before: seq<string>) returns (pieces: seq<string>)
    ensures pieces == before + Pieces(node)
    decreases node
  {
    pieces := before + OwnPiece(node);
    var content := Children(node);
    for i := 0 to |content|
      invariant pieces == before + OwnPiece(node) + ChildPieces(node, i)
    {
      pieces := Visit(content[i], pieces);
    }
  }

  lemma OwnPiecesAgree(j: Json, f: string -> string)
    ensures OwnPiece(Redirect(j, f)) == OwnPiece(j)
  {
    if j.Obj? {
      RedirectedGet(j.fields, f, "type");
      RedirectedGet(j.fields, f, "text");
    }
  }

  lemma {:induction false} PiecesAgree(j: Json, f: string -> string)
    ensures Pieces(Redirect(j, f)) == Pieces(j)
    decreases j, |Children(j)| + 1
  {
    hide OwnPiece;
    OwnPiecesAgree(j, f);
    RedirectedChildren(j, f);
    ChildPiecesAgree(j, f, |Children(j)|);
  }

  lemma {:induction false} ChildPiecesAgree(j: Json, f: string -> string, n: nat)
    requires n <= |Children(j)| == |Children(Redirect(j, f))|
    ensures ChildPieces(Redirect(j, f), n) == ChildPieces(j, n)
    decreases j, n
  {
    hide OwnPiece;
    RedirectedChildren(j, f);
    if n > 0 {
      ChildPiecesAgree(j, f, n - 1);
      PiecesAgree(Children(j)[n - 1], f);
    }
  }

  // --- The two rewriters ---------------------------------------------------------------------

  /** Everything about a body that must survive a rewrite. */
  predicate SameMeaning(a: Json, b: Json) {
    && Verdict(a) == Verdict(b)
    && WellFormed(a) == WellFormed(b)
    && NodeCount(a) == NodeCount(b)
    && Height(a) == Height(b)
    && Size(a) == Size(b)
    && SearchText(a) == SearchText(b)
  }

  lemma SearchTextsAgree(j: Json, f: string -> string)
    ensures SearchText(Redirect(j, f)) == SearchText(j)
  {
    hide Pieces, Redirect, Joined;
    PiecesAgree(j, f);
  }

  lemma RedirectingKeepsMeaning(j: Json, f: string -> string)
    requires BetweenAssets(f)
    ensures SameMeaning(Redirect(j, f), j)
  {
    hide Verdict, WellFormed, NodeCount, Height, Size, SearchText, Redirect;
    VerdictsAgree(j, f);
    TreeVerdictsAgree(j, f);
    SizesAgree(j, f);
    assert SearchText(Redirect(j, f)) == SearchText(j) by { SearchTextsAgree(j, f); }
  }

  /** A duplicate's rewritten pages are accepted, refused, measured and found exactly as the originals are. */
  lemma DuplicatingKeepsMeaning(j: Json, urls: map<string, string>)
    requires forall u :: u in urls ==> IsAssetPath(u) && IsAssetPath(urls[u])
    ensures SameMeaning(ByUrl(j, urls), j)
  {
    hide IsAssetPath, SameMeaning;
    assert BetweenAssets(FollowUrl(urls));
    RedirectingKeepsMeaning(j, FollowUrl(urls));
  }

  /** And so are an import's, whenever the rewrite comes out at all. */
  lemma ImportingKeepsMeaning(j: Json, urls: map<Uuid, string>)
    requires forall id :: id in urls ==> IsAssetPath(urls[id])
    ensures ById(j, urls).Ok? ==> SameMeaning(ById(j, urls).value, j)
  {
    hide SameMeaning;
    ByIdOutcome(j, urls);
    assert BetweenAssets(FollowId(urls));
    RedirectingKeepsMeaning(j, FollowId(urls));
  }

  // --- An accepted body the import rewriter cannot process -----------------------------------

  function Dashes(n: nat): string {
    seq(n, i => '-')
  }

  /** A site-relative path of the asset shape whose ids are all dashes: a legal image source, but no UUID. */
  function DashedPath(): string {
    PREFIX + Dashes(36) + MIDDLE + Dashes(36)
  }

  lemma {:induction false} NoDigitsInDashes(s: string)
    requires forall i :: 0 <= i < |s| ==> s[i] == '-'
    ensures NoDashes(s) == ""
  {
    if s != [] {
      NoDigitsInDashes(s[1..]);
    }
  }

  lemma DashedPathNamesNothing()
    ensures IsAssetPath(DashedPath()) && NamedAsset(DashedPath()).Err?
  {
    var s := DashedPath();
    assert s[..13] == PREFIX && s[13..49] == Dashes(36) && s[49..57] == MIDDLE && s[57..] == Dashes(36);
    NoDigitsInDashes(s[57..]);
  }

  /** `{"type": name, "attrs": {key: value}}` */
  function NodeWith(name: string, key: string, value: Json): Json {
    Obj([Field("type", Str(name)), Field("attrs", Obj([Field(key, value)]))])
  }

  function ImageNode(src: string): Json {
    NodeWith("image", "src", Str(src))
  }

  /** `{"type": "doc", "content": [child]}` */
  function PageOf(child: Json): Json {
    Obj([Field("type", Str("doc")), Field("content", Arr([child]))])
  }

  lemma ImageAccepted(src: string)
    requires IsAssetPath(src)
    ensures WellFormed(ImageNode(src)) && NodeCount(ImageNode(src)) == 1 && Height(ImageNode(src)) == 1
    ensures References(ImageNode(src)) == [src]
  {
    hide IsAssetPath, CheckSrc;
    AssetPathsPass(src);
    var attrs := [Field("src", Str(src))];
    var fields := ImageNode(src).fields;
    assert attrs[1..] == [] && fields[1..] == [Field("attrs", Obj(attrs))] && fields[1..][1..] == [];
    assert Get(attrs, "src") == Some(Str(src));
    GetMisses(attrs, "alt");
    GetMisses(attrs, "title");
    assert Get(fields[1..], "attrs") == Some(Obj(attrs));
    GetMisses(fields, "text");
    GetMisses(fields, "marks");
    GetMisses(fields, "content");
    assert CheckAttrs(Image, fields) == None;
    assert LocalError(fields) == None;
    assert Children(ImageNode(src)) == [];
    assert FieldReferences(attrs) == [src] + [];
    assert FieldReferences(fields[1..]) == [src] + [];
    assert FieldReferences(fields) == [] + [src];
  }

  lemma PageAccepted(child: Json)
    requires WellFormed(child)
    ensures WellFormed(PageOf(child))
    ensures NodeCount(PageOf(child)) == 1 + NodeCount(child) && Height(PageOf(child)) == 1 + Height(child)
    ensures References(PageOf(child)) == References(child)
  {
    var j := PageOf(child);
    var fields := j.fields;
    assert fields[1..] == [Field("content", Arr([child]))] && fields[1..][1..] == [];
    assert Get(fields[1..], "content") == Some(Arr([child]));
    GetMisses(fields, "attrs");
    GetMisses(fields, "text");
    GetMisses(fields, "marks");
    assert LocalError(fields) == None;
    assert Children(j) == [child];
    assert NodeCounts(j, 1) == NodeCounts(j, 0) + NodeCount(child);
    assert Heights(j, 1) == Max(Heights(j, 0), Height(child));
    assert ItemReferences([child]) == References(child) + [];
    assert FieldReferences(fields[1..]) == References(child) + [];
    assert FieldReferences(fields) == [] + References(child);
  }

  // --- The sizes of such bodies ---------------------------------------------------------------------

  lemma {:induction false} TextBytesAreFew(s: string)
    ensures TextBytes(s) <= 6 * |s|
  {
    if s != [] {
      TextBytesAreFew(s[1..]);
    }
  }

  lemma FieldSize(f: Field, rest: seq<Field>)
    ensures FieldSizes([f] + rest) <= 6 * |f.key| + 3 + Size(f.value) + FieldSizes(rest)
  {
    hide Size, TextBytes;
    TextBytesAreFew(f.key);
    assert ([f] + rest)[1..] == rest;
  }

  lemma ObjectSize(a: Field, b: Field)
    ensures Size(Obj([a, b])) <= 9 + 6 * |a.key| + Size(a.value) + 6 * |b.key| + Size(b.value)
  {
    assert [a, b] == [a] + ([b] + []);
    FieldSize(a, [b] + []);
    FieldSize(b, []);
  }

  lemma PageSize(child: Json)
    ensures Size(PageOf(child)) <= 100 + Size(child)
  {
    hide Size, TextBytes;
    var name, content := Str("doc"), Arr([child]);
    ObjectSize(Field("type", name), Field("content", content));
    StringSize("doc");
    OneItemSize(child);
  }

  lemma StringSize(s: string)
    ensures Size(Str(s)) <= 2 + 6 * |s|
  {
    TextBytesAreFew(s);
  }

  lemma OneItemSize(child: Json)
    ensures Size(Arr([child])) == 2 + Size(child)
  {
    assert ItemSizes([child]) == Size(child) + ItemSizes([]);
  }

  lemma OneFieldSize(f: Field)
    ensures Size(Obj([f])) <= 5 + 6 * |f.key| + Size(f.value)
  {
    assert [f] == [f] + [];
    FieldSize(f, []);
  }

  lemma NodeSize(name: string, key: string, value: Json)
    ensures Size(NodeWith(name, key, value)) <= 100 + 6 * |name| + 6 * |key| + Size(value)
  {
    hide Size, TextBytes;
    ObjectSize(Field("type", Str(name)), Field("attrs", Obj([Field(key, value)])));
    StringSize(name);
    OneFieldSize(Field(key, value));
  }

  /** The validator accepts this body, yet import rewriting fails on it, whatever the import's assets are. */
  lemma AcceptedYetNotRewritable(urls: map<Uuid, string>) returns (j: Json)
    ensures j == PageOf(ImageNode(DashedPath()))
    ensures Verdict(j) == None && WellFormed(j) && WithinLimits(j) && ById(j, urls).Err?
  {
    hide IsAssetPath, NamedAsset, Size, WellFormed, NodeCount, Height, References, Verdict, ById;
    var src := DashedPath();
    DashedPathNamesNothing();
    ImageAccepted(src);
    PageAccepted(ImageNode(src));
    j := PageOf(ImageNode(src));
    ByIdOutcome(j, urls);
    assert src in References(j);
    PageSize(ImageNode(src));
    NodeSize("image", "src", Str(src));
    StringSize(src);
    AcceptedIff(j);
  }

  // --- A body on which the validator itself fails ------------------------------------------------------

  lemma HeadingCrashes(before: nat)
    requires before < MAX_NODES
    ensures FirstFault(Visits(NodeWith("heading", "level", Arr([])), 2), before) == Some(UnhashableHeadingLevel)
  {
    hide LocalError, Visits, ChildVisits, FirstFault;
    var j := NodeWith("heading", "level", Arr([]));
    var attrs, fields := [Field("level", Arr([]))], j.fields;
    assert fields[1..] == [Field("attrs", Obj(attrs))];
    assert Get(attrs, "level") == Some(Arr([]));
    assert Get(fields[1..], "attrs") == Some(Obj(attrs));
    assert HasUnhashableLevel(fields);
    UnhashableIff(fields);
    FirstFaultUnfolds(j, 2, before);
  }

  lemma PagePasses(child: Json)
    ensures FirstFault(Visits(PageOf(child), 1), 0) == FirstFault(Visits(child, 2), 1)
  {
    hide Visits, ChildVisits, FirstFault;
    var j := PageOf(child);
    var fields := j.fields;
    assert fields[1..] == [Field("content", Arr([child]))] && fields[1..][1..] == [];
    assert Get(fields[1..], "content") == Some(Arr([child]));
    GetMisses(fields, "attrs");
    GetMisses(fields, "text");
    GetMisses(fields, "marks");
    assert LocalError(fields) == None;
    assert Children(j) == [child];
    FirstFaultUnfolds(j, 1, 0);
    ChildFaultsUnfold(j, 1, 0, 1);
    NoChildrenNoFault(j, 1, 1);
  }

  /** A page whose one heading has a list for its `level`: the validator raises a `TypeError` instead of refusing it. */
  lemma ListAsLevelCrashes() returns (j: Json)
    ensures j == PageOf(NodeWith("heading", "level", Arr([])))
    ensures Verdict(j) == Some(UnhashableHeadingLevel)
  {
    hide Size, Visits, FirstFault;
    var heading := NodeWith("heading", "level", Arr([]));
    j := PageOf(heading);
    PagePasses(heading);
    HeadingCrashes(1);
    PageSize(heading);
    NodeSize("heading", "level", Arr([]));
    assert Size(Arr([])) == 2 by { NoItemsSize(); }
  }

  lemma NoItemsSize()
    ensures Size(Arr([])) == 2
  {
  }
}
