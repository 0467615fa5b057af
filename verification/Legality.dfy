/** What a stored page body is, said from the document alone: which nodes, attributes, marks and links it can hold, and how much. */
module Legality {
  import opened Common
  import opened Domain
  import opened Documents
  import opened Validation
  import opened Uuids

  // --- Values ---------------------------------------------------------------------------------------

  /** No entry, or an entry saying null. */
  predicate Lacks(fields: seq<Field>, key: string) {
    Get(fields, key) == None || Get(fields, key) == Some(Null)
  }

  predicate IsPlain(s: string) {
    forall i :: 0 <= i < |s| ==> s[i] as int > 0x20 && s[i] as int != 0x7F
  }

  /** A path within the site, an `https` address or a mail address. */
  predicate IsLink(s: string) {
    && 0 < |s| <= 2048 && IsPlain(s)
    && if "/" <= s then !("//" <= s) && !("/\\" <= s) else "https://" <= Lower(s) || "mailto:" <= Lower(s)
  }

  /** An asset of the platform's own. */
  ghost predicate IsPicture(s: string) {
    exists m, a :: IsIdText(m) && IsIdText(a) && s == "/api/modules/" + m + "/assets/" + a
  }

  predicate IsShortText(v: Json) {
    v.Null? || (v.Str? && |v.s| <= 2048)
  }

  // --- One node, its children apart ------------------------------------------------------------------------

  const NODE_TYPES: set<string> := {"doc", "paragraph", "heading", "bulletList", "orderedList", "listItem", "blockquote",
    "codeBlock", "horizontalRule", "image", "hardBreak", "text"}

  const MARK_TYPES: set<string> := {"bold", "italic", "code", "link"}

  /** May a node of this type say this of itself? */
  ghost predicate IsLegalAttr(t: string, key: string, v: Json) {
    || (t == "heading" && key == "level" && v.Num? && (v.value == 2.0 || v.value == 3.0 || v.value == 4.0))
    || (t == "orderedList" && key == "start" && v.Num? && v.integral && v.value >= 1.0)
    || (t == "codeBlock" && key == "language" && IsShortText(v))
    || (t == "image" && (key == "alt" || key == "title") && IsShortText(v))
    || (t == "image" && key == "src" && v.Str? && IsPicture(v.s))
  }

  ghost predicate HasLegalAttrs(t: string, fields: seq<Field>) {
    Lacks(fields, "attrs") || (Get(fields, "attrs").value.Obj? && AreLegalAttrs(t, Get(fields, "attrs").value.fields))
  }

  ghost predicate AreLegalAttrs(t: string, attrs: seq<Field>) {
    && (forall key :: key in Keys(attrs) ==> Get(attrs, key).Some? && IsLegalAttr(t, key, Get(attrs, key).value))
    && (t == "image" ==> "src" in Keys(attrs))
  }

  predicate HasLegalText(t: string, fields: seq<Field>) {
    var text := Get(fields, "text");
    if t == "text" then text.Some? && text.value.Str? && text.value.s != "" else text == None
  }

  predicate IsLegalMark(m: Json) {
    && m.Obj?
    && (forall key :: key in Keys(m.fields) ==> key == "type" || key == "attrs")
    && exists t :: t in MARK_TYPES && Get(m.fields, "type") == Some(Str(t)) && HasLegalMarkAttrs(t, m.fields)
  }

  /** A link says where it leads; no other mark says anything. */
  predicate HasLegalMarkAttrs(t: string, fields: seq<Field>) {
    Lacks(fields, "attrs") || (Get(fields, "attrs").value.Obj? && AreLegalMarkAttrs(t, Get(fields, "attrs").value.fields))
  }

  predicate AreLegalMarkAttrs(t: string, attrs: seq<Field>) {
    var href := Get(attrs, "href");
    if t == "link" then (forall key :: key in Keys(attrs) ==> key == "href") && href.Some? && href.value.Str? && IsLink(href.value.s)
    else Keys(attrs) == {}
  }

  predicate HasLegalMarks(fields: seq<Field>) {
    Lacks(fields, "marks") || (Get(fields, "marks").value.Arr? && AreLegalMarks(Get(fields, "marks").value.items))
  }

  predicate AreLegalMarks(marks: seq<Json>) {
    forall i :: 0 <= i < |marks| ==> IsLegalMark(marks[i])
  }

  predicate HasLegalContent(fields: seq<Field>) {
    Lacks(fields, "content") || Get(fields, "content").value.Arr?
  }

  ghost predicate IsLegalOfType(t: string, fields: seq<Field>) {
    HasLegalAttrs(t, fields) && HasLegalText(t, fields) && HasLegalMarks(fields) && HasLegalContent(fields)
  }

  ghost predicate IsLegalNode(j: Json) {
    && j.Obj?
    && (forall key :: key in Keys(j.fields) ==> key == "type" || key == "attrs" || key == "content" || key == "marks" || key == "text")
    && exists t :: t in NODE_TYPES && Get(j.fields, "type") == Some(Str(t)) && IsLegalOfType(t, j.fields)
  }

  // --- The check finds exactly that ----------------------------------------------------------------------------

  lemma {:induction false} GetIffKey(fields: seq<Field>, key: string)
    ensures Get(fields, key).Some? <==> key in Keys(fields)
  {
    if fields != [] {
      GetIffKey(fields[1..], key);
      if key in Keys(fields) && fields[0].key != key {
        var i :| 0 <= i < |fields| && fields[i].key == key;
        assert fields[1..][i - 1].key == key;
      }
      if key in Keys(fields[1..]) {
        var i :| 0 <= i < |fields[1..]| && fields[1..][i].key == key;
        assert fields[i + 1].key == key;
      }
    }
  }

  lemma HrefIsLinkIff(v: Option<Json>)
    ensures CheckHref(v) == None <==> v.Some? && v.value.Str? && IsLink(v.value.s)
  {
    if v.Some? && v.value.Str? {
      var s := v.value.s;
      assert HasControlCharacter(s) <==> !IsPlain(s);
      assert s != "" ==> ("/" <= s <==> s[0] == '/');
      assert |s| > 1 ==> ("//" <= s <==> s[0] == '/' && s[1] == '/') && ("/\\" <= s <==> s[0] == '/' && s[1] == '\\');
    }
  }

  lemma PathIsPicture(s: string)
    ensures IsAssetPath(s) ==> IsPicture(s) && IsPlain(s)
    ensures IsPicture(s) ==> IsAssetPath(s)
  {
    if IsAssetPath(s) {
      assert s == s[..13] + s[13..49] + s[49..57] + s[57..];
      assert IsIdText(s[13..49]) && IsIdText(s[57..]);
      forall i | 0 <= i < |s| ensures s[i] as int > 0x20 && s[i] as int != 0x7F {
        if i < 13 {
          assert s[i] == s[..13][i] == PREFIX[i];
        } else if 49 <= i < 57 {
          assert s[i] == s[49..57][i - 49] == MIDDLE[i - 49];
        }
      }
    }
    if IsPicture(s) {
      var m, a :| IsIdText(m) && IsIdText(a) && s == "/api/modules/" + m + "/assets/" + a;
      assert s[..13] == PREFIX && s[13..49] == m && s[49..57] == MIDDLE && s[57..] == a;
      assert forall i :: 13 <= i < 49 ==> s[i] == m[i - 13];
      assert forall i :: 57 <= i < 93 ==> s[i] == a[i - 57];
    }
  }

  lemma SrcIsPictureIff(v: Option<Json>)
    ensures CheckSrc(v) == None <==> v.Some? && v.value.Str? && IsPicture(v.value.s)
  {
    hide IsPicture, IsPlain, IsAssetPath, HasControlCharacter;
    if v.Some? && v.value.Str? {
      PathIsPicture(v.value.s);
      assert HasControlCharacter(v.value.s) <==> !IsPlain(v.value.s) by { PlainMeans(v.value.s); }
      if IsPicture(v.value.s) {
        PictureIsNotEmpty(v.value.s);
      }
    }
  }

  lemma PlainMeans(s: string)
    ensures HasControlCharacter(s) <==> !IsPlain(s)
  {
  }

  lemma PictureIsNotEmpty(s: string)
    requires IsPicture(s)
    ensures s != ""
  {
  }

  lemma MarkTypesAre(name: string)
    ensures MarkTypeOf(name).Some? <==> name in MARK_TYPES
    ensures MarkTypeOf(name) == Some(Link) <==> name == "link"
  {
  }

  lemma MarkIsLegalIff(m: Json)
    ensures CheckMark(m) == None <==> IsLegalMark(m)
  {
    hide CheckHref, IsLink, MarkTypeOf;
    if m.Obj? {
      var name, attrs := Get(m.fields, "type"), Get(m.fields, "attrs");
      if name.Some? && name.value.Str? {
        MarkTypesAre(name.value.s);
      }
      if attrs.Some? && attrs.value.Obj? {
        HrefIsLinkIff(Get(attrs.value.fields, "href"));
      }
    }
  }

  lemma {:induction false} MarksAreLegalIff(marks: seq<Json>)
    ensures CheckMarks(marks) == None <==> AreLegalMarks(marks)
  {
    hide CheckMark, IsLegalMark;
    if marks != [] {
      MarkIsLegalIff(marks[0]);
      MarksAreLegalIff(marks[1..]);
      assert forall i :: 0 < i < |marks| ==> marks[i] == marks[1..][i - 1];
    }
  }

  lemma NodeTypesAre(name: string)
    ensures NodeTypeOf(name).Some? <==> name in NODE_TYPES
  {
  }

  lemma TypedNodesAre(name: string)
    ensures NodeTypeOf(name) == Some(Heading) <==> name == "heading"
    ensures NodeTypeOf(name) == Some(OrderedList) <==> name == "orderedList"
    ensures NodeTypeOf(name) == Some(CodeBlock) <==> name == "codeBlock"
    ensures NodeTypeOf(name) == Some(NodeType.Image) <==> name == "image"
    ensures NodeTypeOf(name) == Some(NodeType.Text) <==> name == "text"
  {
  }

  lemma AttrIsAllowedIff(t: NodeType, name: string, key: string, v: Json)
    requires NodeTypeOf(name) == Some(t) && IsLegalAttr(name, key, v)
    ensures AllowedNodeAttr(t, key)
  {
    hide NodeTypeOf;
    TypedNodesAre(name);
  }

  lemma OptionalTextIff(v: Option<Json>)
    ensures CheckOptionalText(v) == None <==> v.None? || IsShortText(v.value)
  {
  }

  lemma AttrsAreLegalIff(t: NodeType, name: string, attrs: seq<Field>)
    requires NodeTypeOf(name) == Some(t)
    ensures (forall key :: key in Keys(attrs) ==> AllowedNodeAttr(t, key)) && CheckNodeAttrs(t, attrs) == None <==>
              AreLegalAttrs(name, attrs)
  {
    hide NodeTypeOf, Get, Keys, CheckSrc, IsPicture, CheckOptionalText, IsShortText;
    TypedNodesAre(name);
    forall key: string ensures Get(attrs, key).Some? <==> key in Keys(attrs) {
      GetIffKey(attrs, key);
    }
    SrcIsPictureIff(Get(attrs, "src"));
    OptionalTextIff(Get(attrs, "alt"));
    OptionalTextIff(Get(attrs, "title"));
    OptionalTextIff(Get(attrs, "language"));
    if AreLegalAttrs(name, attrs) {
      forall key | key in Keys(attrs) ensures AllowedNodeAttr(t, key) {
        AttrIsAllowedIff(t, name, key, Get(attrs, key).value);
      }
      KeyedAttrs(name, attrs, "level");
      KeyedAttrs(name, attrs, "start");
      KeyedAttrs(name, attrs, "language");
      KeyedAttrs(name, attrs, "src");
      KeyedAttrs(name, attrs, "alt");
      KeyedAttrs(name, attrs, "title");
    }
  }

  lemma KeyedAttrs(name: string, attrs: seq<Field>, key: string)
    requires AreLegalAttrs(name, attrs)
    ensures Get(attrs, key).Some? ==> IsLegalAttr(name, key, Get(attrs, key).value)
  {
    hide IsLegalAttr;
    GetIffKey(attrs, key);
  }

  lemma NodeAttrsAreLegalIff(t: NodeType, name: string, fields: seq<Field>)
    requires NodeTypeOf(name) == Some(t)
    ensures CheckAttrs(t, fields) == None <==> HasLegalAttrs(name, fields)
  {
    hide NodeTypeOf, CheckNodeAttrs, AllowedNodeAttr, AreLegalAttrs;
    if !Lacks(fields, "attrs") && Get(fields, "attrs").value.Obj? {
      AttrsAreLegalIff(t, name, Get(fields, "attrs").value.fields);
    }
  }

  /** The check of a node by itself passes exactly the legal ones. */
  lemma NodeIsLegalIff(j: Json)
    ensures j.Obj? && LocalError(j.fields) == None <==> IsLegalNode(j)
  {
    hide NodeTypeOf, CheckAttrs, HasLegalAttrs, CheckMarks, AreLegalMarks;
    if j.Obj? {
      var name, marks := Get(j.fields, "type"), Present(j.fields, "marks");
      if name.Some? && name.value.Str? {
        NodeTypesAre(name.value.s);
        TypedNodesAre(name.value.s);
        if NodeTypeOf(name.value.s).Some? {
          NodeAttrsAreLegalIff(NodeTypeOf(name.value.s).value, name.value.s, j.fields);
        }
      }
      if marks.Some? && marks.value.Arr? {
        MarksAreLegalIff(marks.value.items);
      }
    }
  }

  // --- The whole tree ---------------------------------------------------------------------------------------------

  /** The node reached by taking, level by level, the child at this index of `content`. */
  function NodeAt(j: Json, path: seq<nat>): Option<Json>
    decreases |path|
  {
    if path == [] then Some(j)
    else if !j.Obj? || !HasLegalContent(j.fields) || Lacks(j.fields, "content") then None
    else
      var items := Get(j.fields, "content").value.items;
      if path[0] < |items| then NodeAt(items[path[0]], path[1..]) else None
  }

  lemma NodeBelow(j: Json, i: nat, path: seq<nat>)
    ensures NodeAt(j, [i] + path) == if i < |Children(j)| then NodeAt(Children(j)[i], path) else None
  {
    assert ([i] + path)[1..] == path;
  }

  ghost predicate AllNodesLegal(j: Json) {
    forall path :: NodeAt(j, path).Some? ==> IsLegalNode(NodeAt(j, path).value)
  }

  lemma {:induction false} TreeIsLegalIff(j: Json)
    ensures WellFormed(j) <==> AllNodesLegal(j)
    decreases j
  {
    hide LocalError, IsLegalNode;
    NodeIsLegalIff(j);
    forall i | 0 <= i < |Children(j)| ensures WellFormed(Children(j)[i]) <==> AllNodesLegal(Children(j)[i]) {
      TreeIsLegalIff(Children(j)[i]);
    }
    LegalBelowIff(j);
  }

  lemma LegalBelowIff(j: Json)
    ensures AllNodesLegal(j) <==> IsLegalNode(j) && forall i :: 0 <= i < |Children(j)| ==> AllNodesLegal(Children(j)[i])
  {
    hide IsLegalNode, NodeAt, Children;
    assert NodeAt(j, []) == Some(j) by { NodeAtTop(j); }
    if AllNodesLegal(j) {
      forall i, path | 0 <= i < |Children(j)| && NodeAt(Children(j)[i], path).Some?
        ensures IsLegalNode(NodeAt(Children(j)[i], path).value)
      {
        NodeBelow(j, i, path);
      }
    }
    if IsLegalNode(j) && forall i :: 0 <= i < |Children(j)| ==> AllNodesLegal(Children(j)[i]) {
      forall path | NodeAt(j, path).Some? ensures IsLegalNode(NodeAt(j, path).value) {
        if path != [] {
          NodeBelow(j, path[0], path[1..]);
          assert path == [path[0]] + path[1..];
        }
      }
    }
  }

  lemma NodeAtTop(j: Json)
    ensures NodeAt(j, []) == Some(j)
  {
  }

  /** No node lies this many levels below the top, or deeper. */
  ghost predicate NoneAsDeepAs(j: Json, levels: nat) {
    forall path :: NodeAt(j, path).Some? ==> |path| < levels
  }

  lemma {:induction false} HeightIsDepth(j: Json, levels: nat)
    ensures Height(j) <= levels <==> NoneAsDeepAs(j, levels)
    decreases j, |Children(j)| + 1
  {
    hide NodeAt, Children, Heights, NoneAsDeepAs;
    if levels == 0 {
      assert !NoneAsDeepAs(j, 0) by { TopIsThere(j); }
    } else {
      HeightsAreDepths(j, levels - 1, |Children(j)|);
      DepthBelowIff(j, levels);
    }
  }

  lemma TopIsThere(j: Json)
    ensures !NoneAsDeepAs(j, 0)
  {
    assert NodeAt(j, []).Some?;
  }

  lemma DepthBelowIff(j: Json, levels: nat)
    requires levels > 0
    ensures NoneAsDeepAs(j, levels) <==> forall i :: 0 <= i < |Children(j)| ==> NoneAsDeepAs(Children(j)[i], levels - 1)
  {
    hide NodeAt, Children;
    if NoneAsDeepAs(j, levels) {
      forall i, path | 0 <= i < |Children(j)| && NodeAt(Children(j)[i], path).Some? ensures |path| < levels - 1 {
        NodeBelow(j, i, path);
        assert |[i] + path| < levels;
      }
    }
    if forall i :: 0 <= i < |Children(j)| ==> NoneAsDeepAs(Children(j)[i], levels - 1) {
      forall path | NodeAt(j, path).Some? ensures |path| < levels {
        if path != [] {
          NodeBelow(j, path[0], path[1..]);
          assert path == [path[0]] + path[1..];
          assert NoneAsDeepAs(Children(j)[path[0]], levels - 1);
        }
      }
    }
  }

  lemma {:induction false} HeightsAreDepths(j: Json, levels: nat, n: nat)
    requires n <= |Children(j)|
    ensures Heights(j, n) <= levels <==> forall i :: 0 <= i < n ==> NoneAsDeepAs(Children(j)[i], levels)
    decreases j, n
  {
    hide NodeAt, Height, NoneAsDeepAs;
    if n > 0 {
      HeightsAreDepths(j, levels, n - 1);
      HeightIsDepth(Children(j)[n - 1], levels);
    }
  }

  // --- How many nodes there are -------------------------------------------------------------------------------------

  /** The paths to all nodes, each once. */
  ghost predicate ListsNodes(all: seq<seq<nat>>, j: Json) {
    NoDuplicates(all) && forall path :: path in all <==> NodeAt(j, path).Some?
  }

  function Under(i: nat, paths: seq<seq<nat>>): (r: seq<seq<nat>>)
    ensures |r| == |paths|
    ensures forall k :: 0 <= k < |r| ==> r[k] == [i] + paths[k]
  {
    seq(|paths|, k requires 0 <= k < |paths| => [i] + paths[k])
  }

  /** The nodes of the first `n` subtrees. */
  ghost predicate ListsBelow(all: seq<seq<nat>>, j: Json, n: nat) {
    NoDuplicates(all) && forall path :: path in all <==> path != [] && path[0] < n && NodeAt(j, path).Some?
  }

  /** The count that is held against the limit is the number of nodes. */
  lemma {:induction false} NodesAreCounted(j: Json) returns (all: seq<seq<nat>>)
    ensures ListsNodes(all, j) && NodeCount(j) == |all|
    decreases j, |Children(j)| + 1
  {
    hide NodeAt, Children, NodeCounts;
    var below := SubtreesAreCounted(j, |Children(j)|);
    all := [[]] + below;
    TopAndBelow(j, below);
  }

  lemma TopAndBelow(j: Json, below: seq<seq<nat>>)
    requires ListsBelow(below, j, |Children(j)|)
    ensures ListsNodes([[]] + below, j)
  {
    hide NodeAt, Children;
    var top: seq<nat> := [];
    NodeAtTop(j);
    assert top !in below;
    forall path ensures path in [top] + below <==> NodeAt(j, path).Some? {
      if path != [] {
        NodeBelow(j, path[0], path[1..]);
        assert path == [path[0]] + path[1..];
      }
    }
  }

  lemma {:induction false} SubtreesAreCounted(j: Json, n: nat) returns (all: seq<seq<nat>>)
    requires n <= |Children(j)|
    ensures ListsBelow(all, j, n) && NodeCounts(j, n) == |all|
    decreases j, n
  {
    hide NodeAt, NodeCount, ListsNodes, ListsBelow;
    if n == 0 {
      all := [];
      assert ListsBelow(all, j, 0) by { NothingBelow(j); }
    } else {
      var front := SubtreesAreCounted(j, n - 1);
      var last := NodesAreCounted(Children(j)[n - 1]);
      all := front + Under(n - 1, last);
      OneMoreSubtree(j, n - 1, front, last);
    }
  }

  lemma NothingBelow(j: Json)
    ensures ListsBelow([], j, 0)
  {
  }

  lemma OneMoreSubtree(j: Json, n: nat, front: seq<seq<nat>>, last: seq<seq<nat>>)
    requires n < |Children(j)| && ListsBelow(front, j, n) && ListsNodes(last, Children(j)[n])
    ensures ListsBelow(front + Under(n, last), j, n + 1)
  {
    hide NodeAt, Children;
    var under := Under(n, last);
    forall k, l | 0 <= k < l < |under| ensures under[k] != under[l] {
      assert under[k][1..] == last[k] && under[l][1..] == last[l];
    }
    forall path ensures path in under <==> path != [] && path[0] == n && NodeAt(j, path).Some? {
      if path in under {
        var k :| 0 <= k < |under| && under[k] == path;
        NodeBelow(j, n, last[k]);
      }
      if path != [] && path[0] == n && NodeAt(j, path).Some? {
        NodeBelow(j, n, path[1..]);
        assert path == [n] + path[1..];
        var k :| 0 <= k < |last| && last[k] == path[1..];
        assert under[k] == path;
      }
    }
    var all := front + under;
    forall k, l | 0 <= k < l < |all| ensures all[k] != all[l] {
      if k < |front| <= l {
        assert all[k] in front && all[l] in under;
      }
    }
  }

  // --- How many bytes it takes ----------------------------------------------------------------------------------------

  /** One character inside a JSON string, when only what must be escaped is. */
  function Escaped(c: char): string {
    if c == '"' then "\\\""
    else if c == '\\' then "\\\\"
    else if c == '\n' then "\\n"
    else if c == '\r' then "\\r"
    else if c == '\t' then "\\t"
    else if c as int == 8 then "\\b"
    else if c as int == 12 then "\\f"
    else if c as int < 0x20 then "\\u00" + [HexDigit(c as int / 16), HexDigit(c as int % 16)]
    else [c]
  }

  function HexDigit(n: nat): char
    requires n < 16
  {
    "0123456789abcdef"[n]
  }

  function Quoted(s: string): string {
    if s == [] then [] else Escaped(s[0]) + Quoted(s[1..])
  }

  /** `json.dumps` with compact separators and no ASCII escapes. */
  function Dumps(j: Json): string
    decreases j
  {
    match j
    case Null => "null"
    case Bool(b) => if b then "true" else "false"
    case Num(spelling, _, _) => spelling
    case Str(s) => "\"" + Quoted(s) + "\""
    case Arr(items) => "[" + DumpItems(items) + "]"
    case Obj(fields) => "{" + DumpFields(fields) + "}"
  }

  function DumpItems(items: seq<Json>): string
    decreases items
  {
    if items == [] then "" else Dumps(items[0]) + (if |items| > 1 then "," else "") + DumpItems(items[1..])
  }

  function DumpFields(fields: seq<Field>): string
    decreases fields
  {
    if fields == [] then ""
    else
      var key := "\"" + Quoted(fields[0].key) + "\":";
      key + Dumps(fields[0].value) + (if |fields| > 1 then "," else "") + DumpFields(fields[1..])
  }

  /** The bytes a text takes in UTF-8. */
  function Utf8Bytes(s: string): nat {
    if s == [] then 0
    else
      var n := s[0] as int;
      (if n < 0x80 then 1 else if n < 0x800 then 2 else if n < 0x10000 then 3 else 4) + Utf8Bytes(s[1..])
  }

  lemma {:induction false} Utf8Concat(a: string, b: string)
    ensures Utf8Bytes(a + b) == Utf8Bytes(a) + Utf8Bytes(b)
  {
    if a == [] {
      assert a + b == b;
    } else {
      Utf8Concat(a[1..], b);
      assert (a + b)[1..] == a[1..] + b;
    }
  }

  lemma {:induction false} AsciiBytes(s: string)
    requires forall i :: 0 <= i < |s| ==> s[i] as int < 0x80
    ensures Utf8Bytes(s) == |s|
  {
    if s != [] {
      AsciiBytes(s[1..]);
    }
  }

  lemma EscapedBytes(c: char)
    ensures Utf8Bytes(Escaped(c)) == CharBytes(c)
  {
    if Escaped(c) == [c] {
      assert [c][1..] == [];
    } else {
      AsciiBytes(Escaped(c));
    }
  }

  lemma {:induction false} QuotedBytes(s: string)
    ensures Utf8Bytes(Quoted(s)) == TextBytes(s)
  {
    hide Utf8Bytes, Escaped, CharBytes;
    if s == [] {
      AsciiBytes(Quoted(s));
    } else {
      QuotedBytes(s[1..]);
      EscapedBytes(s[0]);
      Utf8Concat(Escaped(s[0]), Quoted(s[1..]));
    }
  }

  lemma Enclosed(open: string, inner: string, close: string)
    requires forall i :: 0 <= i < |open| ==> open[i] as int < 0x80
    requires forall i :: 0 <= i < |close| ==> close[i] as int < 0x80
    ensures Utf8Bytes(open + inner + close) == |open| + Utf8Bytes(inner) + |close|
  {
    hide Utf8Bytes;
    Utf8Concat(open + inner, close);
    Utf8Concat(open, inner);
    AsciiBytes(open);
    AsciiBytes(close);
  }

  /** What is held against the byte limit is the length of the compact serialization. */
  lemma {:induction false} SizeIsOfTheText(j: Json)
    ensures Size(j) == Utf8Bytes(Dumps(j))
    decreases j
  {
    hide Utf8Bytes, Quoted, DumpItems, DumpFields, ItemSizes, FieldSizes, TextBytes;
    match j
    case Null => AsciiBytes(Dumps(j));
    case Bool(_) => AsciiBytes(Dumps(j));
    case Num(spelling, _, _) => AsciiBytes(spelling);
    case Str(s) =>
      QuotedBytes(s);
      Enclosed("\"", Quoted(s), "\"");
    case Arr(items) =>
      ItemBytes(items);
      Enclosed("[", DumpItems(items), "]");
    case Obj(fields) =>
      FieldBytes(fields);
      Enclosed("{", DumpFields(fields), "}");
  }

  lemma {:induction false} ItemBytes(items: seq<Json>)
    ensures Utf8Bytes(DumpItems(items)) == ItemSizes(items) + if items == [] then 0 else |items| - 1
    decreases items
  {
    hide Utf8Bytes, Size, Dumps;
    if items == [] {
      AsciiBytes(DumpItems(items));
    } else {
      var comma := if |items| > 1 then "," else "";
      SizeIsOfTheText(items[0]);
      ItemBytes(items[1..]);
      Utf8Concat(Dumps(items[0]) + comma, DumpItems(items[1..]));
      Utf8Concat(Dumps(items[0]), comma);
      AsciiBytes(comma);
    }
  }

  lemma {:induction false} FieldBytes(fields: seq<Field>)
    ensures Utf8Bytes(DumpFields(fields)) == FieldSizes(fields) + if fields == [] then 0 else |fields| - 1
    decreases fields
  {
    hide Utf8Bytes, Size, Dumps, Quoted, TextBytes;
    if fields == [] {
      AsciiBytes(DumpFields(fields));
    } else {
      var comma := if |fields| > 1 then "," else "";
      var key := "\"" + Quoted(fields[0].key) + "\":";
      SizeIsOfTheText(fields[0].value);
      FieldBytes(fields[1..]);
      QuotedBytes(fields[0].key);
      Enclosed("\"", Quoted(fields[0].key), "\":");
      Utf8Concat(key + Dumps(fields[0].value) + comma, DumpFields(fields[1..]));
      Utf8Concat(key + Dumps(fields[0].value), comma);
      Utf8Concat(key, Dumps(fields[0].value));
      AsciiBytes(comma);
    }
  }

  // --- What is accepted -----------------------------------------------------------------------------------------------

  /** At most so many nodes, however they are listed. */
  ghost predicate HasAtMost(j: Json, nodes: nat) {
    exists all :: ListsNodes(all, j) && |all| <= nodes
  }

  lemma HasAtMostIff(j: Json, nodes: nat)
    ensures HasAtMost(j, nodes) <==> NodeCount(j) <= nodes
  {
    hide NodeAt, NodeCount, ListsNodes;
    var all := NodesAreCounted(j);
    if HasAtMost(j, nodes) {
      var other :| ListsNodes(other, j) && |other| <= nodes;
      SameListing(all, other, j);
    }
  }

  lemma SameListing(a: seq<seq<nat>>, b: seq<seq<nat>>, j: Json)
    requires ListsNodes(a, j) && ListsNodes(b, j)
    ensures |a| == |b|
  {
    hide NodeAt;
    assert (set p | p in a) == (set p | p in b);
    DistinctCount(a);
    DistinctCount(b);
  }

  lemma {:induction false} DistinctCount(s: seq<seq<nat>>)
    requires NoDuplicates(s)
    ensures |set p | p in s| == |s|
  {
    if s != [] {
      var front, last := s[..|s| - 1], s[|s| - 1];
      DistinctCount(front);
      assert s == front + [last];
      assert last !in front;
      assert (set p | p in s) == (set p | p in front) + {last};
    }
  }

  /**
   * A body passes the server's check exactly when every node of it is legal, none lies more than twenty levels deep, there
   * are at most two thousand, and it serializes to at most 262144 bytes.
   */
  lemma AcceptedIffLegal(raw: Json)
    ensures Verdict(raw) == None <==>
              AllNodesLegal(raw) && NoneAsDeepAs(raw, 20) && HasAtMost(raw, 2000) && Utf8Bytes(Dumps(raw)) <= 262144
  {
    hide Verdict, Size, Utf8Bytes, Dumps, WellFormed, AllNodesLegal, NoneAsDeepAs, HasAtMost, NodeCount, Height;
    AcceptedIff(raw);
    TreeIsLegalIff(raw);
    HeightIsDepth(raw, 20);
    HasAtMostIff(raw, 2000);
    SizeIsOfTheText(raw);
    assert AllNodesLegal(raw) ==> raw.Obj? by { TopIsLegal(raw); }
  }

  lemma TopIsLegal(j: Json)
    ensures AllNodesLegal(j) ==> j.Obj?
  {
    hide IsLegalOfType;
    assert NodeAt(j, []) == Some(j);
  }

  /** So in a body that is accepted every link leads to a legal address, wherever it stands. */
  lemma AcceptedLinksAreLegal(raw: Json, path: seq<nat>, i: nat)
    requires Verdict(raw) == None && NodeAt(raw, path).Some? && NodeAt(raw, path).value.Obj?
    requires var marks := Get(NodeAt(raw, path).value.fields, "marks");
             marks.Some? && marks.value.Arr? && i < |marks.value.items| && marks.value.items[i].Obj?
    requires var mark := Get(NodeAt(raw, path).value.fields, "marks").value.items[i].fields;
             Get(mark, "type") == Some(Str("link")) && !Lacks(mark, "attrs")
    ensures var mark := Get(NodeAt(raw, path).value.fields, "marks").value.items[i].fields;
            && Get(mark, "attrs").value.Obj?
            && var href := Get(Get(mark, "attrs").value.fields, "href"); href.Some? && href.value.Str? && IsLink(href.value.s)
  {
    hide Verdict, WellFormed, NodeAt, IsLink, HasLegalAttrs, HasLegalText;
    AcceptedIff(raw);
    TreeIsLegalIff(raw);
    assert IsLegalNode(NodeAt(raw, path).value);
    assert IsLegalMark(Get(NodeAt(raw, path).value.fields, "marks").value.items[i]);
  }

  /** And every image shows an asset of the platform's own. */
  lemma AcceptedImagesAreOwn(raw: Json, path: seq<nat>)
    requires Verdict(raw) == None && NodeAt(raw, path).Some? && NodeAt(raw, path).value.Obj?
    requires var image := NodeAt(raw, path).value.fields; Get(image, "type") == Some(Str("image")) && !Lacks(image, "attrs")
    ensures var image := NodeAt(raw, path).value.fields;
            && Get(image, "attrs").value.Obj?
            && var src := Get(Get(image, "attrs").value.fields, "src"); src.Some? && src.value.Str? && IsPicture(src.value.s)
  {
    hide Verdict, WellFormed, NodeAt, IsPicture, HasLegalMarks, HasLegalText;
    AcceptedIff(raw);
    TreeIsLegalIff(raw);
    assert IsLegalNode(NodeAt(raw, path).value);
    KeyedAttrs("image", Get(NodeAt(raw, path).value.fields, "attrs").value.fields, "src");
    GetIffKey(Get(NodeAt(raw, path).value.fields, "attrs").value.fields, "src");
  }
}
