/** The server-side check of a page body against the schema: rejected on the first failure, never repaired. */
module Validation {
  import opened Common
  import opened Documents
  import opened Uuids

  const MAX_NODES: nat := 2000
  const MAX_DEPTH: nat := 20
  const MAX_BYTES: nat := 262144
  const MAX_ATTRIBUTE_TEXT: nat := 2048

  /** The refusal codes, and the one input shape on which the check itself fails with a `TypeError`. */
  datatype Error =
    | TooDeep | MalformedNode | TooManyNodes | UnknownNodeKey | UnknownNodeType | MalformedAttrs | UnknownAttribute
    | BadAttribute | BadHref | BadSrc | MalformedText | MalformedMarks | MalformedMark | UnknownMarkKey | UnknownMarkType
    | MalformedContent | NotADocument | DocumentTooLarge | UnhashableHeadingLevel

  datatype NodeType = Doc | Paragraph | Heading | BulletList | OrderedList | ListItem | Blockquote | CodeBlock
        | HorizontalRule | Image | HardBreak | Text

  datatype MarkType = Bold | Italic | Code | Link

  function NodeTypeOf(name: string): Option<NodeType> {
    if name == "doc" then Some(Doc)
    else if name == "paragraph" then Some(Paragraph)
    else if name == "heading" then Some(Heading)
    else if name == "bulletList" then Some(BulletList)
    else if name == "orderedList" then Some(OrderedList)
    else if name == "listItem" then Some(ListItem)
    else if name == "blockquote" then Some(Blockquote)
    else if name == "codeBlock" then Some(CodeBlock)
    else if name == "horizontalRule" then Some(HorizontalRule)
    else if name == "image" then Some(Image)
    else if name == "hardBreak" then Some(HardBreak)
    else if name == "text" then Some(Text)
    else None
  }

  function MarkTypeOf(name: string): Option<MarkType> {
    if name == "bold" then Some(Bold)
    else if name == "italic" then Some(Italic)
    else if name == "code" then Some(Code)
    else if name == "link" then Some(Link)
    else None
  }

  predicate AllowedNodeAttr(t: NodeType, key: string) {
    match t
    case Heading => key == "level"
    case OrderedList => key == "start"
    case CodeBlock => key == "language"
    case Image => key == "src" || key == "alt" || key == "title"
    case _ => false
  }

  predicate AllowedMarkAttr(t: MarkType, key: string) {
    t.Link? && key == "href"
  }

  predicate KnownNodeKey(key: string) {
    key == "type" || key == "attrs" || key == "content" || key == "marks" || key == "text"
  }

  predicate KnownMarkKey(key: string) {
    key == "type" || key == "attrs"
  }

  /** `d.get(key)`, with a JSON null read as absent. */
  function Present(fields: seq<Field>, key: string): Option<Json> {
    var v := Get(fields, key);
    if v == Some(Null) then None else v
  }

  // --- Attributes and marks --------------------------------------------------------

  function CheckOptionalText(v: Option<Json>): Option<Error> {
    match v
    case None => None
    case Some(Null) => None
    case Some(Str(s)) => if |s| > MAX_ATTRIBUTE_TEXT then Some(BadAttribute) else None
    case Some(_) => Some(BadAttribute)
  }

  predicate HasControlCharacter(s: string) {
    exists i :: 0 <= i < |s| && (s[i] as int <= 0x20 || s[i] as int == 0x7f)
  }

  function CheckHref(v: Option<Json>): Option<Error> {
    if v.None? || !v.value.Str? || v.value.s == "" then Some(BadHref)
    else
      var href := v.value.s;
      if |href| > MAX_ATTRIBUTE_TEXT then Some(BadHref)
      else if HasControlCharacter(href) then Some(BadHref)
      else if href[0] == '/' then
        if |href| > 1 && (href[1] == '/' || href[1] == '\\') then Some(BadHref) else None
      else if "https://" <= Lower(href) || "mailto:" <= Lower(href) then None
      else Some(BadHref)
  }

  function CheckSrc(v: Option<Json>): Option<Error> {
    if v.None? || !v.value.Str? || v.value.s == "" then Some(BadSrc)
    else if HasControlCharacter(v.value.s) || !IsAssetPath(v.value.s) then Some(BadSrc)
    else None
  }

  function CheckLevel(v: Json): Option<Error> {
    match v
    case Num(_, x, _) => if x == 2.0 || x == 3.0 || x == 4.0 then None else Some(BadAttribute)
    case Arr(_) => Some(UnhashableHeadingLevel)
    case Obj(_) => Some(UnhashableHeadingLevel)
    case _ => Some(BadAttribute)
  }

  function FirstError(a: Option<Error>, b: Option<Error>): Option<Error> {
    if a.Some? then a else b
  }

  function CheckNodeAttrs(t: NodeType, attrs: seq<Field>): Option<Error> {
    match t
    case Heading =>
      var level := Get(attrs, "level");
      if level.Some? then CheckLevel(level.value) else None
    case OrderedList =>
      var start := Get(attrs, "start");
      if start.Some? && !(start.value.Num? && start.value.integral && start.value.value >= 1.0) then Some(BadAttribute) else None
    case CodeBlock => CheckOptionalText(Get(attrs, "language"))
    case Image =>
      FirstError(CheckSrc(Get(attrs, "src")), FirstError(CheckOptionalText(Get(attrs, "alt")), CheckOptionalText(Get(attrs, "title"))))
    case _ => None
  }

  function CheckMark(m: Json): Option<Error> {
    if !m.Obj? then Some(MalformedMark)
    else if exists key :: key in Keys(m.fields) && !KnownMarkKey(key) then Some(UnknownMarkKey)
    else
      var name := Get(m.fields, "type");
      if name.None? || !name.value.Str? || MarkTypeOf(name.value.s).None? then Some(UnknownMarkType)
      else
        var t := MarkTypeOf(name.value.s).value;
        var attrs := Present(m.fields, "attrs");
        if attrs.None? then None
        else if !attrs.value.Obj? then Some(MalformedAttrs)
        else if exists key :: key in Keys(attrs.value.fields) && !AllowedMarkAttr(t, key) then Some(UnknownAttribute)
        else if t.Link? then CheckHref(Get(attrs.value.fields, "href"))
        else None
  }

  function CheckMarks(marks: seq<Json>): Option<Error> {
    if marks == [] then None else FirstError(CheckMark(marks[0]), CheckMarks(marks[1..]))
  }

  function CheckAttrs(t: NodeType, fields: seq<Field>): Option<Error> {
    var attrs := Present(fields, "attrs");
    if attrs.None? then None
    else if !attrs.value.Obj? then Some(MalformedAttrs)
    else if exists key :: key in Keys(attrs.value.fields) && !AllowedNodeAttr(t, key) then Some(UnknownAttribute)
    else CheckNodeAttrs(t, attrs.value.fields)
  }

  function CheckText(t: NodeType, fields: seq<Field>): Option<Error> {
    var text := Get(fields, "text");
    if t.Text? then
      if text.Some? && text.value.Str? && text.value.s != "" then None else Some(MalformedText)
    else if text.Some? then Some(MalformedText)
    else None
  }

  function CheckMarkList(fields: seq<Field>): Option<Error> {
    var marks := Present(fields, "marks");
    if marks.None? then None
    else if !marks.value.Arr? then Some(MalformedMarks)
    else CheckMarks(marks.value.items)
  }

  function CheckContent(fields: seq<Field>): Option<Error> {
    var content := Present(fields, "content");
    if content.Some? && !content.value.Arr? then Some(MalformedContent) else None
  }

  function CheckType(fields: seq<Field>): Result<NodeType, Error> {
    var name := Get(fields, "type");
    if name.None? || !name.value.Str? || NodeTypeOf(name.value.s).None? then Err(UnknownNodeType)
    else Ok(NodeTypeOf(name.value.s).value)
  }

  /** The first thing wrong with a node by itself, its children apart. */
  function LocalError(fields: seq<Field>): Option<Error> {
    if exists key :: key in Keys(fields) && !KnownNodeKey(key) then Some(UnknownNodeKey)
    else
      match CheckType(fields)
      case Err(e) => Some(e)
      case Ok(t) =>
        FirstError(CheckAttrs(t, fields), FirstError(CheckText(t, fields), FirstError(CheckMarkList(fields), CheckContent(fields))))
  }

  // --- The specification: a property of the tree, with no counter and no order of visits ---

  function Children(j: Json): (r: seq<Json>)
    ensures forall i :: 0 <= i < |r| ==> r[i] < j
  {
    if j.Obj? then
      var content := Present(j.fields, "content");
      if content.Some? && content.value.Arr? then
        GetIsAField(j.fields, "content");
        content.value.items
      else []
    else []
  }

  predicate WellFormed(j: Json) {
    j.Obj? && LocalError(j.fields).None? && forall i :: 0 <= i < |Children(j)| ==> WellFormed(Children(j)[i])
  }

  /** The number of nodes: this one and everything below it along `content`. */
  function NodeCount(j: Json): (n: nat)
    ensures n >= 1
    decreases j, 1
  {
    1 + NodeCounts(j, |Children(j)|)
  }

  /** The nodes in the first `n` subtrees. */
  function NodeCounts(j: Json, n: nat): nat
    requires n <= |Children(j)|
    decreases j, 0, n
  {
    if n == 0 then 0 else NodeCounts(j, n - 1) + NodeCount(Children(j)[n - 1])
  }

  /** How many levels deep the tree nests. */
  function Height(j: Json): (n: nat)
    ensures n >= 1
    decreases j, 1
  {
    1 + Heights(j, |Children(j)|)
  }

  function Heights(j: Json, n: nat): nat
    requires n <= |Children(j)|
    decreases j, 0, n
  {
    if n == 0 then 0
    else Max(Heights(j, n - 1), Height(Children(j)[n - 1]))
  }

  function Max(a: nat, b: nat): nat {
    if a < b then b else a
  }

  predicate WithinLimits(j: Json) {
    NodeCount(j) <= MAX_NODES && Height(j) <= MAX_DEPTH
  }

  // --- The serialized size -----------------------------------------------------------------------------

  /** Bytes `json.dumps(..., ensure_ascii=False)` spends on one character, in UTF-8. */
  function CharBytes(c: char): nat {
    var n := c as int;
    if c == '"' || c == '\\' || c == '\n' || c == '\r' || c == '\t' || n == 8 || n == 12 then 2
    else if n < 0x20 then 6
    else if n < 0x80 then 1
    else if n < 0x800 then 2
    else if n < 0x10000 then 3
    else 4
  }

  function TextBytes(s: string): nat {
    if s == [] then 0 else CharBytes(s[0]) + TextBytes(s[1..])
  }

  /** The length of the compact serialization that `_check_size` measures. */
  function Size(j: Json): nat
    decreases j
  {
    match j
    case Null => 4
    case Bool(b) => if b then 4 else 5
    case Num(spelling, _, _) => |spelling|
    case Str(s) => 2 + TextBytes(s)
    case Arr(items) => 2 + ItemSizes(items) + (if items == [] then 0 else |items| - 1)
    case Obj(fields) => 2 + FieldSizes(fields) + (if fields == [] then 0 else |fields| - 1)
  }

  function ItemSizes(items: seq<Json>): nat
    decreases items
  {
    if items == [] then 0 else Size(items[0]) + ItemSizes(items[1..])
  }

  function FieldSizes(fields: seq<Field>): nat
    decreases fields
  {
    if fields == [] then 0 else 2 + TextBytes(fields[0].key) + 1 + Size(fields[0].value) + FieldSizes(fields[1..])
  }

  // --- The verdict: the first fault in document order -------------------------------------------------------

  /** A node as the walk comes to it. */
  datatype Place = Place(node: Json, depth: nat)

  /** Every node of the tree in document order, each with its depth. */
  function Visits(j: Json, depth: nat): seq<Place>
    decreases j, 1
  {
    [Place(j, depth)] + ChildVisits(j, depth, |Children(j)|)
  }

  function ChildVisits(j: Json, depth: nat, n: nat): seq<Place>
    requires n <= |Children(j)|
    decreases j, 0, n
  {
    if n == 0 then [] else ChildVisits(j, depth, n - 1) + Visits(Children(j)[n - 1], depth + 1)
  }

  /** What is wrong with a node where it stands, when `before` nodes have been counted before it. */
  function Fault(v: Place, before: nat): Option<Error> {
    if v.depth > MAX_DEPTH then Some(TooDeep)
    else if !v.node.Obj? then Some(MalformedNode)
    else if before + 1 > MAX_NODES then Some(TooManyNodes)
    else LocalError(v.node.fields)
  }

  function FirstFault(visits: seq<Place>, before: nat): Option<Error> {
    if visits == [] then None else FirstError(Fault(visits[0], before), FirstFault(visits[1..], before + 1))
  }

  /** What comes of validating a body: nothing wrong, or the one error it stops at. */
  function Verdict(raw: Json): Option<Error> {
    if !raw.Obj? then Some(NotADocument)
    else if Size(raw) > MAX_BYTES then Some(DocumentTooLarge)
    else FirstFault(Visits(raw, 1), 0)
  }

  lemma {:induction false} FirstFaultConcat(a: seq<Place>, b: seq<Place>, before: nat)
    ensures FirstFault(a + b, before) == FirstError(FirstFault(a, before), FirstFault(b, before + |a|))
  {
    hide Fault;
    if a == [] {
      assert a + b == b;
    } else {
      FirstFaultConcat(a[1..], b, before + 1);
      assert (a + b)[1..] == a[1..] + b;
    }
  }

  lemma FirstFaultUnfolds(j: Json, depth: nat, before: nat)
    ensures FirstFault(Visits(j, depth), before) ==
            FirstError(Fault(Place(j, depth), before), FirstFault(ChildVisits(j, depth, |Children(j)|), before + 1))
  {
    hide Fault, ChildVisits;
    assert Visits(j, depth)[1..] == ChildVisits(j, depth, |Children(j)|);
  }

  lemma ChildFaultsUnfold(j: Json, depth: nat, n: nat, before: nat)
    requires n < |Children(j)|
    ensures FirstFault(ChildVisits(j, depth, n + 1), before) ==
            FirstError(FirstFault(ChildVisits(j, depth, n), before),
              FirstFault(Visits(Children(j)[n], depth + 1), before + NodeCounts(j, n)))
  {
    hide Fault, FirstFault, Visits, NodeCounts;
    VisitsCount(j, depth, n);
    FirstFaultConcat(ChildVisits(j, depth, n), Visits(Children(j)[n], depth + 1), before);
  }

  lemma {:induction false} VisitsCount(j: Json, depth: nat, n: nat)
    requires n <= |Children(j)|
    ensures |ChildVisits(j, depth, n)| == NodeCounts(j, n)
    decreases j, n
  {
    if n > 0 {
      VisitsCount(j, depth, n - 1);
      var child := Children(j)[n - 1];
      VisitsCount(child, depth + 1, |Children(child)|);
    }
  }

  /** A fault in an earlier subtree is the one the whole comes to. */
  lemma {:induction false} EarlierFaultStays(j: Json, depth: nat, i: nat, n: nat, before: nat)
    requires i <= n <= |Children(j)| && FirstFault(ChildVisits(j, depth, i), before).Some?
    ensures FirstFault(ChildVisits(j, depth, n), before) == FirstFault(ChildVisits(j, depth, i), before)
  {
    hide Fault, FirstFault, ChildVisits, Visits;
    if i < n {
      EarlierFaultStays(j, depth, i, n - 1, before);
      ChildFaultsUnfold(j, depth, n - 1, before);
    }
  }

  // --- What the verdict means ------------------------------------------------------------------------------

  /** Refused for a reason of its own rather than for a limit. */
  predicate IsLocal(error: Option<Error>) {
    error.Some? && error != Some(TooDeep) && error != Some(TooManyNodes)
  }

  /** What each answer says of a tree with these properties. */
  predicate Justified(error: Option<Error>, wellFormed: bool, deepest: int, count: int) {
    && (error.None? <==> wellFormed && deepest <= MAX_DEPTH && count <= MAX_NODES)
    && (error == Some(TooDeep) ==> deepest > MAX_DEPTH)
    && (error == Some(TooManyNodes) ==> count > MAX_NODES)
    && (IsLocal(error) ==> !wellFormed)
  }

  predicate ChildrenWellFormed(j: Json, n: nat)
    requires n <= |Children(j)|
  {
    forall i :: 0 <= i < n ==> WellFormed(Children(j)[i])
  }

  /** The first fault decides: none exactly when the tree is well-formed and fits, and a limit is blamed only when it is exceeded. */
  lemma {:induction false} FirstFaultIsJustified(j: Json, depth: nat, before: nat)
    requires depth >= 1
    ensures Justified(FirstFault(Visits(j, depth), before), WellFormed(j), depth + Height(j) - 1, before + NodeCount(j))
    decreases j, |Children(j)| + 1
  {
    hide LocalError, FirstFault, Visits, ChildVisits, NodeCounts, Heights;
    FirstFaultUnfolds(j, depth, before);
    if depth <= MAX_DEPTH && before + 1 <= MAX_NODES {
      ChildFaultsAreJustified(j, depth, before + 1, |Children(j)|);
    }
    if j.Obj? {
      LocalErrorsAreLocal(j.fields);
    }
    assert WellFormed(j) <==> j.Obj? && LocalError(j.fields).None? && ChildrenWellFormed(j, |Children(j)|);
  }

  lemma {:induction false} ChildFaultsAreJustified(j: Json, depth: nat, before: nat, n: nat)
    requires 1 <= depth <= MAX_DEPTH && before <= MAX_NODES && n <= |Children(j)|
    ensures Justified(FirstFault(ChildVisits(j, depth, n), before), ChildrenWellFormed(j, n), depth + Heights(j, n),
              before + NodeCounts(j, n))
    decreases j, n
  {
    hide WellFormed, NodeCount, Height, FirstFault, Visits, ChildVisits;
    if n == 0 {
      NoChildrenNoFault(j, depth, before);
    } else {
      ChildFaultsAreJustified(j, depth, before, n - 1);
      ChildFaultsUnfold(j, depth, n - 1, before);
      FirstFaultIsJustified(Children(j)[n - 1], depth + 1, before + NodeCounts(j, n - 1));
      assert ChildrenWellFormed(j, n) <==> ChildrenWellFormed(j, n - 1) && WellFormed(Children(j)[n - 1]);
    }
  }

  lemma NoChildrenNoFault(j: Json, depth: nat, before: nat)
    ensures FirstFault(ChildVisits(j, depth, 0), before) == None
  {
  }

  // --- The check itself: one pass, one shared counter, stopping at the first failure ---

  class NodeCounter {
    var count: nat

    constructor ()
      ensures count == 0
    {
      count := 0;
    }

    method Bump() returns (error: Option<Error>)
      modifies this
      ensures count == old(count) + 1
      ensures error == if count > MAX_NODES then Some(TooManyNodes) else None
    {
      count := count + 1;
      error := if count > MAX_NODES then Some(TooManyNodes) else None;
    }
  }

  /**
   * Stops at the first fault in document order. So it accepts exactly the well-formed trees whose nodes and levels still
   * fit in what is left of the limits, and then the counter has grown by exactly the number of nodes.
   */
  method Walk(node: Json, depth: nat, counter: NodeCounter) returns (error: Option<Error>)
    requires 1 <= depth
    modifies counter
    ensures error == FirstFault(Visits(node, depth), old(counter.count))
    ensures error.None? <==> WellFormed(node) && depth + Height(node) - 1 <= MAX_DEPTH && old(counter.count) + NodeCount(node) <= MAX_NODES
    ensures error.None? ==> counter.count == old(counter.count) + NodeCount(node)
    ensures error == Some(TooDeep) ==> depth + Height(node) - 1 > MAX_DEPTH
    ensures error == Some(TooManyNodes) ==> old(counter.count) + NodeCount(node) > MAX_NODES
    ensures error.Some? && error != Some(TooDeep) && error != Some(TooManyNodes) ==> !WellFormed(node)
    decreases node, 1
  {
    hide WellFormed, Height, Visits, ChildVisits, FirstFault, LocalError;
    FirstFaultUnfolds(node, depth, counter.count);
    FirstFaultIsJustified(node, depth, counter.count);
    if depth > MAX_DEPTH {
      return Some(TooDeep);
    }
    if !node.Obj? {
      return Some(MalformedNode);
    }
    error := counter.Bump();
    if error.Some? {
      return;
    }
    error := LocalError(node.fields);
    if error.Some? {
      return;
    }
    error := WalkChildren(node, depth, counter);
  }

  /** The children in order, one level deeper, under the same counter. */
  method WalkChildren(node: Json, depth: nat, counter: NodeCounter) returns (error: Option<Error>)
    requires 1 <= depth <= MAX_DEPTH && counter.count <= MAX_NODES
    modifies counter
    ensures error == FirstFault(ChildVisits(node, depth, |Children(node)|), old(counter.count))
    ensures error.None? ==> counter.count == old(counter.count) + NodeCounts(node, |Children(node)|)
    ensures Justified(error, ChildrenWellFormed(node, |Children(node)|), depth + Heights(node, |Children(node)|),
              old(counter.count) + NodeCounts(node, |Children(node)|))
    decreases node, 0
  {
    hide WellFormed, NodeCount, Height, FirstFault, Visits, ChildVisits;
    error := None;
    var content := Children(node);
    ChildFaultsAreJustified(node, depth, counter.count, |content|);
    NoChildrenNoFault(node, depth, counter.count);
    for i := 0 to |content|
      invariant error == None
      invariant FirstFault(ChildVisits(node, depth, i), old(counter.count)) == None
      invariant counter.count == old(counter.count) + NodeCounts(node, i)
    {
      ChildFaultsUnfold(node, depth, i, old(counter.count));
      error := Walk(content[i], depth + 1, counter);
      if error.Some? {
        EarlierFaultStays(node, depth, i + 1, |content|, old(counter.count));
        return;
      }
    }
  }

  /** The limits are never what is wrong with a node by itself. */
  lemma LocalErrorsAreLocal(fields: seq<Field>)
    ensures LocalError(fields) != Some(TooDeep) && LocalError(fields) != Some(TooManyNodes)
  {
    var marks := Present(fields, "marks");
    if marks.Some? && marks.value.Arr? {
      MarkErrorsAreLocal(marks.value.items);
    }
  }

  lemma {:induction false} MarkErrorsAreLocal(marks: seq<Json>)
    ensures CheckMarks(marks) != Some(TooDeep) && CheckMarks(marks) != Some(TooManyNodes)
  {
    if marks != [] {
      MarkErrorsAreLocal(marks[1..]);
    }
  }

  /** A body passes exactly when it is a well-formed object within all three limits; otherwise the first check it fails is named. */
  method Validate(raw: Json) returns (error: Option<Error>)
    ensures error == Verdict(raw)
    ensures error.None? <==> raw.Obj? && WellFormed(raw) && WithinLimits(raw) && Size(raw) <= MAX_BYTES
  {
    hide Size, WellFormed, Visits, FirstFault;
    if !raw.Obj? {
      return Some(NotADocument);
    }
    if Size(raw) > MAX_BYTES {
      return Some(DocumentTooLarge);
    }
    var counter := new NodeCounter();
    error := Walk(raw, 1, counter);
  }

  /** The verdict without the walk: accepted exactly the well-formed objects within all three limits. */
  lemma AcceptedIff(raw: Json)
    ensures Verdict(raw) == None <==> raw.Obj? && WellFormed(raw) && WithinLimits(raw) && Size(raw) <= MAX_BYTES
  {
    hide Size, WellFormed, Visits, FirstFault;
    FirstFaultIsJustified(raw, 1, 0);
  }

  // --- The body on which the check itself fails ------------------------------------------------------------

  /** Visit `i` is the first at which anything is wrong, and this is what is wrong there. */
  predicate FailsFirstAt(visits: seq<Place>, i: nat, error: Error, before: nat) {
    && i < |visits|
    && Fault(visits[i], before + i) == Some(error)
    && forall k: nat :: k < i ==> Fault(visits[k], before + k) == None
  }

  lemma {:induction false} FirstFaultIsAt(visits: seq<Place>, error: Error, before: nat)
    ensures FirstFault(visits, before) == Some(error) <==> exists i: nat :: FailsFirstAt(visits, i, error, before)
  {
    hide Fault;
    if visits != [] {
      var rest, next := visits[1..], before + 1;
      FirstFaultIsAt(rest, error, next);
      if Fault(visits[0], before) == None {
        if i: nat :| FailsFirstAt(visits, i, error, before) {
          assert i > 0;
          LaterVisit(visits, i - 1, error, before);
        }
        if i: nat :| FailsFirstAt(rest, i, error, next) {
          LaterVisit(visits, i, error, before);
        }
      } else if Fault(visits[0], before) == Some(error) {
        assert FailsFirstAt(visits, 0, error, before);
      }
    }
  }

  lemma LaterVisit(visits: seq<Place>, i: nat, error: Error, before: nat)
    requires visits != [] && Fault(visits[0], before) == None
    ensures FailsFirstAt(visits, i + 1, error, before) <==> FailsFirstAt(visits[1..], i, error, before + 1)
  {
    hide Fault;
    forall k: nat | k < |visits[1..]| ensures Fault(visits[1..][k], before + 1 + k) == Fault(visits[k + 1], before + (k + 1)) {
    }
    if FailsFirstAt(visits[1..], i, error, before + 1) {
      forall k: nat | k < i + 1 ensures Fault(visits[k], before + k) == None {
        assert k > 0 ==> Fault(visits[1..][k - 1], before + 1 + (k - 1)) == None;
      }
    }
  }

  /** A heading with nothing wrong about it so far, whose `level` is a list or an object: no set can be asked whether it holds that. */
  predicate HasUnhashableLevel(fields: seq<Field>) {
    && (forall key :: key in Keys(fields) ==> KnownNodeKey(key))
    && Get(fields, "type") == Some(Str("heading"))
    && var attrs := Present(fields, "attrs");
       && attrs.Some? && attrs.value.Obj?
       && (forall key :: key in Keys(attrs.value.fields) ==> key == "level")
       && var level := Get(attrs.value.fields, "level");
          level.Some? && (level.value.Arr? || level.value.Obj?)
  }

  lemma {:induction false} MarksAreHashed(marks: seq<Json>)
    ensures CheckMarks(marks) != Some(UnhashableHeadingLevel)
  {
    if marks != [] {
      MarksAreHashed(marks[1..]);
    }
  }

  lemma UnhashableIff(fields: seq<Field>)
    ensures LocalError(fields) == Some(UnhashableHeadingLevel) <==> HasUnhashableLevel(fields)
  {
    hide CheckMarks;
    var marks := Present(fields, "marks");
    if marks.Some? && marks.value.Arr? {
      MarksAreHashed(marks.value.items);
    }
  }

  /** In document order, visit `i` is the first with a fault, lies within the limits, and is such a heading. */
  predicate CrashesAt(visits: seq<Place>, i: nat) {
    && i < |visits| && i < MAX_NODES && visits[i].depth <= MAX_DEPTH
    && visits[i].node.Obj? && HasUnhashableLevel(visits[i].node.fields)
    && forall k: nat :: k < i ==> Fault(visits[k], k) == None
  }

  lemma FirstFaultCrashesIff(visits: seq<Place>)
    ensures FirstFault(visits, 0) == Some(UnhashableHeadingLevel) <==> exists i: nat :: CrashesAt(visits, i)
  {
    hide FirstFault, LocalError, HasUnhashableLevel;
    FirstFaultIsAt(visits, UnhashableHeadingLevel, 0);
    forall i: nat ensures FailsFirstAt(visits, i, UnhashableHeadingLevel, 0) <==> CrashesAt(visits, i) {
      if i < |visits| && visits[i].node.Obj? {
        UnhashableIff(visits[i].node.fields);
      }
    }
  }

  /** Validation raises a `TypeError` exactly when the first faulty node, within the limits, is a heading with such a level. */
  lemma CrashIff(raw: Json)
    ensures Verdict(raw) == Some(UnhashableHeadingLevel) <==>
            raw.Obj? && Size(raw) <= MAX_BYTES && exists i: nat :: CrashesAt(Visits(raw, 1), i)
  {
    hide Size, CrashesAt, Visits, FirstFault;
    FirstFaultCrashesIff(Visits(raw, 1));
    if Verdict(raw) == Some(UnhashableHeadingLevel) {
      assert exists i: nat :: CrashesAt(Visits(raw, 1), i);
    } else if raw.Obj? && Size(raw) <= MAX_BYTES {
      assert !exists i: nat :: CrashesAt(Visits(raw, 1), i);
    }
  }
}
