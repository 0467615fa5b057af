/** Reading a Word document's paragraphs and tables as a stream of blocks: lists are gathered, tables dropped, images lifted out. */
module DocxReading {
  import opened Common
  import opened Conversion

  datatype ListKind = Bullet | Ordered

  /** How a paragraph is numbered: not at all, under a list style, or under a style that does not say which kind. */
  datatype Numbering = NotListed | Listed(kind: ListKind) | Unclassified

  /** An image found in a drawing: taken, refused by the upload checks, or not readable. */
  datatype Extracted = Taken(placeholder: string) | Refused(name: string) | Unreadable

  datatype Piece =
    | Hyperlink(text: string, address: string)
    | Run(text: string, bold: bool, italic: bool, drawings: seq<seq<Extracted>>)

  datatype Item = Table | Paragraph(level: Option<nat>, numbering: Numbering, pieces: seq<Piece>)

  datatype DocBlock = Para(inline: seq<Inline>) | Heading(level: nat, inline: seq<Inline>)
        | List(kind: ListKind, items: seq<seq<Inline>>) | Image(placeholder: string)

  // --- One paragraph ---------------------------------------------------------------------------------

  function PieceText(p: Piece): seq<Inline> {
    match p
    case Hyperlink(text, address) =>
      if text == "" then [] else [Text(text, if AllowedHref(address) then [Link(address)] else [])]
    case Run(text, bold, italic, drawings) =>
      if drawings != [] || text == "" then [] else [Text(text, (if bold then [Bold] else []) + if italic then [Italic] else [])]
  }

  function TakenImages(found: seq<Extracted>): seq<string> {
    if found == [] then [] else (if found[0].Taken? then [found[0].placeholder] else []) + TakenImages(found[1..])
  }

  function Flat<T>(s: seq<seq<T>>): seq<T> {
    if s == [] then [] else s[0] + Flat(s[1..])
  }

  function Found(p: Piece): seq<Extracted> {
    if p.Run? then Flat(p.drawings) else []
  }

  function Inlines(pieces: seq<Piece>): seq<Inline> {
    if pieces == [] then [] else Inlines(pieces[..|pieces| - 1]) + PieceText(pieces[|pieces| - 1])
  }

  function Images(pieces: seq<Piece>): seq<string> {
    if pieces == [] then [] else Images(pieces[..|pieces| - 1]) + TakenImages(Found(pieces[|pieces| - 1]))
  }

  function ImageReports(issues: seq<Issue>, found: seq<Extracted>): seq<Issue>
    decreases found
  {
    if found == [] then issues
    else
      var first := match found[0]
        case Taken(_) => issues
        case Refused(name) => issues + [ImageDropped(name)]
        case Unreadable => NoteOnce(issues, ImageUnavailable);
      ImageReports(first, found[1..])
  }

  predicate LosesItsLink(p: Piece) {
    p.Hyperlink? && p.text != "" && !AllowedHref(p.address)
  }

  function PieceReports(issues: seq<Issue>, pieces: seq<Piece>): seq<Issue> {
    if pieces == [] then issues
    else
      var before, p := PieceReports(issues, pieces[..|pieces| - 1]), pieces[|pieces| - 1];
      if LosesItsLink(p) then NoteOnce(before, LinkDropped) else ImageReports(before, Found(p))
  }

  /** `_docx_runs_to_pm` */
  method RunsToPm(pieces: seq<Piece>, issues: seq<Issue>) returns (inline: seq<Inline>, images: seq<string>, reported: seq<Issue>)
    ensures inline == Inlines(pieces) && images == Images(pieces) && reported == PieceReports(issues, pieces)
  {
    hide AllowedHref, TakenImages, ImageReports, Flat, NoteOnce;
    inline, images, reported := [], [], issues;
    for i := 0 to |pieces|
      invariant inline == Inlines(pieces[..i]) && images == Images(pieces[..i]) && reported == PieceReports(issues, pieces[..i])
    {
      assert pieces[..i + 1][..i] == pieces[..i];
      var p := pieces[i];
      match p
      case Hyperlink(text, address) =>
        NoneFound(p);
        NothingToReport(reported);
        if text == "" {
          continue;
        }
        if AllowedHref(address) {
          inline := inline + [Text(text, [Link(address)])];
        } else {
          reported := NoteOnce(reported, LinkDropped);
          inline := inline + [Text(text, [])];
        }
      case Run(text, bold, italic, drawings) =>
        var found := Flat(drawings);
        images := images + TakenImages(found);
        reported := ImageReports(reported, found);
        if drawings != [] {
          continue;
        }
        if text != "" {
          inline := inline + [Text(text, (if bold then [Bold] else []) + if italic then [Italic] else [])];
        }
    }
    assert pieces[..|pieces|] == pieces;
  }

  lemma NoneFound(p: Piece)
    requires p.Hyperlink?
    ensures TakenImages(Found(p)) == []
  {
  }

  lemma NothingToReport(issues: seq<Issue>)
    ensures ImageReports(issues, []) == issues
  {
  }

  function SourceText(pieces: seq<Piece>): string {
    if pieces == [] then "" else SourceText(pieces[..|pieces| - 1]) + pieces[|pieces| - 1].text
  }

  /** A run that holds a drawing gives its images only; what text it also holds is passed over, and not reported. */
  predicate HidesText(p: Piece) {
    p.Run? && p.drawings != [] && p.text != ""
  }

  lemma PieceTextLength(p: Piece)
    ensures PlainText(PieceText(p)) == if HidesText(p) then "" else p.text
  {
  }

  lemma {:induction false} TextIsNotLonger(pieces: seq<Piece>)
    ensures |PlainText(Inlines(pieces))| <= |SourceText(pieces)|
    ensures |PlainText(Inlines(pieces))| == |SourceText(pieces)| ==> PlainText(Inlines(pieces)) == SourceText(pieces)
    ensures |PlainText(Inlines(pieces))| == |SourceText(pieces)| <==> forall i :: 0 <= i < |pieces| ==> !HidesText(pieces[i])
  {
    hide PlainText, PieceText;
    if pieces == [] {
      assert PlainText(Inlines(pieces)) == "" by { PlainTextOfNothing(); }
    } else {
      var front, last := pieces[..|pieces| - 1], pieces[|pieces| - 1];
      TextIsNotLonger(front);
      PlainTextConcat(Inlines(front), PieceText(last));
      PieceTextLength(last);
      assert pieces == front + [last];
    }
  }

  lemma PlainTextOfNothing()
    ensures PlainText([]) == ""
  {
  }

  /** A paragraph keeps its text, links whose address is refused included, exactly when no run of it holds both a drawing and text. */
  lemma TextIsKeptIff(pieces: seq<Piece>)
    ensures PlainText(Inlines(pieces)) == SourceText(pieces) <==> forall i :: 0 <= i < |pieces| ==> !HidesText(pieces[i])
  {
    hide PlainText, Inlines, SourceText;
    TextIsNotLonger(pieces);
  }

  // --- What each item is read as -----------------------------------------------------------------------

  datatype Role = DroppedTable | ModuleTitle | SectionBreak | ListItem(kind: ListKind) | PageHeading(level: nat) | PlainParagraph

  function RoleAt(items: seq<Item>, i: nat): Role
    requires i < |items|
  {
    match items[i]
    case Table => DroppedTable
    case Paragraph(level, numbering, _) =>
      if level == Some(1) && i == 0 then ModuleTitle
      else if level == Some(2) then SectionBreak
      else if numbering.Listed? then ListItem(numbering.kind)
      else if numbering.Unclassified? then ListItem(Bullet)
      else if level.Some? then PageHeading(level.value)
      else PlainParagraph
  }

  function PiecesAt(items: seq<Item>, i: nat): seq<Piece>
    requires i < |items|
  {
    if items[i].Table? then [] else items[i].pieces
  }

  function InlineAt(items: seq<Item>, i: nat): seq<Inline>
    requires i < |items|
  {
    Inlines(PiecesAt(items, i))
  }

  function ImagesAt(items: seq<Item>, i: nat): seq<string>
    requires i < |items|
  {
    Images(PiecesAt(items, i))
  }

  function ImageEvents(placeholders: seq<string>): seq<Event<DocBlock>> {
    seq(|placeholders|, k requires 0 <= k < |placeholders| => Block(Image(placeholders[k])))
  }

  // --- The stream, told by maximal runs of list items -------------------------------------------------------

  /** Where the run of `kind` that includes item `i` ends: at anything that is no such item, or after one with images. */
  function RunEnd(items: seq<Item>, i: nat, kind: ListKind): (n: nat)
    requires i < |items|
    ensures i < n <= |items|
    decreases |items| - i
  {
    if ImagesAt(items, i) != [] || i + 1 == |items| || RoleAt(items, i + 1) != ListItem(kind) then i + 1
    else RunEnd(items, i + 1, kind)
  }

  function ItemTexts(items: seq<Item>, i: nat, n: nat): seq<seq<Inline>>
    requires i <= n <= |items|
  {
    seq(n - i, k requires 0 <= k < n - i => InlineAt(items, i + k))
  }

  /** What an item outside any list gives. */
  function OwnEvents(items: seq<Item>, i: nat): seq<Event<DocBlock>>
    requires i < |items|
  {
    var inline, images := InlineAt(items, i), ImageEvents(ImagesAt(items, i));
    match RoleAt(items, i)
    case DroppedTable => []
    case SectionBreak => [PageBreak(Strip(PlainText(inline)))] + images
    case PageHeading(level) => (if inline == [] then [] else [Block(Heading(NearestLevel(level), inline))]) + images
    case PlainParagraph => [Block(Para(inline))] + images
    case _ => images
  }

  function Reading(items: seq<Item>, i: nat): seq<Event<DocBlock>>
    requires i <= |items|
    decreases |items| - i
  {
    if i == |items| then []
    else if RoleAt(items, i).ListItem? then
      var kind := RoleAt(items, i).kind;
      var n := RunEnd(items, i, kind);
      [Block(List(kind, ItemTexts(items, i, n)))] + ImageEvents(ImagesAt(items, n - 1)) + Reading(items, n)
    else OwnEvents(items, i) + Reading(items, i + 1)
  }

  /** A run is maximal: one kind throughout, no image before its end, and it ends only where it must. */
  lemma {:induction false} RunsAreMaximal(items: seq<Item>, i: nat, kind: ListKind)
    requires i < |items| && RoleAt(items, i) == ListItem(kind)
    ensures var n := RunEnd(items, i, kind);
            && (forall j :: i <= j < n ==> RoleAt(items, j) == ListItem(kind))
            && (forall j :: i <= j < n - 1 ==> ImagesAt(items, j) == [])
            && (n == |items| || RoleAt(items, n) != ListItem(kind) || ImagesAt(items, n - 1) != [])
    decreases |items| - i
  {
    hide RoleAt, ImagesAt;
    if RunEnd(items, i, kind) != i + 1 {
      RunsAreMaximal(items, i + 1, kind);
    }
  }

  /** Items `start` to `n` are list items of this kind, none with images. */
  predicate Gathered(items: seq<Item>, start: nat, n: nat, kind: ListKind)
    requires start <= n <= |items|
  {
    forall j :: start <= j < n ==> RoleAt(items, j) == ListItem(kind) && ImagesAt(items, j) == []
  }

  lemma {:induction false} RunEndsHere(items: seq<Item>, start: nat, n: nat, kind: ListKind)
    requires start < n <= |items| && Gathered(items, start, n - 1, kind) && RoleAt(items, n - 1) == ListItem(kind)
    requires ImagesAt(items, n - 1) != [] || n == |items| || RoleAt(items, n) != ListItem(kind)
    ensures RunEnd(items, start, kind) == n
    decreases n - start
  {
    hide RoleAt, ImagesAt;
    if start + 1 < n {
      assert ImagesAt(items, start) == [];
      RunEndsHere(items, start + 1, n, kind);
    }
  }

  /** What one item adds to the report. */
  function ItemReports(issues: seq<Issue>, items: seq<Item>, i: nat): seq<Issue>
    requires i < |items|
  {
    var pieces := PiecesAt(items, i);
    match RoleAt(items, i)
    case DroppedTable => NoteOnce(issues, TableDropped)
    case ListItem(_) => PieceReports(if items[i].numbering.Unclassified? then NoteOnce(issues, ListStyleAssumedBullet) else issues, pieces)
    case PageHeading(level) =>
      var before := PieceReports(issues, pieces);
      if NearestLevel(level) == level then before else before + [HeadingLevelAdjusted(level, NearestLevel(level))]
    case _ => PieceReports(issues, pieces)
  }

  function Reports(items: seq<Item>, n: nat): seq<Issue>
    requires n <= |items|
  {
    if n == 0 then [] else ItemReports(Reports(items, n - 1), items, n - 1)
  }

  function TitleOf(items: seq<Item>): Option<string> {
    if items == [] || RoleAt(items, 0) != ModuleTitle then None
    else
      var text := Strip(PlainText(InlineAt(items, 0)));
      if text == "" then None else Some(text)
  }

  /** The closing of the list being gathered, if there is one. */
  function Flushed(events: seq<Event<DocBlock>>, kind: Option<ListKind>, gathered: seq<seq<Inline>>): seq<Event<DocBlock>> {
    if kind.Some? && gathered != [] then events + [Block(List(kind.value, gathered))] else events
  }

  /** The loop's state before item `i`: what is out, and the open list that runs from `start`. */
  ghost predicate UpTo(items: seq<Item>, i: nat, start: nat, events: seq<Event<DocBlock>>, kind: Option<ListKind>,
        gathered: seq<seq<Inline>>)
    requires i <= |items|
  {
    if kind.None? then gathered == [] && Reading(items, 0) == events + Reading(items, i)
    else
      && start < i
      && Gathered(items, start, i, kind.value)
      && gathered == ItemTexts(items, start, i)
      && Reading(items, 0) == events + Reading(items, start)
  }

  /** Closing the list where its run ends brings the stream up to the present item. */
  lemma FlushingClosesTheRun(items: seq<Item>, i: nat, start: nat, events: seq<Event<DocBlock>>,
        kind: Option<ListKind>, gathered: seq<seq<Inline>>)
    requires i <= |items| && UpTo(items, i, start, events, kind, gathered)
    requires i == |items| || kind.None? || RoleAt(items, i) != ListItem(kind.value)
    ensures UpTo(items, i, 0, Flushed(events, kind, gathered), None, [])
  {
    hide RoleAt, InlineAt, ImagesAt, Reading;
    if kind.Some? {
      assert RoleAt(items, i - 1) == ListItem(kind.value) && ImagesAt(items, i - 1) == [];
      assert RoleAt(items, start) == ListItem(kind.value);
      RunEndsHere(items, start, i, kind.value);
      ReadingOfARun(items, start, kind.value);
      var list := [Block(List(kind.value, gathered))];
      assert events + (list + ImageEvents([]) + Reading(items, i)) == events + list + Reading(items, i);
    }
  }

  lemma OthersPass(items: seq<Item>, i: nat, events: seq<Event<DocBlock>>)
    requires i < |items| && !RoleAt(items, i).ListItem?
    requires UpTo(items, i, 0, events, None, [])
    ensures UpTo(items, i + 1, 0, events + OwnEvents(items, i), None, [])
  {
    hide RoleAt, OwnEvents;
    assert events + (OwnEvents(items, i) + Reading(items, i + 1)) == events + OwnEvents(items, i) + Reading(items, i + 1);
  }

  /** A list item without images joins the open list, or opens one. */
  lemma ItemJoins(items: seq<Item>, i: nat, start: nat, events: seq<Event<DocBlock>>, kind: Option<ListKind>,
        gathered: seq<seq<Inline>>, own: ListKind)
    requires i < |items| && RoleAt(items, i) == ListItem(own) && ImagesAt(items, i) == []
    requires UpTo(items, i, start, events, kind, gathered) && (kind == None || kind == Some(own))
    ensures UpTo(items, i + 1, if kind.Some? then start else i, events, Some(own), gathered + [InlineAt(items, i)])
  {
    hide RoleAt, InlineAt, ImagesAt, Reading;
    var from := if kind.Some? then start else i;
    assert ItemTexts(items, from, i + 1) == gathered + [InlineAt(items, i)];
  }

  /** A list item with images closes the list after itself, and its images follow. */
  lemma ItemClosesTheRun(items: seq<Item>, i: nat, start: nat, events: seq<Event<DocBlock>>, kind: Option<ListKind>,
        gathered: seq<seq<Inline>>, own: ListKind)
    requires i < |items| && RoleAt(items, i) == ListItem(own) && ImagesAt(items, i) != []
    requires UpTo(items, i, start, events, kind, gathered) && (kind == None || kind == Some(own))
    ensures UpTo(items, i + 1, 0, Flushed(events, Some(own), gathered + [InlineAt(items, i)]) + ImageEvents(ImagesAt(items, i)), None, [])
  {
    hide RoleAt, InlineAt, ImagesAt, ImageEvents, Reading;
    var from := if kind.Some? then start else i;
    assert ItemTexts(items, from, i + 1) == gathered + [InlineAt(items, i)];
    RunEndsHere(items, from, i + 1, own);
    assert RoleAt(items, from) == ListItem(own);
    var list, images := [Block(List(own, gathered + [InlineAt(items, i)]))], ImageEvents(ImagesAt(items, i));
    assert Reading(items, from) == list + images + Reading(items, i + 1) by { ReadingOfARun(items, from, own); }
    assert events + (list + images + Reading(items, i + 1)) == events + list + images + Reading(items, i + 1);
  }

  lemma ReadingOfARun(items: seq<Item>, i: nat, kind: ListKind)
    requires i < |items| && RoleAt(items, i) == ListItem(kind)
    ensures var n := RunEnd(items, i, kind);
            Reading(items, i) == [Block(List(kind, ItemTexts(items, i, n)))] + ImageEvents(ImagesAt(items, n - 1)) + Reading(items, n)
  {
    hide RoleAt, InlineAt, ImagesAt, ImageEvents, ItemTexts, RunEnd, OwnEvents;
  }

  lemma OneMoreReport(items: seq<Item>, i: nat)
    requires i < |items|
    ensures Reports(items, i + 1) == ItemReports(Reports(items, i), items, i)
  {
  }

  lemma NothingReadYet(items: seq<Item>)
    ensures UpTo(items, 0, 0, [], None, []) && Reports(items, 0) == []
  {
  }

  lemma {:induction false} ImagesReportNoTable(issues: seq<Issue>, found: seq<Extracted>)
    ensures TableDropped in ImageReports(issues, found) <==> TableDropped in issues
    decreases found
  {
    if found != [] {
      match found[0]
      case Taken(_) => ImagesReportNoTable(issues, found[1..]);
      case Refused(name) => ImagesReportNoTable(issues + [ImageDropped(name)], found[1..]);
      case Unreadable => ImagesReportNoTable(NoteOnce(issues, ImageUnavailable), found[1..]);
    }
  }

  lemma {:induction false} PiecesReportNoTable(issues: seq<Issue>, pieces: seq<Piece>)
    ensures TableDropped in PieceReports(issues, pieces) <==> TableDropped in issues
  {
    hide AllowedHref, ImageReports;
    if pieces != [] {
      PiecesReportNoTable(issues, pieces[..|pieces| - 1]);
      ImagesReportNoTable(PieceReports(issues, pieces[..|pieces| - 1]), Found(pieces[|pieces| - 1]));
    }
  }

  /** Only tables report tables. */
  lemma ParagraphsReportNoTable(issues: seq<Issue>, items: seq<Item>, i: nat)
    requires i < |items|
    ensures TableDropped in ItemReports(issues, items, i) <==> TableDropped in issues || items[i].Table?
  {
    hide PieceReports;
    var pieces := PiecesAt(items, i);
    PiecesReportNoTable(issues, pieces);
    PiecesReportNoTable(NoteOnce(issues, ListStyleAssumedBullet), pieces);
  }

  /** `_docx_list_kind` */
  method ListKindOf(numbering: Numbering, issues: seq<Issue>) returns (kind: Option<ListKind>, reported: seq<Issue>)
    ensures kind == match numbering case NotListed => None case Listed(k) => Some(k) case Unclassified => Some(Bullet)
    ensures reported == if numbering.Unclassified? then NoteOnce(issues, ListStyleAssumedBullet) else issues
  {
    match numbering
    case NotListed => return None, issues;
    case Listed(k) => return Some(k), issues;
    case Unclassified => return Some(Bullet), NoteOnce(issues, ListStyleAssumedBullet);
  }

  /**
   * `_docx_events`. The events are the reading by maximal runs, the title is a level-1 heading that comes first, and the
   * report is what the items add to it in their order.
   */
  method DocxEvents(items: seq<Item>) returns (title: Option<string>, events: seq<Event<DocBlock>>, issues: seq<Issue>)
    ensures events == Reading(items, 0)
    ensures title == TitleOf(items)
    ensures issues == Reports(items, |items|)
  {
    hide Reading, Inlines, Images, PieceReports, PlainText, Strip, ImageEvents, Flushed, UpTo, Reports;
    title, events, issues := None, [], [];
    var first, tableReported := true, false;
    var kind: Option<ListKind>, gathered: seq<seq<Inline>> := None, [];
    ghost var start := 0;
    NothingReadYet(items);
    for i := 0 to |items|
      invariant first == (i == 0) && (i == 0 ==> title == None) && (i > 0 ==> title == TitleOf(items))
      invariant UpTo(items, i, start, events, kind, gathered)
      invariant issues == Reports(items, i) && (tableReported <==> TableDropped in issues)
    {
      ParagraphsReportNoTable(issues, items, i);
      OneMoreReport(items, i);
      var item := items[i];
      if kind.None? || RoleAt(items, i) != ListItem(kind.value) {
        FlushingClosesTheRun(items, i, start, events, kind, gathered);
      }
      if item.Table? {
        events, kind, gathered, start := Flushed(events, kind, gathered), None, [], 0;
        first := false;
        OthersPass(items, i, events);
        assert events + [] == events;
        if !tableReported {
          issues := issues + [TableDropped];
          tableReported := true;
        }
        continue;
      }
      if item.level == Some(1) && first {
        events, kind, gathered, start := Flushed(events, kind, gathered), None, [], 0;
        OthersPass(items, i, events);
        var inline, images;
        inline, images, issues := RunsToPm(item.pieces, issues);
        var text := Strip(PlainText(inline));
        title := if text == "" then None else Some(text);
        events := events + ImageEvents(images);
        first := false;
        continue;
      }
      first := false;
      if item.level == Some(2) {
        events, kind, gathered, start := Flushed(events, kind, gathered), None, [], 0;
        OthersPass(items, i, events);
        var inline, images;
        inline, images, issues := RunsToPm(item.pieces, issues);
        events := events + ([PageBreak(Strip(PlainText(inline)))] + ImageEvents(images));
        continue;
      }
      var own;
      own, issues := ListKindOf(item.numbering, issues);
      if own.Some? {
        if kind.Some? && kind != own {
          events, kind, gathered, start := Flushed(events, kind, gathered), None, [], 0;
        }
        var inline, images;
        inline, images, issues := RunsToPm(item.pieces, issues);
        if images == [] {
          ItemJoins(items, i, start, events, kind, gathered, own.value);
        } else {
          ItemClosesTheRun(items, i, start, events, kind, gathered, own.value);
        }
        start := if images != [] then 0 else if kind.Some? then start else i;
        kind, gathered := own, gathered + [inline];
        if images != [] {
          events, kind, gathered := Flushed(events, kind, gathered) + ImageEvents(images), None, [];
        }
        continue;
      }
      events, kind, gathered, start := Flushed(events, kind, gathered), None, [], 0;
      OthersPass(items, i, events);
      var inline, images;
      inline, images, issues := RunsToPm(item.pieces, issues);
      if item.level.Some? {
        var clamped;
        clamped, issues := ClampHeadingLevel(item.level.value, issues);
        events := events + ((if inline == [] then [] else [Block(Heading(clamped, inline))]) + ImageEvents(images));
      } else {
        events := events + ([Block(Para(inline))] + ImageEvents(images));
      }
    }
    FlushingClosesTheRun(items, |items|, start, events, kind, gathered);
    events := Flushed(events, kind, gathered);
    NothingLeftToRead(items, events);
  }

  lemma NothingLeftToRead(items: seq<Item>, events: seq<Event<DocBlock>>)
    requires UpTo(items, |items|, 0, events, None, [])
    ensures events == Reading(items, 0)
    ensures items == [] ==> TitleOf(items) == None
  {
    assert events + [] == events;
  }
}
