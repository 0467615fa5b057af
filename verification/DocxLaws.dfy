/** What reading a Word document keeps, and that whatever it alters is in the report. */
module DocxLaws {
  import opened Common
  import opened Conversion
  import opened DocxReading

  // --- Conservation ---------------------------------------------------------------------------------

  /** The smallest things a document is made of, once lists are opened up. */
  datatype Atom =
    | Breaking(heading: string)
    | Point(kind: ListKind, inline: seq<Inline>)
    | Title(level: nat, inline: seq<Inline>)
    | Prose(inline: seq<Inline>)
    | Picture(placeholder: string)

  function Pictures(placeholders: seq<string>): seq<Atom> {
    seq(|placeholders|, k requires 0 <= k < |placeholders| => Picture(placeholders[k]))
  }

  function Points(kind: ListKind, texts: seq<seq<Inline>>): seq<Atom> {
    seq(|texts|, k requires 0 <= k < |texts| => Point(kind, texts[k]))
  }

  /** What an item of the document holds: its text, in the form its style asks for, and then its images. */
  function AtomsAt(items: seq<Item>, i: nat): seq<Atom>
    requires i < |items|
  {
    var inline, pictures := InlineAt(items, i), Pictures(ImagesAt(items, i));
    match RoleAt(items, i)
    case DroppedTable => []
    case ModuleTitle => pictures
    case SectionBreak => [Breaking(Strip(PlainText(inline)))] + pictures
    case ListItem(kind) => [Point(kind, inline)] + pictures
    case PageHeading(level) => (if inline == [] then [] else [Title(NearestLevel(level), inline)]) + pictures
    case PlainParagraph => [Prose(inline)] + pictures
  }

  function AtomsFrom(items: seq<Item>, i: nat): seq<Atom>
    requires i <= |items|
    decreases |items| - i
  {
    if i == |items| then [] else AtomsAt(items, i) + AtomsFrom(items, i + 1)
  }

  function EventAtoms(e: Event<DocBlock>): seq<Atom> {
    match e
    case PageBreak(h) => [Breaking(h)]
    case Block(Para(inline)) => [Prose(inline)]
    case Block(Heading(level, inline)) => [Title(level, inline)]
    case Block(List(kind, texts)) => Points(kind, texts)
    case Block(Image(placeholder)) => [Picture(placeholder)]
  }

  function Atoms(events: seq<Event<DocBlock>>): seq<Atom> {
    if events == [] then [] else EventAtoms(events[0]) + Atoms(events[1..])
  }

  lemma {:induction false} AtomsConcat(a: seq<Event<DocBlock>>, b: seq<Event<DocBlock>>)
    ensures Atoms(a + b) == Atoms(a) + Atoms(b)
  {
    hide EventAtoms, Atoms;
    NoAtoms();
    if a == [] {
      assert a + b == b;
    } else {
      AtomsConcat(a[1..], b);
      AtomsOfFirst(a);
      AtomsOfFirst(a + b);
      assert (a + b)[1..] == a[1..] + b;
      Reassociate(EventAtoms(a[0]), Atoms(a[1..]), Atoms(b));
    }
  }

  lemma AtomsOfFirst(events: seq<Event<DocBlock>>)
    requires events != []
    ensures Atoms(events) == EventAtoms(events[0]) + Atoms(events[1..])
  {
  }

  lemma AtomsOfOne(e: Event<DocBlock>)
    ensures Atoms([e]) == EventAtoms(e)
  {
  }

  lemma {:induction false} AtomsOfImages(placeholders: seq<string>)
    ensures Atoms(ImageEvents(placeholders)) == Pictures(placeholders)
  {
    if placeholders != [] {
      AtomsOfImages(placeholders[1..]);
      assert ImageEvents(placeholders)[1..] == ImageEvents(placeholders[1..]);
      assert Pictures(placeholders) == [Picture(placeholders[0])] + Pictures(placeholders[1..]);
    }
  }

  lemma AtomsOfThree(e: Event<DocBlock>, placeholders: seq<string>, rest: seq<Event<DocBlock>>)
    ensures Atoms([e] + ImageEvents(placeholders) + rest) == EventAtoms(e) + Pictures(placeholders) + Atoms(rest)
  {
    hide Atoms, EventAtoms, ImageEvents, Pictures;
    AtomsConcat([e] + ImageEvents(placeholders), rest);
    AtomsConcat([e], ImageEvents(placeholders));
    AtomsOfOne(e);
    AtomsOfImages(placeholders);
  }

  lemma OwnAtoms(items: seq<Item>, i: nat)
    requires i < |items| && !RoleAt(items, i).ListItem?
    ensures Atoms(OwnEvents(items, i)) == AtomsAt(items, i)
  {
    hide PlainText, Strip, Inlines, Images, ImageEvents, Pictures, Atoms;
    var inline, images := InlineAt(items, i), ImagesAt(items, i);
    AtomsOfImages(images);
    var own := OwnEvents(items, i);
    assert Atoms([]) == [] by { NoAtoms(); }
    if own != [] && own != ImageEvents(images) {
      var e := own[0];
      assert own == [e] + ImageEvents(images);
      AtomsConcat([e], ImageEvents(images));
      AtomsOfOne(e);
    }
  }

  lemma NoAtoms()
    ensures Atoms([]) == []
  {
  }

  /** Opened up, a run is its items one by one; only the last of them can have images. */
  lemma {:induction false} RunAtoms(items: seq<Item>, i: nat, kind: ListKind)
    requires i < |items| && RoleAt(items, i) == ListItem(kind)
    ensures var n := RunEnd(items, i, kind);
            AtomsFrom(items, i) == Points(kind, ItemTexts(items, i, n)) + Pictures(ImagesAt(items, n - 1)) + AtomsFrom(items, n)
    decreases |items| - i
  {
    hide RoleAt, InlineAt, ImagesAt, AtomsFrom;
    var n := RunEnd(items, i, kind);
    assert AtomsFrom(items, i) == AtomsAt(items, i) + AtomsFrom(items, i + 1) by { AtomsUnfold(items, i); }
    if n == i + 1 {
      assert Points(kind, ItemTexts(items, i, n)) == [Point(kind, InlineAt(items, i))];
    } else {
      RunAtoms(items, i + 1, kind);
      assert Pictures(ImagesAt(items, i)) == [];
      assert Points(kind, ItemTexts(items, i, n)) == [Point(kind, InlineAt(items, i))] + Points(kind, ItemTexts(items, i + 1, n));
    }
  }

  lemma AtomsUnfold(items: seq<Item>, i: nat)
    requires i < |items|
    ensures AtomsFrom(items, i) == AtomsAt(items, i) + AtomsFrom(items, i + 1)
  {
  }

  /**
   * Gathering lists and lifting images out loses, repeats and reorders nothing: what each item is read as arrives once, in
   * document order. What is not read at all (tables, the title's text, text beside a drawing) is outside `AtomsAt` already.
   */
  lemma {:induction false} NothingIsLostOrReordered(items: seq<Item>, i: nat)
    requires i <= |items|
    ensures Atoms(Reading(items, i)) == AtomsFrom(items, i)
    decreases |items| - i
  {
    hide RoleAt, AtomsAt, OwnEvents, InlineAt, ImagesAt, ItemTexts, RunEnd, Atoms, ImageEvents, Pictures, Points;
    if i == |items| {
      NoAtoms();
    } else if RoleAt(items, i).ListItem? {
      var kind := RoleAt(items, i).kind;
      var n := RunEnd(items, i, kind);
      ReadingOfARun(items, i, kind);
      RunAtoms(items, i, kind);
      NothingIsLostOrReordered(items, n);
      AtomsOfThree(Block(List(kind, ItemTexts(items, i, n))), ImagesAt(items, n - 1), Reading(items, n));
    } else {
      OwnAtoms(items, i);
      NothingIsLostOrReordered(items, i + 1);
      AtomsConcat(OwnEvents(items, i), Reading(items, i + 1));
    }
  }

  predicate NoEmptyLists(events: seq<Event<DocBlock>>) {
    forall e :: e in events && e.Block? && e.block.List? ==> e.block.items != []
  }

  lemma NoneEmptyConcat(a: seq<Event<DocBlock>>, b: seq<Event<DocBlock>>)
    ensures NoEmptyLists(a + b) <==> NoEmptyLists(a) && NoEmptyLists(b)
  {
    assert forall e :: e in a + b <==> e in a || e in b;
  }

  lemma OwnHaveNoList(items: seq<Item>, i: nat)
    requires i < |items| && !RoleAt(items, i).ListItem?
    ensures NoEmptyLists(OwnEvents(items, i))
  {
    hide RoleAt, InlineAt, ImagesAt, PlainText, Strip;
  }

  lemma {:induction false} ListsAreNeverEmpty(items: seq<Item>, i: nat)
    requires i <= |items|
    ensures NoEmptyLists(Reading(items, i))
    decreases |items| - i
  {
    hide RoleAt, NoEmptyLists, RunEnd, ImagesAt, OwnEvents;
    if i == |items| {
      assert NoEmptyLists([]) by { NothingEmpty(); }
    } else if RoleAt(items, i).ListItem? {
      var kind := RoleAt(items, i).kind;
      var n := RunEnd(items, i, kind);
      var list: seq<Event<DocBlock>> := [Block(List(kind, ItemTexts(items, i, n)))];
      ReadingOfARun(items, i, kind);
      ListsAreNeverEmpty(items, n);
      OneFullList(kind, ItemTexts(items, i, n), ImagesAt(items, n - 1));
      NoneEmptyConcat(list + ImageEvents(ImagesAt(items, n - 1)), Reading(items, n));
    } else {
      OwnHaveNoList(items, i);
      ListsAreNeverEmpty(items, i + 1);
      NoneEmptyConcat(OwnEvents(items, i), Reading(items, i + 1));
    }
  }

  lemma NothingEmpty()
    ensures NoEmptyLists([])
  {
  }

  lemma OneFullList(kind: ListKind, texts: seq<seq<Inline>>, placeholders: seq<string>)
    requires texts != []
    ensures NoEmptyLists([Block(List(kind, texts))] + ImageEvents(placeholders))
  {
  }

  // --- The report -------------------------------------------------------------------------------------

  predicate ImageCauses(found: seq<Extracted>, issue: Issue) {
    match issue
    case ImageDropped(name) => Refused(name) in found
    case ImageUnavailable => Unreadable in found
    case _ => false
  }

  predicate PieceCauses(p: Piece, issue: Issue) {
    if issue.LinkDropped? then LosesItsLink(p) else ImageCauses(Found(p), issue)
  }

  /** Does reading item `i` give occasion to this issue? */
  predicate Causes(items: seq<Item>, i: nat, issue: Issue)
    requires i < |items|
  {
    match issue
    case TableDropped => items[i].Table?
    case ListStyleAssumedBullet => RoleAt(items, i).ListItem? && items[i].numbering.Unclassified?
    case HeadingLevelAdjusted(level, clamped) => RoleAt(items, i) == PageHeading(level) && clamped == NearestLevel(level) != level
    case _ => exists k :: 0 <= k < |PiecesAt(items, i)| && PieceCauses(PiecesAt(items, i)[k], issue)
  }

  lemma {:induction false} ImageReportsIff(issues: seq<Issue>, found: seq<Extracted>, issue: Issue)
    ensures issue in ImageReports(issues, found) <==> issue in issues || ImageCauses(found, issue)
    decreases found
  {
    if found != [] {
      assert found == [found[0]] + found[1..];
      match found[0]
      case Taken(_) => ImageReportsIff(issues, found[1..], issue);
      case Refused(name) => ImageReportsIff(issues + [ImageDropped(name)], found[1..], issue);
      case Unreadable => ImageReportsIff(NoteOnce(issues, ImageUnavailable), found[1..], issue);
    }
  }

  lemma {:induction false} PieceReportsIff(issues: seq<Issue>, pieces: seq<Piece>, issue: Issue)
    ensures issue in PieceReports(issues, pieces) <==> issue in issues || exists k :: 0 <= k < |pieces| && PieceCauses(pieces[k], issue)
  {
    if pieces != [] {
      hide AllowedHref, ImageReports, ImageCauses, Found;
      var front, p := pieces[..|pieces| - 1], pieces[|pieces| - 1];
      PieceReportsIff(issues, front, issue);
      ImageReportsIff(PieceReports(issues, front), Found(p), issue);
      LinksHoldNoImages(p, issue);
      if k :| 0 <= k < |front| && PieceCauses(front[k], issue) {
        assert PieceCauses(pieces[k], issue);
      }
      if k :| 0 <= k < |pieces| && PieceCauses(pieces[k], issue) {
        assert k < |front| ==> PieceCauses(front[k], issue);
      }
    }
  }

  lemma LinksHoldNoImages(p: Piece, issue: Issue)
    ensures p.Hyperlink? ==> !ImageCauses(Found(p), issue)
    ensures issue.LinkDropped? ==> !ImageCauses(Found(p), issue)
  {
  }

  lemma ItemReportsIff(issues: seq<Issue>, items: seq<Item>, i: nat, issue: Issue)
    requires i < |items|
    ensures issue in ItemReports(issues, items, i) <==> issue in issues || Causes(items, i, issue)
  {
    hide PieceReports;
    var pieces := PiecesAt(items, i);
    PieceReportsIff(issues, pieces, issue);
    PieceReportsIff(NoteOnce(issues, ListStyleAssumedBullet), pieces, issue);
  }

  /** The report names an issue exactly when some item of the document is a reason for it. */
  lemma {:induction false} ReportIsExact(items: seq<Item>, n: nat, issue: Issue)
    requires n <= |items|
    ensures issue in Reports(items, n) <==> exists i: nat :: i < n && Causes(items, i, issue)
  {
    hide ItemReports, Causes;
    if n > 0 {
      ReportIsExact(items, n - 1, issue);
      ItemReportsIff(Reports(items, n - 1), items, n - 1, issue);
    }
  }

  /** What the document says once however often it happens. */
  predicate SaidOnce(issue: Issue) {
    issue.TableDropped? || issue.LinkDropped? || issue.ListStyleAssumedBullet? || issue.ImageUnavailable?
  }

  predicate AtMostOnce(issues: seq<Issue>, issue: Issue) {
    multiset(issues)[issue] <= 1
  }

  lemma NotingKeepsOnce(issues: seq<Issue>, noted: Issue, issue: Issue)
    requires AtMostOnce(issues, issue)
    ensures AtMostOnce(NoteOnce(issues, noted), issue)
  {
  }

  lemma {:induction false} ImagesKeepOnce(issues: seq<Issue>, found: seq<Extracted>, issue: Issue)
    requires SaidOnce(issue) && AtMostOnce(issues, issue)
    ensures AtMostOnce(ImageReports(issues, found), issue)
    decreases found
  {
    if found != [] {
      match found[0]
      case Taken(_) => ImagesKeepOnce(issues, found[1..], issue);
      case Refused(name) => ImagesKeepOnce(issues + [ImageDropped(name)], found[1..], issue);
      case Unreadable => ImagesKeepOnce(NoteOnce(issues, ImageUnavailable), found[1..], issue);
    }
  }

  lemma {:induction false} PiecesKeepOnce(issues: seq<Issue>, pieces: seq<Piece>, issue: Issue)
    requires SaidOnce(issue) && AtMostOnce(issues, issue)
    ensures AtMostOnce(PieceReports(issues, pieces), issue)
  {
    hide AtMostOnce, ImageReports, NoteOnce, SaidOnce, LosesItsLink;
    if pieces != [] {
      var before, p := PieceReports(issues, pieces[..|pieces| - 1]), pieces[|pieces| - 1];
      PiecesKeepOnce(issues, pieces[..|pieces| - 1], issue);
      NotingKeepsOnce(before, LinkDropped, issue);
      ImagesKeepOnce(before, Found(p), issue);
    }
  }

  /** And it is said once: tables, refused links, assumed list styles and unreadable images get one entry each. */
  lemma {:induction false} ReportedOnce(items: seq<Item>, n: nat, issue: Issue)
    requires n <= |items| && SaidOnce(issue)
    ensures AtMostOnce(Reports(items, n), issue)
  {
    hide PieceReports, NoteOnce;
    if n > 0 {
      var issues, pieces := Reports(items, n - 1), PiecesAt(items, n - 1);
      ReportedOnce(items, n - 1, issue);
      NotingKeepsOnce(issues, TableDropped, issue);
      NotingKeepsOnce(issues, ListStyleAssumedBullet, issue);
      PiecesKeepOnce(issues, pieces, issue);
      PiecesKeepOnce(NoteOnce(issues, ListStyleAssumedBullet), pieces, issue);
    }
  }

  /** A document of one paragraph, whose one run holds a drawing and a sentence: the sentence is gone, and the report is empty. */
  lemma SentenceLostUnreported() returns (items: seq<Item>, sentence: string)
    ensures |items| == 1 && sentence != "" && SourceText(PiecesAt(items, 0)) == sentence
    ensures Reading(items, 0) == [Block(Para([])), Block(Image("picture"))]
    ensures Reports(items, |items|) == []
  {
    sentence := "Wear gloves.";
    var run := Run(sentence, false, false, [[Taken("picture")]]);
    items := [Paragraph(None, NotListed, [run])];
    OnePiece(run);
    assert Found(run) == [Taken("picture")] by { OneDrawing(Taken("picture")); }
    assert Reading(items, 1) == [];
    assert ImageEvents(["picture"]) == [Block(Image("picture"))];
    assert Reports(items, 0) == [];
  }

  lemma OneDrawing(found: Extracted)
    ensures Flat([[found]]) == [found]
  {
    assert [[found]][1..] == [];
    assert [found] + [] == [found];
  }

  lemma OnePiece(p: Piece)
    ensures Inlines([p]) == PieceText(p) && Images([p]) == TakenImages(Found(p)) && SourceText([p]) == p.text
    ensures PieceReports([], [p]) == if LosesItsLink(p) then [LinkDropped] else ImageReports([], Found(p))
  {
    assert [p][..0] == [];
  }
}
