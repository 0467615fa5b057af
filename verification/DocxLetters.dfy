/** Every letter of a Word document's body, with how it is set and in what kind of block, from the document to the pages. */
module DocxLetters {
  import opened Common
  import opened Conversion
  import opened DocxReading
  import opened DocxLaws

  /** How a letter is set. */
  datatype Face = Face(bold: bool, italic: bool, link: Option<string>)

  /** The kind of block a letter stands in. */
  datatype Style = Plain | InHeading(level: nat) | InList(kind: ListKind)

  // --- In the document -----------------------------------------------------------------------------------

  /** The letters of one piece: of a link, set plainly and leading to its address; of a run without drawings, as the run is set. */
  function Written(p: Piece): seq<(char, Face)> {
    match p
    case Hyperlink(text, address) => Wrapped(text, Face(false, false, Some(address)))
    case Run(text, bold, italic, drawings) => if drawings == [] then Wrapped(text, Face(bold, italic, None)) else []
  }

  function WrittenIn(pieces: seq<Piece>): seq<(char, Face)> {
    if pieces == [] then [] else WrittenIn(pieces[..|pieces| - 1]) + Written(pieces[|pieces| - 1])
  }

  // --- After the conversion --------------------------------------------------------------------------------

  /** The marks say how the letter is set; a refused address leaves no mark. */
  ghost predicate Bears(marks: seq<Mark>, face: Face) {
    && (Bold in marks <==> face.bold)
    && (Italic in marks <==> face.italic)
    && Code !in marks
    && (forall address :: Link(address) in marks <==> face.link == Some(address) && AllowedHref(address))
  }

  /** The same letters in the same order, each set as it was. */
  ghost predicate AreSetAs(out: seq<(char, seq<Mark>)>, written: seq<(char, Face)>) {
    |out| == |written| && forall i :: 0 <= i < |out| ==> out[i].0 == written[i].0 && Bears(out[i].1, written[i].1)
  }

  lemma SetAsConcat(a: seq<(char, seq<Mark>)>, b: seq<(char, seq<Mark>)>, x: seq<(char, Face)>, y: seq<(char, Face)>)
    requires AreSetAs(a, x) && AreSetAs(b, y)
    ensures AreSetAs(a + b, x + y)
  {
    hide Bears;
  }

  lemma OneText(text: string, marks: seq<Mark>)
    ensures Letters([Text(text, marks)]) == Wrapped(text, marks)
  {
    assert [Text(text, marks)][1..] == [];
  }

  lemma WrappedAreSet(text: string, marks: seq<Mark>, face: Face)
    requires Bears(marks, face)
    ensures AreSetAs(Wrapped(text, marks), Wrapped(text, face))
  {
    hide Bears;
  }

  lemma LinkBears(address: string)
    ensures Bears(if AllowedHref(address) then [Link(address)] else [], Face(false, false, Some(address)))
  {
    hide AllowedHref;
  }

  lemma RunBears(bold: bool, italic: bool)
    ensures Bears((if bold then [Bold] else []) + if italic then [Italic] else [], Face(bold, italic, None))
  {
  }

  lemma PieceIsSet(p: Piece)
    ensures AreSetAs(Letters(PieceText(p)), Written(p))
  {
    hide Bears, AllowedHref, Wrapped;
    assert Letters([]) == [];
    match p
    case Hyperlink(text, address) =>
      var marks: seq<Mark> := if AllowedHref(address) then [Link(address)] else [];
      LinkBears(address);
      OneText(text, marks);
      WrappedNothing(Face(false, false, Some(address)));
      WrappedAreSet(text, marks, Face(false, false, Some(address)));
    case Run(text, bold, italic, drawings) =>
      var marks: seq<Mark> := (if bold then [Bold] else []) + if italic then [Italic] else [];
      RunBears(bold, italic);
      OneText(text, marks);
      WrappedNothing(Face(bold, italic, None));
      WrappedAreSet(text, marks, Face(bold, italic, None));
  }

  /**
   * A paragraph keeps its letters, in order: bold exactly where the run is bold, italic where it is italic, linked exactly
   * where there was a link to that address and the address is allowed.
   */
  lemma {:induction false} LettersKeepTheirFaces(pieces: seq<Piece>)
    ensures AreSetAs(Letters(Inlines(pieces)), WrittenIn(pieces))
  {
    hide AreSetAs, Letters, PieceText, Written;
    if pieces == [] {
      assert AreSetAs(Letters(Inlines(pieces)), WrittenIn(pieces)) by { NothingSet(); }
    } else {
      var front, last := pieces[..|pieces| - 1], pieces[|pieces| - 1];
      LettersKeepTheirFaces(front);
      PieceIsSet(last);
      LettersConcat(Inlines(front), PieceText(last));
      SetAsConcat(Letters(Inlines(front)), Letters(PieceText(last)), WrittenIn(front), Written(last));
    }
  }

  lemma NothingSet()
    ensures AreSetAs(Letters(Inlines([])), WrittenIn([]))
  {
  }

  // --- The body of the document, and the blocks of the pages ----------------------------------------------------

  function Placed<L>(style: Style, letters: seq<L>): (r: seq<(Style, L)>)
    ensures |r| == |letters|
  {
    seq(|letters|, i requires 0 <= i < |letters| => (style, letters[i]))
  }

  /** Is this item neither a table, nor the title at the very start, nor the heading of a section? */
  predicate IsBody(items: seq<Item>, i: nat)
    requires i < |items|
  {
    items[i].Paragraph? && items[i].level != Some(2) && !(i == 0 && items[i].level == Some(1))
  }

  /** Where the text of such an item belongs: in a list if it is numbered, else in a heading of the nearest level if it has one. */
  function StyleOf(item: Item): Style
    requires item.Paragraph?
  {
    match item.numbering
    case Listed(kind) => InList(kind)
    case Unclassified => InList(Bullet)
    case NotListed => if item.level.Some? then InHeading(NearestLevel(item.level.value)) else Plain
  }

  /** The letters of an item of the body. */
  function OwnBody(items: seq<Item>, i: nat): seq<(Style, (char, Face))>
    requires i < |items|
  {
    if IsBody(items, i) then Placed(StyleOf(items[i]), WrittenIn(items[i].pieces)) else []
  }

  /** The letters of the body from item `i` on. */
  function BodyFrom(items: seq<Item>, i: nat): seq<(Style, (char, Face))>
    requires i <= |items|
    decreases |items| - i
  {
    if i == |items| then [] else OwnBody(items, i) + BodyFrom(items, i + 1)
  }

  function BlockLetters(b: DocBlock): seq<(Style, (char, seq<Mark>))> {
    match b
    case Para(inline) => Placed(Plain, Letters(inline))
    case Heading(level, inline) => Placed(InHeading(level), Letters(inline))
    case List(kind, texts) => ListLetters(kind, texts)
    case Image(_) => []
  }

  function ListLetters(kind: ListKind, texts: seq<seq<Inline>>): seq<(Style, (char, seq<Mark>))> {
    if texts == [] then [] else Placed(InList(kind), Letters(texts[0])) + ListLetters(kind, texts[1..])
  }

  function LettersOf(blocks: seq<DocBlock>): seq<(Style, (char, seq<Mark>))> {
    if blocks == [] then [] else BlockLetters(blocks[0]) + LettersOf(blocks[1..])
  }

  /** The same letters in the same order, each in its kind of block and set as it was. */
  ghost predicate StandAs(out: seq<(Style, (char, seq<Mark>))>, written: seq<(Style, (char, Face))>) {
    |out| == |written| && forall i :: 0 <= i < |out| ==> StandsAs(out[i], written[i])
  }

  ghost predicate StandsAs(out: (Style, (char, seq<Mark>)), written: (Style, (char, Face))) {
    out.0 == written.0 && out.1.0 == written.1.0 && Bears(out.1.1, written.1.1)
  }

  // --- By way of the atoms ---------------------------------------------------------------------------------------

  function AtomLetters(a: Atom): seq<(Style, (char, seq<Mark>))> {
    match a
    case Breaking(_) => []
    case Point(kind, inline) => Placed(InList(kind), Letters(inline))
    case Title(level, inline) => Placed(InHeading(level), Letters(inline))
    case Prose(inline) => Placed(Plain, Letters(inline))
    case Picture(_) => []
  }

  function LettersIn(atoms: seq<Atom>): seq<(Style, (char, seq<Mark>))> {
    if atoms == [] then [] else AtomLetters(atoms[0]) + LettersIn(atoms[1..])
  }

  lemma NoLettersIn()
    ensures LettersIn([]) == []
  {
  }

  lemma LettersInFirst(atoms: seq<Atom>)
    requires atoms != []
    ensures LettersIn(atoms) == AtomLetters(atoms[0]) + LettersIn(atoms[1..])
  {
  }

  lemma {:induction false} LettersInConcat(a: seq<Atom>, b: seq<Atom>)
    ensures LettersIn(a + b) == LettersIn(a) + LettersIn(b)
  {
    hide LettersIn, AtomLetters;
    NoLettersIn();
    if a == [] {
      assert a + b == b;
    } else {
      LettersInConcat(a[1..], b);
      LettersInFirst(a);
      LettersInFirst(a + b);
      assert (a + b)[1..] == a[1..] + b;
      Reassociate(AtomLetters(a[0]), LettersIn(a[1..]), LettersIn(b));
    }
  }

  lemma LettersInOne(a: Atom)
    ensures LettersIn([a]) == AtomLetters(a)
  {
    hide AtomLetters;
    assert [a][1..] == [];
    assert AtomLetters(a) + [] == AtomLetters(a);
  }

  lemma {:induction false} PicturesHaveNoLetters(placeholders: seq<string>)
    ensures LettersIn(Pictures(placeholders)) == []
  {
    if placeholders != [] {
      PicturesHaveNoLetters(placeholders[1..]);
      assert Pictures(placeholders)[1..] == Pictures(placeholders[1..]);
    }
  }

  lemma {:induction false} PointsAreLists(kind: ListKind, texts: seq<seq<Inline>>)
    ensures LettersIn(Points(kind, texts)) == ListLetters(kind, texts)
  {
    hide Letters, Placed;
    if texts != [] {
      PointsAreLists(kind, texts[1..]);
      assert Points(kind, texts)[1..] == Points(kind, texts[1..]);
      assert Points(kind, texts)[0] == Point(kind, texts[0]);
    }
  }

  lemma BlockHasItsLetters(b: DocBlock)
    ensures LettersIn(EventAtoms(Block(b))) == BlockLetters(b)
  {
    hide LettersIn, Letters, Placed;
    match b
    case Para(inline) => LettersInOne(Prose(inline));
    case Heading(level, inline) => LettersInOne(Title(level, inline));
    case List(kind, texts) => PointsAreLists(kind, texts);
    case Image(placeholder) => LettersInOne(Picture(placeholder));
  }

  lemma StandConcat(a: seq<(Style, (char, seq<Mark>))>, b: seq<(Style, (char, seq<Mark>))>,
        x: seq<(Style, (char, Face))>, y: seq<(Style, (char, Face))>)
    requires StandAs(a, x) && StandAs(b, y)
    ensures StandAs(a + b, x + y)
  {
    hide StandsAs;
  }

  lemma PlacedStand(style: Style, letters: seq<(char, seq<Mark>)>, written: seq<(char, Face)>)
    requires AreSetAs(letters, written)
    ensures StandAs(Placed(style, letters), Placed(style, written))
  {
    hide Bears;
  }

  lemma NothingStands()
    ensures StandAs([], [])
  {
  }

  lemma NothingPlaced(style: Style)
    ensures Placed(style, Letters([])) == []
  {
  }

  /** What an item gives besides its pictures. */
  function TextAtoms(items: seq<Item>, i: nat): seq<Atom>
    requires i < |items|
  {
    var inline := InlineAt(items, i);
    match RoleAt(items, i)
    case DroppedTable => []
    case ModuleTitle => []
    case SectionBreak => [Breaking(Strip(PlainText(inline)))]
    case ListItem(kind) => [Point(kind, inline)]
    case PageHeading(level) => if inline == [] then [] else [Title(NearestLevel(level), inline)]
    case PlainParagraph => [Prose(inline)]
  }

  lemma AtomsAreTextAndPictures(items: seq<Item>, i: nat)
    requires i < |items|
    ensures AtomsAt(items, i) == TextAtoms(items, i) + Pictures(if items[i].Table? then [] else ImagesAt(items, i))
  {
    hide InlineAt, ImagesAt, PlainText, Strip;
  }

  lemma TextAtomLetters(items: seq<Item>, i: nat)
    requires i < |items|
    ensures LettersIn(TextAtoms(items, i)) == if IsBody(items, i) then Placed(StyleOf(items[i]), Letters(Inlines(items[i].pieces))) else []
  {
    hide LettersIn, Letters, Placed, Inlines, PlainText, Strip;
    NoLettersIn();
    var atoms := TextAtoms(items, i);
    if atoms != [] {
      assert atoms == [atoms[0]];
      LettersInOne(atoms[0]);
    } else if IsBody(items, i) {
      NothingPlaced(StyleOf(items[i]));
    }
  }

  lemma ItemStands(items: seq<Item>, i: nat)
    requires i < |items|
    ensures StandAs(LettersIn(AtomsAt(items, i)), OwnBody(items, i))
  {
    hide StandAs, LettersIn, Letters, Placed, AtomsAt, TextAtoms, WrittenIn, Inlines, AreSetAs, Pictures;
    var placeholders := if items[i].Table? then [] else ImagesAt(items, i);
    AtomsAreTextAndPictures(items, i);
    LettersInConcat(TextAtoms(items, i), Pictures(placeholders));
    PicturesHaveNoLetters(placeholders);
    TextAtomLetters(items, i);
    assert LettersIn(TextAtoms(items, i)) + [] == LettersIn(TextAtoms(items, i));
    if IsBody(items, i) {
      LettersKeepTheirFaces(items[i].pieces);
      PlacedStand(StyleOf(items[i]), Letters(Inlines(items[i].pieces)), WrittenIn(items[i].pieces));
    } else {
      NothingStands();
    }
  }

  /** Read as atoms, the document has the letters of its body, in order, each in its kind of block and set as it was. */
  lemma {:induction false} BodyStands(items: seq<Item>, i: nat)
    requires i <= |items|
    ensures StandAs(LettersIn(AtomsFrom(items, i)), BodyFrom(items, i))
    decreases |items| - i
  {
    hide StandAs, LettersIn, AtomsAt, OwnBody;
    if i == |items| {
      NoLettersIn();
      NothingStands();
    } else {
      ItemStands(items, i);
      BodyStands(items, i + 1);
      LettersInConcat(AtomsAt(items, i), AtomsFrom(items, i + 1));
      StandConcat(LettersIn(AtomsAt(items, i)), LettersIn(AtomsFrom(items, i + 1)), OwnBody(items, i), BodyFrom(items, i + 1));
    }
  }

  // --- The titles: what does not stand in the body ----------------------------------------------------------------

  function Chars<W>(letters: seq<(char, W)>): (r: string)
    ensures |r| == |letters|
  {
    seq(|letters|, i requires 0 <= i < |letters| => letters[i].0)
  }

  lemma CharsConcat<W>(a: seq<(char, W)>, b: seq<(char, W)>)
    ensures Chars(a + b) == Chars(a) + Chars(b)
  {
  }

  lemma {:induction false} PlainTextIsTheLetters(inline: seq<Inline>)
    ensures PlainText(inline) == Chars(Letters(inline))
  {
    hide Letters;
    if inline == [] {
      assert Letters(inline) == [] by { NoLettersAtAll(); }
    } else {
      PlainTextIsTheLetters(inline[1..]);
      OneInlineFirst(inline);
      var first := if inline[0].Text? then Wrapped(inline[0].text, inline[0].marks) else [];
      CharsConcat(first, Letters(inline[1..]));
      assert inline[0].Text? ==> Chars(first) == inline[0].text;
    }
  }

  lemma NoLettersAtAll()
    ensures Letters([]) == []
  {
  }

  lemma OneInlineFirst(inline: seq<Inline>)
    requires inline != []
    ensures Letters(inline) == (if inline[0].Text? then Wrapped(inline[0].text, inline[0].marks) else []) + Letters(inline[1..])
  {
  }

  /** What a heading says: the letters of its pieces, without the white space around them. */
  function Says(pieces: seq<Piece>): string {
    Strip(Chars(WrittenIn(pieces)))
  }

  lemma SaysIs(pieces: seq<Piece>)
    ensures Strip(PlainText(Inlines(pieces))) == Says(pieces)
  {
    hide PlainText, Letters, Inlines, WrittenIn, Bears, Strip;
    PlainTextIsTheLetters(Inlines(pieces));
    LettersKeepTheirFaces(pieces);
    assert Chars(Letters(Inlines(pieces))) == Chars(WrittenIn(pieces));
  }

  /** The document's title is what a first-level heading at its very start says, if that is anything. */
  lemma TitleIsTheFirstHeading(items: seq<Item>)
    ensures TitleOf(items) ==
            if items != [] && items[0].Paragraph? && items[0].level == Some(1) && Says(items[0].pieces) != "" then Some(Says(items[0].pieces))
            else None
  {
    hide PlainText, Inlines, Says, Strip;
    if items != [] && items[0].Paragraph? {
      SaysIs(items[0].pieces);
    }
  }

  /** What the second-level headings say, in order. */
  function HeadingsFrom(items: seq<Item>, i: nat): seq<string>
    requires i <= |items|
    decreases |items| - i
  {
    if i == |items| then []
    else (if IsSectionHeading(items, i) then [Says(items[i].pieces)] else []) + HeadingsFrom(items, i + 1)
  }

  predicate IsSectionHeading(items: seq<Item>, i: nat)
    requires i < |items|
  {
    items[i].Paragraph? && items[i].level == Some(2)
  }

  function Breaks(atoms: seq<Atom>): seq<string> {
    if atoms == [] then [] else (if atoms[0].Breaking? then [atoms[0].heading] else []) + Breaks(atoms[1..])
  }

  lemma {:induction false} BreaksConcat(a: seq<Atom>, b: seq<Atom>)
    ensures Breaks(a + b) == Breaks(a) + Breaks(b)
  {
    if a == [] {
      assert a + b == b;
    } else {
      hide Breaks;
      BreaksConcat(a[1..], b);
      BreaksFirst(a);
      BreaksFirst(a + b);
      assert (a + b)[1..] == a[1..] + b;
      Reassociate(Breaks([a[0]]), Breaks(a[1..]), Breaks(b));
    }
  }

  lemma BreaksFirst(atoms: seq<Atom>)
    requires atoms != []
    ensures Breaks(atoms) == Breaks([atoms[0]]) + Breaks(atoms[1..])
  {
    assert Breaks([atoms[0]][1..]) == [];
  }

  lemma {:induction false} NoBreaksAmong(atoms: seq<Atom>)
    requires forall k :: 0 <= k < |atoms| ==> !atoms[k].Breaking?
    ensures Breaks(atoms) == []
  {
    if atoms != [] {
      NoBreaksAmong(atoms[1..]);
    }
  }

  lemma ItemBreaks(items: seq<Item>, i: nat)
    requires i < |items|
    ensures Breaks(AtomsAt(items, i)) == if IsSectionHeading(items, i) then [Says(items[i].pieces)] else []
  {
    hide Breaks, PlainText, Inlines, Says, Strip;
    var placeholders := if items[i].Table? then [] else ImagesAt(items, i);
    AtomsAreTextAndPictures(items, i);
    BreaksConcat(TextAtoms(items, i), Pictures(placeholders));
    NoBreaksAmong(Pictures(placeholders));
    if IsSectionHeading(items, i) {
      SaysIs(items[i].pieces);
      OneBreak(Says(items[i].pieces));
    } else {
      NoBreaksAmong(TextAtoms(items, i));
    }
  }

  lemma OneBreak(heading: string)
    ensures Breaks([Breaking(heading)]) == [heading]
  {
    assert [Breaking(heading)][1..] == [];
  }

  lemma {:induction false} BreaksAreHeadings(items: seq<Item>, i: nat)
    requires i <= |items|
    ensures Breaks(AtomsFrom(items, i)) == HeadingsFrom(items, i)
    decreases |items| - i
  {
    hide Breaks, AtomsAt, Says, IsSectionHeading;
    if i == |items| {
      NoBreaksAmong([]);
    } else {
      ItemBreaks(items, i);
      BreaksAreHeadings(items, i + 1);
      BreaksConcat(AtomsAt(items, i), AtomsFrom(items, i + 1));
    }
  }

  /** The headings of these sections, in order. */
  function Headings<B>(sections: seq<Section<B>>): seq<string> {
    if sections == [] then []
    else (if sections[0].heading.Some? then [sections[0].heading.value] else []) + Headings(sections[1..])
  }

  lemma {:induction false} BlocksHaveNoBreaks(blocks: seq<DocBlock>)
    ensures Breaks(Atoms(BlockEvents(blocks))) == []
  {
    hide Breaks, Atoms;
    if blocks == [] {
      NoAtoms();
      NoBreaksAmong([]);
    } else {
      BlocksHaveNoBreaks(blocks[1..]);
      assert BlockEvents(blocks) == [Block(blocks[0])] + BlockEvents(blocks[1..]);
      AtomsConcat([Block(blocks[0])], BlockEvents(blocks[1..]));
      AtomsOfOne(Block(blocks[0]));
      BreaksConcat(EventAtoms(Block(blocks[0])), Atoms(BlockEvents(blocks[1..])));
      NoBreaksAmong(EventAtoms(Block(blocks[0])));
    }
  }

  lemma SectionBreaks(s: Section<DocBlock>)
    ensures Breaks(Atoms(SectionEvents(s))) == if s.heading.Some? then [s.heading.value] else []
  {
    hide Breaks, Atoms, BlockEvents;
    var lead: seq<Event<DocBlock>> := if s.heading.Some? then [PageBreak(s.heading.value)] else [];
    AtomsConcat(lead, BlockEvents(s.blocks));
    BlocksHaveNoBreaks(s.blocks);
    BreaksConcat(Atoms(lead), Atoms(BlockEvents(s.blocks)));
    if s.heading.Some? {
      AtomsOfOne(PageBreak(s.heading.value));
      OneBreak(s.heading.value);
    } else {
      NoAtoms();
      NoBreaksAmong([]);
    }
  }

  lemma {:induction false} HeadingsAreBreaks(sections: seq<Section<DocBlock>>)
    ensures Headings(sections) == Breaks(Atoms(Ungrouped(sections)))
  {
    hide Breaks, Atoms, SectionEvents;
    if sections == [] {
      NoAtoms();
      NoBreaksAmong([]);
    } else {
      HeadingsAreBreaks(sections[1..]);
      SectionBreaks(sections[0]);
      AtomsConcat(SectionEvents(sections[0]), Ungrouped(sections[1..]));
      BreaksConcat(Atoms(SectionEvents(sections[0])), Atoms(Ungrouped(sections[1..])));
    }
  }

  /** However a document is cut, its sections are headed by what its second-level headings say, in order. */
  lemma SectionsAreHeaded(items: seq<Item>, sections: seq<Section<DocBlock>>)
    requires IsReadingOf(sections, Reading(items, 0))
    ensures Headings(sections) == HeadingsFrom(items, 0)
  {
    hide Reading, Atoms, Breaks, AtomsFrom, HeadingsFrom, Headings, Sectioned, Ungrouped;
    HeadingsAreBreaks(sections);
    NothingIsLostOrReordered(items, 0);
    BreaksAreHeadings(items, 0);
  }

  // --- The pictures --------------------------------------------------------------------------------------------------

  /** In some drawing of some run of these a picture was found and taken, and this stands for it. */
  predicate IsTaken(pieces: seq<Piece>, placeholder: string) {
    exists k :: 0 <= k < |pieces| && IsTakenIn(pieces[k], placeholder)
  }

  predicate IsTakenIn(p: Piece, placeholder: string) {
    p.Run? && exists d :: 0 <= d < |p.drawings| && Taken(placeholder) in p.drawings[d]
  }

  lemma {:induction false} TakenAre(found: seq<Extracted>, placeholder: string)
    ensures placeholder in TakenImages(found) <==> Taken(placeholder) in found
  {
    if found != [] {
      TakenAre(found[1..], placeholder);
      assert found == [found[0]] + found[1..];
    }
  }

  lemma {:induction false} FlatHolds<T>(s: seq<seq<T>>, x: T)
    ensures x in Flat(s) <==> exists d :: 0 <= d < |s| && x in s[d]
  {
    if s != [] {
      FlatHolds(s[1..], x);
      assert forall d :: 0 < d < |s| ==> s[d] == s[1..][d - 1];
      assert forall d :: 0 <= d < |s[1..]| ==> s[1..][d] == s[d + 1];
    }
  }

  lemma {:induction false} ImagesAreTheTaken(pieces: seq<Piece>, placeholder: string)
    ensures placeholder in Images(pieces) <==> IsTaken(pieces, placeholder)
  {
    hide IsTakenIn, TakenImages, Found;
    if pieces != [] {
      var front, last := pieces[..|pieces| - 1], pieces[|pieces| - 1];
      ImagesAreTheTaken(front, placeholder);
      assert placeholder in TakenImages(Found(last)) <==> IsTakenIn(last, placeholder) by { PieceImages(last, placeholder); }
      assert forall k :: 0 <= k < |front| ==> pieces[k] == front[k];
    }
  }

  lemma PieceImages(p: Piece, placeholder: string)
    ensures placeholder in TakenImages(Found(p)) <==> IsTakenIn(p, placeholder)
  {
    TakenAre(Found(p), placeholder);
    if p.Run? {
      FlatHolds(p.drawings, Taken(placeholder));
    }
  }

  /** Some item from the `i`th on has this picture, whatever else the item is. */
  predicate IsPictured(items: seq<Item>, i: nat, placeholder: string) {
    exists k :: i <= k < |items| && HasPicture(items[k], placeholder)
  }

  predicate HasPicture(item: Item, placeholder: string) {
    item.Paragraph? && IsTaken(item.pieces, placeholder)
  }

  lemma ItemPictures(items: seq<Item>, i: nat, placeholder: string)
    requires i < |items|
    ensures Picture(placeholder) in AtomsAt(items, i) <==> HasPicture(items[i], placeholder)
  {
    hide PlainText, Inlines, Images, Strip, IsTaken;
    var placeholders := if items[i].Table? then [] else ImagesAt(items, i);
    AtomsAreTextAndPictures(items, i);
    assert Picture(placeholder) in Pictures(placeholders) <==> placeholder in placeholders by { PicturesHold(placeholders, placeholder); }
    if items[i].Paragraph? {
      ImagesAreTheTaken(items[i].pieces, placeholder);
    }
  }

  lemma PicturesHold(placeholders: seq<string>, placeholder: string)
    ensures Picture(placeholder) in Pictures(placeholders) <==> placeholder in placeholders
  {
    if placeholder in placeholders {
      var k :| 0 <= k < |placeholders| && placeholders[k] == placeholder;
      assert Pictures(placeholders)[k] == Picture(placeholder);
    }
  }

  lemma {:induction false} PicturesAreThere(items: seq<Item>, i: nat, placeholder: string)
    requires i <= |items|
    ensures Picture(placeholder) in AtomsFrom(items, i) <==> IsPictured(items, i, placeholder)
    decreases |items| - i
  {
    hide AtomsAt, HasPicture;
    if i < |items| {
      ItemPictures(items, i, placeholder);
      PicturesAreThere(items, i + 1, placeholder);
    }
  }
}
