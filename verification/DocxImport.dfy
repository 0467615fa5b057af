/** Importing a Word document as a whole: from its items to the pages of the new module. */
module DocxImport {
  import opened Common
  import opened Domain
  import opened Conversion
  import opened DocxReading
  import opened DocxLaws
  import opened DocxLetters

  /** What of a document stands on a page: everything but the breaks, which become titles. */
  function Shown(atoms: seq<Atom>): seq<Atom> {
    if atoms == [] then [] else (if atoms[0].Breaking? then [] else [atoms[0]]) + Shown(atoms[1..])
  }

  function BlockAtoms(blocks: seq<DocBlock>): seq<Atom> {
    if blocks == [] then [] else EventAtoms(Block(blocks[0])) + BlockAtoms(blocks[1..])
  }

  lemma {:induction false} NoneBreaking(atoms: seq<Atom>)
    requires forall i :: 0 <= i < |atoms| ==> !atoms[i].Breaking?
    ensures Shown(atoms) == atoms
  {
    if atoms != [] {
      NoneBreaking(atoms[1..]);
      assert atoms == [atoms[0]] + atoms[1..];
    }
  }

  lemma {:induction false} ShownConcat(a: seq<Atom>, b: seq<Atom>)
    ensures Shown(a + b) == Shown(a) + Shown(b)
  {
    if a == [] {
      assert a + b == b;
    } else {
      hide Shown;
      ShownConcat(a[1..], b);
      ShownFirst(a);
      ShownFirst(a + b);
      assert (a + b)[1..] == a[1..] + b;
      Reassociate(Shown([a[0]]), Shown(a[1..]), Shown(b));
    }
  }

  lemma ShownFirst(atoms: seq<Atom>)
    requires atoms != []
    ensures Shown(atoms) == Shown([atoms[0]]) + Shown(atoms[1..])
  {
    assert Shown([atoms[0]][1..]) == [];
  }

  lemma ShownOfEvent(e: Event<DocBlock>)
    ensures Shown(EventAtoms(e)) == BlockAtoms(OwnBlock(e))
  {
    match e
    case PageBreak(h) =>
      assert Shown([Breaking(h)]) == [];
    case Block(block) =>
      NoneBreaking(EventAtoms(e));
      assert [block][1..] == [];
      assert EventAtoms(e) + [] == EventAtoms(e);
  }

  lemma {:induction false} BlockAtomsConcat(a: seq<DocBlock>, b: seq<DocBlock>)
    ensures BlockAtoms(a + b) == BlockAtoms(a) + BlockAtoms(b)
  {
    hide EventAtoms, BlockAtoms;
    if a == [] {
      assert a + b == b;
      assert BlockAtoms(a) == [] by { NoBlockAtoms(); }
    } else {
      BlockAtomsConcat(a[1..], b);
      BlockAtomsFirst(a);
      BlockAtomsFirst(a + b);
      assert (a + b)[1..] == a[1..] + b;
      Reassociate(EventAtoms(Block(a[0])), BlockAtoms(a[1..]), BlockAtoms(b));
    }
  }

  lemma NoBlockAtoms()
    ensures BlockAtoms([]) == []
  {
  }

  lemma BlockAtomsFirst(blocks: seq<DocBlock>)
    requires blocks != []
    ensures BlockAtoms(blocks) == EventAtoms(Block(blocks[0])) + BlockAtoms(blocks[1..])
  {
  }

  /** Seen from the atoms, the blocks of a stream are the stream without its breaks. */
  lemma {:induction false} BlocksAreWhatIsShown(events: seq<Event<DocBlock>>)
    ensures BlockAtoms(BlocksOf(events)) == Shown(Atoms(events))
  {
    hide EventAtoms, OwnBlock;
    if events != [] {
      BlocksAreWhatIsShown(events[1..]);
      ShownOfEvent(events[0]);
      ShownConcat(EventAtoms(events[0]), Atoms(events[1..]));
      BlockAtomsConcat(OwnBlock(events[0]), BlocksOf(events[1..]));
    }
  }

  /** A stream without empty lists shows something as soon as it has a block. */
  lemma {:induction false} BlocksShow(events: seq<Event<DocBlock>>)
    requires NoEmptyLists(events)
    ensures BlockAtoms(BlocksOf(events)) == [] <==> BlocksOf(events) == []
  {
    if events != [] {
      assert forall e :: e in events[1..] ==> e in events;
      BlocksShow(events[1..]);
      BlockAtomsConcat(OwnBlock(events[0]), BlocksOf(events[1..]));
      ShownOfEvent(events[0]);
    }
  }

  /** Section headings have become titles; no letter of a page is theirs. */
  lemma {:induction false} BreaksHaveNoLetters(atoms: seq<Atom>)
    ensures LettersIn(Shown(atoms)) == LettersIn(atoms)
  {
    hide LettersIn, AtomLetters;
    if atoms != [] {
      BreaksHaveNoLetters(atoms[1..]);
      LettersInFirst(atoms);
      LettersInConcat(if atoms[0].Breaking? then [] else [atoms[0]], Shown(atoms[1..]));
      LettersInOne(atoms[0]);
      NoLettersIn();
      assert atoms[0].Breaking? ==> AtomLetters(atoms[0]) == [] by { BreakHasNoLetters(atoms[0]); }
    }
  }

  lemma BreakHasNoLetters(a: Atom)
    ensures a.Breaking? ==> AtomLetters(a) == []
  {
  }

  lemma {:induction false} BlocksHaveTheirLetters(blocks: seq<DocBlock>)
    ensures LettersIn(BlockAtoms(blocks)) == LettersOf(blocks)
  {
    hide LettersIn, BlockLetters, EventAtoms;
    if blocks == [] {
      NoLettersIn();
    } else {
      BlocksHaveTheirLetters(blocks[1..]);
      BlockHasItsLetters(blocks[0]);
      LettersInConcat(EventAtoms(Block(blocks[0])), BlockAtoms(blocks[1..]));
    }
  }

  lemma {:induction false} ShownHolds(atoms: seq<Atom>, a: Atom)
    ensures a in Shown(atoms) <==> a in atoms && !a.Breaking?
  {
    if atoms != [] {
      ShownHolds(atoms[1..], a);
      assert atoms == [atoms[0]] + atoms[1..];
    }
  }

  lemma {:induction false} BlockAtomsHold(blocks: seq<DocBlock>, placeholder: string)
    ensures Picture(placeholder) in BlockAtoms(blocks) <==> Image(placeholder) in blocks
  {
    hide EventAtoms;
    if blocks != [] {
      BlockAtomsHold(blocks[1..], placeholder);
      assert blocks == [blocks[0]] + blocks[1..];
      OnlyImagesArePictures(blocks[0], placeholder);
    }
  }

  lemma OnlyImagesArePictures(b: DocBlock, placeholder: string)
    ensures Picture(placeholder) in EventAtoms(Block(b)) <==> b == Image(placeholder)
  {
  }

  lemma PicturesArrive(blocks: seq<DocBlock>, atoms: seq<Atom>, placeholder: string)
    requires BlockAtoms(blocks) == Shown(atoms)
    ensures Image(placeholder) in blocks <==> Picture(placeholder) in atoms
  {
    hide BlockAtoms, Shown;
    BlockAtomsHold(blocks, placeholder);
    ShownHolds(atoms, Picture(placeholder));
  }

  /** What importing adds to the report on account of the module's title. */
  function TitleReports(title: Option<string>, filenameTitle: string): seq<Issue> {
    (if TooLong(title, filenameTitle) then [TitleTruncated] else []) + if title == None then [TitleInferredFromFilename] else []
  }

  /**
   * `convert_docx` from the opened document on. Everything the items hold, title text, tables and text beside a drawing apart,
   * arrives on the pages once and in document order, letter for letter in the block and the setting it had; the document is
   * refused as empty exactly when that is nothing.
   */
  method ConvertDocx(items: seq<Item>,
        filenameTitle: string) returns (title: string, r: Result<seq<Page<DocBlock>>, ImportRefusal>, reported: seq<Issue>)
    ensures r.Ok? ==> BlockAtoms(PageBlocks(r.value)) == Shown(AtomsFrom(items, 0)) && 0 < |r.value| <= MAX_PAGES
    ensures r.Ok? ==> StandAs(LettersOf(PageBlocks(r.value)), BodyFrom(items, 0))
    ensures r.Ok? ==> forall placeholder :: Image(placeholder) in PageBlocks(r.value) <==> IsPictured(items, 0, placeholder)
    ensures r == Err(EmptyDocument) <==> Shown(AtomsFrom(items, 0)) == []
    ensures title == Clamped(TitleOf(items), filenameTitle)
    ensures exists sections :: IsReadingOf(sections, Reading(items, 0)) &&
              reported == Reports(items, |items|) + TitleReports(TitleOf(items), filenameTitle) + SectionReports(sections, title) &&
              (r == Err(TooManyPages) <==> |Filled(sections)| > MAX_PAGES) &&
              (r.Ok? ==> ArePagesOf(r.value, sections, title))
  {
    hide StandAs, LettersOf, LettersIn, BodyFrom, IsPictured;
    hide Reading, Reports, SectionReports, Filled, IsReadingOf, ArePagesOf, FullTitle, BlockAtoms, PageBlocks, BlocksOf, Shown, AtomsFrom;
    var extracted, events, issues := DocxEvents(items);
    title, issues := ClampTitle(extracted, issues, filenameTitle);
    if extracted == None {
      issues := issues + [TitleInferredFromFilename];
    }
    assert issues == Reports(items, |items|) + TitleReports(extracted, filenameTitle);
    r, reported := Paginate(events, issues, title);
    NothingIsLostOrReordered(items, 0);
    BlocksAreWhatIsShown(events);
    ListsAreNeverEmpty(items, 0);
    BlocksShow(events);
    BodyStands(items, 0);
    BreaksHaveNoLetters(AtomsFrom(items, 0));
    if r.Ok? {
      BlocksHaveTheirLetters(PageBlocks(r.value));
      forall placeholder ensures Image(placeholder) in PageBlocks(r.value) <==> IsPictured(items, 0, placeholder) {
        PicturesArrive(PageBlocks(r.value), AtomsFrom(items, 0), placeholder);
        PicturesAreThere(items, 0, placeholder);
      }
    }
  }

  /** Only the title gives occasion to the remark that it was taken from the file name. */
  lemma OnlyTheTitleIsInferred(items: seq<Item>, sections: seq<Section<DocBlock>>, filenameTitle: string, title: string)
    ensures TitleInferredFromFilename in
              Reports(items, |items|) + TitleReports(TitleOf(items), filenameTitle) + SectionReports(sections, title) <==>
            TitleOf(items) == None
  {
    hide TooLong, TitleOf;
    ReportIsExact(items, |items|, TitleInferredFromFilename);
    OnlySectionsAreReported(sections, title);
  }

  lemma {:induction false} OnlySectionsAreReported(sections: seq<Section<DocBlock>>, title: string)
    ensures TitleInferredFromFilename !in SectionReports(sections, title)
  {
    hide TooLong;
    if sections != [] {
      OnlySectionsAreReported(sections[..|sections| - 1], title);
    }
  }
}
