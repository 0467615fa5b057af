/** What every document converter shares: links, titles, and cutting a stream of blocks into pages. */
module Conversion {
  import opened Common
  import opened Domain
  import opened Documents
  import Validation

  datatype Mark = Bold | Italic | Code | Link(href: string)

  datatype Inline = Text(text: string, marks: seq<Mark>) | HardBreak

  datatype Issue =
    | TitleTruncated | HeadingLevelAdjusted(level: nat, clamped: nat) | EmptySectionDropped(heading: string)
    | LinkDropped | TableDropped | ListStyleAssumedBullet | ImageUnavailable | ImageDropped(name: string)
    | ImageReferenceDropped(src: string) | UnsupportedInlineDropped(kind: string) | TitleInferredFromFilename

  datatype Event<+B> = PageBreak(heading: string) | Block(block: B)

  datatype Section<+B> = Section(heading: Option<string>, blocks: seq<B>)

  datatype Page<+B> = Page(title: string, blocks: seq<B>)

  datatype ImportRefusal = EmptyDocument | TooManyPages

  const MAX_TITLE: nat := 200

  function NoteOnce(issues: seq<Issue>, issue: Issue): seq<Issue> {
    if issue in issues then issues else issues + [issue]
  }

  // --- Links -----------------------------------------------------------------------------------

  /** `_is_allowed_href`, the converters' own copy of the validator's rule. */
  predicate AllowedHref(href: string) {
    && href != ""
    && !(exists i :: 0 <= i < |href| && ((href[i] as int) < 0x21 || href[i] as int == 0x7F))
    && (if href[0] == '/' then !("/" <= href[1..] || "\\" <= href[1..]) else "https://" <= Lower(href) || "mailto:" <= Lower(href))
  }

  /** The copy keeps exactly the links the validator will accept, except for those that are too long, which only the validator refuses. */
  lemma LinkRulesAgreeIff(href: string)
    ensures Validation.CheckHref(Some(Str(href))) == None <==> AllowedHref(href) && |href| <= Validation.MAX_ATTRIBUTE_TEXT
  {
    if href != "" && |href| > 1 {
      assert href[1..][0] == href[1];
    }
  }

  /** Such a link is kept by the conversion and then fails the import as a whole. */
  lemma LongLinkIsKeptThenRefused() returns (href: string)
    ensures AllowedHref(href) && Validation.CheckHref(Some(Str(href))) == Some(Validation.BadHref)
  {
    href := "/" + seq(Validation.MAX_ATTRIBUTE_TEXT, i => 'a');
    assert href[1] == 'a';
  }

  function PlainText(nodes: seq<Inline>): string {
    if nodes == [] then "" else OwnText(nodes[0]) + PlainText(nodes[1..])
  }

  function OwnText(node: Inline): string {
    if node.Text? then node.text else ""
  }

  lemma PlainTextFirst(nodes: seq<Inline>)
    requires nodes != []
    ensures PlainText(nodes) == OwnText(nodes[0]) + PlainText(nodes[1..])
  {
  }

  lemma {:induction false} PlainTextConcat(a: seq<Inline>, b: seq<Inline>)
    ensures PlainText(a + b) == PlainText(a) + PlainText(b)
  {
    hide PlainText, OwnText;
    if a == [] {
      assert a + b == b;
      assert PlainText(a) == "" by { NoText(); }
    } else {
      PlainTextConcat(a[1..], b);
      PlainTextFirst(a);
      PlainTextFirst(a + b);
      assert (a + b)[1..] == a[1..] + b;
      Reassociate(OwnText(a[0]), PlainText(a[1..]), PlainText(b));
    }
  }

  lemma NoText()
    ensures PlainText([]) == ""
  {
  }

  // --- Letters and their marks -------------------------------------------------------------------

  function Wrapped<W>(text: string, around: W): seq<(char, W)> {
    seq(|text|, i requires 0 <= i < |text| => (text[i], around))
  }

  /** The letters of converted text with the marks on them. */
  function Letters(nodes: seq<Inline>): seq<(char, seq<Mark>)> {
    if nodes == [] then [] else (if nodes[0].Text? then Wrapped(nodes[0].text, nodes[0].marks) else []) + Letters(nodes[1..])
  }

  lemma {:induction false} LettersConcat(a: seq<Inline>, b: seq<Inline>)
    ensures Letters(a + b) == Letters(a) + Letters(b)
  {
    hide Wrapped;
    if a == [] {
      assert a + b == b;
    } else {
      LettersConcat(a[1..], b);
      assert (a + b)[1..] == a[1..] + b;
    }
  }

  lemma WrappedNothing<W>(around: W)
    ensures Wrapped("", around) == []
  {
  }

  // --- Titles ------------------------------------------------------------------------------------

  function FullTitle(title: Option<string>, fallback: string): string {
    var stripped := Strip(if title.Some? then title.value else "");
    if stripped != "" then stripped else Strip(fallback)
  }

  /** The full title is the one given, without the white space around it, or the one to fall back on if there is nothing else to it. */
  lemma FullTitleIs(title: Option<string>, fallback: string, core: string)
    requires IsAround(if title.Some? && !AllSpace(title.value) then title.value else fallback, core)
    ensures FullTitle(title, fallback) == core
  {
    hide Strip, IsAround;
    var t := if title.Some? then title.value else "";
    AroundIsStripped(t, Strip(t));
    AroundIsStripped(fallback, core);
    AroundIsStripped(t, core);
    BlankIff(t);
  }

  lemma BlankIff(s: string)
    ensures Strip(s) == "" <==> AllSpace(s)
  {
    hide IsSpace;
    StrippedMeans(s);
    if AllSpace(s) {
      assert s == s + [] + [];
      StripIs(s, [], []);
    }
  }

  /** A title of at most 200 characters, the beginning of the full one; shortening it is reported. */
  method ClampTitle(title: Option<string>, issues: seq<Issue>, fallback: string) returns (r: string, reported: seq<Issue>)
    ensures r <= FullTitle(title, fallback) && |r| <= 200
    ensures r == FullTitle(title, fallback) <==> reported == issues
    ensures r != FullTitle(title, fallback) ==> |r| == 200 && reported == issues + [TitleTruncated]
  {
    var stripped := FullTitle(title, fallback);
    if |stripped| > MAX_TITLE {
      return stripped[..MAX_TITLE], issues + [TitleTruncated];
    }
    return stripped, issues;
  }

  /** The nearest supported level; moving one is reported. */
  method ClampHeadingLevel(level: nat, issues: seq<Issue>) returns (clamped: nat, reported: seq<Issue>)
    ensures clamped == NearestLevel(level)
    ensures reported == if clamped == level then issues else issues + [HeadingLevelAdjusted(level, clamped)]
  {
    if level == 2 || level == 3 || level == 4 {
      return level, issues;
    }
    clamped := if level <= 1 then 2 else 4;
    reported := issues + [HeadingLevelAdjusted(level, clamped)];
  }

  function Apart(a: nat, b: nat): nat {
    if a < b then b - a else a - b
  }

  function NearestLevel(level: nat): (r: nat)
    ensures 2 <= r <= 4
    ensures forall other: nat :: 2 <= other <= 4 && other != r ==> Apart(r, level) < Apart(other, level)
  {
    if level < 2 then 2 else if level > 4 then 4 else level
  }

  // --- Sections ------------------------------------------------------------------------------------

  function BlockEvents<B>(blocks: seq<B>): seq<Event<B>> {
    seq(|blocks|, i requires 0 <= i < |blocks| => Block(blocks[i]))
  }

  /** The break a section begins with, unless it leads, and its blocks. */
  function SectionEvents<B>(s: Section<B>): seq<Event<B>> {
    (if s.heading.Some? then [PageBreak(s.heading.value)] else []) + BlockEvents(s.blocks)
  }

  function Ungrouped<B>(sections: seq<Section<B>>): seq<Event<B>> {
    if sections == [] then [] else SectionEvents(sections[0]) + Ungrouped(sections[1..])
  }

  predicate TailHeaded<B>(sections: seq<Section<B>>) {
    forall i :: 0 < i < |sections| ==> sections[i].heading.Some?
  }

  /** The leading section has no heading, every other one has. */
  ghost predicate Sectioned<B>(sections: seq<Section<B>>) {
    sections != [] && sections[0].heading == None && TailHeaded(sections)
  }

  lemma {:induction false} UngroupedConcat<B>(a: seq<Section<B>>, b: seq<Section<B>>)
    ensures Ungrouped(a + b) == Ungrouped(a) + Ungrouped(b)
  {
    hide SectionEvents, Ungrouped;
    NothingUngrouped<B>();
    if a == [] {
      assert a + b == b;
    } else {
      UngroupedConcat(a[1..], b);
      UngroupedFirst(a);
      UngroupedFirst(a + b);
      assert (a + b)[1..] == a[1..] + b;
      Reassociate(SectionEvents(a[0]), Ungrouped(a[1..]), Ungrouped(b));
    }
  }

  lemma NothingUngrouped<B>()
    ensures Ungrouped<B>([]) == []
  {
  }

  lemma UngroupedFirst<B>(sections: seq<Section<B>>)
    requires sections != []
    ensures Ungrouped(sections) == SectionEvents(sections[0]) + Ungrouped(sections[1..])
  {
  }

  lemma OneMoreBlock<B>(done: seq<Section<B>>, heading: Option<string>, blocks: seq<B>, block: B)
    ensures Ungrouped(done + [Section(heading, blocks + [block])]) == Ungrouped(done + [Section(heading, blocks)]) + [Block(block)]
  {
    UngroupedConcat(done, [Section(heading, blocks + [block])]);
    UngroupedConcat(done, [Section(heading, blocks)]);
    assert BlockEvents(blocks + [block]) == BlockEvents(blocks) + [Block(block)];
  }

  lemma OneMoreSection<B>(sections: seq<Section<B>>, heading: string)
    ensures Ungrouped(sections + [Section(Some(heading), [])]) == Ungrouped(sections) + [PageBreak(heading)]
  {
    UngroupedConcat(sections, [Section(Some(heading), [])]);
  }

  /** `_group_sections`: the sections that read back as exactly these events. */
  method GroupSections<B>(events: seq<Event<B>>) returns (sections: seq<Section<B>>)
    ensures Sectioned(sections) && Ungrouped(sections) == events
  {
    hide Ungrouped;
    sections := [];
    var heading: Option<string>, blocks: seq<B> := None, [];
    assert Ungrouped(sections + [Section(heading, blocks)]) == [] by { NothingYet<B>(); }
    for i := 0 to |events|
      invariant TailHeaded(sections) && (sections == [] <==> heading == None) && (sections != [] ==> sections[0].heading == None)
      invariant Ungrouped(sections + [Section(heading, blocks)]) == events[..i]
    {
      match events[i]
      case PageBreak(h) =>
        OneMoreSection(sections + [Section(heading, blocks)], h);
        sections := sections + [Section(heading, blocks)];
        heading, blocks := Some(h), [];
      case Block(b) =>
        OneMoreBlock(sections, heading, blocks, b);
        blocks := blocks + [b];
    }
    sections := sections + [Section(heading, blocks)];
    assert events[..|events|] == events;
  }

  lemma NothingYet<B>()
    ensures Ungrouped<B>([] + [Section(None, [])]) == []
  {
    var leading: Section<B> := Section(None, []);
    assert [] + [leading] == [leading];
  }

  /** Whatever follows the first section begins with a break. */
  lemma TailBegins<B>(sections: seq<Section<B>>)
    requires sections != [] && TailHeaded(sections)
    ensures |sections| == 1 ==> Ungrouped(sections[1..]) == []
    ensures |sections| > 1 ==>
        sections[1].heading.Some? && Ungrouped(sections[1..]) != [] && Ungrouped(sections[1..])[0] == PageBreak(sections[1].heading.value)
  {
    if |sections| > 1 {
      var rest := sections[1..];
      assert rest[0] == sections[1];
      assert Ungrouped(rest) == SectionEvents(rest[0]) + Ungrouped(rest[1..]);
    }
  }

  lemma SameBlocks<B>(a: seq<B>, b: seq<B>, restA: seq<Event<B>>, restB: seq<Event<B>>)
    requires BlockEvents(a) + restA == BlockEvents(b) + restB
    requires (restA != [] ==> restA[0].PageBreak?) && (restB != [] ==> restB[0].PageBreak?)
    ensures a == b && restA == restB
  {
    var eventsA, eventsB := BlockEvents(a) + restA, BlockEvents(b) + restB;
    assert |a| < |eventsA| ==> eventsA[|a|] == restA[0];
    assert |b| < |eventsB| ==> eventsB[|b|] == restB[0];
    assert forall i :: 0 <= i < |a| ==> eventsA[i].Block?;
    assert forall i :: 0 <= i < |b| ==> eventsB[i].Block?;
    forall i | 0 <= i < |a| ensures a[i] == b[i] {
      assert eventsA[i] == Block(a[i]) && eventsB[i] == Block(b[i]);
    }
    assert restA == eventsA[|a|..] && restB == eventsB[|b|..];
  }

  lemma AfterTheBreak<B>(sections: seq<Section<B>>)
    requires sections != []
    ensures var n := if sections[0].heading.Some? then 1 else 0;
            n <= |Ungrouped(sections)| && Ungrouped(sections)[n..] == BlockEvents(sections[0].blocks) + Ungrouped(sections[1..])
  {
    hide BlockEvents;
  }

  lemma FirstSectionsAgree<B>(s: seq<Section<B>>, t: seq<Section<B>>)
    requires s != [] && t != [] && TailHeaded(s) && TailHeaded(t) && s[0].heading == t[0].heading
    requires Ungrouped(s) == Ungrouped(t)
    ensures s[0] == t[0] && Ungrouped(s[1..]) == Ungrouped(t[1..])
    ensures |s| > 1 <==> |t| > 1
    ensures |s| > 1 ==> s[1].heading == t[1].heading
  {
    hide BlockEvents, Ungrouped, TailHeaded;
    TailBegins(s);
    TailBegins(t);
    AfterTheBreak(s);
    AfterTheBreak(t);
    SameBlocks(s[0].blocks, t[0].blocks, Ungrouped(s[1..]), Ungrouped(t[1..]));
  }

  lemma {:induction false} SectionsAreDetermined<B>(s: seq<Section<B>>, t: seq<Section<B>>)
    requires s != [] && t != [] && TailHeaded(s) && TailHeaded(t) && s[0].heading == t[0].heading
    requires Ungrouped(s) == Ungrouped(t)
    ensures s == t
    decreases |s|
  {
    hide Ungrouped;
    FirstSectionsAgree(s, t);
    if |s| > 1 {
      assert s[1..][0] == s[1] && t[1..][0] == t[1];
      SectionsAreDetermined(s[1..], t[1..]);
    }
    assert s == [s[0]] + s[1..] && t == [t[0]] + t[1..];
  }

  /** There is only one way to read a stream of events as sections, so what `GroupSections` returns is that one. */
  lemma SectionsAreUnique<B>(s: seq<Section<B>>, t: seq<Section<B>>)
    requires Sectioned(s) && Sectioned(t) && Ungrouped(s) == Ungrouped(t)
    ensures s == t
  {
    SectionsAreDetermined(s, t);
  }

  // --- Pages -------------------------------------------------------------------------------------------

  /** The sections that become pages. */
  function Filled<B>(sections: seq<Section<B>>): seq<Section<B>> {
    if sections == [] then []
    else
      var front, s := Filled(sections[..|sections| - 1]), sections[|sections| - 1];
      if |s.blocks| == 0 then front else front + [s]
  }

  predicate TooLong(title: Option<string>, fallback: string) {
    |FullTitle(title, fallback)| > MAX_TITLE
  }

  function Clamped(title: Option<string>, fallback: string): string {
    var full := FullTitle(title, fallback);
    if |full| > MAX_TITLE then full[..MAX_TITLE] else full
  }

  predicate IsPageOf<B(==)>(page: Page<B>, s: Section<B>, moduleTitle: string) {
    page == Page(Clamped(s.heading, moduleTitle), s.blocks)
  }

  /** What dropping or shortening sections adds to the report, in their order. */
  function SectionReports<B>(sections: seq<Section<B>>, moduleTitle: string): seq<Issue> {
    if sections == [] then []
    else
      var front, s := SectionReports(sections[..|sections| - 1], moduleTitle), sections[|sections| - 1];
      if |s.blocks| == 0 then
        if s.heading.Some? then front + [EmptySectionDropped(s.heading.value)] else front
      else if TooLong(s.heading, moduleTitle) then front + [TitleTruncated]
      else front
  }

  /** `_finalize_pages`: one page per section with blocks, in order, and a report for every heading dropped or title shortened. */
  method FinalizePages<B(==)>(sections: seq<Section<B>>, issues: seq<Issue>,
        moduleTitle: string) returns (pages: seq<Page<B>>, reported: seq<Issue>)
    ensures ArePagesOf(pages, sections, moduleTitle)
    ensures reported == issues + SectionReports(sections, moduleTitle)
  {
    hide FullTitle;
    pages, reported := [], issues;
    for i := 0 to |sections|
      invariant |pages| == |Filled(sections[..i])|
      invariant forall k :: 0 <= k < |pages| ==> IsPageOf(pages[k], Filled(sections[..i])[k], moduleTitle)
      invariant reported == issues + SectionReports(sections[..i], moduleTitle)
    {
      assert sections[..i + 1][..i] == sections[..i];
      var s := sections[i];
      if |s.blocks| == 0 {
        if s.heading.Some? {
          reported := reported + [EmptySectionDropped(s.heading.value)];
        }
        continue;
      }
      var title;
      title, reported := ClampTitle(s.heading, reported, moduleTitle);
      pages := pages + [Page(title, s.blocks)];
    }
    assert sections[..|sections|] == sections;
  }

  function OwnBlock<B>(e: Event<B>): seq<B> {
    if e.Block? then [e.block] else []
  }

  function BlocksOf<B>(events: seq<Event<B>>): seq<B> {
    if events == [] then [] else OwnBlock(events[0]) + BlocksOf(events[1..])
  }

  function SectionBlocks<B>(sections: seq<Section<B>>): seq<B> {
    if sections == [] then [] else SectionBlocks(sections[..|sections| - 1]) + sections[|sections| - 1].blocks
  }

  function PageBlocks<B>(pages: seq<Page<B>>): seq<B> {
    if pages == [] then [] else PageBlocks(pages[..|pages| - 1]) + pages[|pages| - 1].blocks
  }

  lemma {:induction false} BlocksConcat<B>(a: seq<Event<B>>, b: seq<Event<B>>)
    ensures BlocksOf(a + b) == BlocksOf(a) + BlocksOf(b)
  {
    hide BlocksOf, OwnBlock;
    if a == [] {
      assert a + b == b;
      assert BlocksOf(a) == [] by { NoBlocks<B>(); }
    } else {
      BlocksConcat(a[1..], b);
      BlocksOfFirst(a);
      BlocksOfFirst(a + b);
      assert (a + b)[1..] == a[1..] + b;
      Reassociate(OwnBlock(a[0]), BlocksOf(a[1..]), BlocksOf(b));
    }
  }

  lemma NoBlocks<B>()
    ensures BlocksOf<B>([]) == []
  {
  }

  lemma BlocksOfFirst<B>(events: seq<Event<B>>)
    requires events != []
    ensures BlocksOf(events) == OwnBlock(events[0]) + BlocksOf(events[1..])
  {
  }

  lemma {:induction false} BlocksOfBlocks<B>(blocks: seq<B>)
    ensures BlocksOf(BlockEvents(blocks)) == blocks
  {
    if blocks != [] {
      BlocksOfBlocks(blocks[1..]);
      assert BlockEvents(blocks)[1..] == BlockEvents(blocks[1..]);
      assert blocks == [blocks[0]] + blocks[1..];
    }
  }

  lemma BlocksOfSection<B>(s: Section<B>)
    ensures BlocksOf(SectionEvents(s)) == s.blocks
  {
    hide BlockEvents;
    var lead: seq<Event<B>> := if s.heading.Some? then [PageBreak(s.heading.value)] else [];
    BlocksConcat(lead, BlockEvents(s.blocks));
    BlocksOfBlocks(s.blocks);
    assert SectionEvents(s) == lead + BlockEvents(s.blocks);
  }

  lemma {:induction false} GroupingKeepsBlocks<B>(sections: seq<Section<B>>)
    ensures BlocksOf(Ungrouped(sections)) == SectionBlocks(sections)
  {
    if sections != [] {
      hide SectionEvents, BlocksOf;
      var front, last := sections[..|sections| - 1], sections[|sections| - 1];
      GroupingKeepsBlocks(front);
      assert sections == front + [last];
      UngroupedConcat(front, [last]);
      UngroupedOne(last);
      BlocksConcat(Ungrouped(front), SectionEvents(last));
      BlocksOfSection(last);
    }
  }

  lemma UngroupedOne<B>(s: Section<B>)
    ensures Ungrouped([s]) == SectionEvents(s)
  {
  }

  lemma {:induction false} PagingKeepsBlocks<B>(sections: seq<Section<B>>, pages: seq<Page<B>>, moduleTitle: string)
    requires ArePagesOf(pages, sections, moduleTitle)
    ensures PageBlocks(pages) == SectionBlocks(sections)
  {
    hide Clamped;
    if sections != [] {
      var front, last := sections[..|sections| - 1], sections[|sections| - 1];
      if |last.blocks| == 0 {
        PagingKeepsBlocks(front, pages, moduleTitle);
      } else {
        PagingKeepsBlocks(front, pages[..|pages| - 1], moduleTitle);
      }
    }
  }

  /**
   * From events to pages as every converter does it. All blocks arrive, in order and once each; the document is refused as
   * empty exactly when it has no block at all.
   */
  method Paginate<B(==)>(events: seq<Event<B>>, issues: seq<Issue>,
        moduleTitle: string) returns (r: Result<seq<Page<B>>, ImportRefusal>, reported: seq<Issue>)
    ensures r.Ok? ==> PageBlocks(r.value) == BlocksOf(events) && 0 < |r.value| <= MAX_PAGES
    ensures r == Err(EmptyDocument) <==> BlocksOf(events) == []
    ensures exists sections :: IsReadingOf(sections, events) && reported == issues + SectionReports(sections, moduleTitle) &&
              (r == Err(TooManyPages) <==> |Filled(sections)| > MAX_PAGES) &&
              (r.Ok? ==> ArePagesOf(r.value, sections, moduleTitle))
  {
    hide Clamped, Sectioned, Ungrouped, SectionReports, Filled, BlocksOf;
    var sections := GroupSections(events);
    assert IsReadingOf(sections, events);
    var pages;
    pages, reported := FinalizePages(sections, issues, moduleTitle);
    GroupingKeepsBlocks(sections);
    PagingKeepsBlocks(sections, pages, moduleTitle);
    NoPagesNoBlocks(sections, pages, moduleTitle);
    if |pages| == 0 {
      return Err(EmptyDocument), reported;
    }
    if |pages| > MAX_PAGES {
      return Err(TooManyPages), reported;
    }
    r := Ok(pages);
  }

  /** Cut where the sections with blocks are, and titled after their headings. */
  predicate ArePagesOf<B(==)>(pages: seq<Page<B>>, sections: seq<Section<B>>, moduleTitle: string) {
    |pages| == |Filled(sections)| && forall i :: 0 <= i < |pages| ==> IsPageOf(pages[i], Filled(sections)[i], moduleTitle)
  }

  ghost predicate IsReadingOf<B>(sections: seq<Section<B>>, events: seq<Event<B>>) {
    Sectioned(sections) && Ungrouped(sections) == events
  }

  lemma {:induction false} FilledHaveBlocks<B>(sections: seq<Section<B>>)
    ensures forall i :: 0 <= i < |Filled(sections)| ==> |Filled(sections)[i].blocks| > 0
  {
    if sections != [] {
      FilledHaveBlocks(sections[..|sections| - 1]);
    }
  }

  lemma NoPagesNoBlocks<B>(sections: seq<Section<B>>, pages: seq<Page<B>>, moduleTitle: string)
    requires ArePagesOf(pages, sections, moduleTitle)
    ensures PageBlocks(pages) == [] <==> pages == []
  {
    hide Clamped, Filled;
    FilledHaveBlocks(sections);
    if pages != [] {
      assert IsPageOf(pages[|pages| - 1], Filled(sections)[|pages| - 1], moduleTitle);
    }
  }

  /**
   * Headings without content are reported as often as they occur, and no other heading is reported; a shortened title is
   * reported exactly when some page's full title was too long.
   */
  lemma {:induction false} SectionsAreAccountedFor<B>(sections: seq<Section<B>>, moduleTitle: string, heading: string)
    ensures multiset(SectionReports(sections, moduleTitle))[EmptySectionDropped(heading)] == multiset(sections)[Section(Some(heading), [])]
    ensures TitleTruncated in SectionReports(sections, moduleTitle) <==>
        exists s :: s in sections && s.blocks != [] && TooLong(s.heading, moduleTitle)
  {
    hide TooLong;
    if sections != [] {
      var front, last := sections[..|sections| - 1], sections[|sections| - 1];
      SectionsAreAccountedFor(front, moduleTitle, heading);
      assert sections == front + [last];
      assert |last.blocks| == 0 ==> last.blocks == [];
    }
  }
}
