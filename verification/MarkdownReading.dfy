/** Turning parsed Markdown inlines into marked text: every letter keeps its place and the formatting it stands in. */
module MarkdownReading {
  import opened Common
  import opened Conversion

  /** The inline nodes of the parser's tree, read with raw HTML off. */
  datatype Md =
    | Words(content: string)
    | CodeSpan(content: string)
    | Strong(children: seq<Md>)
    | Em(children: seq<Md>)
    | Anchor(href: string, children: seq<Md>)
    | SoftBreak
    | Newline
    | Picture(src: string)
    | Unsupported(kind: string, children: seq<Md>)

  function TextNode(text: string, marks: seq<Mark>): seq<Inline> {
    if text == "" then [] else [Text(text, marks)]
  }

  function MarksOf(href: string): seq<Mark> {
    if AllowedHref(href) then [Link(href)] else []
  }

  function Converted(nodes: seq<Md>, marks: seq<Mark>): seq<Inline>
    decreases nodes
  {
    if nodes == [] then [] else ConvertedOne(nodes[0], marks) + Converted(nodes[1..], marks)
  }

  function ConvertedOne(node: Md, marks: seq<Mark>): seq<Inline>
    decreases node
  {
    match node
    case Words(content) => TextNode(content, marks)
    case CodeSpan(content) => TextNode(content, marks + [Code])
    case Strong(children) => Converted(children, marks + [Bold])
    case Em(children) => Converted(children, marks + [Italic])
    case Anchor(href, children) => Converted(children, marks + MarksOf(href))
    case SoftBreak => TextNode(" ", marks)
    case Newline => [HardBreak]
    case Picture(_) => []
    case Unsupported(_, _) => []
  }

  function Label(src: string): string {
    if src == "" then "unknown" else src
  }

  function InlineReports(issues: seq<Issue>, nodes: seq<Md>): seq<Issue>
    decreases nodes
  {
    if nodes == [] then issues else InlineReports(NodeReports(issues, nodes[0]), nodes[1..])
  }

  function NodeReports(issues: seq<Issue>, node: Md): seq<Issue>
    decreases node
  {
    match node
    case Strong(children) => InlineReports(issues, children)
    case Em(children) => InlineReports(issues, children)
    case Anchor(href, children) => InlineReports(if AllowedHref(href) then issues else NoteOnce(issues, LinkDropped), children)
    case Picture(src) => issues + [ImageReferenceDropped(Label(src))]
    case Unsupported(kind, _) => issues + [UnsupportedInlineDropped(kind)]
    case _ => issues
  }

  /** `_markdown_inline_to_pm` */
  method InlineToPm(nodes: seq<Md>, issues: seq<Issue>, marks: seq<Mark>) returns (result: seq<Inline>, reported: seq<Issue>)
    ensures result == Converted(nodes, marks)
    ensures reported == InlineReports(issues, nodes)
    decreases nodes
  {
    hide Converted, ConvertedOne, InlineReports, NodeReports;
    result, reported := [], issues;
    assert nodes[0..] == nodes;
    for i := 0 to |nodes|
      invariant Converted(nodes, marks) == result + Converted(nodes[i..], marks)
      invariant InlineReports(issues, nodes) == InlineReports(reported, nodes[i..])
    {
      OneMoreNode(nodes, i, marks, reported);
      var added;
      added, reported := NodeToPm(nodes[i], reported, marks);
      Reassociate(result, added, Converted(nodes[i + 1..], marks));
      result := result + added;
    }
    NoMoreNodes(nodes, marks, reported);
  }

  /** What the loop does with one node, by its kind. */
  method NodeToPm(node: Md, issues: seq<Issue>, marks: seq<Mark>) returns (added: seq<Inline>, reported: seq<Issue>)
    ensures added == ConvertedOne(node, marks)
    ensures reported == NodeReports(issues, node)
    decreases node
  {
    hide Converted, InlineReports, AllowedHref, TextNode, NoteOnce, Label;
    added, reported := [], issues;
    match node
    case Words(content) => added := TextNode(content, marks);
    case CodeSpan(content) => added := TextNode(content, marks + [Code]);
    case Strong(children) => added, reported := InlineToPm(children, issues, marks + [Bold]);
    case Em(children) => added, reported := InlineToPm(children, issues, marks + [Italic]);
    case Anchor(href, children) =>
      if AllowedHref(href) {
        added, reported := InlineToPm(children, issues, marks + [Link(href)]);
      } else {
        assert marks + [] == marks;
        added, reported := InlineToPm(children, NoteOnce(issues, LinkDropped), marks);
      }
    case SoftBreak => added := TextNode(" ", marks);
    case Newline => added := [HardBreak];
    case Picture(src) => reported := issues + [ImageReferenceDropped(Label(src))];
    case Unsupported(kind, _) => reported := issues + [UnsupportedInlineDropped(kind)];
  }

  lemma OneMoreNode(nodes: seq<Md>, i: nat, marks: seq<Mark>, issues: seq<Issue>)
    requires i < |nodes|
    ensures Converted(nodes[i..], marks) == ConvertedOne(nodes[i], marks) + Converted(nodes[i + 1..], marks)
    ensures InlineReports(issues, nodes[i..]) == InlineReports(NodeReports(issues, nodes[i]), nodes[i + 1..])
  {
    hide ConvertedOne, NodeReports;
    assert nodes[i..][1..] == nodes[i + 1..];
  }

  lemma NoMoreNodes(nodes: seq<Md>, marks: seq<Mark>, issues: seq<Issue>)
    ensures Converted(nodes[|nodes|..], marks) == [] && InlineReports(issues, nodes[|nodes|..]) == issues
  {
  }

  // --- Letters and the formatting around them ----------------------------------------------------------

  datatype Wrapper = InStrong | InEm | InCode | InAnchor(href: string)

  /** The text a reader of the source sees, letter by letter, each with the formatting that encloses it, outermost first. */
  function Seen(nodes: seq<Md>, around: seq<Wrapper>): seq<(char, seq<Wrapper>)>
    decreases nodes
  {
    if nodes == [] then [] else SeenIn(nodes[0], around) + Seen(nodes[1..], around)
  }

  function SeenIn(node: Md, around: seq<Wrapper>): seq<(char, seq<Wrapper>)>
    decreases node
  {
    match node
    case Words(content) => Wrapped(content, around)
    case CodeSpan(content) => Wrapped(content, around + [InCode])
    case Strong(children) => Seen(children, around + [InStrong])
    case Em(children) => Seen(children, around + [InEm])
    case Anchor(href, children) => Seen(children, around + [InAnchor(href)])
    case SoftBreak => Wrapped(" ", around)
    case _ => []
  }

  function MarkFor(w: Wrapper): seq<Mark> {
    match w
    case InStrong => [Bold]
    case InEm => [Italic]
    case InCode => [Code]
    case InAnchor(href) => MarksOf(href)
  }

  function MarksFor(around: seq<Wrapper>): seq<Mark> {
    if around == [] then [] else MarksFor(around[..|around| - 1]) + MarkFor(around[|around| - 1])
  }

  function AsMarked(seen: seq<(char, seq<Wrapper>)>): seq<(char, seq<Mark>)> {
    seq(|seen|, i requires 0 <= i < |seen| => (seen[i].0, MarksFor(seen[i].1)))
  }

  lemma LettersOfText(text: string, marks: seq<Mark>)
    ensures Letters(TextNode(text, marks)) == Wrapped(text, marks)
  {
    hide Wrapped;
    if text == "" {
      assert Wrapped(text, marks) == [] by { WrappedNothing(marks); }
    }
  }

  lemma MarkedText(text: string, around: seq<Wrapper>)
    ensures AsMarked(Wrapped(text, around)) == Wrapped(text, MarksFor(around))
  {
  }

  lemma OneMoreAround(around: seq<Wrapper>, w: Wrapper)
    ensures MarksFor(around + [w]) == MarksFor(around) + MarkFor(w)
  {
    assert (around + [w])[..|around|] == around;
  }

  /**
   * Conversion keeps every visible letter, in order, carrying exactly the marks of the formatting around it, outermost first.
   * An anchor whose address is refused adds no mark and loses no letter.
   */
  lemma {:induction false} LettersKeepTheirMarks(nodes: seq<Md>, around: seq<Wrapper>)
    ensures Letters(Converted(nodes, MarksFor(around))) == AsMarked(Seen(nodes, around))
    decreases nodes
  {
    hide Letters, AsMarked, MarksFor, ConvertedOne, SeenIn;
    if nodes == [] {
      NoLetters();
    } else {
      LettersOfOne(nodes[0], around);
      LettersKeepTheirMarks(nodes[1..], around);
      LettersConcat(ConvertedOne(nodes[0], MarksFor(around)), Converted(nodes[1..], MarksFor(around)));
      MarkedConcat(SeenIn(nodes[0], around), Seen(nodes[1..], around));
    }
  }

  lemma NoLetters()
    ensures Letters([]) == AsMarked([]) == []
  {
  }

  lemma MarkedConcat(a: seq<(char, seq<Wrapper>)>, b: seq<(char, seq<Wrapper>)>)
    ensures AsMarked(a + b) == AsMarked(a) + AsMarked(b)
  {
  }

  lemma {:induction false} LettersOfOne(node: Md, around: seq<Wrapper>)
    ensures Letters(ConvertedOne(node, MarksFor(around))) == AsMarked(SeenIn(node, around))
    decreases node
  {
    hide Letters, AsMarked, MarksFor, AllowedHref, Wrapped, TextNode;
    NoLetters();
    match node
    case Words(content) =>
      LettersOfText(content, MarksFor(around));
      MarkedText(content, around);
    case CodeSpan(content) =>
      OneMoreAround(around, InCode);
      LettersOfText(content, MarksFor(around) + [Code]);
      MarkedText(content, around + [InCode]);
    case Strong(children) =>
      OneMoreAround(around, InStrong);
      LettersKeepTheirMarks(children, around + [InStrong]);
    case Em(children) =>
      OneMoreAround(around, InEm);
      LettersKeepTheirMarks(children, around + [InEm]);
    case Anchor(href, children) =>
      OneMoreAround(around, InAnchor(href));
      LettersKeepTheirMarks(children, around + [InAnchor(href)]);
    case SoftBreak =>
      LettersOfText(" ", MarksFor(around));
      MarkedText(" ", around);
    case Newline =>
      BreakHasNoLetters();
    case _ =>
  }

  lemma BreakHasNoLetters()
    ensures Letters([HardBreak]) == []
  {
  }

  /** The marks say what is around: bold, italic and code for what they are, and a link for each allowed address. */
  ghost predicate SayAll(marks: seq<Mark>, around: seq<Wrapper>) {
    && (Bold in marks <==> InStrong in around)
    && (Italic in marks <==> InEm in around)
    && (Code in marks <==> InCode in around)
    && (forall href :: Link(href) in marks <==> InAnchor(href) in around && AllowedHref(href))
  }

  lemma OneMoreSaid(marks: seq<Mark>, around: seq<Wrapper>, w: Wrapper)
    requires SayAll(marks, around)
    ensures SayAll(marks + MarkFor(w), around + [w])
  {
    hide AllowedHref;
  }

  lemma {:induction false} MarksSayAll(around: seq<Wrapper>)
    ensures SayAll(MarksFor(around), around)
  {
    hide SayAll, MarkFor;
    if around == [] {
      NothingSaid();
    } else {
      MarksSayAll(around[..|around| - 1]);
      OneMoreSaid(MarksFor(around[..|around| - 1]), around[..|around| - 1], around[|around| - 1]);
      assert around == around[..|around| - 1] + [around[|around| - 1]];
    }
  }

  lemma NothingSaid()
    ensures SayAll([], [])
  {
  }

  /** Letter for letter what a reader of the source sees: bold where it is strong, italic where it is emphasised, and so on. */
  lemma FormattingIsKept(nodes: seq<Md>)
    ensures var out, seen := Letters(Converted(nodes, [])), Seen(nodes, []);
            |out| == |seen| && forall i :: 0 <= i < |out| ==> out[i].0 == seen[i].0 && SayAll(out[i].1, seen[i].1)
  {
    hide Letters, Converted, Seen, SayAll, MarksFor;
    NoneAround();
    LettersKeepTheirMarks(nodes, []);
    var out, seen := Letters(Converted(nodes, [])), Seen(nodes, []);
    forall i | 0 <= i < |out| ensures out[i].0 == seen[i].0 && SayAll(out[i].1, seen[i].1) {
      assert out[i] == AsMarked(seen)[i];
      MarksSayAll(seen[i].1);
    }
  }

  lemma NoneAround()
    ensures MarksFor([]) == []
  {
  }

  // --- The report ------------------------------------------------------------------------------------------

  /** Is there, at any depth the conversion reaches, a reason for this issue? */
  predicate Occurs(nodes: seq<Md>, issue: Issue)
    decreases nodes
  {
    nodes != [] && (OccursIn(nodes[0], issue) || Occurs(nodes[1..], issue))
  }

  predicate OccursIn(node: Md, issue: Issue)
    decreases node
  {
    match node
    case Strong(children) => Occurs(children, issue)
    case Em(children) => Occurs(children, issue)
    case Anchor(href, children) => (issue.LinkDropped? && !AllowedHref(href)) || Occurs(children, issue)
    case Picture(src) => issue == ImageReferenceDropped(Label(src))
    case Unsupported(kind, _) => issue == UnsupportedInlineDropped(kind)
    case _ => false
  }

  /** Everything left out is reported, and nothing else is. */
  lemma {:induction false} InlineReportIsExact(issues: seq<Issue>, nodes: seq<Md>, issue: Issue)
    ensures issue in InlineReports(issues, nodes) <==> issue in issues || Occurs(nodes, issue)
    decreases nodes
  {
    hide NodeReports, OccursIn;
    if nodes != [] {
      NodeReportIsExact(issues, nodes[0], issue);
      InlineReportIsExact(NodeReports(issues, nodes[0]), nodes[1..], issue);
    }
  }

  lemma {:induction false} NodeReportIsExact(issues: seq<Issue>, node: Md, issue: Issue)
    ensures issue in NodeReports(issues, node) <==> issue in issues || OccursIn(node, issue)
    decreases node
  {
    hide AllowedHref, InlineReports, Occurs, Label;
    match node
    case Strong(children) => InlineReportIsExact(issues, children, issue);
    case Em(children) => InlineReportIsExact(issues, children, issue);
    case Anchor(href, children) =>
      InlineReportIsExact(if AllowedHref(href) then issues else NoteOnce(issues, LinkDropped), children, issue);
    case _ =>
  }
}
