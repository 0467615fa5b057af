/** The rewriters and the search index, told value by value: what stands at which place of a body before and after. */
module Leaves {
  import opened Common
  import opened Documents
  import opened Uuids
  import opened Validation
  import opened Rewriting
  import opened Preservation
  import opened Legality

  // --- Places in a tree ------------------------------------------------------------------------------

  datatype Step = Member(i: nat) | Element(i: nat)

  function StepInto(j: Json, step: Step): Option<Json>
    ensures StepInto(j, step).Some? ==> StepInto(j, step).value < j
  {
    match step
    case Member(i) => if j.Obj? && i < |j.fields| then Some(j.fields[i].value) else None
    case Element(i) => if j.Arr? && i < |j.items| then Some(j.items[i]) else None
  }

  /** The value at the end of a path through members of objects and elements of lists. */
  function ValueAt(j: Json, path: seq<Step>): Option<Json>
    decreases |path|
  {
    if path == [] then Some(j)
    else
      match StepInto(j, path[0])
      case None => None
      case Some(v) => ValueAt(v, path[1..])
  }

  /** Does the path end on a string member called `src` or `href`? */
  predicate EndsOnReference(j: Json, path: seq<Step>)
    decreases |path|
  {
    path != [] && StepInto(j, path[0]).Some? &&
    var v := StepInto(j, path[0]).value;
    if |path| == 1 then path[0].Member? && v.Str? && (j.fields[path[0].i].key == "src" || j.fields[path[0].i].key == "href")
    else EndsOnReference(v, path[1..])
  }

  /** The same kind of value with the same members or as many elements; the same value if it has no parts. */
  predicate SameFrame(v: Json, v': Json) {
    match v
    case Obj(fields) => v'.Obj? && |v'.fields| == |fields| && forall i :: 0 <= i < |fields| ==> v'.fields[i].key == fields[i].key
    case Arr(items) => v'.Arr? && |v'.items| == |items|
    case _ => v' == v
  }

  /** What stands at one place before and after: a reference is followed, anything else is as it was. */
  predicate FollowedAt(j: Json, j': Json, path: seq<Step>, f: string -> string) {
    var v, v' := ValueAt(j, path), ValueAt(j', path);
    if EndsOnReference(j, path) then v.Some? && v.value.Str? && v' == Some(Str(f(v.value.s)))
    else if v.None? then v'.None?
    else v'.Some? && SameFrame(v.value, v'.value)
  }

  lemma {:induction false} RedirectedFieldAt(fields: seq<Field>, f: string -> string)
    ensures |RedirectFields(fields, f)| == |fields|
    ensures forall i :: 0 <= i < |fields| ==>
        RedirectFields(fields, f)[i] == Field(fields[i].key, RedirectValue(fields[i].key, fields[i].value, f))
  {
    hide RedirectValue, IsReferenceKey;
    if fields != [] {
      RedirectedFieldAt(fields[1..], f);
      assert RedirectFields(fields, f)[0] == Field(fields[0].key, RedirectValue(fields[0].key, fields[0].value, f)) by {
        FirstRedirected(fields, f);
      }
      assert RedirectFields(fields, f)[1..] == RedirectFields(fields[1..], f);
    }
  }

  lemma FirstRedirected(fields: seq<Field>, f: string -> string)
    requires fields != []
    ensures |RedirectFields(fields, f)| > 0
    ensures RedirectFields(fields, f)[0] == Field(fields[0].key, RedirectValue(fields[0].key, fields[0].value, f))
  {
  }

  lemma RedirectedFrame(v: Json, f: string -> string)
    ensures SameFrame(v, Redirect(v, f))
  {
    match v
    case Obj(fields) => RedirectedFieldAt(fields, f);
    case Arr(items) => RedirectedItemsAt(items, f);
    case _ =>
  }

  /** Redirecting a tree follows the references, and leaves everything else where it is and as it is. */
  lemma {:induction false} RedirectedAt(j: Json, f: string -> string, path: seq<Step>)
    ensures FollowedAt(j, Redirect(j, f), path, f)
    decreases |path|
  {
    hide Redirect;
    if path == [] {
      RedirectedFrame(j, f);
    } else {
      StepsAgree(j, f, path[0]);
      var v := StepInto(j, path[0]);
      if v.Some? {
        var v' := StepInto(Redirect(j, f), path[0]).value;
        assert |path| == 1 ==> path[1..] == [];
        if IsReferenceStep(j, path[0]) {
          StringsHaveNoParts(v.value.s, f(v.value.s), path[1..]);
          assert ValueAt(j, path) == ValueAt(v.value, path[1..]);
          assert ValueAt(Redirect(j, f), path) == ValueAt(v', path[1..]);
          assert |path| > 1 ==> EndsOnReference(j, path) == EndsOnReference(v.value, path[1..]);
        } else {
          RedirectedAt(v.value, f, path[1..]);
        }
      }
    }
  }

  predicate IsReferenceStep(j: Json, step: Step) {
    StepInto(j, step).Some? && StepInto(j, step).value.Str? && step.Member? &&
    (j.fields[step.i].key == "src" || j.fields[step.i].key == "href")
  }

  lemma StepsAgree(j: Json, f: string -> string, step: Step)
    ensures StepInto(j, step).None? ==> StepInto(Redirect(j, f), step).None?
    ensures StepInto(j, step).Some? ==>
              StepInto(Redirect(j, f), step) ==
              Some(if IsReferenceStep(j, step) then Str(f(StepInto(j, step).value.s)) else Redirect(StepInto(j, step).value, f))
  {
    match j
    case Obj(fields) => RedirectedFieldAt(fields, f);
    case Arr(items) => RedirectedItemsAt(items, f);
    case _ =>
  }

  lemma StringsHaveNoParts(s: string, s': string, path: seq<Step>)
    ensures path != [] ==> ValueAt(Str(s), path) == None && ValueAt(Str(s'), path) == None && !EndsOnReference(Str(s), path)
  {
  }

  // --- The two rewriters -------------------------------------------------------------------------------

  /** A duplicate's page: each reference to one of the source's files is to the copy of that file, and all else is as it was. */
  lemma DuplicateRewritesReferences(j: Json, urls: map<string, string>, path: seq<Step>)
    ensures FollowedAt(j, ByUrl(j, urls), path, s => if s in urls then urls[s] else s)
  {
    hide Redirect, ValueAt, EndsOnReference;
    RedirectedAt(j, FollowUrl(urls), path);
  }

  /** An imported page: each reference to a file of the archive, by the id in its path, is to the file made of it. */
  lemma ImportRewritesReferences(j: Json, urls: map<Uuid, string>, path: seq<Step>)
    requires ById(j, urls).Ok?
    ensures var v, v' := ValueAt(j, path), ValueAt(ById(j, urls).value, path);
            if EndsOnReference(j, path) then
              v.Some? && v.value.Str? && v'.Some? && v'.value.Str? && IsReimported(v.value.s, v'.value.s, urls)
            else if v.None? then v'.None?
            else v'.Some? && SameFrame(v.value, v'.value)
  {
    hide Redirect, ValueAt, EndsOnReference, ById;
    ByIdOutcome(j, urls);
    RedirectedAt(j, FollowId(urls), path);
    if EndsOnReference(j, path) {
      FollowedIdIs(ValueAt(j, path).value.s, urls);
    }
  }

  /** Written out, a path of this shape reads "/api/modules/", an id, "/assets/", and this id, in any spelling that parses. */
  ghost predicate Spells(s: string, id: Uuid) {
    exists m, a :: IsIdText(m) && IsIdText(a) && s == "/api/modules/" + m + "/assets/" + a && ReadsAs(a, id)
  }

  /** Without its dashes and in lower case, this is the id. */
  predicate ReadsAs(a: string, id: Uuid) {
    Lower(NoDashes(a)) == id
  }

  ghost predicate IsReimported(s: string, s': string, urls: map<Uuid, string>) {
    && (forall id :: id in urls && Spells(s, id) ==> s' == urls[id])
    && ((forall id :: id in urls ==> !Spells(s, id)) ==> s' == s)
  }

  lemma SpellsIff(s: string, id: Uuid)
    ensures Spells(s, id) <==> NamedAsset(s) == Ok(Some(id))
  {
    hide IsAssetPath, NoDashes, Lower;
    PathIsPicture(s);
    if Spells(s, id) {
      var m, a :| IsIdText(m) && IsIdText(a) && s == "/api/modules/" + m + "/assets/" + a && ReadsAs(a, id);
      assert s[57..] == a;
      assert IsPicture(s);
    }
    if NamedAsset(s) == Ok(Some(id)) {
      var m, a :| IsIdText(m) && IsIdText(a) && s == "/api/modules/" + m + "/assets/" + a;
      assert s[57..] == a;
    }
  }

  lemma FollowedIdIs(s: string, urls: map<Uuid, string>)
    ensures IsReimported(s, FollowId(urls)(s), urls)
  {
    hide NamedAsset, Spells;
    forall id ensures Spells(s, id) <==> NamedAsset(s) == Ok(Some(id)) {
      SpellsIff(s, id);
    }
  }

  // --- The search index -----------------------------------------------------------------------------------

  /** Joining two runs of pieces puts one space between what is left of them, if anything is left of both. */
  lemma {:induction false} JoinedConcat(a: seq<string>, b: seq<string>)
    ensures Joined(a + b) == if Joined(a) == "" then Joined(b) else if Joined(b) == "" then Joined(a) else Joined(a) + " " + Joined(b)
  {
    hide Strip;
    if a == [] {
      assert a + b == b;
    } else {
      JoinedConcat(a[1..], b);
      assert (a + b)[1..] == a[1..] + b;
    }
  }

  lemma JoinedOne(piece: string)
    ensures Joined([piece]) == Strip(piece)
  {
    hide Strip;
    assert [piece][1..] == [];
  }

  /** It stands in the text as a word or a run of words: what precedes it ends in a space, and what follows begins with one. */
  ghost predicate IsFound(word: string, text: string) {
    exists before, after :: text == before + word + after && EndsApart(before) && BeginsApart(after)
  }

  predicate EndsApart(s: string) {
    s == "" || s[|s| - 1] == ' '
  }

  predicate BeginsApart(s: string) {
    s == "" || s[0] == ' '
  }

  /** Each piece that is not blank is found in what they are joined to. */
  lemma PieceIsFound(pieces: seq<string>, i: nat)
    requires i < |pieces| && Strip(pieces[i]) != ""
    ensures IsFound(Strip(pieces[i]), Joined(pieces))
  {
    hide Strip, Joined;
    var a, b, word := pieces[..i], pieces[i + 1..], Strip(pieces[i]);
    assert pieces == a + ([pieces[i]] + b);
    JoinedConcat(a, [pieces[i]] + b);
    JoinedConcat([pieces[i]], b);
    JoinedOne(pieces[i]);
    Framed(Joined(a), word, Joined(b));
  }

  lemma Framed(x: string, word: string, y: string)
    requires word != ""
    ensures var rest := if y == "" then word else word + " " + y; IsFound(word, if x == "" then rest else x + " " + rest)
  {
    var before := if x == "" then "" else x + " ";
    var after := if y == "" then "" else " " + y;
    var rest := if y == "" then word else word + " " + y;
    assert rest == word + after;
    assert (if x == "" then rest else x + " " + rest) == before + word + after;
    assert EndsApart(before) && BeginsApart(after);
  }

  /** At this place of the tree stands a text node saying `s`. */
  predicate SaysAt(j: Json, path: seq<nat>, s: string) {
    && NodeAt(j, path).Some? && NodeAt(j, path).value.Obj?
    && Get(NodeAt(j, path).value.fields, "type") == Some(Str("text"))
    && Get(NodeAt(j, path).value.fields, "text") == Some(Str(s))
  }

  ghost predicate Says(j: Json, s: string) {
    exists path :: SaysAt(j, path, s)
  }

  /** The pieces are what the text nodes say, and nothing else: no names of types, no attributes, no addresses. */
  lemma {:induction false} PiecesAreTexts(j: Json, s: string)
    ensures s in Pieces(j) <==> Says(j, s)
    decreases j, |Children(j)| + 1
  {
    hide NodeAt, OwnPiece, Children, ChildPieces;
    SubtreePiecesAreTexts(j, |Children(j)|, s);
    assert s in OwnPiece(j) <==> SaysAt(j, [], s) by { TopSays(j, s); }
    if Says(j, s) {
      var path :| SaysAt(j, path, s);
      if path != [] {
        NodeBelow(j, path[0], path[1..]);
        assert path == [path[0]] + path[1..];
        assert SaysAt(Children(j)[path[0]], path[1..], s);
      }
    }
    if s in ChildPieces(j, |Children(j)|) {
      var i: nat :| i < |Children(j)| && Says(Children(j)[i], s);
      var path :| SaysAt(Children(j)[i], path, s);
      NodeBelow(j, i, path);
      assert SaysAt(j, [i] + path, s);
    }
  }

  lemma TopSays(j: Json, s: string)
    ensures s in OwnPiece(j) <==> SaysAt(j, [], s)
  {
  }

  lemma {:induction false} SubtreePiecesAreTexts(j: Json, n: nat, s: string)
    requires n <= |Children(j)|
    ensures s in ChildPieces(j, n) <==> exists i: nat :: i < n && Says(Children(j)[i], s)
    decreases j, n
  {
    hide NodeAt, OwnPiece, Says;
    if n > 0 {
      SubtreePiecesAreTexts(j, n - 1, s);
      PiecesAreTexts(Children(j)[n - 1], s);
    }
  }

  /** A learner searching for what a text node says finds the page: all of it stands in the index, as words of their own. */
  lemma EveryTextIsFound(j: Json, path: seq<nat>, s: string)
    requires SaysAt(j, path, s) && Strip(s) != ""
    ensures IsFound(Strip(s), SearchText(j))
  {
    hide Pieces, Strip, Joined, IsFound, SaysAt;
    PiecesAreTexts(j, s);
    var i :| 0 <= i < |Pieces(j)| && Pieces(j)[i] == s;
    PieceIsFound(Pieces(j), i);
  }
}
