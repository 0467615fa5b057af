/** The working draft of one module: its page rows, their positions, and the optimistic lock over them. */
module Drafts {
  import opened Common
  import opened Domain
  import opened Documents

  datatype PageRow = PageRow(position: nat, title: string, body: Json)

  type PageTable = map<PageId, PageRow>

  datatype Draft = Draft(revision: nat, rows: PageTable)

  datatype DraftRefusal = NotEditable | PageNotFound | InvalidBody | MissingSchemaVersion | DraftFull | NotAPermutation | DraftConflict

  // --- Reading the pages in order -------------------------------------------

  predicate IsEarliest(rows: PageTable, p: PageId) {
    p in rows && forall q :: q in rows ==> rows[p].position <= rows[q].position
  }

  ghost function Earliest(rows: PageTable): (p: PageId)
    requires rows != map[]
    ensures IsEarliest(rows, p)
  {
    EarliestExists(rows);
    var p :| IsEarliest(rows, p);
    p
  }

  lemma {:induction false} EarliestExists(rows: PageTable)
    requires rows != map[]
    ensures exists p :: IsEarliest(rows, p)
    decreases |rows|
  {
    var p :| p in rows;
    var others := rows - {p};
    if others == map[] {
      assert forall q :: q in rows ==> q == p || q in others;
      assert IsEarliest(rows, p);
    } else {
      EarliestExists(others);
      var best :| IsEarliest(others, best);
      assert forall q :: q in rows ==> q == p || q in others;
      assert IsEarliest(rows, if rows[p].position <= rows[best].position then p else best);
    }
  }

  /** The page ids, ordered by position. */
  ghost function Listing(rows: PageTable): (ids: seq<PageId>)
    ensures |ids| == |rows|
    decreases |rows|
  {
    if rows == map[] then []
    else
      var p := Earliest(rows);
      assert (rows - {p}).Keys == rows.Keys - {p};
      [p] + Listing(rows - {p})
  }

  lemma {:induction false} ListingElements(rows: PageTable)
    ensures forall p :: p in Listing(rows) <==> p in rows
    decreases |rows|
  {
    if rows != map[] {
      var p := Earliest(rows);
      assert (rows - {p}).Keys == rows.Keys - {p};
      ListingElements(rows - {p});
      assert Listing(rows) == [p] + Listing(rows - {p});
    }
  }

  /** The pages `ids` stand at positions k, k+1, k+2, ... */
  predicate Counts(rows: PageTable, ids: seq<PageId>, k: nat) {
    forall i :: 0 <= i < |ids| ==> ids[i] in rows && rows[ids[i]].position == k + i
  }

  /** Positions are exactly 0..n-1. */
  ghost predicate Contiguous(rows: PageTable) {
    Counts(rows, Listing(rows), 0)
  }

  /** The pages `ids` stand at rising positions, none below `lo`. */
  predicate Rising(rows: PageTable, ids: seq<PageId>, lo: nat) {
    ids == [] || (ids[0] in rows && lo <= rows[ids[0]].position && Rising(rows, ids[1..], rows[ids[0]].position + 1))
  }

  lemma {:induction false} RisingStaysAbove(rows: PageTable, ids: seq<PageId>, lo: nat)
    requires Rising(rows, ids, lo)
    ensures forall p :: p in ids ==> p in rows && lo <= rows[p].position
  {
    if ids != [] {
      RisingStaysAbove(rows, ids[1..], rows[ids[0]].position + 1);
      assert ids == [ids[0]] + ids[1..];
    }
  }

  lemma {:induction false} RisingElsewhere(rows: PageTable, ids: seq<PageId>, lo: nat, rows': PageTable)
    requires Rising(rows, ids, lo)
    requires forall p :: p in ids ==> p in rows' && (p in rows ==> rows'[p].position == rows[p].position)
    ensures Rising(rows', ids, lo)
  {
    if ids != [] {
      assert ids[0] in ids;
      RisingElsewhere(rows, ids[1..], rows[ids[0]].position + 1, rows');
    }
  }

  lemma {:induction false} CountingRises(rows: PageTable, ids: seq<PageId>, k: nat)
    requires Counts(rows, ids, k)
    ensures Rising(rows, ids, k)
  {
    if ids != [] {
      assert rows[ids[0]].position == k;
      CountingRises(rows, ids[1..], k + 1);
    }
  }

  /** An enumeration of the pages with rising positions is the listing. */
  lemma {:induction false} ListingIsTheRisingOrder(rows: PageTable, ids: seq<PageId>, lo: nat)
    requires Rising(rows, ids, lo)
    requires forall p :: p in rows ==> p in ids
    ensures Listing(rows) == ids
  {
    if ids == [] {
      assert rows == map[];
    } else {
      var p := ids[0];
      assert p in rows;
      RisingStaysAbove(rows, ids[1..], rows[p].position + 1);
      assert ids == [p] + ids[1..];
      assert Earliest(rows) == p;
      RisingElsewhere(rows, ids[1..], rows[p].position + 1, rows - {p});
      ListingIsTheRisingOrder(rows - {p}, ids[1..], rows[p].position + 1);
    }
  }

  /** `ids` lists every page once. */
  predicate Enumerates(rows: PageTable, ids: seq<PageId>) {
    NoDuplicates(ids) && (forall p :: p in ids ==> p in rows) && (forall p :: p in rows ==> p in ids)
  }

  predicate DistinctPositions(rows: PageTable) {
    forall p, q :: p in rows && q in rows && p != q ==> rows[p].position != rows[q].position
  }

  lemma ListingUnfolds(rows: PageTable, first: PageId)
    requires DistinctPositions(rows) && IsEarliest(rows, first)
    ensures DistinctPositions(rows - {first})
    ensures Listing(rows) == [first] + Listing(rows - {first})
    ensures |rows - {first}| < |rows|
  {
    assert (rows - {first}).Keys == rows.Keys - {first};
  }

  lemma ListingSplits(ids: seq<PageId>, rows: PageTable, first: PageId)
    requires Listing(rows) == [first] + Listing(rows - {first})
    ensures ids + Listing(rows) == (ids + [first]) + Listing(rows - {first})
  {
  }

  function IndexOf(ids: seq<PageId>, p: PageId): (i: nat)
    ensures p in ids ==> i < |ids| && ids[i] == p
  {
    if ids == [] || ids[0] == p then 0 else 1 + IndexOf(ids[1..], p)
  }

  /** Every row takes its index in `ids` for a position. */
  function Renumbered(rows: PageTable, ids: seq<PageId>): PageTable {
    map p | p in rows :: rows[p].(position := IndexOf(ids, p))
  }

  // --- The mutations, as functions of the draft ------------------------------

  function Claim(d: Draft, token: nat, rows: PageTable): Result<Draft, DraftRefusal> {
    if d.revision != token then Err(DraftConflict) else Ok(Draft(d.revision + 1, rows))
  }

  /** `canonical` is the outcome of validating the submitted body, `None` when it is refused. */
  function Create(d: Draft, editable: bool, token: nat, page: PageId, title: string, canonical: Option<Json>): Result<Draft, DraftRefusal> {
    if !editable then Err(NotEditable)
    else if canonical.None? then Err(InvalidBody)
    else if |d.rows| >= MAX_PAGES then Err(DraftFull)
    else Claim(d, token, d.rows[page := PageRow(|d.rows|, title, canonical.value)])
  }

  function Reorder(d: Draft, editable: bool, token: nat, ids: seq<PageId>): Result<Draft, DraftRefusal> {
    if !editable then Err(NotEditable)
    else if !Enumerates(d.rows, ids) then Err(NotAPermutation)
    else Claim(d, token, Renumbered(d.rows, ids))
  }

  /** The parts of a page update the client may leave out. */
  datatype BodyChange = KeepBody | NoSchemaVersion | Refused | Replace(body: Json)

  function Update(d: Draft, editable: bool, token: nat, page: PageId, title: Option<string>,
        change: BodyChange): Result<Draft, DraftRefusal> {
    if !editable then Err(NotEditable)
    else if page !in d.rows then Err(PageNotFound)
    else if change.NoSchemaVersion? then Err(MissingSchemaVersion)
    else if change.Refused? then Err(InvalidBody)
    else
      var titled := if title.Some? then d.rows[page].(title := title.value) else d.rows[page];
      Claim(d, token, d.rows[page := if change.Replace? then titled.(body := change.body) else titled])
  }

  ghost function Delete(d: Draft, editable: bool, token: nat, page: PageId): Result<Draft, DraftRefusal> {
    if !editable then Err(NotEditable)
    else if page !in d.rows then Err(PageNotFound)
    else Claim(d, token, Renumbered(d.rows - {page}, Listing(d.rows - {page})))
  }

  // --- The routes, updating rows in place -------------------------------------

  class DraftStore {
    var deleted: bool
    var revision: nat
    var rows: PageTable

    ghost function State(): Draft
      reads this
    {
      Draft(revision, rows)
    }

    ghost predicate Valid()
      reads this
    {
      Contiguous(rows)
    }

    constructor ()
      ensures Valid() && !deleted && State() == Draft(1, map[])
    {
      deleted, revision, rows := false, 1, map[];
      new;
      assert Listing(rows) == [];
    }

    /** The pages ordered by position, whatever gaps the positions have. */
    static method ModulePages(table: PageTable) returns (ids: seq<PageId>)
      requires DistinctPositions(table)
      ensures ids == Listing(table)
    {
      var left := table;
      ids := [];
      while left != map[]
        invariant DistinctPositions(left)
        invariant Listing(table) == ids + Listing(left)
        decreases |left|
      {
        var first := First(left);
        ListingUnfolds(left, first);
        ListingSplits(ids, left, first);
        ids := ids + [first];
        left := left - {first};
      }
      assert Listing(left) == [];
    }

    static method First(left: PageTable) returns (first: PageId)
      requires left != map[]
      ensures IsEarliest(left, first)
    {
      first :| first in left;
      var unseen := left.Keys - {first};
      while unseen != {}
        invariant first in left && unseen <= left.Keys
        invariant forall q :: q in left && q !in unseen ==> left[first].position <= left[q].position
        decreases |unseen|
      {
        var q :| q in unseen;
        if left[q].position < left[first].position {
          first := q;
        }
        unseen := unseen - {q};
      }
    }

    method ClaimDraft(token: nat) returns (r: Result<(), DraftRefusal>)
      modifies this`revision
      ensures r.Ok? <==> old(revision) == token
      ensures r == if old(revision) == token then Ok(()) else Err(DraftConflict)
      ensures revision == if r.Ok? then old(revision) + 1 else old(revision)
    {
      if revision != token {
        return Err(DraftConflict);
      }
      revision := revision + 1;
      return Ok(());
    }

    method CreatePage(token: nat, page: PageId, title: string, canonical: Option<Json>) returns (r: Result<(), DraftRefusal>)
      requires Valid() && page !in rows
      modifies this
      ensures Valid() && deleted == old(deleted)
      ensures Outcome(Create(old(State()), !old(deleted), token, page, title, canonical), old(State()), State(), r)
      ensures r.Ok? ==> Listing(rows) == old(Listing(rows)) + [page]
      ensures r.Ok? ==> IsAdded(old(rows), rows, page, title, canonical)
    {
      hide Listing, Contiguous, IsAdded;
      CreateIsKept(State(), !deleted, token, page, title, canonical);
      if deleted {
        return Err(NotEditable);
      }
      if canonical.None? {
        return Err(InvalidBody);
      }
      var pageCount := |rows|;
      if pageCount >= MAX_PAGES {
        return Err(DraftFull);
      }
      r := ClaimDraft(token);
      if r.Ok? {
        CreateAppends(rows, page, PageRow(pageCount, title, canonical.value));
        rows := rows[page := PageRow(pageCount, title, canonical.value)];
      }
    }

    method ReorderPages(token: nat, ids: seq<PageId>) returns (r: Result<(), DraftRefusal>)
      requires Valid()
      modifies this
      ensures Valid() && deleted == old(deleted)
      ensures Outcome(Reorder(old(State()), !old(deleted), token, ids), old(State()), State(), r)
      ensures r.Ok? ==> Listing(rows) == ids
      ensures r.Ok? ==> TextsStay(old(rows), rows, {})
    {
      hide Listing, Contiguous, TextsStay, Renumbered, Enumerates;
      ReorderKeepsTexts(State(), !deleted, token, ids);
      if deleted {
        return Err(NotEditable);
      }
      if !Enumerates(rows, ids) {
        return Err(NotAPermutation);
      }
      r := ClaimDraft(token);
      if r.Ok? {
        RenumberingOrders(rows, ids);
        WritePositions(ids);
      }
    }

    method UpdatePage(token: nat, page: PageId, title: Option<string>, change: BodyChange) returns (r: Result<(), DraftRefusal>)
      requires Valid()
      modifies this
      ensures Valid() && deleted == old(deleted)
      ensures Outcome(Update(old(State()), !old(deleted), token, page, title, change), old(State()), State(), r)
      ensures Listing(rows) == old(Listing(rows))
      ensures r.Ok? ==> IsEdited(old(rows), rows, page, title, change)
    {
      hide Listing, Contiguous, IsEdited;
      UpdateIsKept(State(), !deleted, token, page, title, change);
      UpdateKeepsPositions(State(), !deleted, token, page, title, change);
      if deleted {
        return Err(NotEditable);
      }
      if page !in rows {
        return Err(PageNotFound);
      }
      if change.NoSchemaVersion? {
        return Err(MissingSchemaVersion);
      }
      if change.Refused? {
        return Err(InvalidBody);
      }
      r := ClaimDraft(token);
      if r.Ok? {
        var row := rows[page];
        if title.Some? {
          row := row.(title := title.value);
        }
        if change.Replace? {
          row := row.(body := change.body);
        }
        rows := rows[page := row];
      }
    }

    method DeletePage(token: nat, page: PageId) returns (r: Result<(), DraftRefusal>)
      requires Valid()
      modifies this
      ensures Valid() && deleted == old(deleted)
      ensures Outcome(Delete(old(State()), !old(deleted), token, page), old(State()), State(), r)
      ensures r.Ok? ==> Listing(rows) == Without(old(Listing(rows)), page)
      ensures r.Ok? ==> TextsStay(old(rows), rows, {page})
    {
      hide Listing, Contiguous, TextsStay, Renumbered, Without, Enumerates, DistinctPositions;
      DeleteKeepsTexts(State(), !deleted, token, page);
      DeleteKeepsPositions(State(), !deleted, token, page);
      if deleted {
        return Err(NotEditable);
      }
      if page !in rows {
        return Err(PageNotFound);
      }
      r := ClaimDraft(token);
      if r.Ok? {
        GapsKeepPositionsDistinct(rows, page);
        rows := rows - {page};
        var remaining := ModulePages(rows);
        WritePositions(remaining);
      }
    }

    /** Each page takes its place in the list for its position. */
    method WritePositions(ids: seq<PageId>)
      requires Enumerates(rows, ids)
      modifies this`rows
      ensures rows == Renumbered(old(rows), ids)
    {
      for position := 0 to |ids|
        invariant rows.Keys == old(rows).Keys
        invariant forall i :: 0 <= i < position ==> rows[ids[i]] == old(rows)[ids[i]].(position := i)
        invariant forall i :: position <= i < |ids| ==> rows[ids[i]] == old(rows)[ids[i]]
      {
        rows := rows[ids[position] := rows[ids[position]].(position := position)];
      }
      forall p | p in rows ensures rows[p] == Renumbered(old(rows), ids)[p] {
        assert ids[IndexOf(ids, p)] == p;
      }
    }
  }

  /** An accepted mutation leaves the state the function computes; a refused one leaves everything as it was. */
  ghost predicate Outcome(expected: Result<Draft, DraftRefusal>, before: Draft, after: Draft, r: Result<(), DraftRefusal>) {
    match expected
    case Ok(d) => r == Ok(()) && after == d
    case Err(e) => r == Err(e) && after == before
  }

  // --- What the mutations write ------------------------------------------------

  predicate SameText(row: PageRow, row': PageRow) {
    row'.title == row.title && row'.body == row.body
  }

  /** All pages but the ones `gone` are there, each with its title and its body, and no others. */
  predicate TextsStay(before: PageTable, after: PageTable, gone: set<PageId>) {
    after.Keys == before.Keys - gone && forall p :: p in after ==> SameText(before[p], after[p])
  }

  /** One page more, with this title and this body; the others are as they were. */
  predicate IsAdded(before: PageTable, after: PageTable, page: PageId, title: string, canonical: Option<Json>) {
    && after.Keys == before.Keys + {page}
    && after[page].title == title && canonical == Some(after[page].body)
    && forall p :: p in before && p != page ==> after[p] == before[p]
  }

  /** What was sent is written to the page, what was not sent is as it was, and so are its position and every other page. */
  predicate IsEdited(before: PageTable, after: PageTable, page: PageId, title: Option<string>, change: BodyChange) {
    && after.Keys == before.Keys && page in before
    && title == (if title.Some? then Some(after[page].title) else None)
    && (title.None? ==> after[page].title == before[page].title)
    && (change.Replace? ==> change.body == after[page].body)
    && (!change.Replace? ==> after[page].body == before[page].body)
    && after[page].position == before[page].position
    && forall p :: p in before && p != page ==> after[p] == before[p]
  }

  /** An accepted mutation writes what was sent and leaves all other text alone. */
  lemma UpdateIsKept(d: Draft, editable: bool, token: nat, page: PageId, title: Option<string>, change: BodyChange)
    ensures var r := Update(d, editable, token, page, title, change); r.Ok? ==> IsEdited(d.rows, r.value.rows, page, title, change)
  {
  }

  lemma CreateIsKept(d: Draft, editable: bool, token: nat, page: PageId, title: string, canonical: Option<Json>)
    ensures var r := Create(d, editable, token, page, title, canonical); r.Ok? ==> IsAdded(d.rows, r.value.rows, page, title, canonical)
  {
  }

  lemma ReorderKeepsTexts(d: Draft, editable: bool, token: nat, ids: seq<PageId>)
    ensures var r := Reorder(d, editable, token, ids); r.Ok? ==> TextsStay(d.rows, r.value.rows, {})
  {
  }

  lemma DeleteKeepsTexts(d: Draft, editable: bool, token: nat, page: PageId)
    ensures var r := Delete(d, editable, token, page); r.Ok? ==> TextsStay(d.rows, r.value.rows, {page})
  {
    hide Listing;
  }

  // --- What the mutations keep -------------------------------------------------

  function Without(ids: seq<PageId>, page: PageId): seq<PageId> {
    if ids == [] then []
    else if ids[0] == page then Without(ids[1..], page)
    else [ids[0]] + Without(ids[1..], page)
  }

  lemma {:induction false} WithoutElements(ids: seq<PageId>, page: PageId)
    ensures forall p :: p in Without(ids, page) <==> p in ids && p != page
  {
    if ids != [] {
      WithoutElements(ids[1..], page);
      assert ids == [ids[0]] + ids[1..];
    }
  }

  lemma {:induction false} WithoutRises(rows: PageTable, ids: seq<PageId>, lo: nat, page: PageId)
    requires Rising(rows, ids, lo)
    ensures Rising(rows, Without(ids, page), lo)
  {
    if ids != [] {
      WithoutRises(rows, ids[1..], rows[ids[0]].position + 1, page);
      if ids[0] == page {
        RisingWeakens(rows, Without(ids[1..], page), rows[ids[0]].position + 1, lo);
      } else {
        assert Without(ids, page)[1..] == Without(ids[1..], page);
      }
    }
  }

  lemma RisingWeakens(rows: PageTable, ids: seq<PageId>, lo: nat, lo': nat)
    requires Rising(rows, ids, lo) && lo' <= lo
    ensures Rising(rows, ids, lo')
  {
  }

  lemma {:induction false} RisingHasNoDuplicates(rows: PageTable, ids: seq<PageId>, lo: nat)
    requires Rising(rows, ids, lo)
    ensures NoDuplicates(ids)
  {
    if ids != [] {
      RisingStaysAbove(rows, ids[1..], rows[ids[0]].position + 1);
      RisingHasNoDuplicates(rows, ids[1..], rows[ids[0]].position + 1);
      forall i, j | 0 <= i < j < |ids| ensures ids[i] != ids[j] {
        assert ids[j] == ids[1..][j - 1];
        if i > 0 {
          assert ids[i] == ids[1..][i - 1];
        }
      }
    }
  }

  lemma PositionsAreDistinct(rows: PageTable)
    requires Contiguous(rows)
    ensures DistinctPositions(rows)
  {
    ListingElements(rows);
  }

  lemma GapsKeepPositionsDistinct(rows: PageTable, page: PageId)
    requires Contiguous(rows)
    ensures DistinctPositions(rows - {page})
    ensures Enumerates(rows - {page}, Listing(rows - {page}))
  {
    PositionsAreDistinct(rows);
    DeletingKeepsTheOrder(rows, page);
  }

  lemma RenumberingOrders(rows: PageTable, ids: seq<PageId>)
    requires Enumerates(rows, ids)
    ensures Listing(Renumbered(rows, ids)) == ids
    ensures Contiguous(Renumbered(rows, ids))
  {
    var after := Renumbered(rows, ids);
    forall i | 0 <= i < |ids| ensures ids[i] in after && after[ids[i]].position == i {
      assert ids[i] in rows;
      assert ids[IndexOf(ids, ids[i])] == ids[i];
    }
    CountingIsTheListing(after, ids);
  }

  /** An enumeration of the pages at positions 0, 1, 2, ... is the listing. */
  lemma CountingIsTheListing(rows: PageTable, ids: seq<PageId>)
    requires Counts(rows, ids, 0)
    requires forall p :: p in rows ==> p in ids
    ensures Listing(rows) == ids && Contiguous(rows)
  {
    CountingRises(rows, ids, 0);
    ListingIsTheRisingOrder(rows, ids, 0);
  }

  lemma CreateAppends(rows: PageTable, page: PageId, row: PageRow)
    requires Contiguous(rows) && page !in rows && row.position == |rows|
    ensures Listing(rows[page := row]) == Listing(rows) + [page]
    ensures Contiguous(rows[page := row])
  {
    ListingElements(rows);
    CountingAppends(rows, Listing(rows), page, row);
    CountingIsTheListing(rows[page := row], Listing(rows) + [page]);
  }

  lemma CountingAppends(rows: PageTable, ids: seq<PageId>, page: PageId, row: PageRow)
    requires Counts(rows, ids, 0) && page !in rows && row.position == |ids|
    ensures Counts(rows[page := row], ids + [page], 0)
  {
  }

  lemma SamePositionsSameListing(before: PageTable, after: PageTable)
    requires Contiguous(before) && before.Keys == after.Keys
    requires forall p :: p in before ==> before[p].position == after[p].position
    ensures Listing(after) == Listing(before) && Contiguous(after)
  {
    ListingElements(before);
    CountingElsewhere(before, after, Listing(before));
    CountingIsTheListing(after, Listing(before));
  }

  lemma CountingElsewhere(before: PageTable, after: PageTable, ids: seq<PageId>)
    requires Counts(before, ids, 0) && before.Keys == after.Keys
    requires forall p :: p in before ==> before[p].position == after[p].position
    ensures Counts(after, ids, 0)
  {
  }

  lemma DeletingKeepsTheOrder(rows: PageTable, page: PageId)
    requires Contiguous(rows)
    ensures Listing(rows - {page}) == Without(Listing(rows), page)
    ensures Enumerates(rows - {page}, Listing(rows - {page}))
  {
    var ids := Listing(rows);
    ListingElements(rows);
    CountingRises(rows, ids, 0);
    WithoutElements(ids, page);
    WithoutRises(rows, ids, 0, page);
    RisingElsewhere(rows, Without(ids, page), 0, rows - {page});
    ListingIsTheRisingOrder(rows - {page}, Without(ids, page), 0);
    RisingHasNoDuplicates(rows, Without(ids, page), 0);
  }

  // After any accepted mutation the positions are 0..n-1 again, and exactly one revision was spent on the right token.

  lemma CreateKeepsPositions(d: Draft, editable: bool, token: nat, page: PageId, title: string, canonical: Option<Json>)
    requires Contiguous(d.rows) && page !in d.rows
    ensures var r := Create(d, editable, token, page, title, canonical);
            r.Ok? ==>
                Contiguous(r.value.rows) && Listing(r.value.rows) == Listing(d.rows) + [page] && token == d.revision == r.value.revision - 1
  {
    if canonical.Some? {
      CreateAppends(d.rows, page, PageRow(|d.rows|, title, canonical.value));
    }
  }

  lemma ReorderKeepsPositions(d: Draft, editable: bool, token: nat, ids: seq<PageId>)
    ensures var r := Reorder(d, editable, token, ids);
            r.Ok? ==> Contiguous(r.value.rows) && Listing(r.value.rows) == ids && token == d.revision == r.value.revision - 1
  {
    if Enumerates(d.rows, ids) {
      RenumberingOrders(d.rows, ids);
    }
  }

  lemma UpdateKeepsPositions(d: Draft, editable: bool, token: nat, page: PageId, title: Option<string>, change: BodyChange)
    requires Contiguous(d.rows)
    ensures var r := Update(d, editable, token, page, title, change);
            r.Ok? ==> Contiguous(r.value.rows) && Listing(r.value.rows) == Listing(d.rows) && token == d.revision == r.value.revision - 1
  {
    var r := Update(d, editable, token, page, title, change);
    if r.Ok? {
      assert r.value.rows.Keys == d.rows.Keys;
      SamePositionsSameListing(d.rows, r.value.rows);
    }
  }

  lemma DeleteKeepsPositions(d: Draft, editable: bool, token: nat, page: PageId)
    requires Contiguous(d.rows)
    ensures var r := Delete(d, editable, token, page);
            r.Ok? ==> Contiguous(r.value.rows) && Listing(r.value.rows) == Without(Listing(d.rows), page) && token == d.revision == r.value.revision - 1
  {
    DeletingKeepsTheOrder(d.rows, page);
    RenumberingOrders(d.rows - {page}, Listing(d.rows - {page}));
  }
}
