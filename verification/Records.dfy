/**
 * The learning-record machine: the tables, and every route that changes them as one atomic step.
 * A refused request leaves the tables as they were; an accepted one appends one event to the history.
 */
module Records {
  import opened Common
  import opened Domain
  import opened Documents
  import opened Drafts
  import Rewriting
  import Variants

  type Time = int

  datatype Status = InDraft | Published | Deleted

  datatype Module = Module(
    group: GroupId, language: Language, status: Status, current: Option<VersionId>, visible: bool,
    draft: Draft, assets: set<AssetId>, deletedVersion: Option<nat>)

  datatype Kind = Minor | Substantive

  datatype SnapshotPage = SnapshotPage(id: PageId, position: nat, title: string, body: Json)

  datatype Version = Version(mod: ModuleId, number: nat, kind: Kind, pages: seq<SnapshotPage>)

  /** One row per `Key`: per learner and body of material. */
  datatype Progress = Progress(
    mod: ModuleId, viewed: seq<PageId>, currentPage: Option<PageId>,
    completedAt: Option<Time>, completedVersion: Option<nat>, completedModule: Option<ModuleId>, supersededAt: Option<Time>)

  /**
   * `groups` maps a translation group to its primary variant. `pageOwner` records, for every page id ever issued, the
   * module it was issued to: fresh ids never repeat.
   */
  datatype Db = Db(
    users: map<UserId, User>, groups: map<GroupId, ModuleId>, modules: map<ModuleId, Module>,
    versions: map<VersionId, Version>, progress: map<Key, Progress>, assignments: map<AssignmentId, Assignment>,
    pageOwner: map<PageId, ModuleId>)

  datatype Refusal =
    | NotFound | Conflict | ModuleDeleted | OverDraft(reason: DraftRefusal) | EmptyModule | NotPublished | AlreadyDeleted
    | AlreadyAVariant | SourceNotStandalone | LanguageAlreadyExists | SourceHasProgress | NotAVariant
    | AlreadyAssigned | ModuleUnavailable | VariantUnavailable | PageNotInVersion | PagesOutstanding | TooManyPages

  datatype ImportedPage = ImportedPage(id: PageId, title: string, body: Json)

  /** Ids a request creates rows under are carried by the request; one already in use is a failed insert. */
  datatype Request =
    | SetUser(user: UserId, row: User)
    | CreateModule(group: GroupId, mod: ModuleId, language: Language)
    | DuplicateModule(source: ModuleId, group: GroupId, mod: ModuleId, pages: seq<PageId>, urls: map<string, string>, assets: set<AssetId>)
    | ImportModule(group: GroupId, mod: ModuleId, language: Language, imported: seq<ImportedPage>, assets: set<AssetId>)
    | SetCatalogVisible(mod: ModuleId, visible: bool)
    | CreatePage(mod: ModuleId, token: nat, page: PageId, title: string, canonical: Option<Json>)
    | ReorderPages(mod: ModuleId, token: nat, order: seq<PageId>)
    | UpdatePage(mod: ModuleId, token: nat, page: PageId, newTitle: Option<string>, change: BodyChange)
    | DeletePage(mod: ModuleId, token: nat, page: PageId)
    | AddAsset(mod: ModuleId, asset: AssetId)
    | RemoveAsset(mod: ModuleId, asset: AssetId)
    | Publish(mod: ModuleId, kind: Kind, version: VersionId, now: Time)
    | Unpublish(mod: ModuleId)
    | DeleteModule(mod: ModuleId)
    | LinkVariant(group: GroupId, mod: ModuleId)
    | SetPrimary(group: GroupId, mod: ModuleId)
    | CreateAssignment(id: AssignmentId, mod: ModuleId, target: Target, due: Option<Day>, mandatory: bool, autoReminders: bool)
    | DeleteAssignment(id: AssignmentId)
    | ViewPage(user: UserId, group: GroupId, page: PageId)
    | SwitchLanguage(user: UserId, group: GroupId, language: Language)
    | Complete(user: UserId, group: GroupId, now: Time)

  // --- Authoring ---------------------------------------------------------------------

  predicate FreshPages(db: Db, pages: seq<PageId>) {
    NoDuplicates(pages) && forall p :: p in pages ==> p !in db.pageOwner
  }

  function OwnedBy(pages: seq<PageId>, m: ModuleId): map<PageId, ModuleId> {
    map p | p in pages :: m
  }

  /** A new module in a new group of its own, nominated its primary. */
  function NewModule(db: Db, group: GroupId, m: ModuleId, language: Language, rows: PageTable, assets: set<AssetId>,
        pages: seq<PageId>): Result<Db, Refusal> {
    if group in db.groups || m in db.modules || !FreshPages(db, pages) then Err(Conflict)
    else
      var row := Module(group, language, InDraft, None, false, Draft(1, rows), assets, None);
      Ok(db.(groups := db.groups[group := m], modules := db.modules[m := row], pageOwner := db.pageOwner + OwnedBy(pages, m)))
  }

  /** The source's rows under new ids, in the source's positions, repointed at the copy's own assets. */
  ghost function CopiedRows(rows: PageTable, pages: seq<PageId>, urls: map<string, string>): PageTable
    requires |pages| == |rows|
  {
    map p | p in pages :: var row := rows[OriginalOf(rows, pages, p)]; row.(body := Rewriting.ByUrl(row.body, urls))
  }

  ghost function OriginalOf(rows: PageTable, pages: seq<PageId>, p: PageId): (q: PageId)
    requires |pages| == |rows| && p in pages
    ensures q in rows
  {
    ListingElements(rows);
    var q := Listing(rows)[IndexOf(pages, p)];
    assert q in Listing(rows);
    q
  }

  ghost function AfterDuplicate(db: Db, source: ModuleId, group: GroupId, m: ModuleId, pages: seq<PageId>,
        urls: map<string, string>, assets: set<AssetId>): Result<Db, Refusal> {
    if source !in db.modules then Err(NotFound)
    else if db.modules[source].status.Deleted? then Err(ModuleDeleted)
    else if |pages| != |db.modules[source].draft.rows| then Err(Conflict)
    else NewModule(db, group, m, db.modules[source].language, CopiedRows(db.modules[source].draft.rows, pages, urls), assets, pages)
  }

  function ImportedIds(pages: seq<ImportedPage>): (ids: seq<PageId>)
    ensures |ids| == |pages| && forall i :: 0 <= i < |pages| ==> ids[i] == pages[i].id
  {
    if pages == [] then [] else [pages[0].id] + ImportedIds(pages[1..])
  }

  function ImportedRows(pages: seq<ImportedPage>): PageTable {
    var ids := ImportedIds(pages);
    map p | p in ids :: PageRow(IndexOf(ids, p), pages[IndexOf(ids, p)].title, pages[IndexOf(ids, p)].body)
  }

  function AfterImport(db: Db, group: GroupId, m: ModuleId, language: Language, pages: seq<ImportedPage>,
        assets: set<AssetId>): Result<Db, Refusal> {
    if |pages| > MAX_PAGES then Err(TooManyPages)
    else NewModule(db, group, m, language, ImportedRows(pages), assets, ImportedIds(pages))
  }

  function Editable(db: Db, m: ModuleId): bool {
    m in db.modules && !db.modules[m].status.Deleted?
  }

  /** A draft mutation of module `m`, which may issue the page ids `pages`. */
  function WithDraft(db: Db, m: ModuleId, d: Result<Draft, DraftRefusal>, pages: seq<PageId>): Result<Db, Refusal>
    requires m in db.modules
  {
    if d.Err? then Err(OverDraft(d.error))
    else if !FreshPages(db, pages) then Err(Conflict)
    else Ok(db.(modules := db.modules[m := db.modules[m].(draft := d.value)], pageOwner := db.pageOwner + OwnedBy(pages, m)))
  }

  function WithModule(db: Db, m: ModuleId, row: Module): Db {
    db.(modules := db.modules[m := row])
  }

  // --- Publishing and deleting ----------------------------------------------------------

  /** `coalesce(max(version_number), 0)` over this module's versions. */
  ghost function Highest(versions: map<VersionId, Version>, m: ModuleId): (h: nat)
    ensures forall v :: v in versions && versions[v].mod == m ==> versions[v].number <= h
    ensures h == 0 || exists v :: v in versions && versions[v].mod == m && versions[v].number == h
    decreases |versions|
  {
    if versions == map[] then 0
    else
      var v :| v in versions;
      var rest := Highest(versions - {v}, m);
      assert forall w :: w in versions ==> w == v || w in versions - {v};
      if versions[v].mod == m && versions[v].number > rest then versions[v].number else rest
  }

  ghost function Snapshot(rows: PageTable): seq<SnapshotPage> {
    ListingElements(rows);
    var ids := Listing(rows);
    seq(|ids|, i requires 0 <= i < |ids| =>
      assert ids[i] in ids; SnapshotPage(ids[i], rows[ids[i]].position, rows[ids[i]].title, rows[ids[i]].body))
  }

  function PageIds(pages: seq<SnapshotPage>): (ids: seq<PageId>)
    ensures |ids| == |pages| && forall i :: 0 <= i < |pages| ==> ids[i] == pages[i].id
  {
    if pages == [] then [] else [pages[0].id] + PageIds(pages[1..])
  }

  /** A learner put back at the start; a completion they had stays on record, marked as no longer current. */
  function Outstanding(row: Progress, now: Time): Progress {
    row.(viewed := [], currentPage := None, supersededAt := if row.completedAt.Some? then Some(now) else None)
  }

  /** `_send_learners_back`: one UPDATE over the rows of the group. */
  function SentBack(progress: map<Key, Progress>, group: GroupId, now: Time): map<Key, Progress> {
    map k | k in progress :: if k.group == group then Outstanding(progress[k], now) else progress[k]
  }

  ghost function AfterPublish(db: Db, m: ModuleId, kind: Kind, v: VersionId, now: Time): Result<Db, Refusal> {
    if m !in db.modules then Err(NotFound)
    else
      var row := db.modules[m];
      if row.status.Deleted? then Err(ModuleDeleted)
      else if row.draft.rows == map[] then Err(EmptyModule)
      else if v in db.versions then Err(Conflict)
      else
        var version := Version(m, Highest(db.versions, m) + 1, kind, Snapshot(row.draft.rows));
        Ok(db.(
          versions := db.versions[v := version],
          modules := db.modules[m := row.(status := Published, current := Some(v))],
          progress := if kind.Substantive? then SentBack(db.progress, row.group, now) else db.progress))
  }

  function AfterUnpublish(db: Db, m: ModuleId): Result<Db, Refusal> {
    if m !in db.modules then Err(NotFound)
    else if !db.modules[m].status.Published? then Err(NotPublished)
    else Ok(WithModule(db, m, db.modules[m].(status := InDraft)))
  }

  function CurrentNumber(db: Db, m: ModuleId): Option<nat>
    requires m in db.modules
  {
    match db.modules[m].current
    case None => None
    case Some(v) => if v in db.versions then Some(db.versions[v].number) else None
  }

  function WithoutAssignmentsOf(assignments: map<AssignmentId, Assignment>, group: GroupId): map<AssignmentId, Assignment> {
    map a | a in assignments && assignments[a].group != group :: assignments[a]
  }

  function Tombstone(db: Db, m: ModuleId): Module
    requires m in db.modules
  {
    var row := db.modules[m];
    row.(status := Deleted, current := None, visible := false, draft := row.draft.(rows := map[]), assets := {},
        deletedVersion := CurrentNumber(db, m))
  }

  function AfterDelete(db: Db, m: ModuleId): Result<Db, Refusal> {
    if m !in db.modules then Err(NotFound)
    else if db.modules[m].status.Deleted? then Err(AlreadyDeleted)
    else
      Ok(db.(
        modules := db.modules[m := Tombstone(db, m)],
        versions := map v | v in db.versions && db.versions[v].mod != m :: db.versions[v],
        assignments := WithoutAssignmentsOf(db.assignments, db.modules[m].group)))
  }

  // --- Translations -----------------------------------------------------------------------

  function Siblings(db: Db, group: GroupId): set<ModuleId> {
    set m | m in db.modules && db.modules[m].group == group
  }

  predicate HasProgress(db: Db, group: GroupId) {
    exists k :: k in db.progress && k.group == group
  }

  /** Joins the group, and deletes the group left behind with everything that cascades from it. */
  function AfterLink(db: Db, group: GroupId, m: ModuleId): Result<Db, Refusal> {
    if group !in db.groups || m !in db.modules then Err(NotFound)
    else
      var row := db.modules[m];
      if row.group == group then Err(AlreadyAVariant)
      else if row.status.Deleted? then Err(ModuleDeleted)
      else if Siblings(db, row.group) != {m} then Err(SourceNotStandalone)
      else if exists v :: v in db.modules && db.modules[v].group == group && db.modules[v].language == row.language then Err(LanguageAlreadyExists)
      else if HasProgress(db, row.group) then Err(SourceHasProgress)
      else
        Ok(db.(
          modules := db.modules[m := row.(group := group)],
          groups := db.groups - {row.group},
          progress := map k | k in db.progress && k.group != row.group :: db.progress[k],
          assignments := WithoutAssignmentsOf(db.assignments, row.group)))
  }

  function AfterSetPrimary(db: Db, group: GroupId, m: ModuleId): Result<Db, Refusal> {
    if group !in db.groups || m !in db.modules then Err(NotFound)
    else if db.modules[m].group != group then Err(NotAVariant)
    else Ok(db.(groups := db.groups[group := m]))
  }

  // --- Assigning ------------------------------------------------------------------------------

  function AfterAssign(db: Db, id: AssignmentId, m: ModuleId, target: Target, due: Option<Day>, mandatory: bool,
        autoReminders: bool): Result<Db, Refusal> {
    if m !in db.modules then Err(NotFound)
    else if db.modules[m].status.Deleted? then Err(ModuleDeleted)
    else if target.ToUser? && (target.user !in db.users || db.users[target.user].erased) then Err(NotFound)
    else if id in db.assignments then Err(Conflict)
    else if exists a :: a in db.assignments && db.assignments[a].group == db.modules[m].group && db.assignments[a].target == target then Err(AlreadyAssigned)
    else Ok(db.(assignments := db.assignments[id := Assignment(db.modules[m].group, target, due, mandatory, autoReminders)]))
  }

  // --- Learning -------------------------------------------------------------------------------

  function AssignedGroups(db: Db, u: UserId): set<GroupId>
    requires u in db.users
  {
    set a | a in db.assignments && Names(db.assignments[a], u, db.users[u]) :: db.assignments[a].group
  }

  /** `may_read_module` */
  predicate MayRead(user: User, row: Module, reach: set<GroupId>) {
    user.author || (row.status.Published? && (row.visible || row.group in reach))
  }

  /** The published variants of the group that this learner may read. */
  predicate Readable(db: Db, u: UserId, g: GroupId, m: ModuleId)
    requires u in db.users
  {
    && m in db.modules
    && db.modules[m].group == g
    && db.modules[m].status.Published?
    && db.modules[m].current.Some?
    && MayRead(db.users[u], db.modules[m], AssignedGroups(db, u))
  }

  function ReadableVariants(db: Db, u: UserId, g: GroupId): set<Variants.Variant>
    requires u in db.users
  {
    set m | m in db.modules && Readable(db, u, g, m) :: Variants.Variant(db.modules[m].language, m)
  }

  function Sticky(db: Db, k: Key): Option<ModuleId> {
    if k in db.progress then Some(db.progress[k].mod) else None
  }

  /** The module this learner opens; `None` is the one 404. */
  ghost function Resolve(db: Db, u: UserId, g: GroupId): (r: Option<ModuleId>)
    requires u in db.users
    ensures r.Some? ==> g in db.groups && Readable(db, u, g, r.value) && db.modules[r.value].current.value in db.versions
  {
    if g !in db.groups then None
    else
      match Variants.Pick(ReadableVariants(db, u, g), db.users[u].preferred, Some(db.groups[g]), Sticky(db, Key(u, g)))
      case None => None
      case Some(v) => if db.modules[v.id].current.value in db.versions then Some(v.id) else None
  }

  /** The row of this learner, created if this is their first read. */
  function Claimed(db: Db, k: Key, m: ModuleId): Progress {
    if k in db.progress then db.progress[k] else Progress(m, [], None, None, None, None, None)
  }

  function CurrentVersion(db: Db, m: ModuleId): Version
    requires m in db.modules && db.modules[m].current.Some? && db.modules[m].current.value in db.versions
  {
    db.versions[db.modules[m].current.value]
  }

  function RowAfterView(row: Progress, p: PageId): Progress {
    row.(viewed := if p in row.viewed then row.viewed else row.viewed + [p], currentPage := Some(p))
  }

  ghost function AfterView(db: Db, u: UserId, g: GroupId, p: PageId): Result<Db, Refusal> {
    if u !in db.users || Resolve(db, u, g).None? then Err(ModuleUnavailable)
    else
      var m := Resolve(db, u, g).value;
      if p !in PageIds(CurrentVersion(db, m).pages) then Err(PageNotInVersion)
      else Ok(db.(progress := db.progress[Key(u, g) := RowAfterView(Claimed(db, Key(u, g), m), p)]))
  }

  function Speaking(vs: set<Variants.Variant>, language: Language): set<Variants.Variant> {
    set v | v in vs && v.language == language
  }

  function RowAfterSwitch(row: Progress, m: ModuleId): Progress {
    if row.mod == m then row else row.(mod := m, viewed := [], currentPage := None)
  }

  ghost function AfterSwitch(db: Db, u: UserId, g: GroupId, language: Language): Result<Db, Refusal> {
    if u !in db.users then Err(VariantUnavailable)
    else
      var targets := Speaking(ReadableVariants(db, u, g), language);
      if targets == {} then Err(VariantUnavailable)
      else
        var m := Variants.First(targets).id;
        if m !in db.modules || db.modules[m].current.None? || db.modules[m].current.value !in db.versions then Err(ModuleUnavailable)
        else Ok(db.(progress := db.progress[Key(u, g) := RowAfterSwitch(Claimed(db, Key(u, g), m), m)]))
  }

  function RowAfterCompletion(row: Progress, m: ModuleId, number: nat, now: Time): Progress {
    row.(completedAt := Some(now), completedVersion := Some(number), completedModule := Some(m), supersededAt := None)
  }

  ghost function AfterComplete(db: Db, u: UserId, g: GroupId, now: Time): Result<Db, Refusal> {
    if u !in db.users || Resolve(db, u, g).None? then Err(ModuleUnavailable)
    else
      var m := Resolve(db, u, g).value;
      var row := Claimed(db, Key(u, g), m);
      var version := CurrentVersion(db, m);
      if exists p :: p in PageIds(version.pages) && p !in row.viewed then Err(PagesOutstanding)
      else Ok(db.(progress := db.progress[Key(u, g) := RowAfterCompletion(row, m, version.number, now)]))
  }

  // --- One request ----------------------------------------------------------------------------

  ghost function Apply(db: Db, r: Request): Result<Db, Refusal> {
    match r
    case SetUser(u, row) => Ok(db.(users := db.users[u := row]))
    case CreateModule(g, m, language) => NewModule(db, g, m, language, map[], {}, [])
    case DuplicateModule(source, g, m, pages, urls, assets) => AfterDuplicate(db, source, g, m, pages, urls, assets)
    case ImportModule(g, m, language, pages, assets) => AfterImport(db, g, m, language, pages, assets)
    case SetCatalogVisible(m, visible) =>
      if m !in db.modules then Err(NotFound)
      else if !Editable(db, m) then Err(ModuleDeleted)
      else Ok(WithModule(db, m, db.modules[m].(visible := visible)))
    case CreatePage(m, token, page, title, canonical) =>
      if m !in db.modules then Err(NotFound)
      else WithDraft(db, m, Create(db.modules[m].draft, Editable(db, m), token, page, title, canonical), [page])
    case ReorderPages(m, token, order) =>
      if m !in db.modules then Err(NotFound)
      else WithDraft(db, m, Reorder(db.modules[m].draft, Editable(db, m), token, order), [])
    case UpdatePage(m, token, page, title, change) =>
      if m !in db.modules then Err(NotFound)
      else WithDraft(db, m, Update(db.modules[m].draft, Editable(db, m), token, page, title, change), [])
    case DeletePage(m, token, page) =>
      if m !in db.modules then Err(NotFound)
      else WithDraft(db, m, Delete(db.modules[m].draft, Editable(db, m), token, page), [])
    case AddAsset(m, asset) =>
      if m !in db.modules then Err(NotFound)
      else if !Editable(db, m) then Err(ModuleDeleted)
      else Ok(WithModule(db, m, db.modules[m].(assets := db.modules[m].assets + {asset})))
    case RemoveAsset(m, asset) =>
      if m !in db.modules || asset !in db.modules[m].assets then Err(NotFound)
      else Ok(WithModule(db, m, db.modules[m].(assets := db.modules[m].assets - {asset})))
    case Publish(m, kind, v, now) => AfterPublish(db, m, kind, v, now)
    case Unpublish(m) => AfterUnpublish(db, m)
    case DeleteModule(m) => AfterDelete(db, m)
    case LinkVariant(g, m) => AfterLink(db, g, m)
    case SetPrimary(g, m) => AfterSetPrimary(db, g, m)
    case CreateAssignment(id, m, target, due, mandatory, auto) => AfterAssign(db, id, m, target, due, mandatory, auto)
    case DeleteAssignment(id) => if id !in db.assignments then Err(NotFound) else Ok(db.(assignments := db.assignments - {id}))
    case ViewPage(u, g, p) => AfterView(db, u, g, p)
    case SwitchLanguage(u, g, language) => AfterSwitch(db, u, g, language)
    case Complete(u, g, now) => AfterComplete(db, u, g, now)
  }

  // --- Runs, with what happened in them ----------------------------------------------------------

  /** What an accepted request leaves in the history. */
  datatype Event =
    | Publication(mod: ModuleId, group: GroupId, number: nat, kind: Kind, pages: seq<PageId>)
    | PageView(user: UserId, group: GroupId, mod: ModuleId, page: PageId)
    | TextChange(user: UserId, group: GroupId, mod: ModuleId)
    | Attestation(user: UserId, group: GroupId, mod: ModuleId, number: nat)
    | Other

  ghost function EventOf(db: Db, r: Request): Event
    requires Apply(db, r).Ok?
  {
    match r
    case Publish(m, kind, v, now) =>
      Publication(m, db.modules[m].group, Highest(db.versions, m) + 1, kind, PageIds(Snapshot(db.modules[m].draft.rows)))
    case ViewPage(u, g, p) => PageView(u, g, Resolve(db, u, g).value, p)
    case SwitchLanguage(u, g, language) =>
      var m := Variants.First(Speaking(ReadableVariants(db, u, g), language)).id;
      if Key(u, g) in db.progress && db.progress[Key(u, g)].mod != m then TextChange(u, g, m) else Other
    case Complete(u, g, now) => Attestation(u, g, Resolve(db, u, g).value, CurrentVersion(db, Resolve(db, u, g).value).number)
    case _ => Other
  }

  datatype World = World(db: Db, history: seq<Event>)

  const EMPTY: World := World(Db(map[], map[], map[], map[], map[], map[], map[]), [])

  ghost function Next(w: World, r: Request): World {
    match Apply(w.db, r)
    case Ok(db) => World(db, w.history + [EventOf(w.db, r)])
    case Err(_) => w
  }

  ghost function Run(w: World, requests: seq<Request>): World {
    if requests == [] then w else Next(Run(w, requests[..|requests| - 1]), requests[|requests| - 1])
  }
}
