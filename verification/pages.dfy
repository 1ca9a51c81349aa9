/** Pages of a store: the Page record and its `unique(page)` key, the create
    operation, the per-store scan, and the page resolver behind `displayPage`. */
module Pages {
  import opened Wrappers
  import opened Records

  datatype Page = Page(
    id: int,
    storeId: int,
    templateName: string,
    name: string,
    title: string,
    description: string,
    content: string,
    createdAt: Time,
    updatedAt: Time)

  /** The Id (the primary key by xorm's naming rule) and the `unique(page)`
      index over StoreId, TemplateName and Name. */
  function PageKeys(p: Page): set<Key>
  {
    PrimaryKey(p.id) + {Key("page", [Int(p.storeId), Str(p.templateName), Str(p.name)])}
  }

  function StampPage(p: Page, created: Time, updated: Time): Page
  {
    p.(createdAt := created, updatedAt := updated)
  }

  const PageDuplicate: string := "page name was already existing."

  const PageKind: EntityKind<Page> := EntityKind("page", PageKeys, StampPage, PageDuplicate)

  /** `Page.create`: both timestamps overwritten from the clock readings,
      whatever the caller put there, then insert with uniqueness translation. */
  function CreatePage(t: seq<Page>, p: Page, created: Time, updated: Time,
                      fault: Option<string>): (out: CreateOutcome<Page>)
    ensures out.row == p.(createdAt := created, updatedAt := updated)
    ensures out.err.None? <==> fault.None? && !Collides(t, p, PageKeys)
    ensures InsertTranslated(t, out.row, PageKeys, PageDuplicate, fault, out)
  {
    Create(t, p, PageKind, created, updated, fault)
  }

  /** Two pages of one store with the same name but different templates do not
      collide, so both can be created. */
  lemma SameNameOtherTemplateCoexist(p: Page, q: Page, created: Time, updated: Time)
    requires p.storeId == q.storeId && p.name == q.name
    requires p.templateName != q.templateName
    requires p.id == 0 || p.id != q.id
    ensures PageKeys(p) !! PageKeys(q)
    ensures CreatePage([p], q, created, updated, None).err.None?
    ensures CreatePage([p], q, created, updated, None).table == [p, StampPage(q, created, updated)]
  {
  }

  /** Creating a page whose StoreId, TemplateName and Name are already taken
      yields the already-exists error with code 4001, not a plain store error,
      however the other fields differ. */
  lemma DuplicatePageIsAlreadyExists(p: Page, q: Page, created: Time, updated: Time)
    requires p.storeId == q.storeId && p.templateName == q.templateName && p.name == q.name
    ensures CreatePage([p], q, created, updated, None).err
         == Some(AppError(UniqueViolation("page"), PageDuplicate, AlreadyExistsCode))
    ensures CreatePage([p], q, created, updated, None).table == [p]
  {
    assert !(PageKeys([p][0]) !! PageKeys(q));
  }

  /** `getPages(storeId)`: the rows of the page table with that StoreId, each
      as many times as the table holds it; a failed scan is `getPages`' panic. */
  function GetPages(t: seq<Page>, storeId: int, fault: Option<string>): (r: Result<seq<Page>, DbFailure>)
    ensures r.Failure? <==> fault.Some?
    ensures fault.Some? ==> r == Failure(DbFailure(fault.value))
    ensures r.Success? ==> forall p :: p in r.value ==> p in t && p.storeId == storeId
    ensures r.Success? ==>
      forall p :: p in t && p.storeId == storeId ==> multiset(r.value)[p] == multiset(t)[p]
  {
    match fault
    case Some(text) => Failure(DbFailure(text))
    case None => Success(Filter(t, (p: Page) => p.storeId == storeId))
  }

  /** Page `i` is the first one named `pageName`. */
  ghost predicate FirstNamed(pages: seq<Page>, pageName: string, i: int)
  {
    && 0 <= i < |pages|
    && pages[i].name == pageName
    && forall k :: 0 <= k < i ==> pages[k].name != pageName
  }

  /** The `range` loop of `displayPage` from position `k` on, stopping at the
      first exact name match. */
  function FindFrom(pages: seq<Page>, pageName: string, k: nat): (r: Option<Page>)
    requires k <= |pages|
    requires forall j :: 0 <= j < k ==> pages[j].name != pageName
    ensures r.Some? <==> exists i :: k <= i < |pages| && pages[i].name == pageName
    ensures r.Some? ==> exists i :: FirstNamed(pages, pageName, i) && pages[i] == r.value
    decreases |pages| - k
  {
    if k == |pages| then None
    else if pages[k].name == pageName then
      assert FirstNamed(pages, pageName, k);
      Some(pages[k])
    else FindFrom(pages, pageName, k + 1)
  }

  /** The first page named `pageName`, or None when no page has that name. */
  function FindPage(pages: seq<Page>, pageName: string): (r: Option<Page>)
    ensures r.Some? <==> exists i :: 0 <= i < |pages| && pages[i].name == pageName
    ensures r.Some? ==> exists i :: FirstNamed(pages, pageName, i) && pages[i] == r.value
  {
    FindFrom(pages, pageName, 0)
  }

  /** The render call `r.HTML(status, template, data)` as a value. */
  datatype Render = Render(status: int, template: string, data: Page)

  /** `displayPage` with the missed lookup made explicit: None is the
      not-found outcome; a match renders with status 200 through the matched
      page's own template, with that page as data. */
  function DisplayPage(pages: seq<Page>, pageName: string): (r: Option<Render>)
    ensures r.Some? <==> exists i :: 0 <= i < |pages| && pages[i].name == pageName
    ensures r.Some? ==> r.value.status == 200 && r.value.template == r.value.data.templateName
    ensures r.Some? ==> exists i :: FirstNamed(pages, pageName, i) && pages[i] == r.value.data
  {
    match FindPage(pages, pageName)
    case Some(p) => Some(Render(200, p.templateName, p))
    case None => None
  }

  /** What `displayPage` does as written: the page pointer stays nil when no
      name matches, and the render call dereferences it. */
  datatype Rendering = Rendered(render: Render) | NilDereference

  function DisplayPageAsWritten(pages: seq<Page>, pageName: string): (r: Rendering)
    ensures r.NilDereference? <==> forall i :: 0 <= i < |pages| ==> pages[i].name != pageName
    ensures r.Rendered? ==> r.render.status == 200 && r.render.template == r.render.data.templateName
    ensures r.Rendered? ==> exists i :: FirstNamed(pages, pageName, i) && pages[i] == r.render.data
  {
    match FindPage(pages, pageName)
    case Some(p) => Rendered(Render(200, p.templateName, p))
    case None => NilDereference
  }

  /** A store with pages "home" and "about" asked for "contact": the Go code
      dereferences nil, the corrected resolver reports not-found. */
  lemma MissingPageDereferencesNil(home: Page, about: Page)
    requires home.name == "home" && about.name == "about"
    ensures DisplayPageAsWritten([home, about], "contact") == NilDereference
    ensures DisplayPage([home, about], "contact") == None
  {
  }
}
