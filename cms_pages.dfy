/** Page registry: static pages with a slug that is meant to be unique
    regardless of case and tenant. Creation checks case-insensitively;
    lookup by slug is exact; the store's own index on slug is exact. */
module CmsPages {
  import opened Common
  import Query

  /** A stored page; the tenant id is nullable. */
  datatype Page = Page(
    id: nat,
    tenantId: Option<string>,
    slug: string,
    title: string,
    content: string,
    createdAt: int,
    updatedAt: int)

  datatype NewPage = NewPage(slug: string, title: string, content: string, tenantId: Option<string>)

  /** A partial update; `tenantId == Some(None)` sets the tenant to null. */
  datatype PagePatch = PagePatch(
    slug: Option<string>,
    title: Option<string>,
    content: Option<string>,
    tenantId: Option<Option<string>>)

  const ConflictMessage := "Page with this slug already exists"

  function CreatedAt(p: Page): int { p.createdAt }

  predicate Carries(p: Page, input: NewPage) {
    p.slug == input.slug && p.title == input.title && p.content == input.content && p.tenantId == input.tenantId
  }

  /** The primary key. */
  function IdOf(p: Page): nat { p.id }

  /** What the store's plain unique index on slug guarantees. */
  ghost predicate DistinctSlugs(rows: seq<Page>) {
    forall i, j :: 0 <= i < j < |rows| ==> rows[i].slug != rows[j].slug
  }

  /** The intended invariant: no two slugs equal after case folding. */
  ghost predicate FoldedUnique(rows: seq<Page>) {
    forall i, j :: 0 <= i < j < |rows| ==> Lower(rows[i].slug) != Lower(rows[j].slug)
  }

  lemma FoldedUniqueIsStronger(rows: seq<Page>)
    requires FoldedUnique(rows)
    ensures DistinctSlugs(rows)
  {
  }

  // ---------------------------------------------------------------------
  // Queries

  /** findAll: every page, newest first. */
  function FindAll(rows: seq<Page>): (r: seq<Page>)
    ensures Query.SortedDesc(r, CreatedAt)
    ensures multiset(r) == multiset(rows)
  {
    Query.SortDesc(rows, CreatedAt)
  }

  /** The pre-check of create: the first page whose slug equals `slug`
      after lower-casing both, of any tenant. */
  function FindFolded(rows: seq<Page>, slug: string): (r: Option<Page>)
    ensures r.Some? ==> r.value in rows && Lower(r.value.slug) == Lower(slug)
    ensures r.None? ==> forall k :: 0 <= k < |rows| ==> Lower(rows[k].slug) != Lower(slug)
  {
    match Query.FirstIndex(rows, (p: Page) => Lower(p.slug) == Lower(slug))
    case None => None
    case Some(i) => Some(rows[i])
  }

  /** findBySlug's query: the slug matches exactly, and the tenant only
      when a non-empty tenant id is given. */
  predicate SlugQuery(p: Page, slug: string, tenant: Option<string>) {
    p.slug == slug && (Supplied(tenant) ==> p.tenantId == Some(tenant.value))
  }

  /** findBySlug: the first page the query selects, or NotFound naming the slug. */
  function FindBySlug(rows: seq<Page>, slug: string, tenant: Option<string>): (r: Result<Page>)
    ensures r.Ok? <==> exists k :: 0 <= k < |rows| && SlugQuery(rows[k], slug, tenant)
    ensures r.Ok? ==> r.value in rows && SlugQuery(r.value, slug, tenant)
    ensures r.Err? ==> r.error == NotFound(SlugKey(slug))
  {
    match Query.FirstIndex(rows, (p: Page) => SlugQuery(p, slug, tenant))
    case None => Err(NotFound(SlugKey(slug)))
    case Some(i) => Ok(rows[i])
  }

  /** Since the store keeps slugs distinct, the tenant filter can only
      turn a hit into NotFound, never select a different page. */
  lemma TenantFilterOnlyNarrows(rows: seq<Page>, slug: string, tenant: Option<string>)
    requires DistinctSlugs(rows)
    ensures FindBySlug(rows, slug, tenant).Ok? ==> FindBySlug(rows, slug, None) == FindBySlug(rows, slug, tenant)
  {
    var narrow := FindBySlug(rows, slug, tenant);
    if narrow.Ok? {
      var wide := FindBySlug(rows, slug, None);
      var i :| 0 <= i < |rows| && rows[i] == narrow.value;
      var j :| 0 <= j < |rows| && rows[j] == wide.value;
      assert rows[i].slug == rows[j].slug;
    }
  }

  /** findOne: the page with this id, or NotFound naming it. */
  function FindOne(rows: seq<Page>, id: nat): (r: Result<Page>)
    ensures r.Ok? <==> exists k :: 0 <= k < |rows| && rows[k].id == id
    ensures r.Ok? ==> r.value in rows && r.value.id == id
    ensures r.Err? ==> r.error == NotFound(IdKey(id))
  {
    match Query.KeyIndex(rows, IdOf, id)
    case None => Err(NotFound(IdKey(id)))
    case Some(i) => Ok(rows[i])
  }

  lemma FindOneDistinct(rows: seq<Page>, k: nat)
    requires Query.DistinctKeys(rows, IdOf) && k < |rows|
    ensures FindOne(rows, rows[k].id) == Ok(rows[k])
    ensures Query.KeyIndex(rows, IdOf, rows[k].id) == Some(k)
  {
    Query.KeyIndexDistinct(rows, IdOf, k);
  }

  // ---------------------------------------------------------------------
  // Properties of creation

  /** A page whose slug passed the pre-check keeps the store free of
      case-folded duplicates. */
  lemma AppendKeepsFoldedUnique(rows: seq<Page>, p: Page)
    requires FoldedUnique(rows) && FindFolded(rows, p.slug).None?
    ensures FoldedUnique(rows + [p])
  {
    var s := rows + [p];
    forall i, j | 0 <= i < j < |s| ensures Lower(s[i].slug) != Lower(s[j].slug) {
      if j == |rows| { assert s[i] == rows[i]; } else { assert s[i] == rows[i] && s[j] == rows[j]; }
    }
  }

  /** Passing the pre-check also satisfies the store's exact index. */
  lemma PrecheckImpliesIndex(rows: seq<Page>, p: Page)
    requires DistinctSlugs(rows) && FindFolded(rows, p.slug).None?
    ensures DistinctSlugs(rows + [p])
  {
    var s := rows + [p];
    forall i, j | 0 <= i < j < |s| ensures s[i].slug != s[j].slug {
      if j == |rows| { assert s[i] == rows[i]; } else { assert s[i] == rows[i] && s[j] == rows[j]; }
    }
  }

  /** Creating "home" conflicts with a stored "Home" (folded match), yet
      looking up "home" finds nothing (exact match). The only demand on the
      other pages is the one a successful create of "Home" leaves behind:
      none of them folds to "home"; pairs of other slugs may clash. */
  lemma HomeAsymmetry(rows: seq<Page>, k: nat, tenant: Option<string>)
    requires k < |rows| && rows[k].slug == "Home"
    requires forall j :: 0 <= j < |rows| && j != k ==> Lower(rows[j].slug) != "home"
    ensures FindFolded(rows, "home").Some?
    ensures FindBySlug(rows, "home", tenant) == Err(NotFound(SlugKey("home")))
  {
    assert Lower("Home") == "home";
    assert Lower("home") == "home";
  }

  /** Whatever the store held, once create has accepted "Home" (no stored
      slug folds to its fold), "home" conflicts and findBySlug("home") is
      NotFound, even if updates left other case-variant pairs behind. */
  lemma CreatedHomeShowsAsymmetry(rows: seq<Page>, p: Page, tenant: Option<string>)
    requires FindFolded(rows, p.slug).None? && p.slug == "Home"
    ensures FindFolded(rows + [p], "home").Some?
    ensures FindBySlug(rows + [p], "home", tenant) == Err(NotFound(SlugKey("home")))
  {
    var s := rows + [p];
    assert Lower("Home") == "home";
    forall j | 0 <= j < |s| && j != |rows| ensures Lower(s[j].slug) != "home" {
      assert s[j] == rows[j];
    }
    HomeAsymmetry(s, |rows|, tenant);
  }

  // ---------------------------------------------------------------------
  // Merge-style update

  /** Object.assign of the patch over the stored page. */
  function Merge(p: Page, patch: PagePatch): (r: Page)
    ensures r.id == p.id && r.createdAt == p.createdAt && r.updatedAt == p.updatedAt
    ensures patch.slug.None? ==> r.slug == p.slug
    ensures patch.slug.Some? ==> r.slug == patch.slug.value
    ensures patch.title.None? ==> r.title == p.title
    ensures patch.title.Some? ==> r.title == patch.title.value
    ensures patch.content.None? ==> r.content == p.content
    ensures patch.content.Some? ==> r.content == patch.content.value
    ensures patch.tenantId.None? ==> r.tenantId == p.tenantId
    ensures patch.tenantId.Some? ==> r.tenantId == patch.tenantId.value
    ensures patch == PagePatch(None, None, None, None) ==> r == p
  {
    p.(slug := patch.slug.GetOr(p.slug),
       title := patch.title.GetOr(p.title),
       content := patch.content.GetOr(p.content),
       tenantId := patch.tenantId.GetOr(p.tenantId))
  }

  lemma MergeLaws(p: Page, patch: PagePatch, title: string, content: string)
    ensures Merge(p, PagePatch(None, None, None, None)) == p
    ensures Merge(p, PagePatch(None, Some(title), Some(content), None)) == p.(title := title, content := content)
    ensures Merge(Merge(p, patch), patch) == Merge(p, patch)
    ensures Merge(p, patch).id == p.id && Merge(p, patch).createdAt == p.createdAt
  {
  }

  /** Some other page already holds exactly this slug: the store's unique
      index rejects the save. */
  predicate SlugHeldByOther(rows: seq<Page>, i: nat, slug: string) {
    exists k :: 0 <= k < |rows| && k != i && rows[k].slug == slug
  }

  /** Saving `p` in place of page `i` keeps the exact slug index intact
      exactly when no other page holds its slug: the index rejects the save
      in precisely the case SlugHeldByOther names. */
  lemma SlugIndexRejects(rows: seq<Page>, i: nat, p: Page)
    requires DistinctSlugs(rows) && i < |rows|
    ensures DistinctSlugs(rows[i := p]) <==> !SlugHeldByOther(rows, i, p.slug)
  {
    var s := rows[i := p];
    if SlugHeldByOther(rows, i, p.slug) {
      var k :| 0 <= k < |rows| && k != i && rows[k].slug == p.slug;
      if k < i { assert s[k].slug == s[i].slug; } else { assert s[i].slug == s[k].slug; }
    } else {
      forall a, b | 0 <= a < b < |s| ensures s[a].slug != s[b].slug {
        if a == i { assert s[b] == rows[b]; }
        else if b == i { assert s[a] == rows[a]; }
        else { assert s[a] == rows[a] && s[b] == rows[b]; }
      }
    }
  }

  /** Update re-checks only the exact index, so a case variant of another
      page's slug is accepted and the folded uniqueness is lost. */
  lemma CaseVariantUpdateBreaksFoldedUniqueness(now: int)
    ensures var rows := [Page(0, None, "Home", "Home", "", 0, 0), Page(1, None, "about", "About", "", 0, 0)];
            var patch := PagePatch(Some("home"), None, None, None);
            && FoldedUnique(rows)
            && !SlugHeldByOther(rows, 1, Merge(rows[1], patch).slug)
            && !FoldedUnique(rows[1 := Merge(rows[1], patch).(updatedAt := now)])
  {
    var rows := [Page(0, None, "Home", "Home", "", 0, 0), Page(1, None, "about", "About", "", 0, 0)];
    assert Lower("Home") == "home" && Lower("about") == "about" && Lower("home") == "home";
    var after := rows[1 := Merge(rows[1], PagePatch(Some("home"), None, None, None)).(updatedAt := now)];
    assert Lower(after[0].slug) == Lower(after[1].slug);
  }

  // ---------------------------------------------------------------------
  // The service over its repository

  class CmsPageService {
    var rows: seq<Page>
    var nextId: nat

    ghost predicate Valid()
      reads this
    {
      && Query.DistinctKeys(rows, IdOf)
      && DistinctSlugs(rows)
      && forall k :: 0 <= k < |rows| ==> rows[k].id < nextId
    }

    constructor ()
      ensures Valid() && rows == []
    {
      rows := [];
      nextId := 0;
    }

    /** create: Conflict when any page's slug folds to the new slug's fold
        (store unchanged); otherwise one new page with the input fields. */
    method Create(input: NewPage, now: int) returns (r: Result<Page>)
      requires Valid()
      modifies this
      ensures Valid()
      ensures FindFolded(old(rows), input.slug).Some? ==>
        r == Err(Conflict(ConflictMessage)) && rows == old(rows) && nextId == old(nextId)
      ensures FindFolded(old(rows), input.slug).None? ==>
        && r.Ok? && Carries(r.value, input)
        && r.value.createdAt == now && r.value.updatedAt == now
        && (forall k :: 0 <= k < |old(rows)| ==> old(rows)[k].id != r.value.id)
        && rows == old(rows) + [r.value]
        && FindOne(rows, r.value.id) == r
      ensures FoldedUnique(old(rows)) ==> FoldedUnique(rows)
    {
      var existing := FindFolded(rows, input.slug);
      if existing.Some? {
        r := Err(Conflict(ConflictMessage));
        return;
      }
      var page := Page(nextId, input.tenantId, input.slug, input.title, input.content, now, now);
      PrecheckImpliesIndex(rows, page);
      if FoldedUnique(rows) { AppendKeepsFoldedUnique(rows, page); }
      rows := rows + [page];
      nextId := nextId + 1;
      r := Ok(page);
      FindOneDistinct(rows, |rows| - 1);
    }

    /** update: NotFound for an unknown id; otherwise the patch is merged
        over the page and saved, unless another page holds exactly the new
        slug, which the store's unique index rejects. A merge that changes
        no column writes nothing, so updated_at is refreshed only when some
        column changes. */
    method Update(id: nat, patch: PagePatch, now: int) returns (r: Result<Page>)
      requires Valid()
      modifies this
      ensures Valid() && nextId == old(nextId)
      ensures FindOne(old(rows), id).Err? ==> r == Err(NotFound(IdKey(id))) && rows == old(rows)
      ensures FindOne(old(rows), id).Ok? ==>
        var i := Query.KeyIndex(old(rows), IdOf, id).value;
        var patched := Merge(old(rows)[i], patch);
        var merged := if patched == old(rows)[i] then old(rows)[i] else patched.(updatedAt := now);
        if SlugHeldByOther(old(rows), i, merged.slug) then
          r == Err(StorageFailure(UniqueViolation("slug"))) && rows == old(rows)
        else
          r == Ok(merged) && rows == old(rows)[i := merged]
      ensures r.Ok? ==> FindOne(rows, id) == r
    {
      match Query.KeyIndex(rows, IdOf, id)
      case None =>
        r := Err(NotFound(IdKey(id)));
      case Some(i) =>
        var patched := Merge(rows[i], patch);
        var merged := if patched == rows[i] then rows[i] else patched.(updatedAt := now);
        if SlugHeldByOther(rows, i, merged.slug) {
          r := Err(StorageFailure(UniqueViolation("slug")));
        } else {
          rows := rows[i := merged];
          r := Ok(merged);
          FindOneDistinct(rows, i);
        }
    }
  }
}
