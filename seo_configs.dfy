/** SEO config registry: at most one configuration per tenant, kept only by
    the store's unique index on the tenant id; the service itself performs
    no duplicate check and never creates through update. */
module SeoConfigs {
  import opened Common
  import Query

  datatype SeoConfig = SeoConfig(
    id: nat,
    tenantId: string,
    metaTitle: string,
    metaDescription: string,
    keywords: seq<string>,
    indexFollow: bool,
    ogImageUrl: Option<string>,
    canonicalUrl: Option<string>,
    createdAt: int,
    updatedAt: int)

  /** The caller's fields; `indexFollow` and both URLs may be omitted, and
      an omitted URL is the same as an explicit null. */
  datatype NewSeoConfig = NewSeoConfig(
    tenantId: string,
    metaTitle: string,
    metaDescription: string,
    keywords: seq<string>,
    indexFollow: Option<bool>,
    ogImageUrl: Option<string>,
    canonicalUrl: Option<string>)

  /** A partial update; `Some(None)` in a URL field sets it to null. */
  datatype SeoPatch = SeoPatch(
    tenantId: Option<string>,
    metaTitle: Option<string>,
    metaDescription: Option<string>,
    keywords: Option<seq<string>>,
    indexFollow: Option<bool>,
    ogImageUrl: Option<Option<string>>,
    canonicalUrl: Option<Option<string>>)

  const TenantIndex := "tenant_id"

  /** The column default of index_follow. */
  const DefaultIndexFollow := true

  /** The primary key. */
  function IdOf(c: SeoConfig): nat { c.id }

  /** The key of the unique index on tenant_id. */
  function TenantOf(c: SeoConfig): string { c.tenantId }

  /** What the unique index on tenant_id guarantees. */
  ghost predicate OnePerTenant(rows: seq<SeoConfig>) {
    Query.DistinctKeys(rows, TenantOf)
  }

  /** The entity the repository builds from the caller's fields, with the
      column defaults filled in: omitted index_follow is true, omitted URLs
      are null, given fields are kept (keywords in their order). */
  function Build(input: NewSeoConfig, id: nat, now: int): (r: SeoConfig)
    ensures input.indexFollow.None? ==> r.indexFollow
    ensures input.indexFollow.Some? ==> r.indexFollow == input.indexFollow.value
    ensures r.ogImageUrl == input.ogImageUrl && r.canonicalUrl == input.canonicalUrl
    ensures r.keywords == input.keywords && r.tenantId == input.tenantId
    ensures r.metaTitle == input.metaTitle && r.metaDescription == input.metaDescription
    ensures r.id == id && r.createdAt == now && r.updatedAt == now
  {
    SeoConfig(id, input.tenantId, input.metaTitle, input.metaDescription, input.keywords,
              input.indexFollow.GetOr(DefaultIndexFollow), input.ogImageUrl, input.canonicalUrl, now, now)
  }

  // ---------------------------------------------------------------------
  // Lookup by tenant

  /** findByTenantId: the tenant's config, or NotFound naming the tenant. */
  function FindByTenantId(rows: seq<SeoConfig>, tenant: string): (r: Result<SeoConfig>)
    ensures r.Ok? <==> exists k :: 0 <= k < |rows| && rows[k].tenantId == tenant
    ensures r.Ok? ==> r.value in rows && r.value.tenantId == tenant
    ensures r.Err? ==> r.error == NotFound(TenantKey(tenant))
  {
    match Query.KeyIndex(rows, TenantOf, tenant)
    case None => Err(NotFound(TenantKey(tenant)))
    case Some(i) => Ok(rows[i])
  }

  /** With one config per tenant, the lookup finds exactly the stored one. */
  lemma FindByTenantIdUnique(rows: seq<SeoConfig>, k: nat)
    requires OnePerTenant(rows) && k < |rows|
    ensures FindByTenantId(rows, rows[k].tenantId) == Ok(rows[k])
    ensures Query.KeyIndex(rows, TenantOf, rows[k].tenantId) == Some(k)
  {
    Query.KeyIndexDistinct(rows, TenantOf, k);
  }

  /** Appending a config for a tenant without one keeps one per tenant, and
      the lookup then returns it. */
  lemma AppendNewTenant(rows: seq<SeoConfig>, c: SeoConfig)
    requires OnePerTenant(rows) && FindByTenantId(rows, c.tenantId).Err?
    ensures OnePerTenant(rows + [c])
    ensures FindByTenantId(rows + [c], c.tenantId) == Ok(c)
  {
    var s := rows + [c];
    forall i, j | 0 <= i < j < |s| ensures s[i].tenantId != s[j].tenantId {
      if j == |rows| { assert s[i] == rows[i]; } else { assert s[i] == rows[i] && s[j] == rows[j]; }
    }
    FindByTenantIdUnique(s, |rows|);
  }

  // ---------------------------------------------------------------------
  // Merge-style update

  /** Object.assign of the patch over the stored config. */
  function Merge(c: SeoConfig, p: SeoPatch): (r: SeoConfig)
    ensures r.id == c.id && r.createdAt == c.createdAt && r.updatedAt == c.updatedAt
    ensures p.tenantId.None? ==> r.tenantId == c.tenantId
    ensures p.tenantId.Some? ==> r.tenantId == p.tenantId.value
    ensures p.metaTitle.None? ==> r.metaTitle == c.metaTitle
    ensures p.metaTitle.Some? ==> r.metaTitle == p.metaTitle.value
    ensures p.metaDescription.None? ==> r.metaDescription == c.metaDescription
    ensures p.metaDescription.Some? ==> r.metaDescription == p.metaDescription.value
    ensures p.keywords.None? ==> r.keywords == c.keywords
    ensures p.keywords.Some? ==> r.keywords == p.keywords.value
    ensures p.indexFollow.None? ==> r.indexFollow == c.indexFollow
    ensures p.indexFollow.Some? ==> r.indexFollow == p.indexFollow.value
    ensures p.ogImageUrl.None? ==> r.ogImageUrl == c.ogImageUrl
    ensures p.ogImageUrl.Some? ==> r.ogImageUrl == p.ogImageUrl.value
    ensures p.canonicalUrl.None? ==> r.canonicalUrl == c.canonicalUrl
    ensures p.canonicalUrl.Some? ==> r.canonicalUrl == p.canonicalUrl.value
  {
    c.(tenantId := p.tenantId.GetOr(c.tenantId),
       metaTitle := p.metaTitle.GetOr(c.metaTitle),
       metaDescription := p.metaDescription.GetOr(c.metaDescription),
       keywords := p.keywords.GetOr(c.keywords),
       indexFollow := p.indexFollow.GetOr(c.indexFollow),
       ogImageUrl := p.ogImageUrl.GetOr(c.ogImageUrl),
       canonicalUrl := p.canonicalUrl.GetOr(c.canonicalUrl))
  }

  const NoChange := SeoPatch(None, None, None, None, None, None, None)

  /** Only the patched fields change: a title-only patch keeps the keyword
      order, the nulls and every other field. */
  lemma MergeLaws(c: SeoConfig, p: SeoPatch, title: string)
    ensures Merge(c, NoChange) == c
    ensures Merge(Merge(c, p), p) == Merge(c, p)
    ensures Merge(c, p).id == c.id && Merge(c, p).createdAt == c.createdAt
    ensures Merge(c, NoChange.(metaTitle := Some(title))) == c.(metaTitle := title)
  {
  }

  /** Another tenant's config already uses this tenant id: the unique
      index rejects the save. */
  predicate TenantHeldByOther(rows: seq<SeoConfig>, i: nat, tenant: string) {
    exists k :: 0 <= k < |rows| && k != i && rows[k].tenantId == tenant
  }

  /** Saving `c` in place of config `i` keeps one config per tenant exactly
      when no other config holds its tenant id: the index rejects the save
      in precisely the case TenantHeldByOther names. */
  lemma TenantIndexRejects(rows: seq<SeoConfig>, i: nat, c: SeoConfig)
    requires OnePerTenant(rows) && i < |rows|
    ensures OnePerTenant(rows[i := c]) <==> !TenantHeldByOther(rows, i, c.tenantId)
  {
    var s := rows[i := c];
    if TenantHeldByOther(rows, i, c.tenantId) {
      var k :| 0 <= k < |rows| && k != i && rows[k].tenantId == c.tenantId;
      if k < i { assert TenantOf(s[k]) == TenantOf(s[i]); } else { assert TenantOf(s[i]) == TenantOf(s[k]); }
    } else {
      forall a, b | 0 <= a < b < |s| ensures TenantOf(s[a]) != TenantOf(s[b]) {
        if a == i { assert s[b] == rows[b]; }
        else if b == i { assert s[a] == rows[a]; }
        else { assert s[a] == rows[a] && s[b] == rows[b]; }
      }
    }
  }

  // ---------------------------------------------------------------------
  // The service over its repository

  class SeoService {
    var rows: seq<SeoConfig>
    var nextId: nat

    ghost predicate Valid()
      reads this
    {
      && Query.DistinctKeys(rows, IdOf)
      && OnePerTenant(rows)
      && forall k :: 0 <= k < |rows| ==> rows[k].id < nextId
    }

    constructor ()
      ensures Valid() && rows == []
    {
      rows := [];
      nextId := 0;
    }

    /** create: builds the config and saves it. The only guard against a
        second config for a tenant is the store's unique index; any save
        failure (`fault`) is passed on unchanged and nothing is stored. */
    method Create(input: NewSeoConfig, now: int, fault: Option<string>) returns (r: Result<SeoConfig>)
      requires Valid()
      modifies this
      ensures Valid()
      ensures fault.Some? ==>
        r == Err(StorageFailure(Unavailable(fault.value))) && rows == old(rows)
      ensures fault.None? && FindByTenantId(old(rows), input.tenantId).Ok? ==>
        r == Err(StorageFailure(UniqueViolation(TenantIndex))) && rows == old(rows)
      ensures fault.None? && FindByTenantId(old(rows), input.tenantId).Err? ==>
        && r == Ok(Build(input, old(nextId), now))
        && rows == old(rows) + [r.value]
        && FindByTenantId(rows, input.tenantId) == r
    {
      var config := Build(input, nextId, now);
      if fault.Some? {
        r := Err(StorageFailure(Unavailable(fault.value)));
      } else if Query.KeyIndex(rows, TenantOf, config.tenantId).Some? {
        r := Err(StorageFailure(UniqueViolation(TenantIndex)));
      } else {
        AppendNewTenant(rows, config);
        rows := rows + [config];
        nextId := nextId + 1;
        r := Ok(config);
      }
    }

    /** update: NotFound when the tenant has no config (nothing is saved,
        so update never creates); otherwise merges the patch and saves,
        passing on a save failure or a tenant-index violation unchanged. A
        merge that changes no column writes nothing, so updated_at is
        refreshed only when some column changes. */
    method Update(tenant: string, patch: SeoPatch, now: int, fault: Option<string>) returns (r: Result<SeoConfig>)
      requires Valid()
      modifies this
      ensures Valid() && nextId == old(nextId) && |rows| == |old(rows)|
      ensures FindByTenantId(old(rows), tenant).Err? ==> r == Err(NotFound(TenantKey(tenant))) && rows == old(rows)
      ensures FindByTenantId(old(rows), tenant).Ok? ==>
        var i := Query.KeyIndex(old(rows), TenantOf, tenant).value;
        var patched := Merge(old(rows)[i], patch);
        var merged := if patched == old(rows)[i] then old(rows)[i] else patched.(updatedAt := now);
        if fault.Some? then
          r == Err(StorageFailure(Unavailable(fault.value))) && rows == old(rows)
        else if TenantHeldByOther(old(rows), i, merged.tenantId) then
          r == Err(StorageFailure(UniqueViolation(TenantIndex))) && rows == old(rows)
        else
          r == Ok(merged) && rows == old(rows)[i := merged]
      ensures r.Ok? ==> FindByTenantId(rows, r.value.tenantId) == r
    {
      match Query.KeyIndex(rows, TenantOf, tenant)
      case None =>
        r := Err(NotFound(TenantKey(tenant)));
      case Some(i) =>
        var patched := Merge(rows[i], patch);
        var merged := if patched == rows[i] then rows[i] else patched.(updatedAt := now);
        if fault.Some? {
          r := Err(StorageFailure(Unavailable(fault.value)));
        } else if TenantHeldByOther(rows, i, merged.tenantId) {
          r := Err(StorageFailure(UniqueViolation(TenantIndex)));
        } else {
          rows := rows[i := merged];
          r := Ok(merged);
          FindByTenantIdUnique(rows, i);
        }
    }
  }
}
