# Tenant content services, modelled in Dafny

A model of the three content services of a multi-tenant NestJS back end:

- the **announcement service**: time-windowed announcements with a status of
  SCHEDULED, ACTIVE or EXPIRED, list queries filtered by tenant and status,
  and the date-driven status sweep;
- the **CMS page service**: static pages whose slug creation checks without
  regard to case, while lookup by slug is exact;
- the **SEO config service**: one configuration per tenant, guarded only by
  the store's unique index on the tenant id.

Each service is a class that owns its repository. The repository is a
`rows` sequence in storage order, plus an id counter that stands for the
store's UUID generator. Creation, update, removal and the sweep are methods
that change `rows`. They are proved against their contracts and keep the
store's constraints as a `Valid()` invariant: distinct ids, the exact
unique index on page slugs, and one SEO config per tenant. The read-only
queries (`findAll`, `findOne`, `findBySlug`, `findByTenantId`) are functions
over `rows`. The properties that relate several calls are lemmas about
those functions.

Files:

- `common.dfy`: `Option`, `Result`, the error taxonomy (NotFound with its
  key, Conflict, StorageFailure wrapping a store fault), and ASCII lower-casing
  as the model of `LOWER()`.
- `query.dfy`: the query helpers the services share. "First matching row"
  serves every single-row lookup; a keyed form of it, with the "distinct
  keys" invariant of a primary key or unique index, is shared by the three
  services. The `created_at DESC` ordering is an
  insertion sort, proved to give non-increasing keys and a permutation of
  its input.
- `announcements.dfy`, `cms_pages.dfy`, `seo_configs.dfy`: one module per
  service.

Timestamps are integers. The clock value `now` is a parameter of every
operation that stamps or sweeps. A possible save failure of the SEO store is
a parameter `fault`.

Two behaviours of the code run against what one might expect, and the model
follows the code:

- The sweep's two passes use one clock value. No row can meet both the
  activate condition (`start_date <= now < end_date`) and the expire
  condition (`end_date <= now`), so the case "a row matching both ends
  EXPIRED because the expire pass runs second" never happens.
  `PassesNeverOverlap` proves this: the passes commute.
- Case-insensitive slug uniqueness holds only as far as `create` enforces it.
  `update` is guarded by the plain (exact) unique index alone, so renaming a
  page to a case variant of another page's slug is accepted.
  `CaseVariantUpdateBreaksFoldedUniqueness` exhibits such an update.
  `CmsPageService.Create` preserves folded uniqueness; `Valid()` keeps only
  the exact index.

## Model

| member | source | states |
|---|---|---|
| `Common.Lower` | src/modules/cms/services/cms.service.ts:29 | the fold keeps the length and lower-cases exactly the ASCII capitals, position by position |
| `Common.LowerChar` | src/modules/cms/services/cms.service.ts:29 | a capital maps to its lower-case letter (code + 32); every other character is kept; no capital remains |
| `Common.LowerIdempotent` | src/modules/cms/services/cms.service.ts:29 | folding twice is folding once |
| `Query.FirstIndex` | src/modules/announcements/services/announcement.service.ts:48-50 | the first position whose row matches the lookup, with no earlier match; none only when no row matches |
| `Query.KeyIndex` | src/modules/announcements/services/announcement.service.ts:48-50 | the position of a row with the wanted key, or none only when no row has it |
| `Query.KeyIndexDistinct` | src/modules/announcements/entities/announcement.entity.ts:13-14 | under a primary key or unique index (distinct keys), looking up a stored row's key finds exactly that row |
| `Query.InsertDesc` | src/modules/announcements/services/announcement.service.ts:42-44 | inserting into a newest-first sequence keeps it newest first and adds exactly that element |
| `Query.SortDesc` | src/modules/announcements/services/announcement.service.ts:42-44 | the result has non-increasing created_at keys and is a permutation of the input |
| `Announcements.FindOne` | src/modules/announcements/services/announcement.service.ts:47-59 | Ok exactly when some stored row has the id, and then it is a stored row with that id; otherwise NotFound naming the id |
| `Announcements.FindOneDistinct` | src/modules/announcements/services/announcement.service.ts:47-59 | with distinct ids, findOne on a stored row's id returns that row |
| `Announcements.Clauses` | src/modules/announcements/services/announcement.service.ts:32-40 | a tenant clause exactly when a non-empty tenant id is given and a status clause exactly when a status is given; no other clause |
| `Announcements.ClausesMeaning` | src/modules/announcements/services/announcement.service.ts:32-40 | the conditionally appended clauses hold of a row iff the row matches every supplied filter; an absent or empty tenant id and an absent status add no condition |
| `Announcements.Where` | src/modules/announcements/services/announcement.service.ts:29-41 | a row is selected exactly when it is stored and satisfies every clause; never more rows than stored |
| `Announcements.WhereCounts` | src/modules/announcements/services/announcement.service.ts:29-41 | filtering keeps each satisfying row as often as it is stored and drops every other row |
| `Announcements.FindAll` | src/modules/announcements/services/announcement.service.ts:25-45 | the result is newest first and holds exactly the stored rows that match the tenant and status filters, with their multiplicity |
| `Announcements.WhereAppend` | src/modules/announcements/services/announcement.service.ts:32-40 | filtering by two clause lists in turn equals filtering by their concatenation (clauses combine by AND) |
| `Announcements.WhereCommutes` | src/modules/announcements/services/announcement.service.ts:32-40 | the order in which clause lists are applied does not change the result |
| `Announcements.ClauseOrderIrrelevant` | src/modules/announcements/services/announcement.service.ts:32-40 | tenant-then-status and status-then-tenant select the same rows in the same order |
| `Announcements.FindAllIsIntersection` | src/modules/announcements/services/announcement.service.ts:25-45 | findAll(T, S) is the multiset intersection of findAll(T) and findAll(undefined, S) |
| `Announcements.EmptyTenantIsNoFilter` | src/modules/announcements/services/announcement.service.ts:32 | an empty-string tenant id filters nothing, like an absent one |
| `Announcements.Merge` | src/modules/announcements/services/announcement.service.ts:66 | id and both timestamps are kept; every field (tenant id, title, body, start and end date, status) is the patched value when the patch carries it and the stored value otherwise; an empty patch changes nothing |
| `Announcements.MergeLaws` | src/modules/announcements/services/announcement.service.ts:66 | an empty patch changes nothing; a title-only patch changes the title and nothing else; re-applying a patch changes nothing more; two patches in turn equal one where the later fields win; id and created_at never change |
| `Announcements.MergeKeepsStatusUnlessPatched` | src/modules/announcements/services/announcement.service.ts:61-68 | update does not derive the status from the dates: without a status in the patch the status is kept |
| `Announcements.Activate` | src/modules/announcements/services/announcement.service.ts:80-89 | the first bulk update changes only the status, and changes it (to ACTIVE) exactly for a SCHEDULED row with start_date <= now < end_date |
| `Announcements.Expire` | src/modules/announcements/services/announcement.service.ts:92-98 | the second bulk update changes only the status, and changes it (to EXPIRED) exactly for a row not yet EXPIRED with end_date <= now |
| `Announcements.Reconcile` | src/modules/announcements/services/announcement.service.ts:76-99 | the two passes on one row change only its status, to EXPIRED if it was EXPIRED or has ended, else to ACTIVE if it was SCHEDULED and has started, else keep it |
| `Announcements.ReconcileProperties` | src/modules/announcements/services/announcement.service.ts:80-98 | a second sweep with the same clock changes nothing; EXPIRED is never changed by any sweep; a status only moves forward |
| `Announcements.PassesNeverOverlap` | src/modules/announcements/services/announcement.service.ts:84-97 | no row satisfies both pass conditions for one clock value, so the two passes commute |
| `Announcements.ActivatePass` | src/modules/announcements/services/announcement.service.ts:80-89 | the first bulk update applies Activate to every row, keeping the number and order of rows |
| `Announcements.ExpirePass` | src/modules/announcements/services/announcement.service.ts:92-98 | the second bulk update applies Expire to every row, keeping the number and order of rows |
| `Announcements.Sweep` | src/modules/announcements/services/announcement.service.ts:76-99 | the sweep keeps the number and order of rows and moves each row's status as Reconcile states, nothing else |
| `Announcements.SweepIdempotent` | src/modules/announcements/services/announcement.service.ts:76-99 | re-running the sweep on its own result writes nothing (fixed point) |
| `Announcements.JanuaryScenario` | src/modules/announcements/services/announcement.service.ts:76-99 | SCHEDULED for 1 to 10 January 2024: swept on the 5th it is ACTIVE and stays so on a re-run; swept on the 11th it is EXPIRED |
| `Announcements.AnnouncementService.constructor` | src/modules/announcements/entities/announcement.entity.ts:11-46 | an empty repository satisfying the store invariant |
| `Announcements.AnnouncementService.Create` | src/modules/announcements/services/announcement.service.ts:16-23 | appends exactly one row carrying the input fields under a fresh id, stamped with now; every other row is untouched; findOne returns it |
| `Announcements.AnnouncementService.Update` | src/modules/announcements/services/announcement.service.ts:61-68 | unknown id: NotFound, nothing changes; else the merged row replaces the stored one in place, other rows are untouched, findOne returns it; updated_at becomes now only when the merge changes some column, otherwise the stored record is returned unchanged and nothing is written |
| `Announcements.AnnouncementService.Remove` | src/modules/announcements/services/announcement.service.ts:70-73 | unknown id: NotFound, nothing changes; else exactly that row is deleted and findOne on the id is NotFound |
| `Announcements.AnnouncementService.UpdateStatusBasedOnDates` | src/modules/announcements/services/announcement.service.ts:76-99 | runs the activate pass over every row, then the expire pass; the new rows are the Sweep of the old ones |
| `CmsPages.FoldedUniqueIsStronger` | src/modules/cms/entities/cms-page.entity.ts:20 | case-folded uniqueness implies the exact uniqueness the slug index enforces |
| `CmsPages.FindAll` | src/modules/cms/services/cms.service.ts:19-23 | every page, newest first, as a permutation of the stored pages |
| `CmsPages.FindFolded` | src/modules/cms/services/cms.service.ts:27-32 | finds a stored page whose lower-cased slug equals the lower-cased input, of any tenant, or reports that none exists |
| `CmsPages.FindBySlug` | src/modules/cms/services/cms.service.ts:44-60 | Ok exactly when some page has exactly this slug and, if a non-empty tenant id is given, that tenant; otherwise NotFound naming the slug |
| `CmsPages.TenantFilterOnlyNarrows` | src/modules/cms/services/cms.service.ts:44-53 | with distinct slugs, a hit with the tenant filter is the same page as without it |
| `CmsPages.FindOne` | src/modules/cms/services/cms.service.ts:62-72 | Ok exactly when some page has the id, and then it is that stored page; otherwise NotFound naming the id |
| `CmsPages.FindOneDistinct` | src/modules/cms/services/cms.service.ts:62-72 | with distinct ids, findOne on a stored page's id returns that page |
| `CmsPages.AppendKeepsFoldedUnique` | src/modules/cms/services/cms.service.ts:27-41 | a page that passed the pre-check keeps the store free of case-folded duplicates |
| `CmsPages.PrecheckImpliesIndex` | src/modules/cms/entities/cms-page.entity.ts:20 | a page that passed the case-insensitive pre-check also satisfies the exact unique index |
| `CmsPages.HomeAsymmetry` | src/modules/cms/services/cms.service.ts:29-47 | with "Home" stored, creating "home" conflicts, yet findBySlug("home") is NotFound |
| `CmsPages.CreatedHomeShowsAsymmetry` | src/modules/cms/services/cms.service.ts:25-60 | after create accepts "Home" into any store, creating "home" conflicts and findBySlug("home") is NotFound |
| `CmsPages.Merge` | src/modules/cms/services/cms.service.ts:79 | id and both timestamps are kept; every field (slug, title, content, tenant id) is the patched value when the patch carries it and the stored value otherwise; an empty patch changes nothing |
| `CmsPages.MergeLaws` | src/modules/cms/services/cms.service.ts:79 | an empty patch changes nothing; a title-and-content patch changes those two fields and nothing else; re-applying a patch changes nothing more; id and created_at never change |
| `CmsPages.SlugIndexRejects` | src/modules/cms/entities/cms-page.entity.ts:20 | saving a page in place keeps the exact slug index intact exactly when no other page holds its slug |
| `CmsPages.CaseVariantUpdateBreaksFoldedUniqueness` | src/modules/cms/services/cms.service.ts:74-81 | renaming "about" to "home" beside "Home" passes the exact index and leaves two slugs with the same fold |
| `CmsPages.CmsPageService.constructor` | src/modules/cms/entities/cms-page.entity.ts:11-35 | an empty repository satisfying the store invariant |
| `CmsPages.CmsPageService.Create` | src/modules/cms/services/cms.service.ts:25-42 | a case-folded slug match of any tenant gives Conflict and changes nothing; otherwise exactly one page with the input fields is appended under a fresh id; folded uniqueness is preserved |
| `CmsPages.CmsPageService.Update` | src/modules/cms/services/cms.service.ts:74-81 | unknown id: NotFound, nothing changes; a slug held exactly by another page: the store's unique violation, nothing changes; else the merged page replaces the stored one in place; updated_at becomes now only when the merge changes some column, otherwise the stored record is returned unchanged and nothing is written |
| `SeoConfigs.Build` | src/modules/cms/services/seo.service.ts:16 | omitted index_follow is true (the column default); both URLs are stored as given (null when omitted); tenant id, title, description and the keyword order are kept; the id and both timestamps are the store's |
| `SeoConfigs.FindByTenantId` | src/modules/cms/services/seo.service.ts:20-32 | Ok exactly when some config has this tenant id, and then it is that config; otherwise NotFound naming the tenant |
| `SeoConfigs.FindByTenantIdUnique` | src/modules/cms/entities/seo-config.entity.ts:16 | with one config per tenant, the lookup returns the stored config of that tenant |
| `SeoConfigs.AppendNewTenant` | src/modules/cms/services/seo.service.ts:15-32 | storing a config for a tenant without one keeps one config per tenant, and findByTenantId then returns it |
| `SeoConfigs.Merge` | src/modules/cms/services/seo.service.ts:39 | id and both timestamps are kept; every field (tenant id, title, description, keywords, index_follow, both URLs) is the patched value when the patch carries it and the stored value otherwise |
| `SeoConfigs.MergeLaws` | src/modules/cms/services/seo.service.ts:39-40 | an empty patch changes nothing; re-applying changes nothing more; a title-only patch changes only the title, keeping keywords, nulls and every other field |
| `SeoConfigs.TenantIndexRejects` | src/modules/cms/entities/seo-config.entity.ts:16 | saving a config in place keeps one config per tenant exactly when no other config holds its tenant id |
| `SeoConfigs.SeoService.constructor` | src/modules/cms/entities/seo-config.entity.ts:11-43 | an empty repository satisfying the store invariant |
| `SeoConfigs.SeoService.Create` | src/modules/cms/services/seo.service.ts:15-18 | a save failure is passed on unchanged; a tenant that already has a config is refused only by the unique index (a StorageFailure, not a Conflict); otherwise the built config is appended and findByTenantId returns it |
| `SeoConfigs.SeoService.Update` | src/modules/cms/services/seo.service.ts:34-41 | a tenant without a config gives NotFound and nothing is saved, so update never creates; else the merge is saved in place unless the save fails or the new tenant id is taken, and findByTenantId returns the merged config; updated_at becomes now only when the merge changes some column, otherwise the stored record is returned unchanged and nothing is written |

## Left out

- HTTP controllers, request validation, the data-transfer classes, module wiring, the application bootstrap and the demo user and wallet services. They hold no logic of the three services.
- The database itself. The model does not cover SQL, the query builder, transactions, or `LOWER()` on non-ASCII text, which the model folds as ASCII only. UUIDs are abstracted to a per-store counter (only freshness matters). Server timestamps are abstracted to the `now` parameter. A save whose merged record equals the loaded one writes nothing, so its `updated_at` is not refreshed; the model decides this by comparing the whole record.
- Concurrency: the race between the slug pre-check and the insert, and sweeps that run alongside other writes. Every operation is modelled as one sequential step.
- The order among rows with equal `created_at` is left open; only non-increasing order and the multiset of rows are proved.
- `Announcements.AnnouncementService.UpdateStatusBasedOnDates`: does not model the store refreshing `updated_at` during the bulk updates; the sweep changes the status alone.
- `Announcements.AnnouncementService.Create`: a failing save is not modelled; only the SEO service takes a `fault` parameter.
- `Announcements.AnnouncementService.Update`: a failing save is not modelled; only the SEO service takes a `fault` parameter.
- `Announcements.AnnouncementService.Remove`: a failing delete is not modelled; only the SEO service takes a `fault` parameter.
- `CmsPages.CmsPageService.Create`: a failing save is not modelled; the case-insensitive pre-check already rules out a slug-index violation.
- `CmsPages.CmsPageService.Update`: a failing save for any reason other than the slug index (which is modelled) is not modelled.
- `SeoConfigs.SeoService.Create`: keywords are assumed free of commas and never `[""]`. The `simple-array` column stores them joined with `,` and splits them on read, so `["a,b"]` would read back as `["a", "b"]` and `[""]` as `[]`. The model stores the sequence verbatim. Tenant ids are also assumed to be canonical lower-case UUID strings. The store compares `uuid` values, so two spellings that differ only in hex case are one tenant for the unique index, whereas the model compares strings.
- `SeoConfigs.SeoService.Update`: the same two assumptions as for create: comma-free keywords (the `simple-array` join and split are not modelled) and canonical lower-case tenant ids (the `uuid` value comparison is modelled as string equality).
- Tenant ids in the announcement and page filters are compared as strings, under the same canonical lower-case UUID assumption.
- The column default of announcement status (ACTIVE): create always receives a status from the caller, so the default is never used.
- The update payload classes are not part of this model. Patches are assumed to carry the create fields, each optional. A field explicitly set to `undefined` is treated as absent.
- NotFound and Conflict messages are modelled by the key they name, not the message text.
