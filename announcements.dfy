/** Announcement lifecycle: time-windowed, tenant-scoped announcements with
    a caller-chosen status, list queries built from optional equality
    clauses, and the two-pass status sweep driven by a clock value. */
module Announcements {
  import opened Common
  import Query

  datatype Status = Scheduled | Active | Expired

  /** A stored announcement. Timestamps are instants as integers; the id
      and both audit timestamps are assigned by the store. */
  datatype Announcement = Announcement(
    id: nat,
    tenantId: string,
    title: string,
    body: string,
    startDate: int,
    endDate: int,
    status: Status,
    createdAt: int,
    updatedAt: int)

  /** The fields a caller supplies to create an announcement. No order
      between the start and end dates is required. */
  datatype NewAnnouncement = NewAnnouncement(
    tenantId: string,
    title: string,
    body: string,
    startDate: int,
    endDate: int,
    status: Status)

  /** A partial update: a field is overwritten exactly when it is present. */
  datatype AnnouncementPatch = AnnouncementPatch(
    tenantId: Option<string>,
    title: Option<string>,
    body: Option<string>,
    startDate: Option<int>,
    endDate: Option<int>,
    status: Option<Status>)

  const NoChange := AnnouncementPatch(None, None, None, None, None, None)

  function CreatedAt(a: Announcement): int { a.createdAt }

  /** The primary key. */
  function IdOf(a: Announcement): nat { a.id }

  /** A new record carries exactly the caller's fields. */
  predicate Carries(a: Announcement, input: NewAnnouncement) {
    && a.tenantId == input.tenantId
    && a.title == input.title
    && a.body == input.body
    && a.startDate == input.startDate
    && a.endDate == input.endDate
    && a.status == input.status
  }

  // ---------------------------------------------------------------------
  // Lookup by id

  /** findOne: the stored announcement with this id, or NotFound naming it. */
  function FindOne(rows: seq<Announcement>, id: nat): (r: Result<Announcement>)
    ensures r.Ok? <==> exists k :: 0 <= k < |rows| && rows[k].id == id
    ensures r.Ok? ==> r.value in rows && r.value.id == id
    ensures r.Err? ==> r.error == NotFound(IdKey(id))
  {
    match Query.KeyIndex(rows, IdOf, id)
    case None => Err(NotFound(IdKey(id)))
    case Some(i) => Ok(rows[i])
  }

  /** With distinct ids, findOne answers with the one row carrying the id. */
  lemma FindOneDistinct(rows: seq<Announcement>, k: nat)
    requires Query.DistinctKeys(rows, IdOf) && k < |rows|
    ensures FindOne(rows, rows[k].id) == Ok(rows[k])
    ensures Query.KeyIndex(rows, IdOf, rows[k].id) == Some(k)
  {
    Query.KeyIndexDistinct(rows, IdOf, k);
  }

  // ---------------------------------------------------------------------
  // The filter façade of findAll: a list of equality clauses, combined by AND

  datatype Clause = TenantIs(tenant: string) | StatusIs(status: Status)

  predicate Holds(a: Announcement, c: Clause) {
    match c
    case TenantIs(t) => a.tenantId == t
    case StatusIs(s) => a.status == s
  }

  predicate SatisfiesAll(a: Announcement, cs: seq<Clause>) {
    forall i :: 0 <= i < |cs| ==> Holds(a, cs[i])
  }

  /** The clauses findAll appends: a tenant clause only for a present,
      non-empty tenant id, a status clause only for a present status. */
  function Clauses(tenant: Option<string>, status: Option<Status>): (r: seq<Clause>)
    ensures Supplied(tenant) ==> TenantIs(tenant.value) in r
    ensures status.Some? ==> StatusIs(status.value) in r
    ensures forall c :: c in r ==>
      (Supplied(tenant) && c == TenantIs(tenant.value)) || (status.Some? && c == StatusIs(status.value))
  {
    (if Supplied(tenant) then [TenantIs(tenant.value)] else [])
    + (if status.Some? then [StatusIs(status.value)] else [])
  }

  /** Reference meaning of findAll's filter, written without clauses. */
  predicate Matches(a: Announcement, tenant: Option<string>, status: Option<Status>) {
    && (Supplied(tenant) ==> a.tenantId == tenant.value)
    && (status.Some? ==> a.status == status.value)
  }

  lemma ClausesMeaning(a: Announcement, tenant: Option<string>, status: Option<Status>)
    ensures SatisfiesAll(a, Clauses(tenant, status)) <==> Matches(a, tenant, status)
  {
    var cs := Clauses(tenant, status);
    if Supplied(tenant) { assert cs[0] == TenantIs(tenant.value); }
    if status.Some? { assert cs[|cs| - 1] == StatusIs(status.value); }
  }

  /** The rows satisfying every clause, in store order. */
  function Where(rows: seq<Announcement>, cs: seq<Clause>): (r: seq<Announcement>)
    ensures |r| <= |rows|
    ensures forall a :: a in r <==> a in rows && SatisfiesAll(a, cs)
    decreases |rows|
  {
    if rows == [] then []
    else (if SatisfiesAll(rows[0], cs) then [rows[0]] else []) + Where(rows[1..], cs)
  }

  /** Where keeps every satisfying row, as often as it is stored, and
      nothing else. */
  lemma {:induction false} WhereCounts(rows: seq<Announcement>, cs: seq<Clause>)
    ensures forall a :: multiset(Where(rows, cs))[a] == if SatisfiesAll(a, cs) then multiset(rows)[a] else 0
    decreases |rows|
  {
    if rows != [] {
      assert rows == [rows[0]] + rows[1..];
      WhereCounts(rows[1..], cs);
    }
  }

  /** findAll(tenant?, status?): exactly the matching rows (with their
      multiplicity), newest first. */
  function FindAll(rows: seq<Announcement>, tenant: Option<string>, status: Option<Status>): (r: seq<Announcement>)
    ensures Query.SortedDesc(r, CreatedAt)
    ensures forall a :: multiset(r)[a] == if Matches(a, tenant, status) then multiset(rows)[a] else 0
    ensures forall a :: a in r <==> a in rows && Matches(a, tenant, status)
  {
    var cs := Clauses(tenant, status);
    var r := Query.SortDesc(Where(rows, cs), CreatedAt);
    WhereCounts(rows, cs);
    forall a ensures multiset(r)[a] == if Matches(a, tenant, status) then multiset(rows)[a] else 0 {
      ClausesMeaning(a, tenant, status);
    }
    forall a ensures a in r <==> a in rows && Matches(a, tenant, status) {
      assert a in r <==> multiset(r)[a] > 0;
      assert a in rows <==> multiset(rows)[a] > 0;
    }
    r
  }

  lemma SatisfiesAllAppend(a: Announcement, c1: seq<Clause>, c2: seq<Clause>)
    ensures SatisfiesAll(a, c1 + c2) <==> SatisfiesAll(a, c1) && SatisfiesAll(a, c2)
  {
    if SatisfiesAll(a, c1 + c2) {
      forall i | 0 <= i < |c1| ensures Holds(a, c1[i]) { assert (c1 + c2)[i] == c1[i]; }
      forall i | 0 <= i < |c2| ensures Holds(a, c2[i]) { assert (c1 + c2)[|c1| + i] == c2[i]; }
    }
    if SatisfiesAll(a, c1) && SatisfiesAll(a, c2) {
      forall i | 0 <= i < |c1 + c2| ensures Holds(a, (c1 + c2)[i]) {
        if i < |c1| { assert (c1 + c2)[i] == c1[i]; } else { assert (c1 + c2)[i] == c2[i - |c1|]; }
      }
    }
  }

  /** One unfolding of Where on a non-empty sequence. */
  lemma WhereCons(a: Announcement, s: seq<Announcement>, cs: seq<Clause>)
    ensures Where([a] + s, cs) == (if SatisfiesAll(a, cs) then [a] else []) + Where(s, cs)
  {
    assert ([a] + s)[1..] == s;
  }

  /** Applying clause lists one after the other is filtering by their
      concatenation. */
  lemma {:induction false} WhereAppend(rows: seq<Announcement>, c1: seq<Clause>, c2: seq<Clause>)
    ensures Where(rows, c1 + c2) == Where(Where(rows, c1), c2)
    decreases |rows|
  {
    if rows != [] {
      var a, rest := rows[0], rows[1..];
      assert rows == [a] + rest;
      SatisfiesAllAppend(a, c1, c2);
      WhereAppend(rest, c1, c2);
      WhereCons(a, rest, c1 + c2);
      WhereCons(a, rest, c1);
      if SatisfiesAll(a, c1) {
        WhereCons(a, Where(rest, c1), c2);
      } else {
        assert Where(rows, c1 + c2) == Where(rest, c1 + c2);
        assert Where(rows, c1) == Where(rest, c1);
      }
    }
  }

  /** Clause order does not matter: filters commute. */
  lemma {:induction false} WhereCommutes(rows: seq<Announcement>, c1: seq<Clause>, c2: seq<Clause>)
    ensures Where(Where(rows, c1), c2) == Where(Where(rows, c2), c1)
    decreases |rows|
  {
    if rows != [] {
      var a, rest := rows[0], rows[1..];
      assert rows == [a] + rest;
      WhereCommutes(rest, c1, c2);
      WhereCons(a, rest, c1);
      WhereCons(a, rest, c2);
      var w1, w2 := Where(rest, c1), Where(rest, c2);
      if SatisfiesAll(a, c1) {
        WhereCons(a, w1, c2);
        assert Where(Where(rows, c1), c2) == (if SatisfiesAll(a, c2) then [a] else []) + Where(w1, c2);
      } else {
        assert Where(rows, c1) == w1;
      }
      if SatisfiesAll(a, c2) {
        WhereCons(a, w2, c1);
        assert Where(Where(rows, c2), c1) == (if SatisfiesAll(a, c1) then [a] else []) + Where(w2, c1);
      } else {
        assert Where(rows, c2) == w2;
      }
    }
  }

  /** findAll(T, S) holds exactly the rows common to findAll(T) and
      findAll(undefined, S): the clauses combine by AND. */
  lemma FindAllIsIntersection(rows: seq<Announcement>, tenant: Option<string>, status: Status)
    ensures multiset(FindAll(rows, tenant, Some(status)))
         == multiset(FindAll(rows, tenant, None)) * multiset(FindAll(rows, None, Some(status)))
  {
    var both, byTenant, byStatus := FindAll(rows, tenant, Some(status)), FindAll(rows, tenant, None), FindAll(rows, None, Some(status));
    forall a ensures multiset(both)[a] == (multiset(byTenant) * multiset(byStatus))[a] {
      assert Matches(a, tenant, Some(status)) <==> Matches(a, tenant, None) && Matches(a, None, Some(status));
    }
  }

  /** Whichever order the tenant and status clauses are applied in, the
      filtered rows are the same. */
  lemma ClauseOrderIrrelevant(rows: seq<Announcement>, tenant: string, status: Status)
    ensures Where(rows, [TenantIs(tenant), StatusIs(status)]) == Where(rows, [StatusIs(status), TenantIs(tenant)])
  {
    WhereAppend(rows, [TenantIs(tenant)], [StatusIs(status)]);
    WhereAppend(rows, [StatusIs(status)], [TenantIs(tenant)]);
    WhereCommutes(rows, [TenantIs(tenant)], [StatusIs(status)]);
    assert [TenantIs(tenant)] + [StatusIs(status)] == [TenantIs(tenant), StatusIs(status)];
    assert [StatusIs(status)] + [TenantIs(tenant)] == [StatusIs(status), TenantIs(tenant)];
  }

  /** An empty-string tenant id is falsy and adds no clause. */
  lemma EmptyTenantIsNoFilter(rows: seq<Announcement>, status: Option<Status>)
    ensures FindAll(rows, Some(""), status) == FindAll(rows, None, status)
  {
  }

  // ---------------------------------------------------------------------
  // Merge-style partial update

  /** Object.assign of the patch over the stored record. */
  function Merge(a: Announcement, p: AnnouncementPatch): (r: Announcement)
    ensures r.id == a.id && r.createdAt == a.createdAt && r.updatedAt == a.updatedAt
    ensures p.tenantId.None? ==> r.tenantId == a.tenantId
    ensures p.tenantId.Some? ==> r.tenantId == p.tenantId.value
    ensures p.title.None? ==> r.title == a.title
    ensures p.title.Some? ==> r.title == p.title.value
    ensures p.body.None? ==> r.body == a.body
    ensures p.body.Some? ==> r.body == p.body.value
    ensures p.startDate.None? ==> r.startDate == a.startDate
    ensures p.startDate.Some? ==> r.startDate == p.startDate.value
    ensures p.endDate.None? ==> r.endDate == a.endDate
    ensures p.endDate.Some? ==> r.endDate == p.endDate.value
    ensures p.status.None? ==> r.status == a.status
    ensures p.status.Some? ==> r.status == p.status.value
    ensures p == NoChange ==> r == a
  {
    a.(tenantId := p.tenantId.GetOr(a.tenantId),
       title := p.title.GetOr(a.title),
       body := p.body.GetOr(a.body),
       startDate := p.startDate.GetOr(a.startDate),
       endDate := p.endDate.GetOr(a.endDate),
       status := p.status.GetOr(a.status))
  }

  /** Applying `p` and then `q` is one patch where `q`'s fields win. */
  function Then(p: AnnouncementPatch, q: AnnouncementPatch): AnnouncementPatch {
    AnnouncementPatch(
      if q.tenantId.Some? then q.tenantId else p.tenantId,
      if q.title.Some? then q.title else p.title,
      if q.body.Some? then q.body else p.body,
      if q.startDate.Some? then q.startDate else p.startDate,
      if q.endDate.Some? then q.endDate else p.endDate,
      if q.status.Some? then q.status else p.status)
  }

  lemma MergeLaws(a: Announcement, p: AnnouncementPatch, q: AnnouncementPatch, title: string)
    ensures Merge(a, NoChange) == a
    ensures Merge(a, NoChange.(title := Some(title))) == a.(title := title)
    ensures Merge(Merge(a, p), p) == Merge(a, p)
    ensures Merge(Merge(a, p), q) == Merge(a, Then(p, q))
    ensures Merge(a, p).id == a.id && Merge(a, p).createdAt == a.createdAt
  {
  }

  /** The update does not derive the status from the (possibly new) dates. */
  lemma MergeKeepsStatusUnlessPatched(a: Announcement, p: AnnouncementPatch)
    requires p.status.None?
    ensures Merge(a, p).status == a.status
  {
  }

  // ---------------------------------------------------------------------
  // The status sweep (updateStatusBasedOnDates)

  /** First bulk update: a SCHEDULED row whose window contains `now`
      becomes ACTIVE. */
  function Activate(a: Announcement, now: int): (r: Announcement)
    ensures r == a.(status := r.status)
    ensures r.status != a.status <==> a.status == Scheduled && a.startDate <= now < a.endDate
    ensures r.status != a.status ==> r.status == Active
  {
    if a.status == Scheduled && a.startDate <= now && now < a.endDate then a.(status := Active) else a
  }

  /** Second bulk update: a row not yet EXPIRED whose end has passed
      becomes EXPIRED. */
  function Expire(a: Announcement, now: int): (r: Announcement)
    ensures r == a.(status := r.status)
    ensures r.status != a.status <==> a.status != Expired && a.endDate <= now
    ensures r.status != a.status ==> r.status == Expired
  {
    if a.endDate <= now && a.status != Expired then a.(status := Expired) else a
  }

  /** Reference statement of where one sweep leaves a row's status. */
  function SweptStatus(a: Announcement, now: int): Status {
    if a.status == Expired || a.endDate <= now then Expired
    else if a.status == Scheduled && a.startDate <= now then Active
    else a.status
  }

  /** Both passes applied to one row, in the source's order. */
  function Reconcile(a: Announcement, now: int): (r: Announcement)
    ensures r == a.(status := SweptStatus(a, now))
  {
    Expire(Activate(a, now), now)
  }

  function Rank(s: Status): nat {
    match s
    case Scheduled => 0
    case Active => 1
    case Expired => 2
  }

  lemma ReconcileProperties(a: Announcement, now: int, later: int)
    // a second sweep with the same clock changes nothing
    ensures Reconcile(Reconcile(a, now), now) == Reconcile(a, now)
    // EXPIRED is terminal
    ensures a.status == Expired ==> Reconcile(a, later) == a
    // a status only moves forward
    ensures Rank(Reconcile(a, now).status) >= Rank(a.status)
    // once expired by a sweep, later sweeps leave it expired
    ensures Reconcile(a, now).status == Expired ==> Reconcile(Reconcile(a, now), later).status == Expired
  {
  }

  /** With one clock value no row meets both pass conditions, so the
      order of the two passes never decides the outcome. */
  lemma PassesNeverOverlap(a: Announcement, now: int)
    ensures !(a.status == Scheduled && a.startDate <= now && now < a.endDate && a.endDate <= now)
    ensures Expire(Activate(a, now), now) == Activate(Expire(a, now), now)
  {
  }

  /** The first bulk UPDATE over the whole table. */
  function ActivatePass(rows: seq<Announcement>, now: int): (r: seq<Announcement>)
    ensures |r| == |rows|
    ensures forall k :: 0 <= k < |rows| ==> r[k] == Activate(rows[k], now)
  {
    seq(|rows|, k requires 0 <= k < |rows| => Activate(rows[k], now))
  }

  /** The second bulk UPDATE over the whole table. */
  function ExpirePass(rows: seq<Announcement>, now: int): (r: seq<Announcement>)
    ensures |r| == |rows|
    ensures forall k :: 0 <= k < |rows| ==> r[k] == Expire(rows[k], now)
  {
    seq(|rows|, k requires 0 <= k < |rows| => Expire(rows[k], now))
  }

  /** The whole sweep, as the two passes in order. */
  function Sweep(rows: seq<Announcement>, now: int): (r: seq<Announcement>)
    ensures |r| == |rows|
    ensures forall k :: 0 <= k < |rows| ==> r[k] == rows[k].(status := SweptStatus(rows[k], now))
  {
    var r := ExpirePass(ActivatePass(rows, now), now);
    assert forall k :: 0 <= k < |rows| ==> r[k] == Reconcile(rows[k], now);
    r
  }

  /** Re-running the sweep against its own result writes nothing: it is a
      fixed point. */
  lemma SweepIdempotent(rows: seq<Announcement>, now: int)
    ensures Sweep(Sweep(rows, now), now) == Sweep(rows, now)
  {
    var once := Sweep(rows, now);
    forall k | 0 <= k < |rows| ensures Sweep(once, now)[k] == once[k] {
      ReconcileProperties(rows[k], now, now);
    }
  }

  /** The concrete schedule of one announcement: 1 to 10 January 2024
      (seconds since the epoch), SCHEDULED; swept on 5 January it is
      ACTIVE, swept again on 11 January it is EXPIRED. */
  lemma JanuaryScenario(a: Announcement)
    requires a.startDate == 1704067200 && a.endDate == 1704844800 && a.status == Scheduled
    ensures Reconcile(a, 1704412800).status == Active
    ensures Reconcile(Reconcile(a, 1704412800), 1704412800).status == Active
    ensures Reconcile(Reconcile(a, 1704412800), 1704931200).status == Expired
  {
  }

  // ---------------------------------------------------------------------
  // The service over its repository

  class AnnouncementService {
    /** The repository's rows, in storage order. */
    var rows: seq<Announcement>
    /** Source of fresh ids. */
    var nextId: nat

    ghost predicate Valid()
      reads this
    {
      && Query.DistinctKeys(rows, IdOf)
      && forall k :: 0 <= k < |rows| ==> rows[k].id < nextId
    }

    constructor ()
      ensures Valid() && rows == []
    {
      rows := [];
      nextId := 0;
    }

    /** create: stores one new row carrying the caller's fields under a
        fresh id, stamped with `now`. */
    method Create(input: NewAnnouncement, now: int) returns (a: Announcement)
      requires Valid()
      modifies this
      ensures Valid()
      ensures Carries(a, input) && a.createdAt == now && a.updatedAt == now
      ensures forall k :: 0 <= k < |old(rows)| ==> old(rows)[k].id != a.id
      ensures rows == old(rows) + [a]
      ensures FindOne(rows, a.id) == Ok(a)
    {
      a := Announcement(nextId, input.tenantId, input.title, input.body,
                        input.startDate, input.endDate, input.status, now, now);
      rows := rows + [a];
      nextId := nextId + 1;
      FindOneDistinct(rows, |rows| - 1);
    }

    /** update: NotFound for an unknown id (nothing written); otherwise
        the patch is merged over the stored row and saved in its place. A
        merge that changes no column writes nothing, so updated_at is
        refreshed only when some column changes. */
    method Update(id: nat, patch: AnnouncementPatch, now: int) returns (r: Result<Announcement>)
      requires Valid()
      modifies this
      ensures Valid() && nextId == old(nextId)
      ensures FindOne(old(rows), id).Err? ==> r == Err(NotFound(IdKey(id))) && rows == old(rows)
      ensures FindOne(old(rows), id).Ok? ==>
        var stored := FindOne(old(rows), id).value;
        var merged := Merge(stored, patch);
        && r == Ok(if merged == stored then stored else merged.(updatedAt := now))
        && rows == old(rows)[Query.KeyIndex(old(rows), IdOf, id).value := r.value]
      ensures r.Ok? ==> FindOne(rows, id) == r
    {
      match Query.KeyIndex(rows, IdOf, id)
      case None =>
        r := Err(NotFound(IdKey(id)));
      case Some(i) =>
        var merged := Merge(rows[i], patch);
        var updated := if merged == rows[i] then rows[i] else merged.(updatedAt := now);
        rows := rows[i := updated];
        r := Ok(updated);
        FindOneDistinct(rows, i);
    }

    /** remove: NotFound for an unknown id; otherwise deletes exactly that
        row, after which findOne on the id is NotFound. */
    method Remove(id: nat) returns (r: Result<()>)
      requires Valid()
      modifies this
      ensures Valid() && nextId == old(nextId)
      ensures FindOne(old(rows), id).Err? ==> r == Err(NotFound(IdKey(id))) && rows == old(rows)
      ensures FindOne(old(rows), id).Ok? ==>
        && r == Ok(())
        && var i := Query.KeyIndex(old(rows), IdOf, id).value; rows == old(rows)[..i] + old(rows)[i + 1..]
      ensures FindOne(rows, id) == Err(NotFound(IdKey(id)))
    {
      match Query.KeyIndex(rows, IdOf, id)
      case None =>
        r := Err(NotFound(IdKey(id)));
      case Some(i) =>
        ghost var before := rows;
        rows := rows[..i] + rows[i + 1..];
        r := Ok(());
        forall k | 0 <= k < |rows| ensures rows[k].id != id {
          if k < i { assert rows[k] == before[k]; }
          else {
            assert rows[k] == before[k + 1];
          }
        }
    }

    /** updateStatusBasedOnDates: two bulk updates over every row with one
        clock value, first the activate pass, then the expire pass. */
    method UpdateStatusBasedOnDates(now: int)
      requires Valid()
      modifies this
      ensures Valid() && nextId == old(nextId)
      ensures rows == ExpirePass(ActivatePass(old(rows), now), now)
      ensures rows == Sweep(old(rows), now)
    {
      var i := 0;
      while i < |rows|
        invariant 0 <= i <= |rows| == |old(rows)| && nextId == old(nextId)
        invariant forall k :: 0 <= k < i ==> rows[k] == Activate(old(rows)[k], now)
        invariant forall k :: i <= k < |rows| ==> rows[k] == old(rows)[k]
      {
        rows := rows[i := Activate(rows[i], now)];
        i := i + 1;
      }
      ghost var activated := rows;
      assert activated == ActivatePass(old(rows), now);
      i := 0;
      while i < |rows|
        invariant 0 <= i <= |rows| == |activated| && nextId == old(nextId)
        invariant forall k :: 0 <= k < i ==> rows[k] == Expire(activated[k], now)
        invariant forall k :: i <= k < |rows| ==> rows[k] == activated[k]
      {
        rows := rows[i := Expire(rows[i], now)];
        i := i + 1;
      }
      assert rows == ExpirePass(activated, now);
      assert forall k :: 0 <= k < |rows| ==> rows[k].id == old(rows)[k].id;
    }
  }
}
