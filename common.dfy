/** Shared vocabulary of the three content services: optional values, the
    typed failures a service raises or passes on from the store, and the
    ASCII case fold that stands for the store's LOWER(). */
module Common {

  datatype Option<+T> = None | Some(value: T) {
    function GetOr(default: T): T {
      match this
      case Some(v) => v
      case None => default
    }
  }

  /** The key a NotFound failure reports. */
  datatype Key = IdKey(id: nat) | SlugKey(slug: string) | TenantKey(tenant: string)

  /** Why the store refused a write: one of its unique indexes, or any other
      failure it reports (an opaque message). */
  datatype StoreFault = UniqueViolation(column: string) | Unavailable(reason: string)

  /** NotFound and Conflict are raised by the services themselves; a
      StorageFailure is the store's own failure, passed on unchanged. */
  datatype Error = NotFound(key: Key) | Conflict(message: string) | StorageFailure(fault: StoreFault)

  datatype Result<+T> = Ok(value: T) | Err(error: Error)

  /** An optional string filter only adds a clause when it is present and
      not the empty string (findAll and findBySlug test it for truthiness). */
  predicate Supplied(s: Option<string>) {
    s.Some? && s.value != ""
  }

  function LowerChar(c: char): (d: char)
    ensures !('A' <= d <= 'Z')
    ensures 'A' <= c <= 'Z' ==> d as int == c as int + 32
    ensures !('A' <= c <= 'Z') ==> d == c
  {
    if 'A' <= c <= 'Z' then (c as int + 32) as char else c
  }

  /** ASCII lower-casing, the model of LOWER() on slugs. */
  function Lower(s: string): (r: string)
    ensures |r| == |s|
    ensures forall i :: 0 <= i < |s| ==> r[i] == LowerChar(s[i])
  {
    seq(|s|, i requires 0 <= i < |s| => LowerChar(s[i]))
  }

  /** Folding is idempotent, so a slug that is already lower case is its own fold. */
  lemma LowerIdempotent(s: string)
    ensures Lower(Lower(s)) == Lower(s)
  {
    var once := Lower(s);
    forall i | 0 <= i < |s| ensures Lower(once)[i] == once[i] {
      assert LowerChar(once[i]) == once[i];
    }
  }
}
