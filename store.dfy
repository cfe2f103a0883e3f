/**
 The `waitlist` table that app/api/waitlist/route.ts reaches through `prisma.waitlist`:
 rows keyed by their unique `email` column, each with a store-assigned `id` and a
 `createdAt` time. Whether the database is reachable is a parameter of each call.
 */
module Store {
  import opened Wrappers

  datatype Entry = Entry(id: nat, email: string, createdAt: int)

  /** Why a store call throws: the database cannot be reached, or `email`'s unique constraint refused a row. */
  datatype StoreError = Unreachable | UniqueViolation

  datatype Result<T> = Ok(value: T) | Err(error: StoreError)

  class WaitlistTable {
    var rows: map<string, Entry>
    var nextId: nat

    /** Each row sits under its own email, and ids are distinct and below `nextId`. */
    ghost predicate Valid()
      reads this
    {
      && (forall e | e in rows :: rows[e].email == e && rows[e].id < nextId)
      && (forall e1, e2 | e1 in rows && e2 in rows && e1 != e2 :: rows[e1].id != rows[e2].id)
    }

    constructor ()
      ensures Valid() && rows == map[] && nextId == 0
    {
      rows := map[];
      nextId := 0;
    }

    /** `findUnique({ where: { email } })`: the row stored under `email`, if any. */
    method FindUnique(email: string, reachable: bool) returns (r: Result<Option<Entry>>)
      requires Valid()
      ensures !reachable ==> r == Err(Unreachable)
      ensures reachable ==> r.Ok? && (r.value.Some? <==> email in rows)
      ensures reachable && email in rows ==> r.value == Some(rows[email])
    {
      if !reachable {
        return Err(Unreachable);
      }
      if email in rows {
        r := Ok(Some(rows[email]));
      } else {
        r := Ok(None);
      }
    }

    /**
     `create({ data: { email } })`: adds one row with a fresh id, or throws without
     writing anything when the database is unreachable or the email is taken.
     */
    method Create(email: string, createdAt: int, reachable: bool) returns (r: Result<Entry>)
      requires Valid()
      modifies this
      ensures Valid()
      ensures r.Ok? <==> reachable && email !in old(rows)
      ensures r.Err? ==> rows == old(rows) && nextId == old(nextId)
      ensures r.Err? ==> (r.error == UniqueViolation <==> reachable)
      ensures r.Ok? ==> r.value == Entry(old(nextId), email, createdAt)
      ensures r.Ok? ==> rows == old(rows)[email := r.value]
      ensures r.Ok? ==> forall e | e in old(rows) :: old(rows)[e].id != r.value.id
    {
      if !reachable {
        return Err(Unreachable);
      }
      if email in rows {
        return Err(UniqueViolation);
      }
      var entry := Entry(nextId, email, createdAt);
      rows := rows[email := entry];
      nextId := nextId + 1;
      r := Ok(entry);
    }
  }
}
