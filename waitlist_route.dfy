/**
 The `POST /api/waitlist` handler of app/api/waitlist/route.ts: check the `email` field,
 apply the shape rule, lower-case, look the address up, insert it if absent, and map each
 way out of the handler to a status and a JSON body. A thrown error anywhere becomes 500.
 */
module WaitlistRoute {
  import opened Wrappers
  import opened Email
  import opened Store

  /** The value of `email` in the decoded body. */
  datatype Field =
    | Absent      // no `email` key, or a body that is not an object (`const { email } = 5` gives undefined)
    | Text(s: string)
    | NonString   // null, a number, a boolean, an object or an array

  /** `await request.json()`: throws on a malformed body, or on a `null` body that cannot be destructured. */
  datatype Payload = Undecodable | Decoded(email: Field)

  /** Which store call, if any, throws during this request. */
  datatype Outage = Healthy | LookupFails | InsertFails

  datatype Body = Error(error: string) | Joined(message: string, id: nat)

  datatype Response = Response(status: int, body: Body)

  /** The ways out of the handler, before the response is built. */
  datatype Outcome = EmailRequired | InvalidFormat | AlreadyRegistered | Created(email: string) | Failed

  const EmailRequiredText := "Email is required"
  const InvalidFormatText := "Invalid email format"
  const AlreadyRegisteredText := "Looks like u have already registerd!"
  const JoinedText := "Successfully joined the waitlist!"
  const FailureText := "Something went wrong. Please try again."

  /** The email the handler goes on with: a non-empty string (`!email || typeof email !== 'string'` fails otherwise). */
  predicate Supplied(payload: Payload) {
    payload.Decoded? && payload.email.Text? && payload.email.s != ""
  }

  /** Every stored key is lower-case and passes the shape rule. */
  ghost predicate Registered(keys: set<string>) {
    forall e | e in keys :: IsLower(e) && ValidEmail(e)
  }

  /**
   The early returns of the handler, in order, against a store holding `stored`.
   Only a created outcome writes; it adds a lower-case, well-shaped address that was absent.
   */
  function Classify(stored: set<string>, payload: Payload, outage: Outage): (r: Outcome)
    ensures r.Created? <==>
      Supplied(payload) && ValidEmail(payload.email.s) && Lower(payload.email.s) !in stored && outage.Healthy?
    ensures r.Created? ==> Supplied(payload) && r.email == Lower(payload.email.s)
    ensures r.Created? ==> r.email !in stored && IsLower(r.email) && ValidEmail(r.email)
    ensures r == EmailRequired <==> payload.Decoded? && !Supplied(payload)
    ensures r == InvalidFormat <==> Supplied(payload) && !ValidEmail(payload.email.s)
    ensures r == Failed <==>
      payload.Undecodable? ||
      (Supplied(payload) && ValidEmail(payload.email.s) &&
       (outage.LookupFails? || (Lower(payload.email.s) !in stored && outage.InsertFails?)))
  {
    match payload
    case Undecodable => Failed
    case Decoded(f) =>
      if !f.Text? || f.s == "" then EmailRequired
      else if !ValidEmail(f.s) then InvalidFormat
      else LowerKeepsShape(f.s); Admission(stored, Lower(f.s), outage)
  }

  /** Lines 26-51 of the handler for an address already checked and lower-cased: look up, then insert. */
  function Admission(stored: set<string>, key: string, outage: Outage): (r: Outcome)
    ensures r.Created? <==> key !in stored && outage.Healthy?
    ensures r.Created? ==> r.email == key
    ensures r == AlreadyRegistered <==> key in stored && !outage.LookupFails?
    ensures r == Failed <==> outage.LookupFails? || (key !in stored && outage.InsertFails?)
  {
    if outage.LookupFails? then Failed
    else if key in stored then AlreadyRegistered
    else if outage.InsertFails? then Failed
    else Created(key)
  }

  /**
   The `NextResponse.json(...)` of each outcome. Client mistakes are 4xx with their own
   message; a failure is 500 with one generic message and no detail; only a creation
   answers 201, with the new row's id.
   */
  function Render(o: Outcome, id: nat): (r: Response)
    ensures r.status == 201 <==> o.Created?
    ensures r.body.Joined? <==> o.Created?
    ensures o.Created? ==> r.body == Joined(JoinedText, id)
    ensures 400 <= r.status < 500 <==> o in {EmailRequired, InvalidFormat, AlreadyRegistered}
    ensures o == EmailRequired ==> r == Response(400, Error(EmailRequiredText))
    ensures o == InvalidFormat ==> r == Response(400, Error(InvalidFormatText))
    ensures o == AlreadyRegistered ==> r == Response(409, Error(AlreadyRegisteredText))
    ensures r.status == 500 <==> o == Failed
    ensures r.status == 500 ==> r.body == Error(FailureText)
  {
    match o
    case EmailRequired => Response(400, Error(EmailRequiredText))
    case InvalidFormat => Response(400, Error(InvalidFormatText))
    case AlreadyRegistered => Response(409, Error(AlreadyRegisteredText))
    case Created(_) => Response(201, Joined(JoinedText, id))
    case Failed => Response(500, Error(FailureText))
  }

  /**
   The handler. It answers as `Render(Classify(...))` says, writes the table only on a
   201, and keeps every stored key lower-case and well-shaped.
   */
  method Post(table: WaitlistTable, payload: Payload, outage: Outage, now: int) returns (resp: Response)
    requires table.Valid() && Registered(table.rows.Keys)
    modifies table
    ensures table.Valid() && Registered(table.rows.Keys)
    ensures resp == Render(Classify(old(table.rows.Keys), payload, outage), old(table.nextId))
    ensures resp.status != 201 ==> table.rows == old(table.rows) && table.nextId == old(table.nextId)
    ensures resp.status == 201 ==>
      var key := Lower(payload.email.s);
      table.rows == old(table.rows)[key := Entry(old(table.nextId), key, now)]
  {
    if payload.Undecodable? {
      return Response(500, Error(FailureText));
    }
    var email := payload.email;
    if !email.Text? || email.s == "" {
      return Response(400, Error(EmailRequiredText));
    }
    if !ValidEmail(email.s) {
      return Response(400, Error(InvalidFormatText));
    }
    var key := Lower(email.s);
    LowerKeepsShape(email.s);
    ghost var stored := table.rows.Keys;
    resp := Admit(table, key, outage, now);
    if resp.status == 201 {
      RegisteredGrows(stored, key);
    }
  }

  /** The lookup and the insert, for a lower-cased address that passed the shape rule. */
  method Admit(table: WaitlistTable, key: string, outage: Outage, now: int) returns (resp: Response)
    requires table.Valid()
    modifies table
    ensures table.Valid()
    ensures resp == Render(Admission(old(table.rows.Keys), key, outage), old(table.nextId))
    ensures resp.status != 201 ==> table.rows == old(table.rows) && table.nextId == old(table.nextId)
    ensures resp.status == 201 ==> table.rows == old(table.rows)[key := Entry(old(table.nextId), key, now)]
  {
    var existing := table.FindUnique(key, outage != LookupFails);
    if existing.Err? {
      return Response(500, Error(FailureText));
    }
    if existing.value.Some? {
      return Response(409, Error(AlreadyRegisteredText));
    }
    var created := table.Create(key, now, outage != InsertFails);
    if created.Err? {
      return Response(500, Error(FailureText));
    }
    resp := Response(201, Joined(JoinedText, created.value.id));
  }

  /** A missing or malformed `email` is answered 400 with its own message, whatever the store holds. */
  lemma FieldErrorsAnswer400(stored: set<string>, payload: Payload, outage: Outage, id: nat)
    ensures payload.Decoded? && !Supplied(payload) ==>
      Render(Classify(stored, payload, outage), id) == Response(400, Error(EmailRequiredText))
    ensures Supplied(payload) && !ValidEmail(payload.email.s) ==>
      Render(Classify(stored, payload, outage), id) == Response(400, Error(InvalidFormatText))
  {
  }

  lemma RegisteredGrows(keys: set<string>, key: string)
    requires Registered(keys) && IsLower(key) && ValidEmail(key)
    ensures Registered(keys + {key})
  {
  }

  /** Stored keys never differ only in letter case: two that lower-case alike are the same key. */
  lemma RegisteredDistinctUpToCase(keys: set<string>, a: string, b: string)
    requires Registered(keys) && a in keys && b in keys
    requires Lower(a) == Lower(b)
    ensures a == b
  {
    LowerOfLower(a);
    LowerOfLower(b);
  }

  /**
   Duplicate detection ignores letter case: two addresses that lower-case alike get the
   same outcome against the same store.
   */
  lemma ClassifyIgnoresCase(stored: set<string>, s: string, t: string, outage: Outage)
    requires Lower(s) == Lower(t)
    ensures Classify(stored, Decoded(Text(s)), outage) == Classify(stored, Decoded(Text(t)), outage)
  {
    LowerKeepsShape(s);
    LowerKeepsShape(t);
  }

  /**
   After a submission of `s` is created, a later submission of any case variant `t`
   is answered 409, unless the lookup itself fails.
   */
  lemma RepeatIsAlreadyRegistered(stored: set<string>, s: string, t: string, outage: Outage, id: nat)
    requires Lower(t) == Lower(s)
    requires !outage.LookupFails?
    ensures Classify(stored, Decoded(Text(s)), Healthy).Created? ==>
      Classify(stored + {Lower(s)}, Decoded(Text(t)), outage) == AlreadyRegistered &&
      Render(Classify(stored + {Lower(s)}, Decoded(Text(t)), outage), id) == Response(409, Error(AlreadyRegisteredText))
  {
    ClassifyIgnoresCase(stored + {Lower(s)}, s, t, outage);
  }

  /** The field and shape checks come before any store call: neither the table nor an outage changes their answer. */
  lemma ValidationIsStoreIndependent(stored: set<string>, other: set<string>, payload: Payload, outage: Outage, other_outage: Outage)
    requires payload.Decoded?
    requires Classify(stored, payload, outage) in {EmailRequired, InvalidFormat}
    ensures Classify(other, payload, other_outage) == Classify(stored, payload, outage)
  {
  }
}
