/** The connection record of src/classes/client.ts: four mutable fields with
    defaults, and a constructor that copies over whichever fields a partial
    record supplies. */
module ClientRecord {
  import opened Values

  /** The value of a client's four fields at one moment. */
  datatype Attrs = Attrs(id: string, userId: string, inCall: bool, sessionId: string)

  /** A `Partial<Client>`: each field either supplied or absent. */
  datatype Overrides = Overrides(
    id: Option<string>, userId: Option<string>, inCall: Option<bool>, sessionId: Option<string>)

  /** The field initialisers of the class. */
  const Defaults: Attrs := Attrs("", "", false, "")

  const NoOverrides: Overrides := Overrides(None, None, None, None)

  function Supplied<T>(o: Option<T>, current: T): T {
    match o
    case Some(v) => v
    case None => current
  }

  /** `Object.assign(base, part)`: every supplied field replaces the current one. */
  function Assign(base: Attrs, part: Overrides): (r: Attrs)
    ensures part == NoOverrides ==> r == base
  {
    Attrs(Supplied(part.id, base.id), Supplied(part.userId, base.userId),
          Supplied(part.inCall, base.inCall), Supplied(part.sessionId, base.sessionId))
  }

  class Client {
    var id: string
    var userId: string
    var inCall: bool
    var sessionId: string

    function View(): Attrs
      reads this
    {
      Attrs(id, userId, inCall, sessionId)
    }

    /** Field initialisers first, then `Object.assign(this, part)`. */
    constructor (part: Overrides)
      ensures View() == Assign(Defaults, part)
    {
      id, userId, inCall, sessionId := "", "", false, "";
      new;
      if part.id.Some? { id := part.id.value; }
      if part.userId.Some? { userId := part.userId.value; }
      if part.inCall.Some? { inCall := part.inCall.value; }
      if part.sessionId.Some? { sessionId := part.sessionId.value; }
    }
  }

  /** A client built from an empty partial record has the declared defaults:
      empty id, user id and session id, and not in a call. */
  lemma FreshClientDefaults()
    ensures Assign(Defaults, NoOverrides) == Attrs("", "", false, "")
  {
  }

  /** The fields a partial record supplies are taken from it, the others keep the
      value they had. */
  lemma AssignOverridesExactlySupplied(base: Attrs, part: Overrides)
    ensures var r := Assign(base, part);
      (part.id.Some? ==> r.id == part.id.value) && (part.id.None? ==> r.id == base.id)
      && (part.userId.Some? ==> r.userId == part.userId.value) && (part.userId.None? ==> r.userId == base.userId)
      && (part.inCall.Some? ==> r.inCall == part.inCall.value) && (part.inCall.None? ==> r.inCall == base.inCall)
      && (part.sessionId.Some? ==> r.sessionId == part.sessionId.value)
      && (part.sessionId.None? ==> r.sessionId == base.sessionId)
  {
  }

  /** Applying the same partial record twice changes nothing more. */
  lemma AssignIdempotent(base: Attrs, part: Overrides)
    ensures Assign(Assign(base, part), part) == Assign(base, part)
  {
  }
}
