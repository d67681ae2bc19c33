/** Owner accounts, src/controllers/ownerController.js: creating an owner (optionally bound
    to a free mess, with a rollback when the binding fails), updating an owner through the
    list of allowed keys (including moving them to another mess), and the active toggle
    with its subscription extension. */
module Owners {
  import opened Wrappers
  import opened Calendar
  import opened Records

  const MsgCredentialsRequired := "username and password required"
  const MsgUsernameTaken := "Username already exists"
  const MsgMessNotFound := "Mess not found"
  const MsgMessHasOwner := "Mess already has an owner"
  const MsgCreateFailed := "Failed to create owner"
  const MsgAttachFailed := "Failed to assign owner to mess"
  const MsgOwnerNotFound := "Owner not found"
  const MsgUpdateFailed := "Failed to update owner"

  /** The `minlength` of the User schema's password, checked by the validators of `save()`
      on the password as given, before the pre-save hook hashes it. */
  const MinPasswordLength := 6

  /** The body of POST /api/owners; absent or falsy keys are `None`. */
  datatype NewOwner = NewOwner(
    username: Option<string>,
    password: Option<string>,
    name: Option<string>,
    contact: Option<string>,
    email: Option<string>,
    messId: Option<Id>,
    subscriptionExpiry: Option<Day>)

  /** A body key that is missing (`undefined`), present but falsy, or set. */
  datatype Field<T> = Absent | Falsy | Given(v: T)

  /** The body of PUT /api/owners/:id, restricted to the allowed keys. */
  datatype OwnerPatch = OwnerPatch(
    name: Option<string>,
    contact: Option<string>,
    email: Option<string>,
    messId: Field<Id>,
    subscriptionExpiry: Field<Day>,
    password: Option<string>)

  predicate UsernameTaken(users: map<Id, User>, username: string) {
    exists k :: k in users && users[k].username == username
  }

  /** `Mess.findByIdAndUpdate(m, { ownerId: null })`; nothing happens when there is no such mess. */
  function ClearMessOwner(messes: map<Id, Mess>, m: Id): (r: map<Id, Mess>)
    ensures r.Keys == messes.Keys
    ensures forall k :: k in messes && k != m ==> r[k] == messes[k]
    ensures m in messes ==> r[m] == messes[m].(ownerId := None)
  {
    if m in messes then messes[m := messes[m].(ownerId := None)] else messes
  }

  /** Moves owner `id` from mess `previous` to mess `m`: the previous mess, when it is
      another one, loses its owner and `m` names `id`; no other mess changes. */
  function MoveOwner(messes: map<Id, Mess>, previous: Option<Id>, m: Id, id: Id): (r: map<Id, Mess>)
    requires m in messes
    ensures r.Keys == messes.Keys && m in r && r[m].ownerId == Some(id)
    ensures previous.Some? && previous.value in messes && previous.value != m ==> r[previous.value].ownerId.None?
    ensures forall k :: k in messes && Some(k) != previous && k != m ==> r[k] == messes[k]
    ensures OnlyOwnersChanged(messes, r)
  {
    var cleared := if previous.Some? && previous.value != m then ClearMessOwner(messes, previous.value) else messes;
    cleared[m := cleared[m].(ownerId := Some(id))]
  }

  /** POST /api/owners. The new owner gets id `db.nextId`. Saving the mess with its new
      owner throws when the mess fails validation (an empty name) or when `attachFails`, the
      store's own failure, says so; the owner just created is then deleted again and the
      request answers 500. */
  function CreateOwner(db: Db, input: NewOwner, attachFails: bool): (r: Step)
    ensures r.outcome.Failed? ==> r.db == db
    ensures OnlyOwnersChanged(db.messes, r.db.messes)
    ensures r == Reject(db, BadRequest(MsgCredentialsRequired)) <==>
      input.username.None? || input.username.value == "" || input.password.None? || input.password.value == ""
    ensures r.outcome.Done? <==>
      && input.username.Some? && input.username.value != ""
      && input.password.Some? && |input.password.value| >= MinPasswordLength
      && !UsernameTaken(db.users, input.username.value)
      && (input.messId.Some? ==>
            && input.messId.value in db.messes && db.messes[input.messId.value].ownerId.None?
            && MessValid(db.messes[input.messId.value]) && !attachFails)
    ensures r.outcome.Done? ==>
      var id := db.nextId;
      && r.db.users == db.users[id := User(input.username.value, input.password.value, Owner, input.messId,
                                           input.name.GetOr(""), input.contact.GetOr(""), input.email.GetOr(""),
                                           true, input.subscriptionExpiry)]
      && r.db.nextId == id + 1
      && r.db.messes.Keys == db.messes.Keys
      && (forall k :: k in db.messes && Some(k) != input.messId ==> r.db.messes[k] == db.messes[k])
      && (input.messId.Some? ==> r.db.messes[input.messId.value] == db.messes[input.messId.value].(ownerId := Some(id)))
      && r.db.students == db.students && r.db.payments == db.payments
  {
    if input.username.None? || input.username.value == "" || input.password.None? || input.password.value == "" then
      Reject(db, BadRequest(MsgCredentialsRequired))
    else if UsernameTaken(db.users, input.username.value) then Reject(db, BadRequest(MsgUsernameTaken))
    else if input.messId.Some? && input.messId.value !in db.messes then Reject(db, BadRequest(MsgMessNotFound))
    else if input.messId.Some? && db.messes[input.messId.value].ownerId.Some? then Reject(db, BadRequest(MsgMessHasOwner))
    else if |input.password.value| < MinPasswordLength then Reject(db, ServerError(MsgCreateFailed))
    else if input.messId.Some? && (attachFails || !MessValid(db.messes[input.messId.value])) then
      Reject(db, ServerError(MsgAttachFailed))
    else
      var id := db.nextId;
      var owner := User(input.username.value, input.password.value, Owner, input.messId,
                        input.name.GetOr(""), input.contact.GetOr(""), input.email.GetOr(""),
                        true, input.subscriptionExpiry);
      var messes := if input.messId.Some?
        then db.messes[input.messId.value := db.messes[input.messId.value].(ownerId := Some(id))]
        else db.messes;
      Step(db.(users := db.users[id := owner], messes := messes, nextId := id + 1), Done)
  }

  /** The allowed-keys loop of updateOwner: every allowed key present in the body is copied
      onto the loaded owner, `messId` included. */
  function ApplyAllowed(owner: User, patch: OwnerPatch): (r: User)
    ensures r.role == owner.role && r.username == owner.username && r.isActive == owner.isActive
    ensures patch.messId.Absent? ==> r.messId == owner.messId
    ensures patch.messId.Falsy? ==> r.messId.None?
    ensures patch.messId.Given? ==> r.messId == Some(patch.messId.v)
    ensures r.name == patch.name.GetOr(owner.name) && r.contact == patch.contact.GetOr(owner.contact)
    ensures r.email == patch.email.GetOr(owner.email) && r.password == patch.password.GetOr(owner.password)
  {
    owner.(
      name := patch.name.GetOr(owner.name),
      contact := patch.contact.GetOr(owner.contact),
      email := patch.email.GetOr(owner.email),
      messId := match patch.messId
        case Absent => owner.messId
        case Falsy => None
        case Given(m) => Some(m),
      subscriptionExpiry := match patch.subscriptionExpiry
        case Absent => owner.subscriptionExpiry
        case Falsy => None
        case Given(d) => Some(d),
      password := patch.password.GetOr(owner.password))
  }

  /** The final `owner.save()`: a new password shorter than the schema minimum fails
      validation (500) after the mess writes already made. */
  function SaveOwner(db: Db, id: Id, owner: User, patch: OwnerPatch): (r: Step)
    ensures r.outcome.Done? <==> !(patch.password.Some? && |patch.password.value| < MinPasswordLength)
    ensures r.outcome.Done? ==> r.db == db.(users := db.users[id := owner])
    ensures r.outcome.Failed? ==> r.db == db && r.outcome.failure == ServerError(MsgUpdateFailed)
  {
    if patch.password.Some? && |patch.password.value| < MinPasswordLength then
      Step(db, Failed(ServerError(MsgUpdateFailed)))
    else Step(db.(users := db.users[id := owner]), Done)
  }

  /** PUT /api/owners/:id, as written. The allowed-keys loop has already overwritten
      `owner.messId` with the body's value when the reassignment block reads it, so
      "if unassigning and the owner had a mess" never holds and "the previous mess differs
      from the new one" never holds: the previous mess keeps this owner as its owner.
      The new mess's `save()` fails (500) when the mess has an empty name. */
  function UpdateOwner(db: Db, id: Id, patch: OwnerPatch): (r: Step)
    ensures id !in db.users || db.users[id].role != Owner ==> r == Reject(db, NotFound(MsgOwnerNotFound))
    ensures r.outcome.Done? ==>
      && id in db.users && db.users[id].role == Owner
      && r.db.users.Keys == db.users.Keys
      && (forall k :: k in db.users && k != id ==> r.db.users[k] == db.users[k])
      && r.db.users[id] == ApplyAllowed(db.users[id], patch)
      && r.db.students == db.students && r.db.payments == db.payments && r.db.nextId == db.nextId
    // Reassignment: the target mess must exist and be free or already this owner's.
    ensures patch.messId.Given? && id in db.users && db.users[id].role == Owner && patch.messId.v !in db.messes
            ==> r == Reject(db, BadRequest(MsgMessNotFound))
    ensures patch.messId.Given? && id in db.users && db.users[id].role == Owner && patch.messId.v in db.messes
            && db.messes[patch.messId.v].ownerId.Some? && db.messes[patch.messId.v].ownerId.value != id
            ==> r == Reject(db, BadRequest(MsgMessHasOwner))
    ensures patch.messId.Given? && id in db.users && db.users[id].role == Owner && patch.messId.v in db.messes
            && !(db.messes[patch.messId.v].ownerId.Some? && db.messes[patch.messId.v].ownerId.value != id)
            && !MessValid(db.messes[patch.messId.v])
            ==> r == Reject(db, ServerError(MsgUpdateFailed))
    ensures patch.messId.Given? && r.outcome.Done? ==>
      && r.db.messes == db.messes[patch.messId.v := db.messes[patch.messId.v].(ownerId := Some(id))]
      && r.db.users[id].messId == Some(patch.messId.v)
    // No mess other than the new target is ever written, and only its owner changes.
    ensures !patch.messId.Given? ==> r.db.messes == db.messes
    ensures OnlyOwnersChanged(db.messes, r.db.messes)
    ensures r.db.students == db.students && r.db.payments == db.payments && r.db.nextId == db.nextId
  {
    if id !in db.users || db.users[id].role != Owner then Reject(db, NotFound(MsgOwnerNotFound))
    else
      var owner := ApplyAllowed(db.users[id], patch);
      match patch.messId
      case Absent => SaveOwner(db, id, owner, patch)
      case Falsy =>
        // `if (owner.messId)` reads the value the loop just wrote
        var messes := match owner.messId
          case Some(previous) => ClearMessOwner(db.messes, previous)
          case None => db.messes;
        SaveOwner(db.(messes := messes), id, owner.(messId := None), patch)
      case Given(m) =>
        if m !in db.messes then Reject(db, BadRequest(MsgMessNotFound))
        else if db.messes[m].ownerId.Some? && db.messes[m].ownerId.value != id then Reject(db, BadRequest(MsgMessHasOwner))
        else
          // `owner.messId.toString() !== newMessId` compares the value the loop just wrote
          var messes := match owner.messId
            case Some(previous) => if previous != m then ClearMessOwner(db.messes, previous) else db.messes
            case None => db.messes;
          if !MessValid(db.messes[m]) then Step(db.(messes := messes), Failed(ServerError(MsgUpdateFailed)))
          else
            var linked := messes[m := messes[m].(ownerId := Some(id))];
            SaveOwner(db.(messes := linked), id, owner.(messId := Some(m)), patch)
  }

  /** updateOwner as its comments describe it: the previous mess is read before the
      allowed-keys loop and unlinked when the owner is unassigned or moved, and the new
      password and the new mess are checked before any mess is written, so a rejected save
      leaves no mess half-linked. */
  function UpdateOwnerIntended(db: Db, id: Id, patch: OwnerPatch): (r: Step)
    ensures id !in db.users || db.users[id].role != Owner ==> r == Reject(db, NotFound(MsgOwnerNotFound))
    ensures r.outcome.Failed? ==> r.db == db
    ensures OnlyOwnersChanged(db.messes, r.db.messes)
    ensures r.outcome.Done? ==>
      && id in db.users && db.users[id].role == Owner && id in r.db.users
      && var previous := db.users[id].messId;
      && r.db.users == db.users[id := r.db.users[id]]
      && r.db.users[id].messId == (match patch.messId case Absent => previous case Falsy => None case Given(m) => Some(m))
      && r.db.students == db.students && r.db.payments == db.payments && r.db.nextId == db.nextId
      && r.db.messes.Keys == db.messes.Keys
      && (previous.Some? && previous.value in db.messes && !patch.messId.Absent? && r.db.users[id].messId != previous
          ==> r.db.messes[previous.value].ownerId.None?)
      && (patch.messId.Given? ==> patch.messId.v in r.db.messes && r.db.messes[patch.messId.v].ownerId == Some(id))
      && (forall k :: k in db.messes && Some(k) != previous && !(patch.messId.Given? && k == patch.messId.v) ==>
                    r.db.messes[k] == db.messes[k])
    ensures r.outcome.Done? && patch.messId.Given? ==> MessValid(db.messes[patch.messId.v])
  {
    if id !in db.users || db.users[id].role != Owner then Reject(db, NotFound(MsgOwnerNotFound))
    else if patch.password.Some? && |patch.password.value| < MinPasswordLength then Reject(db, ServerError(MsgUpdateFailed))
    else
      var previous := db.users[id].messId;
      var owner := ApplyAllowed(db.users[id], patch);
      match patch.messId
      case Absent => Step(db.(users := db.users[id := owner]), Done)
      case Falsy =>
        var messes := if previous.Some? then ClearMessOwner(db.messes, previous.value) else db.messes;
        Step(db.(messes := messes, users := db.users[id := owner]), Done)
      case Given(m) =>
        if m !in db.messes then Reject(db, BadRequest(MsgMessNotFound))
        else if db.messes[m].ownerId.Some? && db.messes[m].ownerId.value != id then Reject(db, BadRequest(MsgMessHasOwner))
        else if !MessValid(db.messes[m]) then Reject(db, ServerError(MsgUpdateFailed))
        else
          Step(db.(messes := MoveOwner(db.messes, previous, m, id), users := db.users[id := owner]), Done)
  }

  /** The subscription expiry toggleActive computes, which its answer shows: an explicit date
      wins; otherwise a positive `extendDays` extends from the later of today and the
      current expiry; otherwise nothing changes. */
  function NewExpiry(current: Option<Day>, expiry: Option<Day>, extendDays: Option<int>, now: Day): (r: Option<Day>)
    ensures expiry.Some? ==> r == expiry
    ensures expiry.None? && !(extendDays.Some? && extendDays.value > 0) ==> r == current
    ensures expiry.None? && extendDays.Some? && extendDays.value > 0 ==>
      && r.Some?
      && r.value >= now + extendDays.value
      && (current.Some? ==> r.value >= current.value + extendDays.value)
      && (r.value == now + extendDays.value || (current.Some? && r.value == current.value + extendDays.value))
  {
    if expiry.Some? then expiry
    else if extendDays.Some? && extendDays.value > 0 then
      var base := if current.Some? && current.value > now then current.value else now;
      Some(base + extendDays.value)
    else current
  }

  /** An extension of a subscription that is still running: the handler then moves the
      stored `Date` object itself forward with `setDate`. */
  predicate ExtendsRunning(current: Option<Day>, expiry: Option<Day>, extendDays: Option<int>, now: Day) {
    expiry.None? && extendDays.Some? && extendDays.value > 0 && current.Some? && current.value > now
  }

  /** The expiry `owner.save()` writes. Assigning the stored `Date` back after changing it in
      place leaves the path unmodified for Mongoose's change tracking, so a running
      subscription keeps its stored expiry; a fresh `Date` (an explicit expiry, or an
      extension from today) is written. */
  function StoredExpiry(current: Option<Day>, expiry: Option<Day>, extendDays: Option<int>, now: Day): (r: Option<Day>)
    ensures r == NewExpiry(current, expiry, extendDays, now) <==> !ExtendsRunning(current, expiry, extendDays, now)
    ensures ExtendsRunning(current, expiry, extendDays, now) ==> r == current
  {
    if ExtendsRunning(current, expiry, extendDays, now) then current
    else NewExpiry(current, expiry, extendDays, now)
  }

  /** PUT /api/owners/:id/toggle-active. `isActive` flips whichever way it goes, and the
      expiry rule applies in both directions; the store keeps the expiry `save()` writes. */
  function ToggleActive(db: Db, id: Id, expiry: Option<Day>, extendDays: Option<int>, now: Day): (r: Step)
    ensures id !in db.users || db.users[id].role != Owner ==> r == Reject(db, NotFound(MsgOwnerNotFound))
    ensures r.outcome.Done? <==> id in db.users && db.users[id].role == Owner
    ensures r.outcome.Done? ==>
      && id in db.users && id in r.db.users
      && var before := db.users[id];
      && r.db.users == db.users[id := r.db.users[id]]
      && r.db.users[id].isActive == !before.isActive
      && r.db.users[id].subscriptionExpiry == StoredExpiry(before.subscriptionExpiry, expiry, extendDays, now)
      && r.db.users[id].(isActive := before.isActive, subscriptionExpiry := before.subscriptionExpiry) == before
      && r.db.messes == db.messes && r.db.students == db.students
      && r.db.payments == db.payments && r.db.nextId == db.nextId
  {
    if id !in db.users || db.users[id].role != Owner then Reject(db, NotFound(MsgOwnerNotFound))
    else
      var owner := db.users[id];
      var toggled := owner.(isActive := !owner.isActive,
                            subscriptionExpiry := StoredExpiry(owner.subscriptionExpiry, expiry, extendDays, now));
      Step(db.(users := db.users[id := toggled]), Done)
  }

  /** As written, extending a running subscription answers with the extended expiry but
      stores the old one. */
  lemma RunningExtensionNotStored(db: Db, id: Id, extendDays: int, now: Day)
    requires id in db.users && db.users[id].role == Owner
    requires db.users[id].subscriptionExpiry.Some? && db.users[id].subscriptionExpiry.value > now
    requires extendDays > 0
    ensures
      var current := db.users[id].subscriptionExpiry;
      var r := ToggleActive(db, id, None, Some(extendDays), now);
      && r.outcome.Done?
      && r.db.users[id].subscriptionExpiry == current
      && NewExpiry(current, None, Some(extendDays), now) == Some(current.value + extendDays)
  {
  }

  /** The corrected toggleActive: the extension starts from a copy of the stored date, as
      addPayment does for a membership end, so the store keeps the expiry the answer shows. */
  function ToggleActiveIntended(db: Db, id: Id, expiry: Option<Day>, extendDays: Option<int>, now: Day): (r: Step)
    ensures !ExtendsRunning(if id in db.users then db.users[id].subscriptionExpiry else None, expiry, extendDays, now)
            ==> r == ToggleActive(db, id, expiry, extendDays, now)
    ensures r.outcome.Done? <==> id in db.users && db.users[id].role == Owner
    ensures r.outcome.Done? ==>
      && id in db.users && id in r.db.users
      && var before := db.users[id];
      && r.db == db.(users := db.users[id := before.(isActive := !before.isActive,
                                                     subscriptionExpiry := r.db.users[id].subscriptionExpiry)])
      && (extendDays.Some? && extendDays.value > 0 && expiry.None? ==>
            && r.db.users[id].subscriptionExpiry.Some?
            && r.db.users[id].subscriptionExpiry.value >= now + extendDays.value
            && (before.subscriptionExpiry.Some? ==>
                  r.db.users[id].subscriptionExpiry.value >= before.subscriptionExpiry.value + extendDays.value))
  {
    if id !in db.users || db.users[id].role != Owner then Reject(db, NotFound(MsgOwnerNotFound))
    else
      var owner := db.users[id];
      var toggled := owner.(isActive := !owner.isActive,
                            subscriptionExpiry := NewExpiry(owner.subscriptionExpiry, expiry, extendDays, now));
      Step(db.(users := db.users[id := toggled]), Done)
  }
}
