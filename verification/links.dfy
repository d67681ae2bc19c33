/** The owner/mess binding. A mess names its owner (`Mess.ownerId`) and an owner account
    names its mess (`User.messId`); the controllers keep the two sides in step by hand.
    `Linked` is the agreement they aim for, proved preserved by every binding operation
    except updateOwner as written, for which it fails. */
module Links {
  import opened Wrappers
  import opened Calendar
  import opened Records
  import opened Registry
  import opened Owners

  /** Every owned mess points to an existing owner account that points back. */
  ghost predicate MessesLinked(db: Db) {
    forall m :: m in db.messes && db.messes[m].ownerId.Some? ==>
      var u := db.messes[m].ownerId.value;
      u in db.users && db.users[u].role == Owner && db.users[u].messId == Some(m)
  }

  /** Every owner account with a mess points to an existing mess that points back. */
  ghost predicate OwnersLinked(db: Db) {
    forall u :: u in db.users && db.users[u].role == Owner && db.users[u].messId.Some? ==>
      var m := db.users[u].messId.value;
      m in db.messes && db.messes[m].ownerId == Some(u)
  }

  ghost predicate Linked(db: Db) {
    MessesLinked(db) && OwnersLinked(db)
  }

  /** Under the invariant an owner has a mess exactly when some mess names them. */
  lemma OwnerHasMessIffNamed(db: Db, u: Id)
    requires Linked(db) && u in db.users && db.users[u].role == Owner
    ensures db.users[u].messId.Some? <==> OwnsSomeMess(db.messes, u)
    ensures forall m :: m in db.messes && db.messes[m].ownerId == Some(u) ==> db.users[u].messId == Some(m)
  {
    if db.users[u].messId.Some? {
      var m := db.users[u].messId.value;
      assert m in db.messes && db.messes[m].ownerId == Some(u);
    }
  }

  /** Under the invariant the unassigned list holds exactly the messes no owner points to. */
  lemma UnassignedIffNoOwnerPoints(db: Db, m: Id)
    requires Linked(db) && m in db.messes
    ensures m in Unassigned(db) <==>
      !exists u :: u in db.users && db.users[u].role == Owner && db.users[u].messId == Some(m)
  {
    if m !in Unassigned(db) {
      var u := db.messes[m].ownerId.value;
      assert u in db.users && db.users[u].role == Owner && db.users[u].messId == Some(m);
    }
  }

  /** A write that leaves every owner link and every account alone keeps the invariant. */
  lemma LinksUntouched(db: Db, db': Db)
    requires Linked(db)
    requires db'.users == db.users && db'.messes.Keys == db.messes.Keys
    requires forall m :: m in db.messes ==> db'.messes[m].ownerId == db.messes[m].ownerId
    ensures Linked(db')
  {
  }

  lemma CreateMessKeepsLinks(db: Db, name: Option<string>, capacity: Option<int>, address: Option<string>,
                             contact: Option<string>, ownerId: Option<Id>)
    requires Linked(db) && KeysFresh(db)
    ensures Linked(CreateMess(db, name, capacity, address, contact, ownerId).db)
  {
    var r := CreateMess(db, name, capacity, address, contact, ownerId);
    if r.outcome.Done? && ownerId.Some? {
      OwnerHasMessIffNamed(db, ownerId.value);
    }
  }

  /** assignOwner keeps the links as long as the mess it saves passes validation. */
  lemma AssignOwnerKeepsLinks(db: Db, messId: Id, ownerId: Option<Id>)
    requires Linked(db)
    requires messId in db.messes ==> MessValid(db.messes[messId])
    ensures Linked(AssignOwner(db, messId, ownerId).db)
  {
    var r := AssignOwner(db, messId, ownerId);
    if r.outcome.Done? {
      OwnerHasMessIffNamed(db, ownerId.value);
    }
  }

  /** assignOwner on a mess with an empty name and a previous owner: the request answers
      500, the previous owner no longer names the mess, but the mess still names them. */
  lemma AssignOwnerEmptyNameUnlinks(db: Db, messId: Id, o: Id)
    requires Linked(db) && messId in db.messes && !MessValid(db.messes[messId])
    requires db.messes[messId].ownerId.Some?
    requires IsOwnerAccount(db.users, o) && !OwnsSomeMess(db.messes, o)
    ensures
      var r := AssignOwner(db, messId, Some(o));
      var previous := db.messes[messId].ownerId.value;
      && r.outcome == Failed(ServerError(MsgAssignFailed))
      && previous in r.db.users && r.db.users[previous].messId.None?
      && r.db.messes[messId].ownerId == Some(previous)
      && !Linked(r.db)
  {
  }

  lemma UpdateMessKeepsLinks(db: Db, messId: Id, name: Option<string>, capacity: Option<int>, address: Option<string>)
    requires Linked(db)
    ensures Linked(UpdateMess(db, messId, name, capacity, address).db)
  {
  }

  lemma DeleteMessKeepsLinks(db: Db, messId: Id)
    requires Linked(db)
    ensures Linked(DeleteMess(db, messId).db)
  {
  }

  lemma CreateOwnerKeepsLinks(db: Db, input: NewOwner, attachFails: bool)
    requires Linked(db) && KeysFresh(db)
    ensures Linked(CreateOwner(db, input, attachFails).db)
  {
  }

  lemma ToggleActiveKeepsLinks(db: Db, id: Id, expiry: Option<Day>, extendDays: Option<int>, now: Day)
    requires Linked(db)
    ensures Linked(ToggleActive(db, id, expiry, extendDays, now).db)
  {
  }

  lemma ToggleActiveIntendedKeepsLinks(db: Db, id: Id, expiry: Option<Day>, extendDays: Option<int>, now: Day)
    requires Linked(db)
    ensures Linked(ToggleActiveIntended(db, id, expiry, extendDays, now).db)
  {
  }

  lemma UpdateOwnerIntendedKeepsLinks(db: Db, id: Id, patch: OwnerPatch)
    requires Linked(db)
    ensures Linked(UpdateOwnerIntended(db, id, patch).db)
  {
  }

  /** updateOwner as written, unassigning an owner who has a mess: the request succeeds,
      the owner no longer names the mess, but the mess still names the owner. */
  lemma UpdateOwnerUnassignKeepsStaleMess(db: Db, id: Id, patch: OwnerPatch)
    requires Linked(db) && id in db.users && db.users[id].role == Owner && db.users[id].messId.Some?
    requires patch.messId.Falsy? && patch.password.None?
    ensures
      var r := UpdateOwner(db, id, patch);
      var m := db.users[id].messId.value;
      && r.outcome.Done?
      && r.db.users[id].messId.None?
      && m in r.db.messes && r.db.messes[m].ownerId == Some(id)
      && !Linked(r.db)
  {
  }

  /** updateOwner as written, moving an owner to a free mess: both the old and the new
      mess name the owner afterwards. */
  lemma UpdateOwnerMoveKeepsStaleMess(db: Db, id: Id, patch: OwnerPatch)
    requires Linked(db) && id in db.users && db.users[id].role == Owner && db.users[id].messId.Some?
    requires patch.messId.Given? && patch.messId.v in db.messes && db.messes[patch.messId.v].ownerId.None?
    requires MessValid(db.messes[patch.messId.v])
    requires patch.password.None?
    ensures
      var r := UpdateOwner(db, id, patch);
      var m := db.users[id].messId.value;
      && r.outcome.Done?
      && m != patch.messId.v
      && r.db.messes[m].ownerId == Some(id) && r.db.messes[patch.messId.v].ownerId == Some(id)
      && !Linked(r.db)
  {
  }

  /** updateOwner as written, with a new password below the schema minimum: the request
      answers 500, yet the new mess has already been given the owner, who was never
      saved with it. */
  lemma UpdateOwnerShortPasswordHalfLinks(db: Db, id: Id, patch: OwnerPatch)
    requires Linked(db) && id in db.users && db.users[id].role == Owner && db.users[id].messId.None?
    requires patch.messId.Given? && patch.messId.v in db.messes && db.messes[patch.messId.v].ownerId.None?
    requires MessValid(db.messes[patch.messId.v])
    requires patch.password.Some? && |patch.password.value| < MinPasswordLength
    ensures
      var r := UpdateOwner(db, id, patch);
      && r.outcome == Failed(ServerError(MsgUpdateFailed))
      && r.db.messes[patch.messId.v].ownerId == Some(id)
      && r.db.users[id].messId.None?
      && !Linked(r.db)
  {
  }

  /** Where the previous mess plays no part the two versions agree: the bug is confined
      to unassigning, moving, and short passwords. */
  lemma UpdateOwnerVersionsAgree(db: Db, id: Id, patch: OwnerPatch)
    requires patch.password.None? || |patch.password.value| >= MinPasswordLength
    requires patch.messId.Absent? || (id in db.users && db.users[id].messId.None?)
    ensures UpdateOwner(db, id, patch) == UpdateOwnerIntended(db, id, patch)
  {
  }
}
