/** The mess registry of src/controllers/messController.js: creating a mess (optionally
    bound to an owner), assigning an owner, updating and deleting a mess, the list of
    messes with no owner, and the contact shown for a mess. */
module Registry {
  import opened Wrappers
  import opened Text
  import opened Records

  const MsgNameCapacityRequired := "Name and capacity are required"
  const MsgInvalidOwnerSelected := "Invalid owner selected"
  const MsgOwnerAlreadyAssigned := "This owner is already assigned to a mess"
  const MsgMessNotFound := "Mess not found"
  const MsgOwnerIdRequired := "ownerId is required"
  const MsgInvalidOwner := "Invalid owner"
  const MsgOwnerHasMess := "Owner already has a mess"
  const MsgAssignFailed := "Failed to assign owner"
  const MsgUpdateMessFailed := "Failed to update mess"
  const NotProvided := "Not Provided"

  /** `Mess.findOne({ ownerId })` finds something: user `u` is the owner of some mess. */
  predicate OwnsSomeMess(messes: map<Id, Mess>, u: Id) {
    exists m :: m in messes && messes[m].ownerId == Some(u)
  }

  /** `User.findById(id)` is an owner account. */
  predicate IsOwnerAccount(users: map<Id, User>, u: Id) {
    u in users && users[u].role == Owner
  }

  /** `User.findByIdAndUpdate(u, { messId: null })`; nothing happens when there is no such user. */
  function ClearUserMess(users: map<Id, User>, u: Option<Id>): (r: map<Id, User>)
    ensures r.Keys == users.Keys
    ensures forall k :: k in users && Some(k) != u ==> r[k] == users[k]
    ensures u.Some? && u.value in users ==> r[u.value] == users[u.value].(messId := None)
  {
    if u.Some? && u.value in users then users[u.value := users[u.value].(messId := None)] else users
  }

  /** POST /api/mess. The new mess gets id `db.nextId`. The body's `contact` is not kept:
      the Mess schema has no such path. */
  function CreateMess(db: Db, name: Option<string>, capacity: Option<int>, address: Option<string>,
                      contact: Option<string>, ownerId: Option<Id>): (r: Step)
    ensures r.outcome.Failed? ==> r.db == db
    ensures r == Reject(db, BadRequest(MsgNameCapacityRequired)) <==>
      name.None? || name.value == "" || capacity.None? || capacity.value == 0
    ensures r.outcome.Done? <==>
      && name.Some? && name.value != "" && capacity.Some? && capacity.value != 0
      && (ownerId.Some? ==> IsOwnerAccount(db.users, ownerId.value) && !OwnsSomeMess(db.messes, ownerId.value))
    ensures r.outcome.Done? ==>
      && r.db.messes == db.messes[db.nextId := Mess(name.value, ownerId, capacity.value, address.GetOr(""), 0, 0, true)]
      && r.db.nextId == db.nextId + 1
      && r.db.students == db.students && r.db.payments == db.payments
      && r.db.users.Keys == db.users.Keys
      && (forall k :: k in db.users && Some(k) != ownerId ==> r.db.users[k] == db.users[k])
      && (ownerId.Some? ==> r.db.users[ownerId.value] == db.users[ownerId.value].(messId := Some(db.nextId)))
  {
    if name.None? || name.value == "" || capacity.None? || capacity.value == 0 then
      Reject(db, BadRequest(MsgNameCapacityRequired))
    else if ownerId.Some? && !IsOwnerAccount(db.users, ownerId.value) then
      Reject(db, BadRequest(MsgInvalidOwnerSelected))
    else if ownerId.Some? && OwnsSomeMess(db.messes, ownerId.value) then
      Reject(db, BadRequest(MsgOwnerAlreadyAssigned))
    else
      var id := db.nextId;
      var mess := Mess(name.value, ownerId, capacity.value, address.GetOr(""), 0, 0, true);
      var users := if ownerId.Some? then db.users[ownerId.value := db.users[ownerId.value].(messId := Some(id))]
                   else db.users;
      Step(db.(messes := db.messes[id := mess], users := users, nextId := id + 1), Done)
  }

  /** POST /api/mess/:id/assign-owner. The previous owner is unlinked before `mess.save()`
      re-validates the mess; when that fails (an empty name) the request answers 500 with
      the previous owner already unlinked and the mess still naming them. */
  function AssignOwner(db: Db, messId: Id, ownerId: Option<Id>): (r: Step)
    ensures messId !in db.messes ==> r == Reject(db, NotFound(MsgMessNotFound))
    // An owner who already owns a mess, this one included, is turned away.
    ensures (messId in db.messes && ownerId.Some? && IsOwnerAccount(db.users, ownerId.value)
             && OwnsSomeMess(db.messes, ownerId.value)) ==> r == Reject(db, BadRequest(MsgOwnerHasMess))
    ensures r.outcome.Done? <==>
      messId in db.messes && ownerId.Some? && IsOwnerAccount(db.users, ownerId.value)
      && !OwnsSomeMess(db.messes, ownerId.value) && MessValid(db.messes[messId])
    ensures OnlyOwnersChanged(db.messes, r.db.messes)
    ensures r.outcome.Done? ==>
      var o := ownerId.value;
      var previous := db.messes[messId].ownerId;
      && r.db.messes == db.messes[messId := db.messes[messId].(ownerId := Some(o))]
      && r.db.users.Keys == db.users.Keys
      && r.db.users[o] == db.users[o].(messId := Some(messId))
      && (previous.Some? && previous.value in db.users ==> r.db.users[previous.value].messId.None?)
      && (forall k :: k in db.users && k != o && Some(k) != previous ==> r.db.users[k] == db.users[k])
      && r.db.students == db.students && r.db.payments == db.payments && r.db.nextId == db.nextId
    // The one failure after a write: the previous owner is unlinked, the mess is not saved.
    ensures r.outcome.Failed? && r.db != db ==>
      && r.outcome == Failed(ServerError(MsgAssignFailed))
      && messId in db.messes && !MessValid(db.messes[messId])
      && r.db == db.(users := ClearUserMess(db.users, db.messes[messId].ownerId))
    ensures MessesValid(db.messes) && r.outcome.Failed? ==> r.db == db
  {
    if messId !in db.messes then Reject(db, NotFound(MsgMessNotFound))
    else if ownerId.None? then Reject(db, BadRequest(MsgOwnerIdRequired))
    else
      var o := ownerId.value;
      if !IsOwnerAccount(db.users, o) then Reject(db, BadRequest(MsgInvalidOwner))
      else if OwnsSomeMess(db.messes, o) then Reject(db, BadRequest(MsgOwnerHasMess))
      else
        var mess := db.messes[messId];
        var users := ClearUserMess(db.users, mess.ownerId);
        if !MessValid(mess) then Step(db.(users := users), Failed(ServerError(MsgAssignFailed)))
        else
          assert o in users;
          Step(db.(messes := db.messes[messId := mess.(ownerId := Some(o))],
                   users := users[o := users[o].(messId := Some(messId))]), Done)
  }

  /** PUT /api/mess/:id. Only the given fields change; there is no check that the new
      capacity still covers `totalStudents`. */
  function UpdateMess(db: Db, messId: Id, name: Option<string>, capacity: Option<int>, address: Option<string>): (r: Step)
    ensures messId !in db.messes ==> r == Reject(db, NotFound(MsgMessNotFound))
    ensures r.outcome.Done? <==> messId in db.messes
    ensures r.outcome.Done? ==> messId in r.db.messes
    ensures r.outcome.Done? && messId in r.db.messes ==>
      var old_ := db.messes[messId];
      var new_ := r.db.messes[messId];
      && r.db == db.(messes := db.messes[messId := new_])
      && new_.name == name.GetOr(old_.name)
      && new_.capacity == capacity.GetOr(old_.capacity)
      && new_.address == address.GetOr(old_.address)
      && new_.ownerId == old_.ownerId && new_.totalStudents == old_.totalStudents
      && new_.revenue == old_.revenue && new_.isActive == old_.isActive
  {
    if messId !in db.messes then Reject(db, NotFound(MsgMessNotFound))
    else
      var mess := db.messes[messId];
      var updated := mess.(name := name.GetOr(mess.name), capacity := capacity.GetOr(mess.capacity),
                           address := address.GetOr(mess.address));
      Step(db.(messes := db.messes[messId := updated]), Done)
  }

  /** updateMess with the schema's validators applied to the update, as every other write
      of a mess gets them: an empty name is refused (500) before anything is written, so
      no stored mess ever fails a later `save()`. Other updates are those of UpdateMess. */
  function UpdateMessIntended(db: Db, messId: Id, name: Option<string>, capacity: Option<int>, address: Option<string>): (r: Step)
    ensures name != Some("") ==> r == UpdateMess(db, messId, name, capacity, address)
    ensures name == Some("") ==> r == Reject(db, ServerError(MsgUpdateMessFailed))
    ensures MessesValid(db.messes) ==> MessesValid(r.db.messes)
  {
    if name == Some("") then Reject(db, ServerError(MsgUpdateMessFailed))
    else UpdateMess(db, messId, name, capacity, address)
  }

  /** As written, an update can store a mess that no later `save()` accepts. */
  lemma UpdateMessStoresEmptyName(db: Db, messId: Id)
    requires messId in db.messes
    ensures
      var r := UpdateMess(db, messId, Some(""), None, None);
      r.outcome.Done? && !MessValid(r.db.messes[messId])
  {
  }

  /** Nothing stops an update from shrinking a mess below the students it holds. */
  lemma UpdateMessCanOverfill(db: Db, messId: Id)
    requires messId in db.messes && db.messes[messId].totalStudents > 0
    ensures
      var r := UpdateMess(db, messId, None, Some(db.messes[messId].totalStudents - 1), None);
      r.outcome.Done? && r.db.messes[messId].totalStudents > r.db.messes[messId].capacity
  {
  }

  /** DELETE /api/mess/:id. The owner's `messId` is cleared, then the mess removed; its
      students and payments stay. */
  function DeleteMess(db: Db, messId: Id): (r: Step)
    ensures messId !in db.messes ==> r == Reject(db, NotFound(MsgMessNotFound))
    ensures r.outcome.Done? <==> messId in db.messes
    ensures r.outcome.Done? ==>
      var owner := db.messes[messId].ownerId;
      && r.db.messes == db.messes - {messId}
      && r.db.users.Keys == db.users.Keys
      && (owner.Some? && owner.value in db.users ==> r.db.users[owner.value].messId.None?)
      && (forall k :: k in db.users && Some(k) != owner ==> r.db.users[k] == db.users[k])
      && r.db.students == db.students && r.db.payments == db.payments && r.db.nextId == db.nextId
  {
    if messId !in db.messes then Reject(db, NotFound(MsgMessNotFound))
    else
      var users := ClearUserMess(db.users, db.messes[messId].ownerId);
      Step(db.(users := users, messes := db.messes - {messId}), Done)
  }

  /** GET /api/mess/unassigned: `Mess.find({ ownerId: null })`. */
  function Unassigned(db: Db): (r: set<Id>)
    ensures r <= db.messes.Keys
    ensures forall m :: m in db.messes ==> (m in r <==> db.messes[m].ownerId.None?)
  {
    set m | m in db.messes && db.messes[m].ownerId.None?
  }

  /** The contact a mess is displayed with: its own contact when it is not blank, else its
      owner's contact when that is not empty, else "Not Provided". */
  function DisplayContact(messContact: Option<string>, owner: Option<User>): (r: string)
    ensures messContact.Some? && !IsBlank(messContact.value) ==> r == messContact.value
    ensures (messContact.None? || IsBlank(messContact.value)) && owner.Some? && owner.value.contact != ""
            ==> r == owner.value.contact
    ensures (messContact.None? || IsBlank(messContact.value)) && (owner.None? || owner.value.contact == "")
            ==> r == NotProvided
  {
    if messContact.Some? && !IsBlank(messContact.value) then messContact.value
    else if owner.Some? && owner.value.contact != "" then owner.value.contact
    else NotProvided
  }

  /** A stored mess carries no contact, so the listing always shows the owner's contact or
      "Not Provided", whatever contact was sent when the mess was created. */
  lemma StoredMessShowsOwnerContact(db: Db, messId: Id)
    requires messId in db.messes
    ensures
      var owner := db.messes[messId].ownerId;
      var found := if owner.Some? && owner.value in db.users then Some(db.users[owner.value]) else None;
      var shown := DisplayContact(None, found);
      shown == NotProvided || (found.Some? && shown == found.value.contact)
  {
  }
}
