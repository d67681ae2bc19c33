/** The four collections of the document store (Mess, Student, Payment, User), held
    as immutable records in maps keyed by id, plus the caller of a request and the
    shape of every controller's answer. */
module Records {
  import opened Wrappers
  import opened Calendar

  /** Document ids. One counter serves all collections, as ObjectIds are unique store-wide. */
  type Id = nat

  datatype Role = Admin | Owner

  /** A mess (src/models/Mess.js). The schema has no `contact` path, so a contact sent to
      createMess is dropped by the store and never kept here. */
  datatype Mess = Mess(
    name: string,
    ownerId: Option<Id>,
    capacity: int,
    address: string,
    totalStudents: int,
    revenue: int,
    isActive: bool)

  /** A student (src/models/Student.js). `mealPlan` and `gender` are strings: the enum
      validators run on create and save, not on `findByIdAndUpdate`. */
  datatype Student = Student(
    messId: Id,
    name: string,
    mobile: string,
    address: string,
    mealPlan: string,
    fee: int,
    startDate: Option<Day>,
    membershipEnd: Option<Day>,
    gender: string,
    paymentStatus: map<string, string>,
    isFrozen: bool,
    freezeStart: Option<Day>,
    freezeEnd: Option<Day>,
    remarks: string)

  datatype PaymentMode = Cash | Upi | BankTransfer | Card

  /** A recorded payment (src/models/Payment.js). */
  datatype Payment = Payment(
    messId: Id,
    studentId: Id,
    amount: int,
    month: string,
    paymentDate: Day,
    paymentMode: PaymentMode,
    note: string,
    recordedBy: Id)

  /** An admin or owner account (src/models/User.js). The password is kept as an opaque
      string: hashing is not modelled. */
  datatype User = User(
    username: string,
    password: string,
    role: Role,
    messId: Option<Id>,
    name: string,
    contact: string,
    email: string,
    isActive: bool,
    subscriptionExpiry: Option<Day>)

  /** The whole store. `nextId` is the id the next created document receives. */
  datatype Db = Db(
    messes: map<Id, Mess>,
    students: map<Id, Student>,
    payments: map<Id, Payment>,
    users: map<Id, User>,
    nextId: Id)

  /** The caller (`req.user`): the user record the auth middleware loaded. */
  datatype Principal = Principal(id: Id, role: Role, messId: Option<Id>)

  /** How a request ended. */
  datatype Outcome = Done | Failed(failure: Failure)

  /** The store after a request together with how the request ended. A request that
      fails before writing anything leaves the store as it found it. */
  datatype Step = Step(db: Db, outcome: Outcome)

  function Reject(db: Db, f: Failure): (r: Step)
    ensures r.db == db && r.outcome.Failed?
  {
    Step(db, Failed(f))
  }

  const AccessDenied := "Access denied"

  /** The owner check every scoped controller makes before touching a record of mess
      `messId`: admins pass, owners pass for their own mess only (403 otherwise). An owner
      with no mess makes `req.user.messId.toString()` throw, which the controller turns
      into its 500 answer `serverError`. */
  function Scope(p: Principal, messId: Id, serverError: string): (r: Option<Failure>)
    ensures r.None? <==> p.role == Admin || p.messId == Some(messId)
    ensures r.Some? ==> r.value == ServerError(serverError) || r.value == Forbidden(AccessDenied)
    ensures r == Some(Forbidden(AccessDenied)) <==> p.role == Owner && p.messId.Some? && p.messId.value != messId
  {
    if p.role.Admin? then None
    else if p.messId.None? then Some(ServerError(serverError))
    else if p.messId.value != messId then Some(Forbidden(AccessDenied))
    else None
  }

  /** `after` differs from `before` at most in which owner each mess names. */
  ghost predicate OnlyOwnersChanged(before: map<Id, Mess>, after: map<Id, Mess>) {
    && after.Keys == before.Keys
    && forall k :: k in before ==> after[k] == before[k].(ownerId := after[k].ownerId)
  }

  /** What the validators of `mess.save()` re-check on a whole mess document
      (src/models/Mess.js): `name` is required, and Mongoose's `required` refuses the empty
      string. `capacity` is required too, and always holds a number here. */
  predicate MessValid(mess: Mess) {
    mess.name != ""
  }

  /** Every stored mess would pass `save()`. */
  predicate MessesValid(messes: map<Id, Mess>) {
    forall m :: m in messes ==> MessValid(messes[m])
  }

  /** `after` holds the same messes as `before`, under the same names. */
  ghost predicate NamesKept(before: map<Id, Mess>, after: map<Id, Mess>) {
    && after.Keys == before.Keys
    && forall k :: k in before ==> after[k].name == before[k].name
  }

  /** A write that renames no mess keeps every mess valid. */
  lemma NamesKeptKeepsValid(before: map<Id, Mess>, after: map<Id, Mess>)
    requires MessesValid(before) && NamesKept(before, after)
    ensures MessesValid(after)
  {
    forall m | m in after ensures MessValid(after[m]) {
      assert m in before;
    }
  }

  /** Every document id in use is below the counter, so `nextId` is fresh. */
  predicate KeysFresh(db: Db) {
    && (forall k :: k in db.messes ==> k < db.nextId)
    && (forall k :: k in db.students ==> k < db.nextId)
    && (forall k :: k in db.payments ==> k < db.nextId)
    && (forall k :: k in db.users ==> k < db.nextId)
  }

  /** The ids of the students of mess `messId`. */
  function MessStudents(students: map<Id, Student>, messId: Id): (ks: set<Id>)
    ensures forall k :: k in ks <==> k in students && students[k].messId == messId
  {
    set k | k in students && students[k].messId == messId
  }

  /** `Student.countDocuments({ messId })`: how many students belong to mess `messId`. */
  function Occupancy(students: map<Id, Student>, messId: Id): nat {
    |MessStudents(students, messId)|
  }

  /** Adding a student of mess `messId` under a new id raises that mess's count by one. */
  lemma OccupancyInsert(students: map<Id, Student>, k: Id, st: Student, messId: Id)
    requires k !in students
    ensures Occupancy(students[k := st], messId)
         == Occupancy(students, messId) + (if st.messId == messId then 1 else 0)
  {
    var before, after := MessStudents(students, messId), MessStudents(students[k := st], messId);
    if st.messId == messId {
      assert after == before + {k};
    } else {
      assert after == before;
    }
  }

  /** Removing student `k` lowers the count of its own mess by one and no other. */
  lemma OccupancyRemove(students: map<Id, Student>, k: Id, messId: Id)
    requires k in students
    ensures Occupancy(students - {k}, messId)
         == Occupancy(students, messId) - (if students[k].messId == messId then 1 else 0)
  {
    var before, after := MessStudents(students, messId), MessStudents(students - {k}, messId);
    if students[k].messId == messId {
      assert before == after + {k};
    } else {
      assert after == before;
    }
  }

  /** Rewriting a student without moving it to another mess changes no count. */
  lemma OccupancyReplace(students: map<Id, Student>, k: Id, st: Student, messId: Id)
    requires k in students && students[k].messId == st.messId
    ensures Occupancy(students[k := st], messId) == Occupancy(students, messId)
  {
    assert MessStudents(students[k := st], messId) == MessStudents(students, messId);
  }
}
