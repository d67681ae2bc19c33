/** The store under any sequence of the writing requests of the student, payment, mess and
    owner routes, and the three pieces of bookkeeping the controllers maintain by hand:
    the owner/mess links, each mess's `totalStudents`, and each mess's `revenue`. */
module Requests {
  import opened Wrappers
  import opened Calendar
  import opened Records
  import StudentSchema
  import Billing
  import Roster
  import Registry
  import Owners
  import opened Links

  /** One writing request, with the inputs its controller reads. */
  datatype Op =
    | AddStudent(p: Principal, bodyMessId: Option<Id>, input: StudentSchema.NewStudent, now: Day)
    | UpdateStudent(p: Principal, sid: Id, body: map<string, Roster.Json>)
    | DeleteStudent(p: Principal, sid: Id)
    | ToggleFreeze(p: Principal, sid: Id, now: Day)
    | AddPayment(p: Principal, studentId: Option<Id>, amount: Option<int>, mode: Option<string>, now: Day, month: string)
    | DeletePayment(p: Principal, paymentId: Id)
    | CreateMess(name: Option<string>, capacity: Option<int>, address: Option<string>, contact: Option<string>, ownerId: Option<Id>)
    | AssignOwner(messId: Id, ownerId: Option<Id>)
    | UpdateMess(messId: Id, name: Option<string>, capacity: Option<int>, address: Option<string>)
    | DeleteMess(messId: Id)
    | CreateOwner(owner: Owners.NewOwner, attachFails: bool)
    | UpdateOwner(id: Id, patch: Owners.OwnerPatch)
    | ToggleActive(id: Id, expiry: Option<Day>, extendDays: Option<int>, now: Day)

  /** One request against the store. `corrected` selects the corrected updateOwner,
      updateStudent, updateMess and toggleActive. */
  function Apply(db: Db, op: Op, corrected: bool): Step {
    match op
    case AddStudent(p, m, input, now) => Roster.AddStudent(db, p, m, input, now)
    case UpdateStudent(p, sid, body) =>
      if corrected then Roster.UpdateStudentIntended(db, p, sid, body) else Roster.UpdateStudent(db, p, sid, body)
    case DeleteStudent(p, sid) => Roster.DeleteStudent(db, p, sid)
    case ToggleFreeze(p, sid, now) => Roster.ToggleFreeze(db, p, sid, now)
    case AddPayment(p, sid, amount, mode, now, month) => Billing.AddPayment(db, p, sid, amount, mode, now, month)
    case DeletePayment(p, pid) => Billing.DeletePayment(db, p, pid)
    case CreateMess(name, capacity, address, contact, ownerId) =>
      Registry.CreateMess(db, name, capacity, address, contact, ownerId)
    case AssignOwner(m, ownerId) => Registry.AssignOwner(db, m, ownerId)
    case UpdateMess(m, name, capacity, address) =>
      if corrected then Registry.UpdateMessIntended(db, m, name, capacity, address)
      else Registry.UpdateMess(db, m, name, capacity, address)
    case DeleteMess(m) => Registry.DeleteMess(db, m)
    case CreateOwner(input, attachFails) => Owners.CreateOwner(db, input, attachFails)
    case UpdateOwner(id, patch) =>
      if corrected then Owners.UpdateOwnerIntended(db, id, patch) else Owners.UpdateOwner(db, id, patch)
    case ToggleActive(id, expiry, extendDays, now) =>
      if corrected then Owners.ToggleActiveIntended(db, id, expiry, extendDays, now)
      else Owners.ToggleActive(db, id, expiry, extendDays, now)
  }

  /** The store after the requests in order, whatever each one answered. */
  function Run(db: Db, ops: seq<Op>, corrected: bool): Db
    decreases |ops|
  {
    if ops == [] then db else Run(Apply(db, ops[0], corrected).db, ops[1..], corrected)
  }

  /** An update whose body names `messId`, the one way a student changes mess. */
  predicate MovesStudent(op: Op) {
    op.UpdateStudent? && "messId" in op.body
  }

  /** An update that empties a mess's name, which every later `save()` of the mess refuses. */
  predicate EmptiesName(op: Op) {
    op.UpdateMess? && op.name == Some("")
  }

  /** Students and payments refer only to mess ids already handed out, so a new mess starts
      with none of either. */
  predicate RefsFresh(db: Db) {
    && (forall k :: k in db.students ==> db.students[k].messId < db.nextId)
    && (forall k :: k in db.payments ==> db.payments[k].messId < db.nextId)
  }

  /** Every mess's `totalStudents` is the number of its students. */
  ghost predicate CounterAccurate(db: Db) {
    forall m :: m in db.messes ==> db.messes[m].totalStudents == Occupancy(db.students, m)
  }

  /** The sum of the amounts of the payments of mess `m` among ids below `n`. */
  function PaidTo(payments: map<Id, Payment>, m: Id, n: nat): int
    decreases n
  {
    if n == 0 then 0
    else PaidTo(payments, m, n - 1) + (if n - 1 in payments && payments[n - 1].messId == m then payments[n - 1].amount else 0)
  }

  /** Every mess's `revenue` is the sum of its recorded payments. */
  ghost predicate RevenueAccurate(db: Db) {
    forall m :: m in db.messes ==> db.messes[m].revenue == PaidTo(db.payments, m, db.nextId)
  }

  /** Two payment collections that agree below `n` have the same sums there. */
  lemma {:induction false} PaidToAgree(p1: map<Id, Payment>, p2: map<Id, Payment>, m: Id, n: nat)
    requires forall k: nat :: k < n ==> (k in p1 <==> k in p2)
    requires forall k: nat :: k < n && k in p1 ==> p1[k] == p2[k]
    ensures PaidTo(p1, m, n) == PaidTo(p2, m, n)
    decreases n
  {
    if n > 0 {
      PaidToAgree(p1, p2, m, n - 1);
    }
  }

  /** Removing payment `k` takes its amount off its own mess's sum. */
  lemma {:induction false} PaidToRemove(payments: map<Id, Payment>, k: Id, m: Id, n: nat)
    requires k in payments && k < n
    ensures PaidTo(payments - {k}, m, n)
         == PaidTo(payments, m, n) - (if payments[k].messId == m then payments[k].amount else 0)
    decreases n
  {
    if n - 1 == k {
      PaidToAgree(payments - {k}, payments, m, n - 1);
    } else {
      PaidToRemove(payments, k, m, n - 1);
    }
  }

  /** A mess no payment refers to has a zero sum. */
  lemma {:induction false} PaidToNothing(payments: map<Id, Payment>, m: Id, n: nat)
    requires forall k :: k in payments ==> payments[k].messId != m
    ensures PaidTo(payments, m, n) == 0
    decreases n
  {
    if n > 0 {
      PaidToNothing(payments, m, n - 1);
    }
  }

  /** Recording a payment under the fresh id `n` adds its amount to its own mess's sum. */
  lemma PaidToAppend(payments: map<Id, Payment>, n: nat, pay: Payment, m: Id)
    requires forall k :: k in payments ==> k < n
    ensures PaidTo(payments[n := pay], m, n + 1)
         == PaidTo(payments, m, n) + (if pay.messId == m then pay.amount else 0)
  {
    PaidToAgree(payments[n := pay], payments, m, n);
  }

  /** Moving the counter past an unused id changes no sum. */
  lemma PaidToSkip(payments: map<Id, Payment>, n: nat, m: Id)
    requires forall k :: k in payments ==> k < n
    ensures PaidTo(payments, m, n + 1) == PaidTo(payments, m, n)
  {
  }

  lemma ApplyKeepsKeysFresh(db: Db, op: Op, corrected: bool)
    requires KeysFresh(db)
    ensures KeysFresh(Apply(db, op, corrected).db)
    ensures Apply(db, op, corrected).db.nextId >= db.nextId
  {
    if op.AddStudent? || op.UpdateStudent? || op.DeleteStudent? || op.ToggleFreeze? {
      StudentOpKeepsKeysFresh(db, op, corrected);
    } else if op.AddPayment? || op.DeletePayment? || op.CreateMess? || op.AssignOwner? {
      PaymentOrMessOpKeepsKeysFresh(db, op, corrected);
    } else {
      OwnerOpKeepsKeysFresh(db, op, corrected);
    }
  }

  lemma StudentOpKeepsKeysFresh(db: Db, op: Op, corrected: bool)
    requires KeysFresh(db)
    requires op.AddStudent? || op.UpdateStudent? || op.DeleteStudent? || op.ToggleFreeze?
    ensures KeysFresh(Apply(db, op, corrected).db)
    ensures Apply(db, op, corrected).db.nextId >= db.nextId
  {
    if op.AddStudent? {
      AddStudentOpKeepsKeysFresh(db, op, corrected);
    } else if op.UpdateStudent? {
      UpdateStudentOpKeepsKeysFresh(db, op, corrected);
    } else if op.DeleteStudent? {
      DeleteStudentOpKeepsKeysFresh(db, op, corrected);
    } else {
      ToggleFreezeOpKeepsKeysFresh(db, op, corrected);
    }
  }

  lemma AddStudentOpKeepsKeysFresh(db: Db, op: Op, corrected: bool)
    requires KeysFresh(db)
    requires op.AddStudent?
    ensures KeysFresh(Apply(db, op, corrected).db)
    ensures Apply(db, op, corrected).db.nextId >= db.nextId
  {
  }

  lemma UpdateStudentOpKeepsKeysFresh(db: Db, op: Op, corrected: bool)
    requires KeysFresh(db)
    requires op.UpdateStudent?
    ensures KeysFresh(Apply(db, op, corrected).db)
    ensures Apply(db, op, corrected).db.nextId >= db.nextId
  {
  }

  lemma DeleteStudentOpKeepsKeysFresh(db: Db, op: Op, corrected: bool)
    requires KeysFresh(db)
    requires op.DeleteStudent?
    ensures KeysFresh(Apply(db, op, corrected).db)
    ensures Apply(db, op, corrected).db.nextId >= db.nextId
  {
  }

  lemma ToggleFreezeOpKeepsKeysFresh(db: Db, op: Op, corrected: bool)
    requires KeysFresh(db)
    requires op.ToggleFreeze?
    ensures KeysFresh(Apply(db, op, corrected).db)
    ensures Apply(db, op, corrected).db.nextId >= db.nextId
  {
  }

  lemma PaymentOrMessOpKeepsKeysFresh(db: Db, op: Op, corrected: bool)
    requires KeysFresh(db)
    requires op.AddPayment? || op.DeletePayment? || op.CreateMess? || op.AssignOwner?
    ensures KeysFresh(Apply(db, op, corrected).db)
    ensures Apply(db, op, corrected).db.nextId >= db.nextId
  {
    if op.AddPayment? {
      AddPaymentOpKeepsKeysFresh(db, op, corrected);
    } else if op.DeletePayment? {
      DeletePaymentOpKeepsKeysFresh(db, op, corrected);
    } else if op.CreateMess? {
      CreateMessOpKeepsKeysFresh(db, op, corrected);
    } else {
      AssignOwnerOpKeepsKeysFresh(db, op, corrected);
    }
  }

  lemma AddPaymentOpKeepsKeysFresh(db: Db, op: Op, corrected: bool)
    requires KeysFresh(db)
    requires op.AddPayment?
    ensures KeysFresh(Apply(db, op, corrected).db)
    ensures Apply(db, op, corrected).db.nextId >= db.nextId
  {
  }

  lemma DeletePaymentOpKeepsKeysFresh(db: Db, op: Op, corrected: bool)
    requires KeysFresh(db)
    requires op.DeletePayment?
    ensures KeysFresh(Apply(db, op, corrected).db)
    ensures Apply(db, op, corrected).db.nextId >= db.nextId
  {
  }

  lemma CreateMessOpKeepsKeysFresh(db: Db, op: Op, corrected: bool)
    requires KeysFresh(db)
    requires op.CreateMess?
    ensures KeysFresh(Apply(db, op, corrected).db)
    ensures Apply(db, op, corrected).db.nextId >= db.nextId
  {
  }

  lemma AssignOwnerOpKeepsKeysFresh(db: Db, op: Op, corrected: bool)
    requires KeysFresh(db)
    requires op.AssignOwner?
    ensures KeysFresh(Apply(db, op, corrected).db)
    ensures Apply(db, op, corrected).db.nextId >= db.nextId
  {
  }

  lemma OwnerOpKeepsKeysFresh(db: Db, op: Op, corrected: bool)
    requires KeysFresh(db)
    requires op.UpdateMess? || op.DeleteMess? || op.CreateOwner? || op.UpdateOwner? || op.ToggleActive?
    ensures KeysFresh(Apply(db, op, corrected).db)
    ensures Apply(db, op, corrected).db.nextId >= db.nextId
  {
    if op.UpdateMess? {
      UpdateMessOpKeepsKeysFresh(db, op, corrected);
    } else if op.DeleteMess? {
      DeleteMessOpKeepsKeysFresh(db, op, corrected);
    } else if op.CreateOwner? {
      CreateOwnerOpKeepsKeysFresh(db, op, corrected);
    } else if op.UpdateOwner? {
      UpdateOwnerOpKeepsKeysFresh(db, op, corrected);
    } else {
      ToggleActiveOpKeepsKeysFresh(db, op, corrected);
    }
  }

  lemma UpdateMessOpKeepsKeysFresh(db: Db, op: Op, corrected: bool)
    requires KeysFresh(db)
    requires op.UpdateMess?
    ensures KeysFresh(Apply(db, op, corrected).db)
    ensures Apply(db, op, corrected).db.nextId >= db.nextId
  {
  }

  lemma DeleteMessOpKeepsKeysFresh(db: Db, op: Op, corrected: bool)
    requires KeysFresh(db)
    requires op.DeleteMess?
    ensures KeysFresh(Apply(db, op, corrected).db)
    ensures Apply(db, op, corrected).db.nextId >= db.nextId
  {
  }

  lemma CreateOwnerOpKeepsKeysFresh(db: Db, op: Op, corrected: bool)
    requires KeysFresh(db)
    requires op.CreateOwner?
    ensures KeysFresh(Apply(db, op, corrected).db)
    ensures Apply(db, op, corrected).db.nextId >= db.nextId
  {
  }

  lemma UpdateOwnerOpKeepsKeysFresh(db: Db, op: Op, corrected: bool)
    requires KeysFresh(db)
    requires op.UpdateOwner?
    ensures KeysFresh(Apply(db, op, corrected).db)
    ensures Apply(db, op, corrected).db.nextId >= db.nextId
  {
  }

  lemma ToggleActiveOpKeepsKeysFresh(db: Db, op: Op, corrected: bool)
    requires KeysFresh(db)
    requires op.ToggleActive?
    ensures KeysFresh(Apply(db, op, corrected).db)
    ensures Apply(db, op, corrected).db.nextId >= db.nextId
  {
  }

  lemma ApplyKeepsRefsFresh(db: Db, op: Op, corrected: bool)
    requires KeysFresh(db) && RefsFresh(db) && (corrected || !MovesStudent(op))
    ensures RefsFresh(Apply(db, op, corrected).db)
  {
    if op.UpdateStudent? {
      UpdateStudentKeepsRefsFresh(db, op, corrected);
    } else if op.AddStudent? || op.DeleteStudent? || op.ToggleFreeze? {
      StudentOpKeepsRefsFresh(db, op, corrected);
    } else if op.AddPayment? || op.DeletePayment? || op.CreateMess? || op.AssignOwner? {
      PaymentOrMessOpKeepsRefsFresh(db, op, corrected);
    } else {
      OwnerOpKeepsRefsFresh(db, op, corrected);
    }
  }

  lemma UpdateStudentKeepsRefsFresh(db: Db, op: Op, corrected: bool)
    requires KeysFresh(db) && RefsFresh(db) && (corrected || !MovesStudent(op))
    requires op.UpdateStudent?
    ensures RefsFresh(Apply(db, op, corrected).db)
  {
    var r := Apply(db, op, corrected);
    if !corrected && r.outcome.Done? {
      var body := Roster.NormalizeUpdate(op.body);
      assert "messId" !in body;
    }
  }

  lemma StudentOpKeepsRefsFresh(db: Db, op: Op, corrected: bool)
    requires KeysFresh(db) && RefsFresh(db)
    requires op.AddStudent? || op.DeleteStudent? || op.ToggleFreeze?
    ensures RefsFresh(Apply(db, op, corrected).db)
  {
    if op.AddStudent? {
      AddStudentOpKeepsRefsFresh(db, op, corrected);
    } else if op.DeleteStudent? {
      DeleteStudentOpKeepsRefsFresh(db, op, corrected);
    } else {
      ToggleFreezeOpKeepsRefsFresh(db, op, corrected);
    }
  }

  lemma AddStudentOpKeepsRefsFresh(db: Db, op: Op, corrected: bool)
    requires KeysFresh(db) && RefsFresh(db)
    requires op.AddStudent?
    ensures RefsFresh(Apply(db, op, corrected).db)
  {
  }

  lemma DeleteStudentOpKeepsRefsFresh(db: Db, op: Op, corrected: bool)
    requires KeysFresh(db) && RefsFresh(db)
    requires op.DeleteStudent?
    ensures RefsFresh(Apply(db, op, corrected).db)
  {
  }

  lemma ToggleFreezeOpKeepsRefsFresh(db: Db, op: Op, corrected: bool)
    requires KeysFresh(db) && RefsFresh(db)
    requires op.ToggleFreeze?
    ensures RefsFresh(Apply(db, op, corrected).db)
  {
  }

  lemma PaymentOrMessOpKeepsRefsFresh(db: Db, op: Op, corrected: bool)
    requires KeysFresh(db) && RefsFresh(db)
    requires op.AddPayment? || op.DeletePayment? || op.CreateMess? || op.AssignOwner?
    ensures RefsFresh(Apply(db, op, corrected).db)
  {
    if op.AddPayment? {
      AddPaymentOpKeepsRefsFresh(db, op, corrected);
    } else if op.DeletePayment? {
      DeletePaymentOpKeepsRefsFresh(db, op, corrected);
    } else if op.CreateMess? {
      CreateMessOpKeepsRefsFresh(db, op, corrected);
    } else {
      AssignOwnerOpKeepsRefsFresh(db, op, corrected);
    }
  }

  lemma AddPaymentOpKeepsRefsFresh(db: Db, op: Op, corrected: bool)
    requires KeysFresh(db) && RefsFresh(db)
    requires op.AddPayment?
    ensures RefsFresh(Apply(db, op, corrected).db)
  {
  }

  lemma DeletePaymentOpKeepsRefsFresh(db: Db, op: Op, corrected: bool)
    requires KeysFresh(db) && RefsFresh(db)
    requires op.DeletePayment?
    ensures RefsFresh(Apply(db, op, corrected).db)
  {
  }

  lemma CreateMessOpKeepsRefsFresh(db: Db, op: Op, corrected: bool)
    requires KeysFresh(db) && RefsFresh(db)
    requires op.CreateMess?
    ensures RefsFresh(Apply(db, op, corrected).db)
  {
  }

  lemma AssignOwnerOpKeepsRefsFresh(db: Db, op: Op, corrected: bool)
    requires KeysFresh(db) && RefsFresh(db)
    requires op.AssignOwner?
    ensures RefsFresh(Apply(db, op, corrected).db)
  {
  }

  lemma OwnerOpKeepsRefsFresh(db: Db, op: Op, corrected: bool)
    requires KeysFresh(db) && RefsFresh(db)
    requires op.UpdateMess? || op.DeleteMess? || op.CreateOwner? || op.UpdateOwner? || op.ToggleActive?
    ensures RefsFresh(Apply(db, op, corrected).db)
  {
    if op.UpdateMess? {
      UpdateMessOpKeepsRefsFresh(db, op, corrected);
    } else if op.DeleteMess? {
      DeleteMessOpKeepsRefsFresh(db, op, corrected);
    } else if op.CreateOwner? {
      CreateOwnerOpKeepsRefsFresh(db, op, corrected);
    } else if op.UpdateOwner? {
      UpdateOwnerOpKeepsRefsFresh(db, op, corrected);
    } else {
      ToggleActiveOpKeepsRefsFresh(db, op, corrected);
    }
  }

  lemma UpdateMessOpKeepsRefsFresh(db: Db, op: Op, corrected: bool)
    requires KeysFresh(db) && RefsFresh(db)
    requires op.UpdateMess?
    ensures RefsFresh(Apply(db, op, corrected).db)
  {
  }

  lemma DeleteMessOpKeepsRefsFresh(db: Db, op: Op, corrected: bool)
    requires KeysFresh(db) && RefsFresh(db)
    requires op.DeleteMess?
    ensures RefsFresh(Apply(db, op, corrected).db)
  {
  }

  lemma CreateOwnerOpKeepsRefsFresh(db: Db, op: Op, corrected: bool)
    requires KeysFresh(db) && RefsFresh(db)
    requires op.CreateOwner?
    ensures RefsFresh(Apply(db, op, corrected).db)
  {
  }

  lemma UpdateOwnerOpKeepsRefsFresh(db: Db, op: Op, corrected: bool)
    requires KeysFresh(db) && RefsFresh(db)
    requires op.UpdateOwner?
    ensures RefsFresh(Apply(db, op, corrected).db)
  {
  }

  lemma ToggleActiveOpKeepsRefsFresh(db: Db, op: Op, corrected: bool)
    requires KeysFresh(db) && RefsFresh(db)
    requires op.ToggleActive?
    ensures RefsFresh(Apply(db, op, corrected).db)
  {
  }

  /** Only updateMess renames a mess, so every request keeps the messes valid, the
      as-written update that empties a name excepted. */
  lemma ApplyKeepsMessesValid(db: Db, op: Op, corrected: bool)
    requires MessesValid(db.messes) && (corrected || !EmptiesName(op))
    ensures MessesValid(Apply(db, op, corrected).db.messes)
  {
    match op
    case CreateMess(name, capacity, address, contact, ownerId) =>
    case UpdateMess(m, name, capacity, address) =>
    case DeleteMess(m) =>
    case AddStudent(_, _, _, _) => StudentOpKeepsNames(db, op, corrected);
    case UpdateStudent(_, _, _) => StudentOpKeepsNames(db, op, corrected);
    case DeleteStudent(_, _) => StudentOpKeepsNames(db, op, corrected);
    case ToggleFreeze(_, _, _) => StudentOpKeepsNames(db, op, corrected);
    case _ => OwnerOpKeepsNames(db, op, corrected);
  }

  lemma StudentOpKeepsNames(db: Db, op: Op, corrected: bool)
    requires MessesValid(db.messes)
    requires op.AddStudent? || op.UpdateStudent? || op.DeleteStudent? || op.ToggleFreeze?
    ensures MessesValid(Apply(db, op, corrected).db.messes)
  {
    if op.AddStudent? {
      AddStudentOpKeepsNames(db, op, corrected);
    } else if op.UpdateStudent? {
      UpdateStudentOpKeepsNames(db, op, corrected);
    } else if op.DeleteStudent? {
      DeleteStudentOpKeepsNames(db, op, corrected);
    } else {
      ToggleFreezeOpKeepsNames(db, op, corrected);
    }
  }

  lemma AddStudentOpKeepsNames(db: Db, op: Op, corrected: bool)
    requires MessesValid(db.messes)
    requires op.AddStudent?
    ensures MessesValid(Apply(db, op, corrected).db.messes)
  {
    var db' := Apply(db, op, corrected).db;
    assert NamesKept(db.messes, db'.messes);
    NamesKeptKeepsValid(db.messes, db'.messes);
  }

  lemma UpdateStudentOpKeepsNames(db: Db, op: Op, corrected: bool)
    requires MessesValid(db.messes)
    requires op.UpdateStudent?
    ensures MessesValid(Apply(db, op, corrected).db.messes)
  {
    var db' := Apply(db, op, corrected).db;
    assert NamesKept(db.messes, db'.messes);
    NamesKeptKeepsValid(db.messes, db'.messes);
  }

  lemma DeleteStudentOpKeepsNames(db: Db, op: Op, corrected: bool)
    requires MessesValid(db.messes)
    requires op.DeleteStudent?
    ensures MessesValid(Apply(db, op, corrected).db.messes)
  {
    var db' := Apply(db, op, corrected).db;
    assert NamesKept(db.messes, db'.messes);
    NamesKeptKeepsValid(db.messes, db'.messes);
  }

  lemma ToggleFreezeOpKeepsNames(db: Db, op: Op, corrected: bool)
    requires MessesValid(db.messes)
    requires op.ToggleFreeze?
    ensures MessesValid(Apply(db, op, corrected).db.messes)
  {
    var db' := Apply(db, op, corrected).db;
    assert NamesKept(db.messes, db'.messes);
    NamesKeptKeepsValid(db.messes, db'.messes);
  }

  lemma OwnerOpKeepsNames(db: Db, op: Op, corrected: bool)
    requires MessesValid(db.messes)
    requires op.AddPayment? || op.DeletePayment? || op.AssignOwner? || op.CreateOwner?
          || op.UpdateOwner? || op.ToggleActive?
    ensures MessesValid(Apply(db, op, corrected).db.messes)
  {
    if op.AddPayment? {
      AddPaymentOpKeepsNames(db, op, corrected);
    } else if op.DeletePayment? {
      DeletePaymentOpKeepsNames(db, op, corrected);
    } else if op.AssignOwner? {
      AssignOwnerOpKeepsNames(db, op, corrected);
    } else if op.CreateOwner? {
      CreateOwnerOpKeepsNames(db, op, corrected);
    } else if op.UpdateOwner? {
      UpdateOwnerOpKeepsNames(db, op, corrected);
    } else {
      ToggleActiveOpKeepsNames(db, op, corrected);
    }
  }

  lemma AddPaymentOpKeepsNames(db: Db, op: Op, corrected: bool)
    requires MessesValid(db.messes)
    requires op.AddPayment?
    ensures MessesValid(Apply(db, op, corrected).db.messes)
  {
    var db' := Apply(db, op, corrected).db;
    assert NamesKept(db.messes, db'.messes);
    NamesKeptKeepsValid(db.messes, db'.messes);
  }

  lemma DeletePaymentOpKeepsNames(db: Db, op: Op, corrected: bool)
    requires MessesValid(db.messes)
    requires op.DeletePayment?
    ensures MessesValid(Apply(db, op, corrected).db.messes)
  {
    var db' := Apply(db, op, corrected).db;
    assert NamesKept(db.messes, db'.messes);
    NamesKeptKeepsValid(db.messes, db'.messes);
  }

  lemma AssignOwnerOpKeepsNames(db: Db, op: Op, corrected: bool)
    requires MessesValid(db.messes)
    requires op.AssignOwner?
    ensures MessesValid(Apply(db, op, corrected).db.messes)
  {
    var db' := Apply(db, op, corrected).db;
    assert NamesKept(db.messes, db'.messes);
    NamesKeptKeepsValid(db.messes, db'.messes);
  }

  lemma CreateOwnerOpKeepsNames(db: Db, op: Op, corrected: bool)
    requires MessesValid(db.messes)
    requires op.CreateOwner?
    ensures MessesValid(Apply(db, op, corrected).db.messes)
  {
    var db' := Apply(db, op, corrected).db;
    assert NamesKept(db.messes, db'.messes);
    NamesKeptKeepsValid(db.messes, db'.messes);
  }

  lemma UpdateOwnerOpKeepsNames(db: Db, op: Op, corrected: bool)
    requires MessesValid(db.messes)
    requires op.UpdateOwner?
    ensures MessesValid(Apply(db, op, corrected).db.messes)
  {
    var db' := Apply(db, op, corrected).db;
    assert NamesKept(db.messes, db'.messes);
    NamesKeptKeepsValid(db.messes, db'.messes);
  }

  lemma ToggleActiveOpKeepsNames(db: Db, op: Op, corrected: bool)
    requires MessesValid(db.messes)
    requires op.ToggleActive?
    ensures MessesValid(Apply(db, op, corrected).db.messes)
  {
    var db' := Apply(db, op, corrected).db;
    assert NamesKept(db.messes, db'.messes);
    NamesKeptKeepsValid(db.messes, db'.messes);
  }

  /** Each request keeps the links, the as-written updateOwner excepted, while every mess
      passes validation. */
  lemma ApplyKeepsLinks(db: Db, op: Op, corrected: bool)
    requires Linked(db) && KeysFresh(db) && MessesValid(db.messes)
    requires corrected || !op.UpdateOwner?
    ensures Linked(Apply(db, op, corrected).db)
  {
    match op
    case CreateMess(name, capacity, address, contact, ownerId) =>
      CreateMessKeepsLinks(db, name, capacity, address, contact, ownerId);
    case AssignOwner(m, ownerId) => AssignOwnerKeepsLinks(db, m, ownerId);
    case UpdateMess(m, name, capacity, address) => UpdateMessKeepsLinks(db, m, name, capacity, address);
    case DeleteMess(m) => DeleteMessKeepsLinks(db, m);
    case CreateOwner(input, attachFails) => CreateOwnerKeepsLinks(db, input, attachFails);
    case UpdateOwner(id, patch) => UpdateOwnerIntendedKeepsLinks(db, id, patch);
    case ToggleActive(id, expiry, extendDays, now) =>
      if corrected {
        ToggleActiveIntendedKeepsLinks(db, id, expiry, extendDays, now);
      } else {
        ToggleActiveKeepsLinks(db, id, expiry, extendDays, now);
      }
    case _ => StudentOpKeepsLinks(db, op, corrected);
  }

  /** The student and payment requests write no account and no mess owner. */
  lemma StudentOpKeepsLinks(db: Db, op: Op, corrected: bool)
    requires Linked(db)
    requires op.AddStudent? || op.UpdateStudent? || op.DeleteStudent? || op.ToggleFreeze?
          || op.AddPayment? || op.DeletePayment?
    ensures Linked(Apply(db, op, corrected).db)
  {
    if op.AddStudent? {
      AddStudentOpKeepsLinks(db, op, corrected);
    } else if op.UpdateStudent? {
      UpdateStudentOpKeepsLinks(db, op, corrected);
    } else if op.DeleteStudent? {
      DeleteStudentOpKeepsLinks(db, op, corrected);
    } else if op.ToggleFreeze? {
      ToggleFreezeOpKeepsLinks(db, op, corrected);
    } else if op.AddPayment? {
      AddPaymentOpKeepsLinks(db, op, corrected);
    } else {
      DeletePaymentOpKeepsLinks(db, op, corrected);
    }
  }

  lemma AddStudentOpKeepsLinks(db: Db, op: Op, corrected: bool)
    requires Linked(db)
    requires op.AddStudent?
    ensures Linked(Apply(db, op, corrected).db)
  {
    LinksUntouched(db, Apply(db, op, corrected).db);
  }

  lemma UpdateStudentOpKeepsLinks(db: Db, op: Op, corrected: bool)
    requires Linked(db)
    requires op.UpdateStudent?
    ensures Linked(Apply(db, op, corrected).db)
  {
    LinksUntouched(db, Apply(db, op, corrected).db);
  }

  lemma DeleteStudentOpKeepsLinks(db: Db, op: Op, corrected: bool)
    requires Linked(db)
    requires op.DeleteStudent?
    ensures Linked(Apply(db, op, corrected).db)
  {
    LinksUntouched(db, Apply(db, op, corrected).db);
  }

  lemma ToggleFreezeOpKeepsLinks(db: Db, op: Op, corrected: bool)
    requires Linked(db)
    requires op.ToggleFreeze?
    ensures Linked(Apply(db, op, corrected).db)
  {
    LinksUntouched(db, Apply(db, op, corrected).db);
  }

  lemma AddPaymentOpKeepsLinks(db: Db, op: Op, corrected: bool)
    requires Linked(db)
    requires op.AddPayment?
    ensures Linked(Apply(db, op, corrected).db)
  {
    LinksUntouched(db, Apply(db, op, corrected).db);
  }

  lemma DeletePaymentOpKeepsLinks(db: Db, op: Op, corrected: bool)
    requires Linked(db)
    requires op.DeletePayment?
    ensures Linked(Apply(db, op, corrected).db)
  {
    LinksUntouched(db, Apply(db, op, corrected).db);
  }

  /** Any run of requests keeps the owner/mess links and the messes valid when the
      corrected handlers serve it, or when it holds no updateOwner and no update that
      empties a mess's name. */
  lemma {:induction false} RunKeepsLinks(db: Db, ops: seq<Op>, corrected: bool)
    requires Linked(db) && KeysFresh(db) && MessesValid(db.messes)
    requires corrected || forall i :: 0 <= i < |ops| ==> !ops[i].UpdateOwner? && !EmptiesName(ops[i])
    ensures var db' := Run(db, ops, corrected);
      Linked(db') && KeysFresh(db') && MessesValid(db'.messes)
    decreases |ops|
  {
    if ops != [] {
      ApplyKeepsLinks(db, ops[0], corrected);
      ApplyKeepsKeysFresh(db, ops[0], corrected);
      ApplyKeepsMessesValid(db, ops[0], corrected);
      assert corrected || forall i :: 0 <= i < |ops[1..]| ==> !ops[1..][i].UpdateOwner? && !EmptiesName(ops[1..][i]);
      RunKeepsLinks(Apply(db, ops[0], corrected).db, ops[1..], corrected);
    }
  }

  /** addStudent keeps the counters while every mess passes validation. */
  lemma AddStudentKeepsCounter(db: Db, p: Principal, bodyMessId: Option<Id>, input: StudentSchema.NewStudent, now: Day)
    requires CounterAccurate(db) && KeysFresh(db) && MessesValid(db.messes)
    ensures CounterAccurate(Roster.AddStudent(db, p, bodyMessId, input, now).db)
  {
    var r := Roster.AddStudent(db, p, bodyMessId, input, now);
    if r.outcome.Done? {
      var m := Roster.TargetMess(p, bodyMessId).value;
      var st := StudentSchema.Create(input, m, now).value;
      assert db.nextId !in db.students;
      forall k | k in r.db.messes
        ensures r.db.messes[k].totalStudents == Occupancy(r.db.students, k)
      {
        OccupancyInsert(db.students, db.nextId, st, k);
      }
    }
  }

  lemma DeleteStudentKeepsCounter(db: Db, p: Principal, sid: Id)
    requires CounterAccurate(db)
    ensures CounterAccurate(Roster.DeleteStudent(db, p, sid).db)
  {
    var r := Roster.DeleteStudent(db, p, sid);
    if r.outcome.Done? {
      forall k | k in r.db.messes
        ensures r.db.messes[k].totalStudents == Occupancy(r.db.students, k)
      {
        OccupancyRemove(db.students, sid, k);
      }
    }
  }

  /** A request that rewrites at most one student without moving it, and touches no mess
      count, keeps the counters. */
  lemma SameMessKeepsCounter(db: Db, db': Db, sid: Id)
    requires CounterAccurate(db)
    requires forall m :: m in db'.messes ==> m in db.messes && db'.messes[m].totalStudents == db.messes[m].totalStudents
    requires db'.students == db.students || (sid in db.students && db'.students.Keys == db.students.Keys
             && db'.students == db.students[sid := db'.students[sid]]
             && db'.students[sid].messId == db.students[sid].messId)
    ensures CounterAccurate(db')
  {
    if db'.students != db.students {
      forall k | k in db'.messes
        ensures db'.messes[k].totalStudents == Occupancy(db'.students, k)
      {
        OccupancyReplace(db.students, sid, db'.students[sid], k);
      }
    }
  }

  lemma CreateMessKeepsCounter(db: Db, name: Option<string>, capacity: Option<int>, address: Option<string>,
                               contact: Option<string>, ownerId: Option<Id>)
    requires CounterAccurate(db) && RefsFresh(db)
    ensures CounterAccurate(Registry.CreateMess(db, name, capacity, address, contact, ownerId).db)
  {
    var r := Registry.CreateMess(db, name, capacity, address, contact, ownerId);
    if r.outcome.Done? {
      assert MessStudents(db.students, db.nextId) == {};
    }
  }

  lemma ApplyKeepsCounter(db: Db, op: Op, corrected: bool)
    requires CounterAccurate(db) && KeysFresh(db) && RefsFresh(db) && MessesValid(db.messes)
    requires corrected || !MovesStudent(op)
    ensures CounterAccurate(Apply(db, op, corrected).db)
  {
    if op.AddStudent? {
      AddStudentOpKeepsCounter(db, op, corrected);
    } else if op.DeleteStudent? {
      DeleteStudentOpKeepsCounter(db, op, corrected);
    } else if op.UpdateStudent? {
      UpdateStudentOpKeepsCounter(db, op, corrected);
    } else if op.ToggleFreeze? {
      ToggleFreezeOpKeepsCounter(db, op, corrected);
    } else if op.AddPayment? {
      AddPaymentOpKeepsCounter(db, op, corrected);
    } else if op.CreateMess? {
      CreateMessOpKeepsCounter(db, op, corrected);
    } else {
      OtherOpKeepsCounter(db, op, corrected);
    }
  }

  lemma AddStudentOpKeepsCounter(db: Db, op: Op, corrected: bool)
    requires CounterAccurate(db) && KeysFresh(db) && RefsFresh(db) && MessesValid(db.messes)
    requires op.AddStudent?
    ensures CounterAccurate(Apply(db, op, corrected).db)
  {
    AddStudentKeepsCounter(db, op.p, op.bodyMessId, op.input, op.now);
  }

  lemma DeleteStudentOpKeepsCounter(db: Db, op: Op, corrected: bool)
    requires CounterAccurate(db)
    requires op.DeleteStudent?
    ensures CounterAccurate(Apply(db, op, corrected).db)
  {
    DeleteStudentKeepsCounter(db, op.p, op.sid);
  }

  lemma UpdateStudentOpKeepsCounter(db: Db, op: Op, corrected: bool)
    requires CounterAccurate(db) && KeysFresh(db) && RefsFresh(db)
    requires op.UpdateStudent? && (corrected || !MovesStudent(op))
    ensures CounterAccurate(Apply(db, op, corrected).db)
  {
    if corrected {
      UpdateStudentIntendedKeepsCounter(db, op.p, op.sid, op.body);
    } else {
      UpdateStudentKeepsCounter(db, op.p, op.sid, op.body);
    }
  }

  lemma ToggleFreezeOpKeepsCounter(db: Db, op: Op, corrected: bool)
    requires CounterAccurate(db)
    requires op.ToggleFreeze?
    ensures CounterAccurate(Apply(db, op, corrected).db)
  {
    SameMessKeepsCounter(db, Apply(db, op, corrected).db, op.sid);
  }

  lemma AddPaymentOpKeepsCounter(db: Db, op: Op, corrected: bool)
    requires CounterAccurate(db)
    requires op.AddPayment?
    ensures CounterAccurate(Apply(db, op, corrected).db)
  {
    SameMessKeepsCounter(db, Apply(db, op, corrected).db, if op.studentId.Some? then op.studentId.value else 0);
  }

  lemma CreateMessOpKeepsCounter(db: Db, op: Op, corrected: bool)
    requires CounterAccurate(db) && RefsFresh(db)
    requires op.CreateMess?
    ensures CounterAccurate(Apply(db, op, corrected).db)
  {
    CreateMessKeepsCounter(db, op.name, op.capacity, op.address, op.contact, op.ownerId);
  }

  /** The payment deletion and the mess and owner requests other than createMess touch no
      student and no mess counter. */
  lemma OtherOpKeepsCounter(db: Db, op: Op, corrected: bool)
    requires CounterAccurate(db)
    requires op.DeletePayment? || op.AssignOwner? || op.UpdateMess? || op.DeleteMess?
          || op.CreateOwner? || op.UpdateOwner? || op.ToggleActive?
    ensures CounterAccurate(Apply(db, op, corrected).db)
  {
    if op.DeletePayment? {
      DeletePaymentOpKeepsCounter(db, op, corrected);
    } else if op.AssignOwner? {
      AssignOwnerOpKeepsCounter(db, op, corrected);
    } else if op.UpdateMess? {
      UpdateMessOpKeepsCounter(db, op, corrected);
    } else if op.DeleteMess? {
      DeleteMessOpKeepsCounter(db, op, corrected);
    } else if op.CreateOwner? {
      CreateOwnerOpKeepsCounter(db, op, corrected);
    } else if op.UpdateOwner? {
      UpdateOwnerOpKeepsCounter(db, op, corrected);
    } else {
      ToggleActiveOpKeepsCounter(db, op, corrected);
    }
  }

  lemma DeletePaymentOpKeepsCounter(db: Db, op: Op, corrected: bool)
    requires CounterAccurate(db)
    requires op.DeletePayment?
    ensures CounterAccurate(Apply(db, op, corrected).db)
  {
    SameMessKeepsCounter(db, Apply(db, op, corrected).db, 0);
  }

  lemma AssignOwnerOpKeepsCounter(db: Db, op: Op, corrected: bool)
    requires CounterAccurate(db)
    requires op.AssignOwner?
    ensures CounterAccurate(Apply(db, op, corrected).db)
  {
    SameMessKeepsCounter(db, Apply(db, op, corrected).db, 0);
  }

  lemma UpdateMessOpKeepsCounter(db: Db, op: Op, corrected: bool)
    requires CounterAccurate(db)
    requires op.UpdateMess?
    ensures CounterAccurate(Apply(db, op, corrected).db)
  {
    SameMessKeepsCounter(db, Apply(db, op, corrected).db, 0);
  }

  lemma DeleteMessOpKeepsCounter(db: Db, op: Op, corrected: bool)
    requires CounterAccurate(db)
    requires op.DeleteMess?
    ensures CounterAccurate(Apply(db, op, corrected).db)
  {
    SameMessKeepsCounter(db, Apply(db, op, corrected).db, 0);
  }

  lemma CreateOwnerOpKeepsCounter(db: Db, op: Op, corrected: bool)
    requires CounterAccurate(db)
    requires op.CreateOwner?
    ensures CounterAccurate(Apply(db, op, corrected).db)
  {
    SameMessKeepsCounter(db, Apply(db, op, corrected).db, 0);
  }

  lemma UpdateOwnerOpKeepsCounter(db: Db, op: Op, corrected: bool)
    requires CounterAccurate(db)
    requires op.UpdateOwner?
    ensures CounterAccurate(Apply(db, op, corrected).db)
  {
    SameMessKeepsCounter(db, Apply(db, op, corrected).db, 0);
  }

  lemma ToggleActiveOpKeepsCounter(db: Db, op: Op, corrected: bool)
    requires CounterAccurate(db)
    requires op.ToggleActive?
    ensures CounterAccurate(Apply(db, op, corrected).db)
  {
    SameMessKeepsCounter(db, Apply(db, op, corrected).db, 0);
  }

  lemma AddPaymentKeepsRevenue(db: Db, p: Principal, sid: Option<Id>, amount: Option<int>,
                               mode: Option<string>, now: Day, month: string)
    requires RevenueAccurate(db) && KeysFresh(db)
    ensures RevenueAccurate(Billing.AddPayment(db, p, sid, amount, mode, now, month).db)
  {
    var r := Billing.AddPayment(db, p, sid, amount, mode, now, month);
    if r.db != db {
      var pay := r.db.payments[db.nextId];
      assert r.db.payments == db.payments[db.nextId := pay];
      forall m | m in r.db.messes
        ensures r.db.messes[m].revenue == PaidTo(r.db.payments, m, r.db.nextId)
      {
        PaidToAppend(db.payments, db.nextId, pay, m);
      }
    }
  }

  lemma DeletePaymentKeepsRevenue(db: Db, p: Principal, pid: Id)
    requires RevenueAccurate(db) && KeysFresh(db)
    ensures RevenueAccurate(Billing.DeletePayment(db, p, pid).db)
  {
    var r := Billing.DeletePayment(db, p, pid);
    if r.outcome.Done? {
      forall m | m in r.db.messes
        ensures r.db.messes[m].revenue == PaidTo(r.db.payments, m, r.db.nextId)
      {
        PaidToRemove(db.payments, pid, m, db.nextId);
      }
    }
  }

  /** A request that records no payment, moves no revenue and at most hands out one id
      keeps the revenue sums; a mess it creates starts at zero and has no payments. */
  lemma NoPaymentKeepsRevenue(db: Db, db': Db)
    requires RevenueAccurate(db) && KeysFresh(db) && RefsFresh(db)
    requires db'.payments == db.payments
    requires db'.nextId == db.nextId || db'.nextId == db.nextId + 1
    requires forall m :: m in db'.messes ==> m in db.messes || (m == db.nextId && db'.messes[m].revenue == 0)
    requires forall m :: m in db'.messes && m in db.messes ==> db'.messes[m].revenue == db.messes[m].revenue
    ensures RevenueAccurate(db')
  {
    PaidToSkip(db.payments, db.nextId, db.nextId);
    forall m | m in db'.messes
      ensures db'.messes[m].revenue == PaidTo(db'.payments, m, db'.nextId)
    {
      PaidToSkip(db.payments, db.nextId, m);
      if m !in db.messes {
        PaidToNothing(db.payments, m, db'.nextId);
      }
    }
  }

  lemma ApplyKeepsRevenue(db: Db, op: Op, corrected: bool)
    requires RevenueAccurate(db) && KeysFresh(db) && RefsFresh(db)
    ensures RevenueAccurate(Apply(db, op, corrected).db)
  {
    match op
    case AddPayment(p, sid, amount, mode, now, month) => AddPaymentKeepsRevenue(db, p, sid, amount, mode, now, month);
    case DeletePayment(p, pid) => DeletePaymentKeepsRevenue(db, p, pid);
    case AddStudent(_, _, _, _) => StudentOpKeepsRevenue(db, op, corrected);
    case UpdateStudent(_, _, _) => StudentOpKeepsRevenue(db, op, corrected);
    case DeleteStudent(_, _) => StudentOpKeepsRevenue(db, op, corrected);
    case ToggleFreeze(_, _, _) => StudentOpKeepsRevenue(db, op, corrected);
    case _ => BindingOpKeepsRevenue(db, op, corrected);
  }

  lemma StudentOpKeepsRevenue(db: Db, op: Op, corrected: bool)
    requires RevenueAccurate(db) && KeysFresh(db) && RefsFresh(db)
    requires op.AddStudent? || op.UpdateStudent? || op.DeleteStudent? || op.ToggleFreeze?
    ensures RevenueAccurate(Apply(db, op, corrected).db)
  {
    if op.AddStudent? {
      AddStudentOpKeepsRevenue(db, op, corrected);
    } else if op.UpdateStudent? {
      UpdateStudentOpKeepsRevenue(db, op, corrected);
    } else if op.DeleteStudent? {
      DeleteStudentOpKeepsRevenue(db, op, corrected);
    } else {
      ToggleFreezeOpKeepsRevenue(db, op, corrected);
    }
  }

  lemma AddStudentOpKeepsRevenue(db: Db, op: Op, corrected: bool)
    requires RevenueAccurate(db) && KeysFresh(db) && RefsFresh(db)
    requires op.AddStudent?
    ensures RevenueAccurate(Apply(db, op, corrected).db)
  {
    NoPaymentKeepsRevenue(db, Apply(db, op, corrected).db);
  }

  lemma UpdateStudentOpKeepsRevenue(db: Db, op: Op, corrected: bool)
    requires RevenueAccurate(db) && KeysFresh(db) && RefsFresh(db)
    requires op.UpdateStudent?
    ensures RevenueAccurate(Apply(db, op, corrected).db)
  {
    NoPaymentKeepsRevenue(db, Apply(db, op, corrected).db);
  }

  lemma DeleteStudentOpKeepsRevenue(db: Db, op: Op, corrected: bool)
    requires RevenueAccurate(db) && KeysFresh(db) && RefsFresh(db)
    requires op.DeleteStudent?
    ensures RevenueAccurate(Apply(db, op, corrected).db)
  {
    NoPaymentKeepsRevenue(db, Apply(db, op, corrected).db);
  }

  lemma ToggleFreezeOpKeepsRevenue(db: Db, op: Op, corrected: bool)
    requires RevenueAccurate(db) && KeysFresh(db) && RefsFresh(db)
    requires op.ToggleFreeze?
    ensures RevenueAccurate(Apply(db, op, corrected).db)
  {
    NoPaymentKeepsRevenue(db, Apply(db, op, corrected).db);
  }

  lemma BindingOpKeepsRevenue(db: Db, op: Op, corrected: bool)
    requires RevenueAccurate(db) && KeysFresh(db) && RefsFresh(db)
    requires op.CreateMess? || op.AssignOwner? || op.UpdateMess? || op.DeleteMess?
          || op.CreateOwner? || op.UpdateOwner? || op.ToggleActive?
    ensures RevenueAccurate(Apply(db, op, corrected).db)
  {
    if op.CreateMess? {
      CreateMessOpKeepsRevenue(db, op, corrected);
    } else if op.AssignOwner? {
      AssignOwnerOpKeepsRevenue(db, op, corrected);
    } else if op.UpdateMess? {
      UpdateMessOpKeepsRevenue(db, op, corrected);
    } else if op.DeleteMess? {
      DeleteMessOpKeepsRevenue(db, op, corrected);
    } else if op.CreateOwner? {
      CreateOwnerOpKeepsRevenue(db, op, corrected);
    } else if op.UpdateOwner? {
      UpdateOwnerOpKeepsRevenue(db, op, corrected);
    } else {
      ToggleActiveOpKeepsRevenue(db, op, corrected);
    }
  }

  lemma CreateMessOpKeepsRevenue(db: Db, op: Op, corrected: bool)
    requires RevenueAccurate(db) && KeysFresh(db) && RefsFresh(db)
    requires op.CreateMess?
    ensures RevenueAccurate(Apply(db, op, corrected).db)
  {
    NoPaymentKeepsRevenue(db, Apply(db, op, corrected).db);
  }

  lemma AssignOwnerOpKeepsRevenue(db: Db, op: Op, corrected: bool)
    requires RevenueAccurate(db) && KeysFresh(db) && RefsFresh(db)
    requires op.AssignOwner?
    ensures RevenueAccurate(Apply(db, op, corrected).db)
  {
    NoPaymentKeepsRevenue(db, Apply(db, op, corrected).db);
  }

  lemma UpdateMessOpKeepsRevenue(db: Db, op: Op, corrected: bool)
    requires RevenueAccurate(db) && KeysFresh(db) && RefsFresh(db)
    requires op.UpdateMess?
    ensures RevenueAccurate(Apply(db, op, corrected).db)
  {
    NoPaymentKeepsRevenue(db, Apply(db, op, corrected).db);
  }

  lemma DeleteMessOpKeepsRevenue(db: Db, op: Op, corrected: bool)
    requires RevenueAccurate(db) && KeysFresh(db) && RefsFresh(db)
    requires op.DeleteMess?
    ensures RevenueAccurate(Apply(db, op, corrected).db)
  {
    NoPaymentKeepsRevenue(db, Apply(db, op, corrected).db);
  }

  lemma CreateOwnerOpKeepsRevenue(db: Db, op: Op, corrected: bool)
    requires RevenueAccurate(db) && KeysFresh(db) && RefsFresh(db)
    requires op.CreateOwner?
    ensures RevenueAccurate(Apply(db, op, corrected).db)
  {
    NoPaymentKeepsRevenue(db, Apply(db, op, corrected).db);
  }

  lemma UpdateOwnerOpKeepsRevenue(db: Db, op: Op, corrected: bool)
    requires RevenueAccurate(db) && KeysFresh(db) && RefsFresh(db)
    requires op.UpdateOwner?
    ensures RevenueAccurate(Apply(db, op, corrected).db)
  {
    NoPaymentKeepsRevenue(db, Apply(db, op, corrected).db);
  }

  lemma ToggleActiveOpKeepsRevenue(db: Db, op: Op, corrected: bool)
    requires RevenueAccurate(db) && KeysFresh(db) && RefsFresh(db)
    requires op.ToggleActive?
    ensures RevenueAccurate(Apply(db, op, corrected).db)
  {
    NoPaymentKeepsRevenue(db, Apply(db, op, corrected).db);
  }

  /** Any run of requests keeps every mess's `totalStudents` equal to its number of
      students and its `revenue` equal to the sum of its payments, when the corrected
      handlers serve it, or when no update names a `messId` and none empties a mess's
      name. */
  lemma {:induction false} RunKeepsBooks(db: Db, ops: seq<Op>, corrected: bool)
    requires CounterAccurate(db) && RevenueAccurate(db) && KeysFresh(db) && RefsFresh(db) && MessesValid(db.messes)
    requires corrected || forall i :: 0 <= i < |ops| ==> !MovesStudent(ops[i]) && !EmptiesName(ops[i])
    ensures var db' := Run(db, ops, corrected);
      CounterAccurate(db') && RevenueAccurate(db') && KeysFresh(db') && RefsFresh(db') && MessesValid(db'.messes)
    decreases |ops|
  {
    if ops != [] {
      ApplyKeepsCounter(db, ops[0], corrected);
      ApplyKeepsRevenue(db, ops[0], corrected);
      ApplyKeepsKeysFresh(db, ops[0], corrected);
      ApplyKeepsRefsFresh(db, ops[0], corrected);
      ApplyKeepsMessesValid(db, ops[0], corrected);
      assert corrected || forall i :: 0 <= i < |ops[1..]| ==> !MovesStudent(ops[1..][i]) && !EmptiesName(ops[1..][i]);
      RunKeepsBooks(Apply(db, ops[0], corrected).db, ops[1..], corrected);
    }
  }

  /** Two requests in a row. */
  lemma RunTwo(db: Db, a: Op, b: Op, corrected: bool)
    ensures Run(db, [a, b], corrected) == Apply(Apply(db, a, corrected).db, b, corrected).db
  {
    var db1 := Apply(db, a, corrected).db;
    assert [a, b][1..] == [b];
    assert Run(db, [a, b], corrected) == Run(db1, [b], corrected);
    assert [b][1..] == [];
    assert Run(db1, [b], corrected) == Run(Apply(db1, b, corrected).db, [], corrected);
  }

  /** As written, two requests break the links: emptying a mess's name, then assigning the
      mess a new owner, which unlinks the previous owner and then fails to save the mess.
      The corrected updateMess refuses the first request and the links hold. */
  lemma EmptyNameThenAssignBreaksLinks(db: Db, m: Id, o: Id)
    requires Linked(db) && KeysFresh(db) && MessesValid(db.messes)
    requires m in db.messes && db.messes[m].ownerId.Some?
    requires Registry.IsOwnerAccount(db.users, o) && !Registry.OwnsSomeMess(db.messes, o)
    ensures var ops := [UpdateMess(m, Some(""), None, None), AssignOwner(m, Some(o))];
      !Linked(Run(db, ops, false)) && Linked(Run(db, ops, true))
  {
    var a, b := UpdateMess(m, Some(""), None, None), AssignOwner(m, Some(o));
    EmptyNameThenAssign(db, m, o);
    RunTwo(db, a, b, false);
    RunKeepsLinks(db, [a, b], true);
  }

  lemma EmptyNameThenAssign(db: Db, m: Id, o: Id)
    requires Linked(db) && m in db.messes && db.messes[m].ownerId.Some?
    requires Registry.IsOwnerAccount(db.users, o) && !Registry.OwnsSomeMess(db.messes, o)
    ensures var db1 := Apply(db, UpdateMess(m, Some(""), None, None), false).db;
      !Linked(Apply(db1, AssignOwner(m, Some(o)), false).db)
  {
    var db1 := Registry.UpdateMess(db, m, Some(""), None, None).db;
    UpdateMessKeepsLinks(db, m, Some(""), None, None);
    assert !Registry.OwnsSomeMess(db1.messes, o) by {
      assert forall k :: k in db1.messes ==> k in db.messes && db1.messes[k].ownerId == db.messes[k].ownerId;
    }
    AssignOwnerEmptyNameUnlinks(db1, m, o);
  }

  /** As written, two requests break the counter: emptying a mess's name, then adding a
      student to it, which stores the student and then fails to save the mess's new count.
      The corrected updateMess refuses the first request and the counter holds. */
  lemma EmptyNameThenAddBreaksCounter(db: Db, admin: Principal, m: Id, input: StudentSchema.NewStudent, now: Day)
    requires CounterAccurate(db) && RevenueAccurate(db) && KeysFresh(db) && RefsFresh(db) && MessesValid(db.messes)
    requires admin.role == Admin && m in db.messes && Occupancy(db.students, m) < db.messes[m].capacity
    requires StudentSchema.Create(input, m, now).Some?
    ensures var ops := [UpdateMess(m, Some(""), None, None), AddStudent(admin, Some(m), input, now)];
      !CounterAccurate(Run(db, ops, false)) && CounterAccurate(Run(db, ops, true))
  {
    var a, b := UpdateMess(m, Some(""), None, None), AddStudent(admin, Some(m), input, now);
    EmptyNameThenAdd(db, admin, m, input, now);
    RunTwo(db, a, b, false);
    RunKeepsBooks(db, [a, b], true);
  }

  lemma EmptyNameThenAdd(db: Db, admin: Principal, m: Id, input: StudentSchema.NewStudent, now: Day)
    requires CounterAccurate(db) && KeysFresh(db)
    requires admin.role == Admin && m in db.messes && Occupancy(db.students, m) < db.messes[m].capacity
    requires StudentSchema.Create(input, m, now).Some?
    ensures var db1 := Apply(db, UpdateMess(m, Some(""), None, None), false).db;
      !CounterAccurate(Apply(db1, AddStudent(admin, Some(m), input, now), false).db)
  {
    var db1 := Registry.UpdateMess(db, m, Some(""), None, None).db;
    var r := Roster.AddStudent(db1, admin, Some(m), input, now);
    assert r.outcome.Failed? && r.db != db1;
    assert db1.nextId !in db1.students;
    OccupancyInsert(db1.students, db1.nextId, StudentSchema.Create(input, m, now).value, m);
    assert r.db.messes[m].totalStudents + 1 == Occupancy(r.db.students, m);
  }

  /** An owner moving one of their students to another mess leaves their own mess's count
      one too high. */
  lemma MovingStudentBreaksCounter(db: Db, p: Principal, sid: Id, other: Id)
    requires CounterAccurate(db)
    requires sid in db.students && p.role == Owner && p.messId == Some(db.students[sid].messId)
    requires db.students[sid].messId in db.messes && other != db.students[sid].messId
    ensures
      var r := Roster.UpdateStudent(db, p, sid, map["messId" := Roster.JNum(other)]);
      var m := db.students[sid].messId;
      && r.outcome.Done?
      && r.db.messes[m].totalStudents == Occupancy(r.db.students, m) + 1
      && !CounterAccurate(r.db)
  {
    var body := map["messId" := Roster.JNum(other)];
    Roster.UpdateCanMoveStudent(db, p, sid, other);
    var r := Roster.UpdateStudent(db, p, sid, body);
    var m := db.students[sid].messId;
    assert MessStudents(db.students, m) == MessStudents(r.db.students, m) + {sid};
  }

  /** An update whose body names no `messId` keeps every counter. */
  lemma UpdateStudentKeepsCounter(db: Db, p: Principal, sid: Id, body: map<string, Roster.Json>)
    requires CounterAccurate(db) && "messId" !in body
    ensures CounterAccurate(Roster.UpdateStudent(db, p, sid, body).db)
  {
    SameMessKeepsCounter(db, Roster.UpdateStudent(db, p, sid, body).db, sid);
  }

  /** The corrected update keeps every counter, whatever its body. */
  lemma UpdateStudentIntendedKeepsCounter(db: Db, p: Principal, sid: Id, body: map<string, Roster.Json>)
    requires CounterAccurate(db)
    ensures CounterAccurate(Roster.UpdateStudentIntended(db, p, sid, body).db)
  {
    SameMessKeepsCounter(db, Roster.UpdateStudentIntended(db, p, sid, body).db, sid);
  }
}
