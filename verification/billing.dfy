/** The billing engine of src/controllers/paymentController.js: recording a payment
    (which also moves mess revenue, extends the student's membership and marks the
    month paid), deleting one (which moves revenue back and nothing else), and the two
    ways the read endpoints derive a payment's status. */
module Billing {
  import opened Wrappers
  import opened Calendar
  import opened Records
  import StudentSchema

  const Paid := "paid"
  const Unpaid := "unpaid"
  const MsgPaymentFieldsRequired := "Student ID and amount are required"
  const MsgStudentNotFound := "Student not found"
  const MsgPaymentNotFound := "Payment not found"
  const MsgAddPaymentFailed := "Failed to add payment"
  const MsgDeletePaymentFailed := "Failed to delete payment"

  /** The `paymentMode` enum of the Payment schema; an absent mode takes the default `Cash`,
      an unknown one fails validation (`None`). */
  function ParseMode(mode: Option<string>): (r: Option<PaymentMode>)
    ensures mode.None? ==> r == Some(Cash)
    ensures r.None? <==> mode.Some? && mode.value !in ["Cash", "UPI", "Bank Transfer", "Card"]
  {
    match mode
    case None => Some(Cash)
    case Some(m) =>
      if m == "Cash" then Some(Cash)
      else if m == "UPI" then Some(Upi)
      else if m == "Bank Transfer" then Some(BankTransfer)
      else if m == "Card" then Some(Card)
      else None
  }

  /** The membership end after a payment: 30 days past the later of today and the current
      end. The amount plays no part (no pro-rating). */
  function ExtendedEnd(end: Option<Day>, now: Day): (r: Day)
    ensures r >= now + StudentSchema.MembershipDays
    ensures end.Some? ==> r >= end.value + StudentSchema.MembershipDays
    ensures r == now + StudentSchema.MembershipDays
         || (end.Some? && r == end.value + StudentSchema.MembershipDays)
  {
    var base := if end.Some? && end.value > now then end.value else now;
    base + StudentSchema.MembershipDays
  }

  /** `after` is `before` with the revenue of mess `messId` moved by `delta` (when that
      mess exists: `findByIdAndUpdate` on a missing mess changes nothing) and no other change. */
  ghost predicate RevenueMoved(before: map<Id, Mess>, after: map<Id, Mess>, messId: Id, delta: int) {
    && after.Keys == before.Keys
    && (forall k :: k in before && k != messId ==> after[k] == before[k])
    && (messId in before ==> after[messId] == before[messId].(revenue := before[messId].revenue + delta))
  }

  /** `Mess.findByIdAndUpdate(messId, { $inc: { revenue: delta } })`. */
  function IncRevenue(messes: map<Id, Mess>, messId: Id, delta: int): (r: map<Id, Mess>)
    ensures RevenueMoved(messes, r, messId, delta)
  {
    if messId in messes then messes[messId := messes[messId].(revenue := messes[messId].revenue + delta)]
    else messes
  }

  /** The request passes the field check of addPayment: a student id and a truthy amount
      (0 is falsy; a negative amount is truthy and accepted). */
  predicate PaymentFieldsGiven(studentId: Option<Id>, amount: Option<int>) {
    studentId.Some? && amount.Some? && amount.value != 0
  }

  /** POST /api/payments. `now` is the request time and `month` its `YYYY-MM` key (the
      payment month and the "current month" of the extension check are the same key). The
      new payment gets id `db.nextId`. */
  function AddPayment(db: Db, p: Principal, studentId: Option<Id>, amount: Option<int>,
                      mode: Option<string>, now: Day, month: string): (r: Step)
    // Missing student id or falsy amount: 400, nothing written.
    ensures !PaymentFieldsGiven(studentId, amount) <==> r == Reject(db, BadRequest(MsgPaymentFieldsRequired))
    // An owner paying for a student of another mess: 403, nothing written.
    ensures r.outcome == Failed(Forbidden(AccessDenied)) <==>
      && PaymentFieldsGiven(studentId, amount) && studentId.value in db.students
      && p.role == Owner && p.messId.Some? && p.messId.value != db.students[studentId.value].messId
    ensures r.outcome.Failed? && r.outcome.failure.status != 500 ==> r.db == db
    // Success: exactly the checks of the controller pass.
    ensures r.outcome.Done? <==>
      && PaymentFieldsGiven(studentId, amount) && studentId.value in db.students
      && Scope(p, db.students[studentId.value].messId, MsgAddPaymentFailed).None?
      && ParseMode(mode).Some?
      && StudentSchema.Valid(db.students[studentId.value])
    ensures r.outcome.Done? ==>
      var sid := studentId.value;
      var st := db.students[sid];
      && r.db.payments == db.payments[db.nextId := Payment(st.messId, sid, amount.value, month, now, ParseMode(mode).value, "", p.id)]
      && r.db.nextId == db.nextId + 1
      && RevenueMoved(db.messes, r.db.messes, st.messId, amount.value)
      && r.db.users == db.users
      && r.db.students.Keys == db.students.Keys
      && (forall k :: k in db.students && k != sid ==> r.db.students[k] == db.students[k])
      && r.db.students[sid].membershipEnd == Some(ExtendedEnd(st.membershipEnd, now))
      && r.db.students[sid].paymentStatus == st.paymentStatus[month := Paid]
      && r.db.students[sid] == st.(membershipEnd := r.db.students[sid].membershipEnd,
                                   paymentStatus := r.db.students[sid].paymentStatus)
    // The one failure after a write: the student document fails validation when it is
    // saved, after the payment was created and revenue moved.
    ensures r.outcome.Failed? && r.db != db ==>
      && r.outcome.failure == ServerError(MsgAddPaymentFailed)
      && r.db.students == db.students
      && r.db.users == db.users
      && studentId.value in db.students
      && !StudentSchema.Valid(db.students[studentId.value])
      && RevenueMoved(db.messes, r.db.messes, db.students[studentId.value].messId, amount.value)
      && ParseMode(mode).Some?
      && r.db.payments == db.payments[db.nextId := Payment(db.students[studentId.value].messId, studentId.value,
                                                           amount.value, month, now, ParseMode(mode).value, "", p.id)]
      && r.db.nextId == db.nextId + 1
  {
    if !PaymentFieldsGiven(studentId, amount) then Reject(db, BadRequest(MsgPaymentFieldsRequired))
    else if studentId.value !in db.students then Reject(db, NotFound(MsgStudentNotFound))
    else
      var sid, a := studentId.value, amount.value;
      var st := db.students[sid];
      var denied := Scope(p, st.messId, MsgAddPaymentFailed);
      if denied.Some? then Reject(db, denied.value)
      else
        var pm := ParseMode(mode);
        if pm.None? then Reject(db, ServerError(MsgAddPaymentFailed))
        else
          var payment := Payment(st.messId, sid, a, month, now, pm.value, "", p.id);
          var recorded := db.(payments := db.payments[db.nextId := payment],
                              nextId := db.nextId + 1,
                              messes := IncRevenue(db.messes, st.messId, a));
          var extended := st.(membershipEnd := Some(ExtendedEnd(st.membershipEnd, now)));
          if !StudentSchema.Valid(extended) then Step(recorded, Failed(ServerError(MsgAddPaymentFailed)))
          else
            var marked := extended.(paymentStatus := extended.paymentStatus[month := Paid]);
            Step(recorded.(students := recorded.students[sid := marked]), Done)
  }

  /** DELETE /api/payments/:id. */
  function DeletePayment(db: Db, p: Principal, paymentId: Id): (r: Step)
    ensures paymentId !in db.payments ==> r == Reject(db, NotFound(MsgPaymentNotFound))
    ensures r.outcome.Failed? ==> r.db == db
    ensures r.outcome.Done? <==>
      paymentId in db.payments && Scope(p, db.payments[paymentId].messId, MsgDeletePaymentFailed).None?
    ensures r.outcome.Done? ==>
      && r.db.payments == db.payments - {paymentId}
      && RevenueMoved(db.messes, r.db.messes, db.payments[paymentId].messId, -db.payments[paymentId].amount)
      && r.db.students == db.students
      && r.db.users == db.users
      && r.db.nextId == db.nextId
  {
    if paymentId !in db.payments then Reject(db, NotFound(MsgPaymentNotFound))
    else
      var pay := db.payments[paymentId];
      var denied := Scope(p, pay.messId, MsgDeletePaymentFailed);
      if denied.Some? then Reject(db, denied.value)
      else
        Step(db.(messes := IncRevenue(db.messes, pay.messId, -pay.amount),
                 payments := db.payments - {paymentId}), Done)
  }

  /** Recording a payment and deleting it again restores the mess revenue and the payment
      collection exactly, but not the student: the membership extension and the "paid"
      mark of the month stay. */
  lemma PaymentRoundTrip(db: Db, p: Principal, sid: Id, amount: int, mode: Option<string>, now: Day, month: string)
    requires KeysFresh(db)
    requires AddPayment(db, p, Some(sid), Some(amount), mode, now, month).outcome.Done?
    ensures
      var added := AddPayment(db, p, Some(sid), Some(amount), mode, now, month).db;
      var removed := DeletePayment(added, p, db.nextId);
      && removed.outcome.Done?
      && removed.db.messes == db.messes
      && removed.db.payments == db.payments
      && removed.db.users == db.users
      && removed.db.students[sid].membershipEnd != db.students[sid].membershipEnd
      && removed.db.students[sid].paymentStatus[month] == Paid
  {
    var added := AddPayment(db, p, Some(sid), Some(amount), mode, now, month).db;
    var st := db.students[sid];
    assert db.nextId !in db.payments;
    var pay := added.payments[db.nextId];
    assert pay.messId == st.messId && pay.amount == amount;
    var removed := DeletePayment(added, p, db.nextId);
    assert added.payments - {db.nextId} == db.payments;
    assert removed.db.messes == db.messes by {
      if st.messId in db.messes {
        assert removed.db.messes[st.messId] == db.messes[st.messId];
      }
    }
    var e := ExtendedEnd(st.membershipEnd, now);
    assert st.membershipEnd.Some? ==> e > st.membershipEnd.value;
  }

  /** The status a student's `paymentStatus` map gives month `month`: the stored value,
      or "unpaid" when there is none (an empty string is falsy and counts as none). */
  function MonthStatus(paymentStatus: map<string, string>, month: string): (st: string)
    ensures st != ""
    ensures month in paymentStatus && paymentStatus[month] != "" ==> st == paymentStatus[month]
    ensures (month !in paymentStatus || paymentStatus[month] == "") ==> st == Unpaid
  {
    if month in paymentStatus && paymentStatus[month] != "" then paymentStatus[month] else Unpaid
  }

  /** The status expression of the payment list (getPayments), over the student fields it
      reads: the amount against the monthly fee, then "overdue" when the membership has
      ended and the status is not "paid". */
  function ListingStatus(amount: int, fee: int, membershipEnd: Option<Day>, now: Day): (st: string)
    ensures st == "paid" <==> amount == fee
    ensures st == "overdue" <==> amount != fee && membershipEnd.Some? && membershipEnd.value < now
    ensures st == "partial" <==> amount < fee && !(membershipEnd.Some? && membershipEnd.value < now)
    ensures st == "error" <==> amount > fee && !(membershipEnd.Some? && membershipEnd.value < now)
  {
    var byFee := if amount == fee then "paid"
                 else if amount < fee then "partial"
                 else if amount > fee then "error"
                 else "Pending";
    if membershipEnd.Some? && membershipEnd.value < now && byFee != "paid" then "overdue" else byFee
  }

  /** The status expression of the payment detail (getPaymentById), over the student fields
      it reads: the map entry for the payment month, with the same overdue override. */
  function DetailStatus(paymentStatus: map<string, string>, month: string, membershipEnd: Option<Day>, now: Day): (st: string)
    ensures membershipEnd.Some? && membershipEnd.value < now && MonthStatus(paymentStatus, month) != Paid
            ==> st == "overdue"
    ensures !(membershipEnd.Some? && membershipEnd.value < now) ==> st == MonthStatus(paymentStatus, month)
    ensures MonthStatus(paymentStatus, month) == Paid ==> st == Paid
  {
    var stored := MonthStatus(paymentStatus, month);
    if membershipEnd.Some? && membershipEnd.value < now && stored != Paid then "overdue" else stored
  }

  /** The student as `populate("studentId", fields)` loads it: a path outside `fields` is
      absent, which the status expressions read as no membership end and no payment map.
      Both endpoints select `fee`. */
  datatype StudentView = StudentView(fee: int, membershipEnd: Option<Day>, paymentStatus: map<string, string>)

  function Populate(st: Student, fields: set<string>): StudentView {
    StudentView(st.fee,
                if "membershipEnd" in fields then st.membershipEnd else None,
                if "paymentStatus" in fields then st.paymentStatus else map[])
  }

  /** The student paths getPayments and getPaymentById select. */
  const ListFields: set<string> := {"name", "mobile", "fee"}
  const DetailFields: set<string> := {"name", "fee"}

  /** The status the payment list shows: with `membershipEnd` not loaded, it is the fee
      comparison alone and never "overdue". */
  function ListedStatus(amount: int, st: Student, now: Day): (r: string)
    ensures r == "paid" <==> amount == st.fee
    ensures r == "partial" <==> amount < st.fee
    ensures r == "error" <==> amount > st.fee
    ensures r != "overdue"
  {
    var v := Populate(st, ListFields);
    ListingStatus(amount, v.fee, v.membershipEnd, now)
  }

  /** The status the payment detail shows: with neither the map nor the membership end
      loaded, it is "unpaid" for every payment. */
  function DetailShownStatus(st: Student, month: string, now: Day): (r: string)
    ensures r == Unpaid
  {
    var v := Populate(st, DetailFields);
    DetailStatus(v.paymentStatus, month, v.membershipEnd, now)
  }

  /** The list with `membershipEnd` selected as well: "overdue" exactly for an amount off
      the fee on an ended membership, and the fee comparison otherwise. */
  function ListedStatusIntended(amount: int, st: Student, now: Day): (r: string)
    ensures r == "overdue" <==> amount != st.fee && st.membershipEnd.Some? && st.membershipEnd.value < now
    ensures r == "paid" <==> amount == st.fee
    ensures !(st.membershipEnd.Some? && st.membershipEnd.value < now) ==> r == ListedStatus(amount, st, now)
  {
    var v := Populate(st, ListFields + {"membershipEnd"});
    ListingStatus(amount, v.fee, v.membershipEnd, now)
  }

  /** The detail with `paymentStatus` and `membershipEnd` selected as well: a paid month shows
      "paid", an ended membership shows "overdue" otherwise, and a running one shows the
      month's stored status. */
  function DetailShownStatusIntended(st: Student, month: string, now: Day): (r: string)
    ensures MonthStatus(st.paymentStatus, month) == Paid ==> r == Paid
    ensures st.membershipEnd.Some? && st.membershipEnd.value < now && MonthStatus(st.paymentStatus, month) != Paid
            ==> r == "overdue"
    ensures !(st.membershipEnd.Some? && st.membershipEnd.value < now) ==> r == MonthStatus(st.paymentStatus, month)
  {
    var v := Populate(st, DetailFields + {"paymentStatus", "membershipEnd"});
    DetailStatus(v.paymentStatus, month, v.membershipEnd, now)
  }

  /** As written, a payment off the fee for a student whose membership has ended is listed
      by the fee comparison, never as the "overdue" the list's code is written to show. */
  lemma EndedMembershipNotListedOverdue(amount: int, st: Student, now: Day)
    requires amount != st.fee && st.membershipEnd.Some? && st.membershipEnd.value < now
    ensures ListedStatus(amount, st, now) in {"partial", "error"}
    ensures ListingStatus(amount, st.fee, st.membershipEnd, now) == "overdue"
    ensures ListedStatusIntended(amount, st, now) == "overdue"
  {
  }

  /** As written, right after a payment marks its month "paid", the detail of that payment
      shows "unpaid"; with the fields loaded it shows "paid". */
  lemma PaidMonthShownUnpaid(db: Db, p: Principal, sid: Id, amount: int, mode: Option<string>, now: Day, month: string)
    requires AddPayment(db, p, Some(sid), Some(amount), mode, now, month).outcome.Done?
    ensures
      var st := AddPayment(db, p, Some(sid), Some(amount), mode, now, month).db.students[sid];
      && MonthStatus(st.paymentStatus, month) == Paid
      && DetailShownStatus(st, month, now) == Unpaid
      && DetailShownStatusIntended(st, month, now) == Paid
  {
  }

  /** With whole-number amounts the initial "Pending" of the list status is never shown. */
  lemma ListingNeverPending(amount: int, fee: int, membershipEnd: Option<Day>, now: Day)
    ensures ListingStatus(amount, fee, membershipEnd, now) in {"paid", "partial", "error", "overdue"}
  {
  }

  /** A fee of 1000 paid with 1000, 600 and 1200 lists as paid, partial and error while the
      membership is running. */
  lemma FeeComparisonExample(membershipEnd: Day, now: Day)
    requires now <= membershipEnd
    ensures ListingStatus(1000, 1000, Some(membershipEnd), now) == "paid"
    ensures ListingStatus(600, 1000, Some(membershipEnd), now) == "partial"
    ensures ListingStatus(1200, 1000, Some(membershipEnd), now) == "error"
  {
  }

  /** The two status expressions disagree: right after any recorded payment the detail's
      expression over the stored student gives "paid", while the list's compares the amount
      with the fee and gives "partial" or "error" whenever they differ. What the endpoints
      show differs again: the list shows "partial" or "error" and the detail "unpaid". */
  lemma StatusSourcesDisagree(db: Db, p: Principal, sid: Id, amount: int, mode: Option<string>, now: Day, month: string)
    requires AddPayment(db, p, Some(sid), Some(amount), mode, now, month).outcome.Done?
    requires amount != db.students[sid].fee
    ensures
      var st := AddPayment(db, p, Some(sid), Some(amount), mode, now, month).db.students[sid];
      && DetailStatus(st.paymentStatus, month, st.membershipEnd, now) == Paid
      && ListingStatus(amount, st.fee, st.membershipEnd, now) in {"partial", "error"}
      && ListedStatus(amount, st, now) in {"partial", "error"}
      && DetailShownStatus(st, month, now) == Unpaid
  {
  }
}
