/** The alert feed of src/controllers/notificationController.js: messes at or above 85%
    occupancy, one alert counting the students whose membership has ended without the
    current month being paid, and one counting the memberships that end this month. */
module Alerts {
  import opened Wrappers
  import opened Calendar
  import opened Records
  import Billing

  /** The percentage at or above which a mess raises a capacity alert. */
  const Threshold := 85

  /** One alert; every alert is delivered unread. */
  datatype Alert =
    | CapacityAlert(messId: Id, name: string, percent: int, occupied: int, total: int)
    | PaymentAlert(overdue: nat, acrossAllMesses: bool)
    | MembershipAlert(expiring: nat)

  /** `Math.round(occupied / total * 100)` for a positive capacity, else 0: the whole
      percentage nearest to the occupancy, halves rounded up. */
  function Percent(occupied: int, total: int): (r: int)
    ensures total <= 0 ==> r == 0
    ensures total > 0 ==> 2 * total * r <= 200 * occupied + total < 2 * total * (r + 1)
  {
    if total > 0 then (200 * occupied + total) / (2 * total) else 0
  }

  /** Rounding puts the alert threshold at 84.5%: a mess alerts exactly when 200 times its
      student count reaches 169 times its capacity. */
  lemma AlertThreshold(occupied: int, total: int)
    ensures Percent(occupied, total) >= Threshold <==> total > 0 && 200 * occupied >= 169 * total
  {
    var r := Percent(occupied, total);
    if total > 0 {
      var t2 := 2 * total;
      assert t2 * r <= 200 * occupied + total < t2 * (r + 1);
      if r >= Threshold {
        MulMonotone(t2, Threshold, r);
      }
      if r < Threshold {
        MulMonotone(t2, r + 1, Threshold);
      }
    }
  }

  /** Multiplying by a positive number keeps order (a helper for `AlertThreshold`). */
  lemma MulMonotone(c: int, a: int, b: int)
    requires c > 0 && a <= b
    ensures c * a <= c * b
  {
    var d := b - a;
    assert c * b == c * a + c * d;
  }

  /** 169 students in 200 places is 84.5%, shown as 85% and alerted; 9 of 10 alerts and
      8 of 10 does not. The half case agrees with JavaScript only because 169 / 200 * 100
      happens to evaluate to exactly 84.5 in double precision; other x.5 quotients may land
      just below the half in floating point and round down there. */
  lemma HalfPercentRoundsUp()
    ensures Percent(169, 200) == 85 && Percent(169, 200) >= Threshold
    ensures Percent(168, 200) == 84 && Percent(168, 200) < Threshold
    ensures Percent(9, 10) == 90 && Percent(8, 10) == 80
    ensures Percent(0, 0) == 0
  {
  }

  /** The scope of the caller: an owner sees their own mess; an admin, and an owner whose
      `messId` is unset, see every mess. */
  function ScopeOf(p: Principal): (scope: Option<Id>)
    ensures p.role == Admin ==> scope.None?
    ensures p.role == Owner ==> scope == p.messId
  {
    if p.role == Owner then p.messId else None
  }

  predicate InScope(scope: Option<Id>, messId: Id) {
    scope.None? || scope.value == messId
  }

  predicate NearlyFull(mess: Mess) {
    Percent(mess.totalStudents, mess.capacity) >= Threshold
  }

  function AlertFor(m: Id, mess: Mess): Alert {
    CapacityAlert(m, mess.name, Percent(mess.totalStudents, mess.capacity), mess.totalStudents, mess.capacity)
  }

  /** The capacity alerts of the messes with ids below `n`, in id order. */
  function CapacityAlerts(messes: map<Id, Mess>, scope: Option<Id>, n: nat): (r: seq<Alert>)
    ensures forall i :: 0 <= i < |r| ==>
      && r[i].CapacityAlert? && r[i].messId < n && r[i].messId in messes
      && r[i] == AlertFor(r[i].messId, messes[r[i].messId])
    ensures forall m :: m in messes ==>
      (AlertFor(m, messes[m]) in r <==> m < n && InScope(scope, m) && NearlyFull(messes[m]))
    ensures forall i, j :: 0 <= i < j < |r| ==> r[i].messId < r[j].messId
    decreases n
  {
    if n == 0 then []
    else
      var m := n - 1;
      var before := CapacityAlerts(messes, scope, m);
      if m in messes && InScope(scope, m) && NearlyFull(messes[m]) then before + [AlertFor(m, messes[m])]
      else before
  }

  /** The student is past its membership end and the month is not marked paid. */
  predicate OverdueUnpaid(st: Student, now: Day, month: string) {
    st.membershipEnd.Some? && st.membershipEnd.value < now && Billing.MonthStatus(st.paymentStatus, month) != Billing.Paid
  }

  /** The students the overdue alert counts. */
  function Overdue(students: map<Id, Student>, scope: Option<Id>, now: Day, month: string): (ks: set<Id>)
    ensures forall k :: k in ks <==>
      k in students && InScope(scope, students[k].messId) && OverdueUnpaid(students[k], now, month)
  {
    set k | k in students && InScope(scope, students[k].messId) && OverdueUnpaid(students[k], now, month)
  }

  /** The students whose membership ends in `[monthStart, monthEnd)`. */
  function Expiring(students: map<Id, Student>, scope: Option<Id>, monthStart: Day, monthEnd: Day): (ks: set<Id>)
    ensures forall k :: k in ks <==>
      && k in students && InScope(scope, students[k].messId) && students[k].membershipEnd.Some?
      && monthStart <= students[k].membershipEnd.value < monthEnd
  {
    set k | k in students && InScope(scope, students[k].messId) && students[k].membershipEnd.Some?
                          && monthStart <= students[k].membershipEnd.value < monthEnd
  }

  /** The student loop of getNotifications: one pass over the students in scope counting
      the overdue ones. */
  method CountOverdue(students: map<Id, Student>, scope: Option<Id>, now: Day, month: string) returns (count: nat)
    ensures count == |Overdue(students, scope, now, month)|
  {
    count := 0;
    var rest := students.Keys;
    ghost var counted: set<Id> := {};
    ghost var overdue := Overdue(students, scope, now, month);
    while rest != {}
      invariant rest <= students.Keys
      invariant counted <= overdue && rest !! counted
      invariant forall k :: k in overdue && k !in rest ==> k in counted
      invariant count == |counted|
      decreases |rest|
    {
      var k :| k in rest;
      if InScope(scope, students[k].messId) && OverdueUnpaid(students[k], now, month) {
        counted := counted + {k};
        count := count + 1;
      }
      rest := rest - {k};
    }
    assert counted == overdue;
  }

  /** GET /api/notifications. `now` is the request day, `month` its `YYYY-MM` key, and
      `[monthStart, monthEnd)` the days of the current month. Capacity alerts come first in
      mess order, then the payment alert, then the membership alert. */
  function Notifications(db: Db, p: Principal, now: Day, month: string, monthStart: Day, monthEnd: Day): (alerts: seq<Alert>)
    ensures
      var scope := ScopeOf(p);
      var caps := CapacityAlerts(db.messes, scope, db.nextId);
      var overdue := |Overdue(db.students, scope, now, month)|;
      var expiring := |Expiring(db.students, scope, monthStart, monthEnd)|;
      && |alerts| == |caps| + (if overdue > 0 then 1 else 0) + (if expiring > 0 then 1 else 0)
      && alerts[..|caps|] == caps
      && (forall i :: |caps| <= i < |alerts| ==> !alerts[i].CapacityAlert?)
      && (PaymentAlert(overdue, p.role != Owner) in alerts <==> overdue > 0)
      && (MembershipAlert(expiring) in alerts <==> expiring > 0)
      && (overdue > 0 ==> alerts[|caps|] == PaymentAlert(overdue, p.role != Owner))
      && (expiring > 0 ==> alerts[|alerts| - 1] == MembershipAlert(expiring))
  {
    var scope := ScopeOf(p);
    var caps := CapacityAlerts(db.messes, scope, db.nextId);
    var overdue := |Overdue(db.students, scope, now, month)|;
    var expiring := |Expiring(db.students, scope, monthStart, monthEnd)|;
    caps
      + (if overdue > 0 then [PaymentAlert(overdue, p.role != Owner)] else [])
      + (if expiring > 0 then [MembershipAlert(expiring)] else [])
  }

  /** Every mess in the store is considered: with fresh ids, a mess in scope raises a
      capacity alert exactly when it is at or above the threshold. */
  lemma CapacityAlertIff(db: Db, p: Principal, now: Day, month: string, monthStart: Day, monthEnd: Day, m: Id)
    requires KeysFresh(db) && m in db.messes
    ensures AlertFor(m, db.messes[m]) in Notifications(db, p, now, month, monthStart, monthEnd) <==>
      InScope(ScopeOf(p), m) && 200 * db.messes[m].totalStudents >= 169 * db.messes[m].capacity
      && db.messes[m].capacity > 0
  {
    AlertThreshold(db.messes[m].totalStudents, db.messes[m].capacity);
    var alerts := Notifications(db, p, now, month, monthStart, monthEnd);
    var caps := CapacityAlerts(db.messes, ScopeOf(p), db.nextId);
    var a := AlertFor(m, db.messes[m]);
    if a in caps {
      var i :| 0 <= i < |caps| && caps[i] == a;
      assert alerts[i] == caps[i];
    }
    if a in alerts {
      var i :| 0 <= i < |alerts| && alerts[i] == a;
      assert i < |caps| && caps[i] == alerts[i];
    }
  }

  /** An owner account with no mess set sees the same alerts as an admin, except that the
      payment alert does not say "across all messes". */
  lemma OwnerWithoutMessSeesAll(db: Db, owner: Id, admin: Id, now: Day, month: string, monthStart: Day, monthEnd: Day)
    ensures
      var asOwner := Notifications(db, Principal(owner, Owner, None), now, month, monthStart, monthEnd);
      var asAdmin := Notifications(db, Principal(admin, Admin, None), now, month, monthStart, monthEnd);
      && |asOwner| == |asAdmin|
      && forall i :: 0 <= i < |asOwner| ==>
           asOwner[i] == (if asAdmin[i].PaymentAlert? then asAdmin[i].(acrossAllMesses := false) else asAdmin[i])
  {
  }

  /** Once a payment is recorded for a student, that student is no longer counted overdue
      for the payment's month, on any later day and in any scope. */
  lemma PaymentClearsOverdue(db: Db, p: Principal, sid: Id, amount: int, mode: Option<string>, now: Day, month: string,
                             scope: Option<Id>, later: Day)
    requires Billing.AddPayment(db, p, Some(sid), Some(amount), mode, now, month).outcome.Done?
    ensures sid !in Overdue(Billing.AddPayment(db, p, Some(sid), Some(amount), mode, now, month).db.students, scope, later, month)
  {
    var st := Billing.AddPayment(db, p, Some(sid), Some(amount), mode, now, month).db.students[sid];
    assert st.paymentStatus[month] == Billing.Paid;
  }
}
