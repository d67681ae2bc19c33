/** The student roster of src/controllers/studentController.js: adding a student under
    the capacity gate (which rewrites the mess's `totalStudents`), updating one from a
    raw request body, deleting one, and the freeze toggle. */
module Roster {
  import opened Wrappers
  import opened Text
  import opened Calendar
  import opened Records
  import StudentSchema

  const MsgMessIdRequired := "Mess ID is required"
  const MsgMessNotFound := "Mess not found"
  const MsgMessFull := "Mess is full. Capacity reached."
  const MsgStudentNotFound := "Student not found"
  const MsgAddFailed := "Failed to add student"
  const MsgUpdateFailed := "Failed to update student"
  const MsgDeleteFailed := "Failed to delete student"
  const MsgFreezeFailed := "Failed to toggle freeze"

  /** A JSON value of a request body. Dates travel as day numbers. */
  datatype Json = JNull | JBool(b: bool) | JNum(n: int) | JStr(s: string)

  /** JavaScript truthiness of a JSON value. */
  predicate Truthy(j: Json) {
    match j
    case JNull => false
    case JBool(b) => b
    case JNum(n) => n != 0
    case JStr(s) => s != ""
  }

  /** The mess a new student joins: the owner's own mess, or for an admin the `messId` of
      the body. */
  function TargetMess(p: Principal, bodyMessId: Option<Id>): Option<Id> {
    if p.role == Owner then p.messId else bodyMessId
  }

  /** POST /api/students. The new student gets id `db.nextId`. The closing `mess.save()`
      re-validates the whole mess: a mess whose name is empty fails it (500) after the
      student was already created, and `totalStudents` is not written. */
  function AddStudent(db: Db, p: Principal, bodyMessId: Option<Id>, input: StudentSchema.NewStudent, now: Day): (r: Step)
    ensures r.outcome == Failed(BadRequest(MsgMessIdRequired)) <==> TargetMess(p, bodyMessId).None?
    ensures r.outcome == Failed(BadRequest(MsgMessFull)) <==>
      var target := TargetMess(p, bodyMessId);
      target.Some? && target.value in db.messes
      && Occupancy(db.students, target.value) >= db.messes[target.value].capacity
    ensures r.outcome.Done? <==>
      var target := TargetMess(p, bodyMessId);
      && target.Some? && target.value in db.messes
      && Occupancy(db.students, target.value) < db.messes[target.value].capacity
      && StudentSchema.Create(input, target.value, now).Some?
      && MessValid(db.messes[target.value])
    ensures r.outcome.Done? ==>
      var m := TargetMess(p, bodyMessId).value;
      var count := Occupancy(db.students, m);
      && m in db.messes
      && r.db.students == db.students[db.nextId := StudentSchema.Create(input, m, now).value]
      && r.db.messes == db.messes[m := db.messes[m].(totalStudents := count + 1)]
      && r.db.messes[m].totalStudents <= r.db.messes[m].capacity
      && r.db.payments == db.payments && r.db.users == db.users
      && r.db.nextId == db.nextId + 1
    // The one failure after a write: the student is stored, the mess is not.
    ensures r.outcome.Failed? && r.db != db ==>
      && TargetMess(p, bodyMessId).Some?
      && var m := TargetMess(p, bodyMessId).value;
      && r.outcome == Failed(ServerError(MsgAddFailed))
      && m in db.messes && !MessValid(db.messes[m])
      && StudentSchema.Create(input, m, now).Some?
      && r.db == db.(students := db.students[db.nextId := StudentSchema.Create(input, m, now).value],
                     nextId := db.nextId + 1)
    ensures MessesValid(db.messes) && r.outcome.Failed? ==> r.db == db
  {
    var target := TargetMess(p, bodyMessId);
    if target.None? then Reject(db, BadRequest(MsgMessIdRequired))
    else
      var m := target.value;
      if m !in db.messes then Reject(db, NotFound(MsgMessNotFound))
      else
        var count := Occupancy(db.students, m);
        if count >= db.messes[m].capacity then Reject(db, BadRequest(MsgMessFull))
        else
          var created := StudentSchema.Create(input, m, now);
          if created.None? then Reject(db, ServerError(MsgAddFailed))
          else
            var stored := db.(students := db.students[db.nextId := created.value], nextId := db.nextId + 1);
            if !MessValid(db.messes[m]) then Step(stored, Failed(ServerError(MsgAddFailed)))
            else Step(stored.(messes := db.messes[m := db.messes[m].(totalStudents := count + 1)]), Done)
  }

  /** A mess of capacity 2 takes two students and turns the third away, its count staying 2. */
  lemma CapacityTwoExample(db: Db, admin: Principal, m: Id, a: StudentSchema.NewStudent, now: Day)
    requires admin.role == Admin && KeysFresh(db)
    requires m in db.messes && db.messes[m].capacity == 2 && Occupancy(db.students, m) == 0
    requires MessValid(db.messes[m])
    requires StudentSchema.Create(a, m, now).Some?
    ensures
      var s1 := AddStudent(db, admin, Some(m), a, now);
      var s2 := AddStudent(s1.db, admin, Some(m), a, now);
      var s3 := AddStudent(s2.db, admin, Some(m), a, now);
      && s1.outcome.Done? && s1.db.messes[m].totalStudents == 1
      && s2.outcome.Done? && s2.db.messes[m].totalStudents == 2
      && s3 == Reject(s2.db, BadRequest(MsgMessFull))
  {
    var st := StudentSchema.Create(a, m, now).value;
    var s1 := AddStudent(db, admin, Some(m), a, now);
    assert db.nextId !in db.students;
    OccupancyInsert(db.students, db.nextId, st, m);
    var s2 := AddStudent(s1.db, admin, Some(m), a, now);
    assert s1.db.nextId !in s1.db.students by {
      assert forall k :: k in s1.db.students ==> k < s1.db.nextId;
    }
    OccupancyInsert(s1.db.students, s1.db.nextId, st, m);
  }

  /** The update body after normalisation: a truthy legacy `endDate` is moved to
      `membershipEnd` (overriding one given alongside it) and the `endDate` key dropped. */
  function NormalizeUpdate(body: map<string, Json>): (r: map<string, Json>)
    ensures "endDate" in body && Truthy(body["endDate"]) ==>
      && "endDate" !in r
      && "membershipEnd" in r && r["membershipEnd"] == body["endDate"]
    ensures forall k :: k != "endDate" && k != "membershipEnd" ==> (k in r <==> k in body)
    ensures forall k :: k in r && k != "endDate" && k != "membershipEnd" ==> r[k] == body[k]
    ensures !("endDate" in body && Truthy(body["endDate"])) ==> r == body
  {
    if "endDate" in body && Truthy(body["endDate"]) then
      (body - {"endDate"})["membershipEnd" := body["endDate"]]
    else body
  }

  /** Casting a body value onto a String path; `None` is Mongoose's CastError. A number
      is written as its decimal numeral and a boolean as "true" or "false". */
  function CastString(j: Json): (r: Option<string>)
    ensures j.JStr? ==> r == Some(j.s)
    ensures j.JNum? ==> r.Some? && DecimalInt(r.value) == Some(j.n)
    ensures j.JBool? ==> r.Some? && r.value != "" && CastBool(JStr(r.value)) == Some(j.b)
    ensures r.None? <==> j.JNull?
  {
    match j
    case JStr(s) => Some(s)
    case JNum(n) => IntStringRoundTrip(n); Some(IntString(n))
    case JBool(b) => Some(if b then "true" else "false")
    case JNull => None
  }

  /** Casting onto a Number path: a boolean counts as 1 or 0, and a string must be a
      decimal numeral. */
  function CastNumber(j: Json): (r: Option<int>)
    ensures r.Some? <==> j.JNum? || j.JBool? || (j.JStr? && DecimalInt(j.s).Some?)
    ensures j.JNum? ==> r == Some(j.n)
    ensures j.JStr? ==> r == DecimalInt(j.s)
    ensures j.JBool? ==> r.Some? && CastBool(JNum(r.value)) == Some(j.b)
  {
    match j
    case JNum(n) => Some(n)
    case JBool(b) => Some(if b then 1 else 0)
    case JStr(s) => DecimalInt(s)
    case JNull => None
  }

  /** Casting onto a Date path: a day number is kept, and null or the empty string clears
      the date. A boolean is a CastError. */
  function CastDate(j: Json): (r: Option<Option<Day>>)
    ensures r.Some? <==> j.JNum? || j.JNull? || j == JStr("")
    ensures j.JNum? ==> r == Some(Some(j.n))
    ensures r == Some(None) <==> j.JNull? || j == JStr("")
  {
    match j
    case JNum(n) => Some(Some(n))
    case JNull => Some(None)
    case JStr(s) => if s == "" then Some(None) else None
    case JBool(_) => None
  }

  /** The values Mongoose's Boolean cast reads as true, and as false. */
  const TrueValues: set<Json> := {JBool(true), JStr("true"), JNum(1), JStr("1"), JStr("yes")}
  const FalseValues: set<Json> := {JBool(false), JStr("false"), JNum(0), JStr("0"), JStr("no")}

  /** Casting onto a Boolean path. */
  function CastBool(j: Json): (r: Option<bool>)
    ensures r == Some(true) <==> j in TrueValues
    ensures r == Some(false) <==> j in FalseValues
    ensures j.JBool? ==> r == Some(j.b)
  {
    if j in TrueValues then Some(true)
    else if j in FalseValues then Some(false)
    else None
  }

  /** Casting onto an ObjectId path: ids are natural numbers here. */
  function CastId(j: Json): (r: Option<Id>)
    ensures r.Some? <==> j.JNum? && j.n >= 0
    ensures r.Some? ==> r.value == j.n
  {
    match j
    case JNum(n) => if n >= 0 then Some(n) else None
    case _ => None
  }

  /** The kinds of path of the Student schema. */
  datatype PathKind = StringPath | NumberPath | DatePath | BoolPath | IdPath | MapPath

  /** The schema path a body key names, if any. */
  function PathOf(key: string): Option<PathKind> {
    if key in {"name", "mobile", "address", "mealPlan", "gender", "remarks"} then Some(StringPath)
    else if key == "fee" then Some(NumberPath)
    else if key in {"startDate", "membershipEnd", "freezeStart", "freezeEnd"} then Some(DatePath)
    else if key == "isFrozen" then Some(BoolPath)
    else if key == "messId" then Some(IdPath)
    else if key == "paymentStatus" then Some(MapPath)
    else None
  }

  /** Whether `j` casts onto a path of kind `kind`. A Map path takes no scalar. */
  predicate CastsOn(kind: PathKind, j: Json) {
    match kind
    case StringPath => CastString(j).Some?
    case NumberPath => CastNumber(j).Some?
    case DatePath => CastDate(j).Some?
    case BoolPath => CastBool(j).Some?
    case IdPath => CastId(j).Some?
    case MapPath => false
  }

  /** Every body key that names a schema path holds a value that casts onto it. */
  predicate Castable(body: map<string, Json>) {
    forall k :: k in body && PathOf(k).Some? ==> CastsOn(PathOf(k).value, body[k])
  }

  /** Path `key` after an update: the cast body value when the body has the key, the old
      value otherwise. */
  ghost predicate Takes<T>(body: map<string, Json>, key: string, cast: Json -> Option<T>, before: T, after: T) {
    if key in body then cast(body[key]) == Some(after) else after == before
  }

  /** One path's new value, or `None` when the body value does not cast. */
  function Field<T>(body: map<string, Json>, key: string, current: T, cast: Json -> Option<T>): (r: Option<T>)
    ensures r.Some? ==> Takes(body, key, cast, current, r.value)
    ensures r.None? <==> key in body && cast(body[key]).None?
  {
    if key !in body then Some(current) else cast(body[key])
  }

  /** `findByIdAndUpdate(id, body)` under the schema's strict mode: every key that names a
      schema path is cast and written, unknown keys are dropped, no validator runs and the
      pre-save hook does not fire. `None` is a cast failure. */
  function ApplyUpdate(st: Student, body: map<string, Json>): (r: Option<Student>)
    ensures r.Some? ==>
      && Takes(body, "messId", CastId, st.messId, r.value.messId)
      && Takes(body, "name", CastString, st.name, r.value.name)
      && Takes(body, "mobile", CastString, st.mobile, r.value.mobile)
      && Takes(body, "address", CastString, st.address, r.value.address)
      && Takes(body, "mealPlan", CastString, st.mealPlan, r.value.mealPlan)
      && Takes(body, "fee", CastNumber, st.fee, r.value.fee)
      && Takes(body, "startDate", CastDate, st.startDate, r.value.startDate)
      && Takes(body, "membershipEnd", CastDate, st.membershipEnd, r.value.membershipEnd)
      && Takes(body, "gender", CastString, st.gender, r.value.gender)
      && Takes(body, "isFrozen", CastBool, st.isFrozen, r.value.isFrozen)
      && Takes(body, "freezeStart", CastDate, st.freezeStart, r.value.freezeStart)
      && Takes(body, "freezeEnd", CastDate, st.freezeEnd, r.value.freezeEnd)
      && Takes(body, "remarks", CastString, st.remarks, r.value.remarks)
      && r.value.paymentStatus == st.paymentStatus
    ensures "paymentStatus" in body ==> r.None?
    ensures body == map[] ==> r == Some(st)
  {
    if "paymentStatus" in body then None
    else
      var messId :- Field(body, "messId", st.messId, CastId);
      var name :- Field(body, "name", st.name, CastString);
      var mobile :- Field(body, "mobile", st.mobile, CastString);
      var address :- Field(body, "address", st.address, CastString);
      var mealPlan :- Field(body, "mealPlan", st.mealPlan, CastString);
      var fee :- Field(body, "fee", st.fee, CastNumber);
      var startDate :- Field(body, "startDate", st.startDate, CastDate);
      var membershipEnd :- Field(body, "membershipEnd", st.membershipEnd, CastDate);
      var gender :- Field(body, "gender", st.gender, CastString);
      var isFrozen :- Field(body, "isFrozen", st.isFrozen, CastBool);
      var freezeStart :- Field(body, "freezeStart", st.freezeStart, CastDate);
      var freezeEnd :- Field(body, "freezeEnd", st.freezeEnd, CastDate);
      var remarks :- Field(body, "remarks", st.remarks, CastString);
      Some(st.(messId := messId, name := name, mobile := mobile, address := address,
               mealPlan := mealPlan, fee := fee, startDate := startDate,
               membershipEnd := membershipEnd, gender := gender, isFrozen := isFrozen,
               freezeStart := freezeStart, freezeEnd := freezeEnd, remarks := remarks))
  }

  /** An update goes through exactly when every path key of the body casts onto its path. */
  lemma ApplyUpdateCastable(st: Student, body: map<string, Json>)
    ensures ApplyUpdate(st, body).Some? <==> Castable(body)
  {
    var r := ApplyUpdate(st, body);
    if r.Some? {
      forall k | k in body && PathOf(k).Some? ensures CastsOn(PathOf(k).value, body[k]) {
        if k in {"name", "mobile", "address", "mealPlan", "gender", "remarks"} {
          assert CastString(body[k]).Some?;
        }
      }
    } else if Castable(body) {
      CastableFits(body);
      assert false;
    }
  }

  /** Castability read off path by path, in the order `ApplyUpdate` casts them. */
  lemma CastableFits(body: map<string, Json>)
    requires Castable(body)
    ensures "messId" in body ==> CastId(body["messId"]).Some?
    ensures forall k :: k in {"name", "mobile", "address", "mealPlan", "gender", "remarks"} && k in body ==> CastString(body[k]).Some?
    ensures "fee" in body ==> CastNumber(body["fee"]).Some?
    ensures forall k :: k in {"startDate", "membershipEnd", "freezeStart", "freezeEnd"} && k in body ==> CastDate(body[k]).Some?
    ensures "isFrozen" in body ==> CastBool(body["isFrozen"]).Some?
    ensures "paymentStatus" !in body
  {
    assert "paymentStatus" in body ==> CastsOn(PathOf("paymentStatus").value, body["paymentStatus"]);
    forall k | k in {"name", "mobile", "address", "mealPlan", "gender", "remarks"} && k in body
      ensures CastString(body[k]).Some?
    {
      assert PathOf(k) == Some(StringPath);
    }
    forall k | k in {"startDate", "membershipEnd", "freezeStart", "freezeEnd"} && k in body
      ensures CastDate(body[k]).Some?
    {
      assert PathOf(k) == Some(DatePath);
    }
    assert "messId" in body ==> PathOf("messId") == Some(IdPath);
    assert "fee" in body ==> PathOf("fee") == Some(NumberPath);
    assert "isFrozen" in body ==> PathOf("isFrozen") == Some(BoolPath);
  }

  /** A numeric mobile is cast, not refused: it is stored as its decimal numeral. */
  lemma NumericMobileStored(st: Student, n: int)
    ensures ApplyUpdate(st, map["mobile" := JNum(n)]) == Some(st.(mobile := IntString(n)))
  {
  }

  /** "yes" on the Boolean path freezes a student. */
  lemma YesFreezes(st: Student)
    ensures ApplyUpdate(st, map["isFrozen" := JStr("yes")]) == Some(st.(isFrozen := true))
  {
    assert JStr("yes") in TrueValues;
  }

  /** A fee sent as a numeral string is stored as that number. */
  lemma FeeFromNumeral(st: Student, digits: string)
    requires |digits| > 0 && forall i :: 0 <= i < |digits| ==> IsDigit(digits[i])
    ensures ApplyUpdate(st, map["fee" := JStr(digits)]) == Some(st.(fee := ValueIn(digits, 10)))
  {
    var body := map["fee" := JStr(digits)];
    DecimalNumeral(digits);
    assert CastNumber(body["fee"]) == Some(ValueIn(digits, 10));
    assert Field(body, "fee", st.fee, CastNumber) == Some(ValueIn(digits, 10));
  }

  /** A fee string that is not a numeral fails the whole update. */
  lemma FeeNotNumeralFails(st: Student, s: string)
    requires DecimalInt(s).None?
    ensures ApplyUpdate(st, map["fee" := JStr(s)]).None?
  {
  }

  /** PUT /api/students/:id. */
  function UpdateStudent(db: Db, p: Principal, sid: Id, body: map<string, Json>): (r: Step)
    ensures sid !in db.students ==> r == Reject(db, NotFound(MsgStudentNotFound))
    ensures r.outcome.Failed? ==> r.db == db
    ensures r.outcome == Failed(Forbidden(AccessDenied)) <==>
      sid in db.students && p.role == Owner && p.messId.Some? && p.messId.value != db.students[sid].messId
    ensures r.outcome.Done? ==>
      && sid in db.students
      && Scope(p, db.students[sid].messId, MsgUpdateFailed).None?
      && r.db == db.(students := r.db.students)
      && r.db.students.Keys == db.students.Keys
      && (forall k :: k in db.students && k != sid ==> r.db.students[k] == db.students[k])
      && ApplyUpdate(db.students[sid], NormalizeUpdate(body)) == Some(r.db.students[sid])
  {
    if sid !in db.students then Reject(db, NotFound(MsgStudentNotFound))
    else
      var st := db.students[sid];
      var denied := Scope(p, st.messId, MsgUpdateFailed);
      if denied.Some? then Reject(db, denied.value)
      else
        var updated := ApplyUpdate(st, NormalizeUpdate(body));
        if updated.None? then Reject(db, ServerError(MsgUpdateFailed))
        else Step(db.(students := db.students[sid := updated.value]), Done)
  }

  /** A truthy `endDate` in an update lands in `membershipEnd`. */
  lemma EndDateBecomesMembershipEnd(db: Db, p: Principal, sid: Id, body: map<string, Json>)
    requires UpdateStudent(db, p, sid, body).outcome.Done?
    requires "endDate" in body && body["endDate"].JNum? && body["endDate"].n != 0
    ensures UpdateStudent(db, p, sid, body).db.students[sid].membershipEnd == Some(body["endDate"].n)
  {
    var norm := NormalizeUpdate(body);
    assert "membershipEnd" in norm && norm["membershipEnd"] == body["endDate"];
  }

  /** The update body is not restricted: an owner can move one of their students to another
      mess, and neither mess's `totalStudents` follows. */
  lemma UpdateCanMoveStudent(db: Db, p: Principal, sid: Id, other: Id)
    requires sid in db.students && p.role == Owner && p.messId == Some(db.students[sid].messId)
    requires other != db.students[sid].messId
    ensures
      var r := UpdateStudent(db, p, sid, map["messId" := JNum(other)]);
      && r.outcome.Done?
      && r.db.students[sid].messId == other
      && r.db.messes == db.messes
  {
    var body := map["messId" := JNum(other)];
    assert NormalizeUpdate(body) == body;
  }

  /** updateStudent with the student's mess held fixed, as the data model means it to be:
      a `messId` key of the body is dropped before the update. Bodies without one are
      treated exactly as before. */
  function UpdateStudentIntended(db: Db, p: Principal, sid: Id, body: map<string, Json>): (r: Step)
    ensures "messId" !in body ==> r == UpdateStudent(db, p, sid, body)
    ensures r.outcome.Failed? ==> r.db == db
    ensures r.outcome.Done? ==>
      && sid in db.students && sid in r.db.students
      && r.db.students[sid].messId == db.students[sid].messId
      && r.db == db.(students := db.students[sid := r.db.students[sid]])
  {
    assert "messId" !in body ==> body - {"messId"} == body;
    UpdateStudent(db, p, sid, body - {"messId"})
  }

  /** DELETE /api/students/:id. The student's payments and the mess revenue stay. */
  function DeleteStudent(db: Db, p: Principal, sid: Id): (r: Step)
    ensures sid !in db.students ==> r == Reject(db, NotFound(MsgStudentNotFound))
    ensures r.outcome.Failed? ==> r.db == db
    ensures r.outcome == Failed(Forbidden(AccessDenied)) <==>
      sid in db.students && p.role == Owner && p.messId.Some? && p.messId.value != db.students[sid].messId
    ensures r.outcome.Done? <==> sid in db.students && Scope(p, db.students[sid].messId, MsgDeleteFailed).None?
    ensures r.outcome.Done? ==>
      var m := db.students[sid].messId;
      && r.db.students == db.students - {sid}
      && r.db.payments == db.payments
      && r.db.users == db.users
      && r.db.nextId == db.nextId
      && r.db.messes.Keys == db.messes.Keys
      && (forall k :: k in db.messes && k != m ==> r.db.messes[k] == db.messes[k])
      && (m in db.messes ==> r.db.messes[m] == db.messes[m].(totalStudents := db.messes[m].totalStudents - 1))
  {
    if sid !in db.students then Reject(db, NotFound(MsgStudentNotFound))
    else
      var st := db.students[sid];
      var denied := Scope(p, st.messId, MsgDeleteFailed);
      if denied.Some? then Reject(db, denied.value)
      else
        var messes := if st.messId in db.messes
          then db.messes[st.messId := db.messes[st.messId].(totalStudents := db.messes[st.messId].totalStudents - 1)]
          else db.messes;
        Step(db.(students := db.students - {sid}, messes := messes), Done)
  }

  /** The freeze flip on its own: freezing stamps the start and clears the end, unfreezing
      stamps the end and keeps the start. */
  function Flip(st: Student, now: Day): (r: Student)
    ensures r.isFrozen == !st.isFrozen
    ensures r.isFrozen ==> r.freezeStart == Some(now) && r.freezeEnd.None?
    ensures !r.isFrozen ==> r.freezeEnd == Some(now) && r.freezeStart == st.freezeStart
    ensures r.(isFrozen := st.isFrozen, freezeStart := st.freezeStart, freezeEnd := st.freezeEnd) == st
  {
    if !st.isFrozen then st.(isFrozen := true, freezeStart := Some(now), freezeEnd := None)
    else st.(isFrozen := false, freezeEnd := Some(now))
  }

  /** PUT /api/students/:id/freeze. The `save()` validates the document and runs the
      pre-save hook. */
  function ToggleFreeze(db: Db, p: Principal, sid: Id, now: Day): (r: Step)
    ensures sid !in db.students ==> r == Reject(db, NotFound(MsgStudentNotFound))
    ensures r.outcome.Failed? ==> r.db == db
    ensures r.outcome == Failed(Forbidden(AccessDenied)) <==>
      sid in db.students && p.role == Owner && p.messId.Some? && p.messId.value != db.students[sid].messId
    ensures r.outcome.Done? <==>
      sid in db.students && Scope(p, db.students[sid].messId, MsgFreezeFailed).None?
      && StudentSchema.Valid(db.students[sid])
    ensures r.outcome.Done? ==>
      && r.db == db.(students := db.students[sid := StudentSchema.PreSave(Flip(db.students[sid], now), now)])
  {
    if sid !in db.students then Reject(db, NotFound(MsgStudentNotFound))
    else
      var st := db.students[sid];
      var denied := Scope(p, st.messId, MsgFreezeFailed);
      if denied.Some? then Reject(db, denied.value)
      else
        var flipped := Flip(st, now);
        if !StudentSchema.Valid(flipped) then Reject(db, ServerError(MsgFreezeFailed))
        else Step(db.(students := db.students[sid := StudentSchema.PreSave(flipped, now)]), Done)
  }

  /** Two toggles from unfrozen leave the student unfrozen, with the freeze start of the
      first call and the freeze end of the second. */
  lemma ToggleTwice(db: Db, p: Principal, sid: Id, t1: Day, t2: Day)
    requires ToggleFreeze(db, p, sid, t1).outcome.Done?
    requires !db.students[sid].isFrozen
    ensures
      var once := ToggleFreeze(db, p, sid, t1);
      var twice := ToggleFreeze(once.db, p, sid, t2);
      && twice.outcome.Done?
      && !twice.db.students[sid].isFrozen
      && twice.db.students[sid].freezeStart == Some(t1)
      && twice.db.students[sid].freezeEnd == Some(t2)
  {
    var once := ToggleFreeze(db, p, sid, t1);
    var st1 := once.db.students[sid];
    assert st1.isFrozen && st1.freezeStart == Some(t1);
    assert st1.messId == db.students[sid].messId;
    assert StudentSchema.Valid(st1);
  }
}
