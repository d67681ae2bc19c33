/** The rules src/models/Student.js attaches to a student document: field defaults,
    the validators `save()` runs, the pre-save hook that fills in `membershipEnd`,
    and the `isOverdue` virtual. */
module StudentSchema {
  import opened Wrappers
  import opened Calendar
  import opened Records

  const MealPlans: seq<string> := ["Full", "Half", "Custom"]
  const Genders: seq<string> := ["Male", "Female", "Other"]
  const DefaultMealPlan := "Full"
  const DefaultGender := "Male"

  /** Length of the membership granted at creation and by each payment, in days. */
  const MembershipDays := 30

  /** The fields a request body may give a new student (absent keys are `None`). */
  datatype NewStudent = NewStudent(
    name: Option<string>,
    mobile: Option<string>,
    address: Option<string>,
    mealPlan: Option<string>,
    fee: Option<int>,
    gender: Option<string>)

  /** What the schema validators check on create and on every `save()`: the required
      strings are non-empty and the enum fields hold one of their values. */
  predicate Valid(st: Student) {
    && st.name != ""
    && st.mobile != ""
    && st.mealPlan in MealPlans
    && st.gender in Genders
  }

  /** The pre-save hook: an unset `membershipEnd` becomes the start date (today when
      there is none) plus 30 days; a set one is left alone. */
  function PreSave(st: Student, now: Day): (r: Student)
    ensures r.membershipEnd.Some?
    ensures r.(membershipEnd := st.membershipEnd) == st
    ensures st.membershipEnd.Some? ==> r.membershipEnd == st.membershipEnd
    ensures st.membershipEnd.None? && st.startDate.Some? ==> r.membershipEnd.value - st.startDate.value == MembershipDays
    ensures st.membershipEnd.None? && st.startDate.None? ==> r.membershipEnd.value - now == MembershipDays
  {
    if st.membershipEnd.Some? then st
    else
      var base := if st.startDate.Some? then st.startDate.value else now;
      st.(membershipEnd := Some(base + MembershipDays))
  }

  /** Saving twice fills the membership end once: the hook is idempotent. */
  lemma PreSaveIdempotent(st: Student, now1: Day, now2: Day)
    ensures PreSave(PreSave(st, now1), now2) == PreSave(st, now1)
  {
  }

  /** A student starting on 2024-01-01 with no membership end is given 2024-01-31. */
  lemma PreSaveNewYearExample(st: Student, now: Day)
    requires st.startDate == Some(DaysFromCivil(2024, 1, 1)) && st.membershipEnd.None?
    ensures PreSave(st, now).membershipEnd == Some(DaysFromCivil(2024, 1, 31))
  {
  }

  /** The `isOverdue` virtual: a membership that has ended before today. */
  function IsOverdue(st: Student, now: Day): (b: bool)
    ensures b ==> st.membershipEnd.Some?
    ensures st.membershipEnd.Some? ==> (b <==> st.membershipEnd.value < now)
  {
    st.membershipEnd.Some? && st.membershipEnd.value < now
  }

  /** `Student.create` from a request body: schema defaults applied, validators run
      (`None` stands for the ValidationError), then the pre-save hook. `startDate`
      defaults to the creation day. */
  function Create(input: NewStudent, messId: Id, now: Day): (r: Option<Student>)
    ensures r.Some? <==>
      && input.name.Some? && input.name.value != ""
      && input.mobile.Some? && input.mobile.value != ""
      && input.fee.Some?
      && (input.mealPlan.None? || input.mealPlan.value in MealPlans)
      && (input.gender.None? || input.gender.value in Genders)
    ensures r.Some? ==> Valid(r.value)
    ensures r.Some? ==>
      && r.value.messId == messId
      && r.value.fee == input.fee.value
      && r.value.mealPlan == input.mealPlan.GetOr(DefaultMealPlan)
      && r.value.gender == input.gender.GetOr(DefaultGender)
      && r.value.address == input.address.GetOr("")
      && r.value.startDate == Some(now)
      && r.value.membershipEnd == Some(now + MembershipDays)
      && r.value.paymentStatus == map[]
      && !r.value.isFrozen && r.value.freezeStart.None? && r.value.freezeEnd.None?
  {
    var st := Student(
      messId := messId,
      name := input.name.GetOr(""),
      mobile := input.mobile.GetOr(""),
      address := input.address.GetOr(""),
      mealPlan := input.mealPlan.GetOr(DefaultMealPlan),
      fee := input.fee.GetOr(0),
      startDate := Some(now),
      membershipEnd := None,
      gender := input.gender.GetOr(DefaultGender),
      paymentStatus := map[],
      isFrozen := false,
      freezeStart := None,
      freezeEnd := None,
      remarks := "");
    if Valid(st) && input.fee.Some? then Some(PreSave(st, now)) else None
  }
}
