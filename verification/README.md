# Mess management backend: a Dafny model of its business rules

This project models the request handlers of a mess (canteen) management backend as pure
functions over an abstract document store, and proves properties of them. Every handler
is a function from the store and the request to a `Step`: the store afterwards and how the
request ended (`Done`, or `Failed` with an HTTP status and the message the handler sends).

The store (`Records.Db`) holds four maps from ids to immutable records: messes, students,
payments and user accounts. It also holds a single id counter, because document ids are
unique across the whole store. A date is a whole number of days (`Calendar.Day`). The
request day `now`, the current month key `YYYY-MM` and the bounds of the current month
are passed in as parameters.

The modules follow the source:

- `Billing` covers payments: recording and deleting a payment, the two ways a payment's
  status is shown, and the month rendering (in `Calendar`).
- `StudentSchema` and `Roster` cover the student model and the student handlers. Adding a
  student is gated on capacity and rewrites the mess's `totalStudents`. Updates take a raw
  body and rename `endDate`. Deletion lowers the counter. There is also the freeze toggle.
- `Registry` and `Owners` cover messes and owner accounts. `Links` states the two-way
  owner/mess link (`Mess.ownerId` and `User.messId`) that these handlers maintain by hand.
  It proves which operations keep that link.
- `Requests` replays any sequence of writing requests. It proves that the link, each
  mess's `totalStudents` and each mess's `revenue` stay accurate, under stated conditions.
- `Alerts` covers the notification feed: capacity alerts, the overdue-payment alert and
  the expiring-membership alert, with owner scoping.
- `Auth` covers the login gate. Password comparison is an abstract parameter `matches`.
- `Cli` covers the argument parser and checks of the user-creation script.

## Model

| member | source | states |
|---|---|---|
| Records.Scope | src/controllers/studentController.js:97-102 | Admins always pass. An owner passes exactly for their own mess and gets 403 "Access denied" for any other. An owner account with no mess ends in the handler's 500 answer. |
| Records.OccupancyInsert | src/controllers/studentController.js:63-79 | Storing a new student of mess m under an unused id raises m's student count by exactly one and leaves every other mess's count alone. |
| Records.OccupancyRemove | src/controllers/studentController.js:140-145 | Removing a student lowers its own mess's count by one and no other mess's count. |
| Calendar.MonthKey | src/controllers/paymentController.js:198 | A month key is seven characters with the dash at position 4. |
| Calendar.RenderMonth | src/controllers/paymentController.js:31-46 | The display is a month name, or "undefined", followed by a space and the text before the first dash. |
| Calendar.MonthName | src/controllers/paymentController.js:32-46 | Indexing the month names with `parseInt(month) - 1` gives one of the twelve names, or "undefined" for NaN and for numbers outside 1..12. |
| Calendar.RenderMonthPieces | src/controllers/paymentController.js:31-46 | For a year and a month text without dashes, the display is the name of the month that `parseInt` reads from the month text, then a space, then the year as written. |
| Calendar.RenderMonthKey | src/controllers/paymentController.js:31-46 | The key built from year y and month m (1..12) renders as the m-th month name followed by the four year digits. |
| Calendar.KeyPieces | src/controllers/paymentController.js:31 | Splitting a month key at "-" gives back the year digits and the month digits. |
| Calendar.MonthDigitsParse | src/controllers/paymentController.js:46 | parseInt reads the two-digit month back as the month number. |
| Text.ParseInt | src/controllers/paymentController.js:46 | `parseInt` with no radix skips leading white space and one sign. After "0x" or "0X" it needs a hexadecimal digit, otherwise a decimal digit, and it is NaN exactly when that digit is missing. A result is never negative without a minus sign and never positive with one. |
| Text.ReadDigits | src/controllers/paymentController.js:46 | Reading digits gives a number exactly when the text starts with a digit of the base. A text made only of such digits reads as its value in that base. |
| Text.ParseNumeral | src/controllers/paymentController.js:46 | A plain decimal numeral reads as its value, leading zeros included. |
| Text.ParseNegativeNumeral | src/controllers/paymentController.js:46 | A minus sign before a decimal numeral of value v reads as -v. |
| Text.ParseHexNumeral | src/controllers/paymentController.js:46 | After "0x", hexadecimal digits read in base 16. |
| Text.HexWithoutDigits | src/controllers/paymentController.js:46 | A "0x" not followed by a hexadecimal digit is NaN. |
| Text.ParseStopsAtNonDigit | src/controllers/paymentController.js:46 | `parseInt` reads a numeral up to the first non-digit and ignores the rest. |
| Text.HexPrefixExamples | src/controllers/paymentController.js:46 | The month text "0x0C" reads as 12, so it renders as December. |
| Text.LeadingZeroExample | src/controllers/paymentController.js:46 | A leading zero does not switch the base: "08" reads as 8. |
| Text.IntString | src/models/Student.js:16-19 | Writing a number on a String path gives a non-empty numeral with no leading zero. A negative number gets a minus before the numeral of its magnitude. |
| Text.DecimalInt | src/models/Student.js:31-34 | A string casts onto a Number path exactly when it is an optional minus followed by at least one decimal digit. |
| Text.DecimalNumeral | src/models/Student.js:31-34 | A numeral, with or without a minus, casts to its decimal value or its negation. |
| Text.IntStringRoundTrip | src/models/Student.js:16-34 | The numeral written for any whole number reads back as that number, both by the Number cast and by `parseInt`. |
| Text.FirstPiece | src/controllers/paymentController.js:31 | The first piece of a split is the longest prefix without the separator, ending at the first separator. |
| Text.SecondPiece | src/controllers/paymentController.js:31 | The second piece of a split is absent exactly when the separator does not occur. |
| Text.FirstPieceOfJoin | src/controllers/paymentController.js:31 | For `a` without the separator, splitting `a + sep + b` gives `a` as the first piece. |
| StudentSchema.PreSave | src/models/Student.js:85-92 | After the hook, `membershipEnd` is always set. An existing `membershipEnd` is kept. An unset one becomes the start date (today when there is none) plus 30 days. No other field changes. |
| StudentSchema.PreSaveIdempotent | src/models/Student.js:86 | Running the hook a second time, on any day, changes nothing. |
| StudentSchema.PreSaveNewYearExample | src/models/Student.js:87-89 | A start of 2024-01-01 with no membership end gets 2024-01-31. |
| StudentSchema.IsOverdue | src/models/Student.js:79-82 | A student with no membership end is not overdue. Otherwise a student is overdue exactly when the end is before today. |
| StudentSchema.Create | src/models/Student.js:4-72 | Creation succeeds exactly when the name and mobile are non-empty, a fee is given, and any meal plan or gender given is in its enum. Defaults: meal plan "Full", gender "Male", empty address, start today, end today plus 30, empty payment map, not frozen. |
| Roster.AddStudent | src/controllers/studentController.js:51-87 | The target is the owner's mess or the admin's body `messId`, and a missing target is 400. A mess at or over capacity is 400 "Mess is full" with nothing written. Success happens exactly when the target exists, has room, the student validates and the mess passes its own save validators. On success the student is stored under a fresh id and the mess's `totalStudents` becomes count + 1, at most the capacity. The one failure after a write is the mess save on an empty mess name: the student is stored and the count is not. |
| Roster.CapacityTwoExample | src/controllers/studentController.js:63-80 | With capacity 2, two adds succeed (counts 1 and 2) and the third is rejected as full, leaving the store unchanged. |
| Roster.NormalizeUpdate | src/controllers/studentController.js:105-109 | A truthy `endDate` moves to `membershipEnd`, overriding any given one, and the `endDate` key disappears. Every other key is kept as sent. |
| Roster.ApplyUpdate | src/controllers/studentController.js:111-117 | Each of the 13 scalar schema paths present in the body takes the body's value cast onto that path's type. Each absent path keeps its value. The `paymentStatus` map is never changed by a scalar, and a body naming it fails. An empty body changes nothing. |
| Roster.ApplyUpdateCastable | src/models/Student.js:6-69 | An update goes through exactly when every schema key of the body casts onto its path. |
| Roster.CastString | src/models/Student.js:11-47 | A string is kept. A number is written as a numeral that reads back as it. A boolean is written as a text that the Boolean cast reads back as it. Only null is refused. |
| Roster.CastNumber | src/models/Student.js:31-34 | A Number path takes a number, a boolean (as 1 or 0, which read back as it) or a decimal numeral string, and nothing else. |
| Roster.CastDate | src/models/Student.js:35-65 | A Date path takes a day or clears the date. It clears the date exactly for null and the empty string, and it refuses booleans and other strings. |
| Roster.CastBool | src/models/Student.js:54-57 | A Boolean path reads true exactly from true, "true", 1, "1" and "yes", and false exactly from false, "false", 0, "0" and "no". It refuses everything else. |
| Roster.CastId | src/models/Student.js:6-10 | An ObjectId path takes exactly the non-negative whole numbers. |
| Roster.NumericMobileStored | src/models/Student.js:16-19 | A numeric mobile is not refused: it is stored as its decimal numeral. |
| Roster.YesFreezes | src/models/Student.js:54-57 | "yes" on `isFrozen` freezes the student through an update. |
| Roster.FeeFromNumeral | src/models/Student.js:31-34 | A fee sent as a numeral string is stored as that number. |
| Roster.FeeNotNumeralFails | src/models/Student.js:31-34 | A fee string that is not a numeral fails the whole update. |
| Roster.UpdateStudent | src/controllers/studentController.js:92-123 | A missing student is 404. An owner of another mess gets 403 with no change. On success only this student changes, to the normalised body applied over the stored record. |
| Roster.EndDateBecomesMembershipEnd | src/controllers/studentController.js:105-117 | After a successful update with a truthy `endDate`, the stored `membershipEnd` is that date. |
| Roster.UpdateCanMoveStudent | src/controllers/studentController.js:105-117 | An owner can update one of their students with a body holding another `messId`. The student moves, and no mess counter changes. |
| Roster.UpdateStudentIntended | src/controllers/studentController.js:92-123 | The corrected update never changes a student's mess, changes no other record, and behaves exactly like the handler on bodies without `messId`. |
| Roster.DeleteStudent | src/controllers/studentController.js:128-152 | 404 and 403 leave the store unchanged. On success the student is removed and its mess's `totalStudents` drops by one. Payments, users and every other mess stay as they were. |
| Roster.Flip | src/controllers/studentController.js:169-175 | `isFrozen` flips. Freezing sets the start to today and clears the end. Unfreezing sets the end to today and keeps the start. No other field changes. |
| Roster.ToggleFreeze | src/controllers/studentController.js:157-188 | 404 and 403 leave the store unchanged. Success happens exactly when the student is in scope and passes the save validators. Only that student changes: flipped, then run through the pre-save hook. |
| Roster.ToggleTwice | src/controllers/studentController.js:169-176 | Two toggles from unfrozen leave the student unfrozen, with the first call's freeze start and the second call's freeze end. |
| Billing.ParseMode | src/models/Payment.js:28-32 | An absent payment mode defaults to Cash. Any mode outside the four enum values fails validation. |
| Billing.ExtendedEnd | src/controllers/paymentController.js:212-223 | The new membership end is 30 days after the later of today and the old end. It is at least today + 30 and at least the old end + 30, and does not depend on the amount. |
| Billing.IncRevenue | src/controllers/paymentController.js:210 | Only the named mess's revenue moves, by exactly the given amount. A missing mess means no change. |
| Billing.AddPayment | src/controllers/paymentController.js:171-247 | A missing student id or falsy amount (0 included) is 400, and 403 is an owner paying for another mess's student; both write nothing. A negative amount is accepted. Success happens exactly when the checks pass. On success the payment carries the student's mess and the month, revenue rises by the amount, the end is extended, the month is marked "paid" and nothing else changes. The one failure after writes is a student that fails validation on save. |
| Billing.DeletePayment | src/controllers/paymentController.js:252-274 | 404 and 403 leave the store unchanged. On success only this payment is removed and its mess's revenue drops by its amount. Students are untouched. |
| Billing.PaymentRoundTrip | src/controllers/paymentController.js:264-267 | Recording a payment and deleting it again restores every mess's revenue and the payment collection. The student's extended end and "paid" mark stay. |
| Billing.MonthStatus | src/controllers/paymentController.js:137-146 | The detail status is the stored entry for the month when it is non-empty, and "unpaid" otherwise. |
| Billing.ListingStatus | src/controllers/paymentController.js:49-66 | The list's status expression, over a fee and a membership end, is "paid" exactly when amount = fee. It is "overdue" exactly when they differ and the membership has ended. Otherwise it is "partial" for amount < fee and "error" for amount > fee. |
| Billing.DetailStatus | src/controllers/paymentController.js:137-156 | The detail's status expression, over a payment map and a membership end, is the month's stored status, overridden by "overdue" when the membership has ended and the status is not "paid". A "paid" month always gives "paid". |
| Billing.ListedStatus | src/controllers/paymentController.js:24-66 | The list loads the student's name, mobile and fee only, so the status it shows is the fee comparison alone: "paid", "partial" or "error" as amount =, < or > fee, and never "overdue". |
| Billing.DetailShownStatus | src/controllers/paymentController.js:96-156 | The detail loads the student's name and fee only, so neither the payment map nor the membership end is present, and every payment shows "unpaid". |
| Billing.ListedStatusIntended | src/controllers/paymentController.js:24-66 | With the membership end loaded too, the list shows "overdue" exactly when the amount is off the fee and the membership has ended, "paid" exactly when amount = fee, and otherwise what the as-written list shows. |
| Billing.DetailShownStatusIntended | src/controllers/paymentController.js:96-156 | With the map and the membership end loaded too, a month marked "paid" shows "paid", an ended membership shows "overdue" otherwise, and a running one shows the month's stored status. |
| Billing.EndedMembershipNotListedOverdue | src/controllers/paymentController.js:24-66 | For an amount off the fee and an ended membership, the status expression gives "overdue" but the list as written shows "partial" or "error"; the corrected list shows "overdue". |
| Billing.PaidMonthShownUnpaid | src/controllers/paymentController.js:96-156 | Right after any recorded payment, its month is marked "paid" in the store, the detail as written shows "unpaid", and the corrected detail shows "paid". |
| Billing.ListingNeverPending | src/controllers/paymentController.js:49-57 | With whole-number amounts the initial "Pending" is never shown. |
| Billing.FeeComparisonExample | src/controllers/paymentController.js:51-57 | With a running membership and a fee of 1000, the amounts 1000, 600 and 1200 list as paid, partial and error. |
| Billing.StatusSourcesDisagree | src/controllers/paymentController.js:48-57 | Right after a payment whose amount differs from the fee, the detail's status expression over the stored student gives "paid" while the list's gives "partial" or "error". The endpoints as written show "unpaid" in the detail and "partial" or "error" in the list. |
| Registry.ClearUserMess | src/controllers/messController.js:209 | Unlinking clears exactly that user's `messId`. A missing user means no change. |
| Registry.CreateMess | src/controllers/messController.js:99-138 | A missing name or falsy capacity is 400. An `ownerId` must name an owner account that owns no mess. On success the new mess (no contact kept) gets the fresh id and the owner, whose `messId` points back to it. No other user changes. |
| Registry.AssignOwner | src/controllers/messController.js:143-178 | A missing mess is 404. An owner who already owns a mess, this one included, is 400. Success happens exactly when the owner exists, has role owner, owns no mess and the mess passes its save validators. On success the previous owner's `messId` is cleared and both sides point at each other, and only owner fields change. When the mess save fails, the previous owner has already been unlinked and nothing else is written. |
| Registry.UpdateMess | src/controllers/messController.js:183-198 | A missing mess is 404. On success name, capacity and address take the given values and everything else stays. |
| Registry.UpdateMessCanOverfill | src/controllers/messController.js:185-190 | A mess can be shrunk below the number of students it holds. |
| Registry.UpdateMessStoresEmptyName | src/controllers/messController.js:186-190 | As written, an update with an empty name succeeds and stores a mess that no later `save()` accepts. |
| Registry.UpdateMessIntended | src/controllers/messController.js:183-198 | The corrected update refuses an empty name with 500 and writes nothing. Any other update is the handler's. It keeps every mess valid. |
| Registry.DeleteMess | src/controllers/messController.js:203-217 | A missing mess is 404. On success the owner's `messId` is cleared and the mess removed. Its students and payments stay. |
| Registry.Unassigned | src/controllers/messController.js:44 | The unassigned list holds exactly the messes whose `ownerId` is null. |
| Registry.DisplayContact | src/controllers/messController.js:14-19 | The shown contact is the mess contact when it is not blank after trimming, else the owner's contact when non-empty, else "Not Provided". |
| Registry.StoredMessShowsOwnerContact | src/controllers/messController.js:71-76 | A stored mess has no contact path, so it shows its owner's contact or "Not Provided". |
| Owners.ClearMessOwner | src/controllers/ownerController.js:167 | Unlinking clears exactly that mess's `ownerId`. A missing mess means no change. |
| Owners.CreateOwner | src/controllers/ownerController.js:50-121 | A missing username or password is 400. Success happens exactly when the username is free, the password meets the minimum of 6 and any given mess exists, has no owner, passes its save validators and takes the owner. On success the account is stored under the fresh id and the mess points to it. A failed attach rolls back to the unchanged store. |
| Owners.ApplyAllowed | src/controllers/ownerController.js:145-157 | Only the allowed keys change, and `messId` takes the body's value. Role, username and `isActive` are kept. |
| Owners.SaveOwner | src/controllers/ownerController.js:192 | The final save fails with 500 exactly when the new password is shorter than 6. Otherwise it stores the owner. |
| Owners.UpdateOwner | src/controllers/ownerController.js:124-201 | The handler as written. A non-owner id is 404. A target mess that is missing, or owned by someone else, is 400. A target mess that fails its save validators is 500. On success the target mess points to the owner and the owner to it. Only mess owner fields ever change. A mess other than the target is never written, so the previous mess is not unlinked. |
| Owners.UpdateOwnerIntended | src/controllers/ownerController.js:159-190 | The corrected update. Failures write nothing. When the owner is moved or unassigned, the previous mess is unlinked. The target mess points to the owner, and no other mess changes. |
| Owners.NewExpiry | src/controllers/ownerController.js:217-227 | The expiry toggleActive computes and shows in its answer. An explicit expiry wins. Otherwise a positive `extendDays` extends from the later of today and the current expiry. Otherwise the expiry is unchanged. |
| Owners.StoredExpiry | src/controllers/ownerController.js:217-229 | The expiry the save writes equals `NewExpiry` exactly when the request is not an `extendDays`-only extension of a running subscription. In that case the stored expiry stays as it was. |
| Owners.ToggleActive | src/controllers/ownerController.js:204-237 | A non-owner id is 404. On success `isActive` flips in either direction and the stored expiry follows `StoredExpiry`. Nothing else changes. |
| Owners.RunningExtensionNotStored | src/controllers/ownerController.js:221-229 | For an owner whose subscription runs past today, toggling with `extendDays` > 0 alone succeeds and keeps the stored expiry, although the answer shows it extended by `extendDays`. |
| Owners.ToggleActiveIntended | src/controllers/ownerController.js:204-237 | The corrected toggle stores the expiry its answer shows. It differs from the handler only on an `extendDays`-only extension of a running subscription. It is 404 for a non-owner, flips `isActive`, and a positive `extendDays` without an explicit expiry stores an expiry at least `extendDays` after both today and the old expiry. |
| Links.OwnerHasMessIffNamed | src/controllers/messController.js:111-116 | Under the link invariant, an owner's `messId` is set exactly when some mess names them, and then it is that mess. |
| Links.UnassignedIffNoOwnerPoints | src/controllers/messController.js:44 | Under the link invariant, a mess is unassigned exactly when no owner account points to it. |
| Links.CreateMessKeepsLinks | src/controllers/messController.js:106-131 | createMess keeps the two-way owner/mess link. |
| Links.AssignOwnerKeepsLinks | src/controllers/messController.js:163-171 | assignOwner keeps the link whenever the mess it saves passes validation. |
| Links.AssignOwnerEmptyNameUnlinks | src/controllers/messController.js:162-168 | On a mess with an empty name and an owner, assignOwner answers 500 after unlinking the previous owner. The mess still names that owner, so the link is broken. |
| Links.UpdateMessKeepsLinks | src/controllers/messController.js:185-190 | updateMess keeps the link. |
| Links.DeleteMessKeepsLinks | src/controllers/messController.js:205-211 | deleteMess keeps the link. |
| Links.CreateOwnerKeepsLinks | src/controllers/ownerController.js:70-111 | createOwner keeps the link, including on rollback. |
| Links.ToggleActiveKeepsLinks | src/controllers/ownerController.js:214-229 | toggleActive keeps the link. |
| Links.ToggleActiveIntendedKeepsLinks | src/controllers/ownerController.js:214-229 | The corrected toggleActive keeps the link. |
| Links.UpdateOwnerIntendedKeepsLinks | src/controllers/ownerController.js:159-190 | The corrected updateOwner keeps the link. |
| Links.UpdateOwnerUnassignKeepsStaleMess | src/controllers/ownerController.js:154-169 | As written, unassigning a linked owner succeeds and clears the owner's `messId`, but the old mess still names the owner, which breaks the link. |
| Links.UpdateOwnerMoveKeepsStaleMess | src/controllers/ownerController.js:154-188 | As written, moving a linked owner to a free mess leaves both the old and the new mess naming the owner, which breaks the link. |
| Links.UpdateOwnerShortPasswordHalfLinks | src/controllers/ownerController.js:185-192 | As written, moving with a password shorter than 6 answers 500 after the mess was already given the owner, which breaks the link. |
| Links.UpdateOwnerVersionsAgree | src/controllers/ownerController.js:145-192 | When the body has no `messId` or the owner had no mess, and the password is not short, the as-written and corrected updates give identical results. |
| Requests.ApplyKeepsLinks | src/controllers/messController.js:106-211 | While every mess passes validation, every writing request keeps the link, except the as-written updateOwner. |
| Requests.RunKeepsLinks | src/controllers/ownerController.js:145-190 | Any sequence of requests keeps the link, fresh ids and valid messes, when the corrected handlers serve it, or when it has no updateOwner and no update that empties a mess name. |
| Requests.ApplyKeepsMessesValid | src/controllers/messController.js:183-198 | Every request keeps every mess valid, except an as-written updateMess that empties a name. |
| Requests.EmptyNameThenAssignBreaksLinks | src/controllers/messController.js:143-198 | As written, emptying an owned mess's name and then assigning it a new owner breaks the link. With the corrected handlers the same two requests keep it. |
| Requests.AddStudentKeepsCounter | src/controllers/studentController.js:63-80 | While every mess passes validation, addStudent keeps every mess's `totalStudents` equal to its number of students. |
| Requests.DeleteStudentKeepsCounter | src/controllers/studentController.js:140-145 | deleteStudent keeps every counter accurate. |
| Requests.UpdateStudentKeepsCounter | src/controllers/studentController.js:105-117 | An update whose body has no `messId` keeps every counter accurate. |
| Requests.UpdateStudentIntendedKeepsCounter | src/controllers/studentController.js:92-123 | The corrected update keeps every counter accurate, whatever its body. |
| Requests.CreateMessKeepsCounter | src/controllers/messController.js:119-125 | A new mess starts with `totalStudents` 0 and has no students, so the counters stay accurate. |
| Requests.ApplyKeepsCounter | src/controllers/studentController.js:63-145 | While every mess passes validation, every writing request keeps the counters accurate, unless it is an as-written update that names a `messId`. |
| Requests.AddPaymentKeepsRevenue | src/controllers/paymentController.js:200-210 | addPayment keeps each mess's revenue equal to the sum of its payments, even when the later student save fails. |
| Requests.DeletePaymentKeepsRevenue | src/controllers/paymentController.js:264-267 | deletePayment keeps each revenue equal to the sum of its payments. |
| Requests.ApplyKeepsRevenue | src/controllers/paymentController.js:200-267 | Every writing request keeps each revenue equal to the sum of its payments. |
| Requests.RunKeepsBooks | src/controllers/paymentController.js:200-267 | Any sequence of requests keeps counters, revenues, fresh ids and valid messes accurate, when the corrected handlers serve it, or when no update names a `messId` and none empties a mess name. |
| Requests.EmptyNameThenAddBreaksCounter | src/controllers/studentController.js:68-80 | As written, emptying a mess's name and then adding a student to it stores the student but not the new count, so the counter is off. With the corrected handlers the counter holds. |
| Requests.MovingStudentBreaksCounter | src/controllers/studentController.js:105-117 | Moving a student through an update leaves the old mess's `totalStudents` one above its real count. |
| Alerts.Percent | src/controllers/notificationController.js:18-20 | The percentage is 0 for a capacity of 0. Otherwise it is the whole number nearest to 100·occupied/capacity, with halves rounded up. |
| Alerts.AlertThreshold | src/controllers/notificationController.js:20-21 | The percentage reaches 85 exactly when the capacity is positive and 200·occupied ≥ 169·capacity. |
| Alerts.HalfPercentRoundsUp | src/controllers/notificationController.js:20-21 | 169/200 shows 85 and alerts, and 168/200 shows 84 and does not. 9/10 gives 90, 8/10 gives 80, and 0/0 gives 0. |
| Alerts.ScopeOf | src/controllers/notificationController.js:9-13 | An admin's scope is every mess. An owner's scope is their `messId`, which is every mess when it is unset. |
| Alerts.CapacityAlerts | src/controllers/notificationController.js:17-30 | A mess gets a capacity alert exactly when it is in scope and its percentage is at least 85. Alerts carry that mess's figures and come in mess order. |
| Alerts.Overdue | src/controllers/notificationController.js:37-52 | The overdue count covers exactly the in-scope students with a membership end before today and no "paid" entry for the current month. |
| Alerts.Expiring | src/controllers/notificationController.js:73-76 | The expiring count covers exactly the in-scope students whose membership end is in [start of month, start of next month). |
| Alerts.CountOverdue | src/controllers/notificationController.js:37-52 | The counting loop returns the size of the overdue set. |
| Alerts.Notifications | src/controllers/notificationController.js:54-92 | The feed is the capacity alerts, then one payment alert exactly when the overdue count is positive, then one membership alert exactly when the expiring count is positive. "Across all messes" is shown for non-owners. |
| Alerts.CapacityAlertIff | src/controllers/notificationController.js:13-30 | With fresh ids, a mess's alert is in the feed exactly when it is in scope, its capacity is positive and 200·occupied ≥ 169·capacity. |
| Alerts.OwnerWithoutMessSeesAll | src/controllers/notificationController.js:9-13 | An owner with no `messId` gets the admin's feed, except that the payment alert does not say "across all messes". |
| Alerts.PaymentClearsOverdue | src/controllers/notificationController.js:40-50 | After a recorded payment the student is not counted overdue for that month, on any later day and in any scope. |
| Auth.FindByUsername | src/controllers/authController.js:29 | The lookup returns an account with that username that has no lower id. It returns nothing exactly when no account has the username. |
| Auth.Login | src/controllers/authController.js:22-81 | A missing username or password is 400. A token is issued exactly when the account exists, the password matches, the account is active and it is not an owner with an expiry before today. The token is exactly (id, username, role, messId). Every refusal is one of the four answers. |
| Auth.UnknownUserLooksLikeWrongPassword | src/controllers/authController.js:29-33 | An unknown user and a wrong password get the same 401 answer. |
| Auth.GateOrder | src/controllers/authController.js:29-61 | The checks run in order: password, then blocked, then expired. |
| Auth.AdminNeverExpires | src/controllers/authController.js:50-54 | An active admin with the right password logs in whatever the expiry. |
| Auth.DeactivatedOwnerIsBlocked | src/controllers/authController.js:41-47 | After toggleActive turns an active owner off, the right password gets the "blocked" answer. |
| Auth.ReactivatedOwnerCanLogIn | src/controllers/authController.js:50-61 | Reactivating with a positive extension lets the right password in on the same day. |
| Cli.ScanFlags | scripts/createUser.js:22-33 | The flag pass only adds keys. |
| Cli.ScanFlagsSources | scripts/createUser.js:22-33 | Every key comes from a `--key` token. Every string value is the value token right after its flag. Every `true` comes from a flag with no usable value after it. |
| Cli.KeysComeFromFlags | scripts/createUser.js:24-25 | Every parsed key names a `--key` token of the command line. |
| Cli.NonFlags | scripts/createUser.js:37 | The bare tokens are exactly the tokens not starting with `--`, consumed values included. A single token is kept exactly when it is not a flag. With Cli.NonFlagsAppend this fixes the order and the repetitions that `filter` keeps. |
| Cli.ParseArgs | scripts/createUser.js:37-43 | Without a `--username` and with at least three bare tokens, the keys are the flag keys plus username, password and role, plus messId when a fourth bare token is non-empty. The three take the first three bare tokens. messId takes the fourth, or keeps its flag value. Other flags stay. Otherwise the result is the flag pass. |
| Cli.ParsedValuesTruthy | scripts/createUser.js:27-31 | Every value of the flag pass is truthy, so `!args.username` holds exactly when no `--username` was parsed. |
| Cli.NonFlagsAppend | scripts/createUser.js:37 | The bare tokens of two command lines joined are those of the first, then those of the second. |
| Cli.Validate | scripts/createUser.js:51-61 | Missing username, password or role exits with code 1. A role other than "admin" or "owner" exits with code 1. Dry mode is on exactly when `dry` is `true` or "true". |
| Cli.ScanPair | scripts/createUser.js:27-29 | A `--key` followed by a non-empty token that does not start with `--` stores that token and skips it. A single-dash token such as "-x" counts as a value. |
| Cli.ScanBare | scripts/createUser.js:30-32 | A `--key` at the end, or before an empty string or another flag, stores `true`. |
| Cli.PairsExample | scripts/createUser.js:24-30 | Three `--key value` pairs parse into three entries. |
| Cli.LastValueWins | scripts/createUser.js:27-29 | After any command line, a final `--key value` pair, with a non-empty value that is not a flag, overrides whatever came before for that key. |
| Cli.TrailingFlag | scripts/createUser.js:30-32 | After any command line, a final `--key` with nothing after it sets the key to `true`. |
| Cli.ScanShift | scripts/createUser.js:22-33 | The flag pass reads a command line after any prefix just as it reads it alone. |
| Cli.ScanAppend | scripts/createUser.js:22-33 | The pass over p + q is the pass over p carried on over q, when q does not start with a token that a trailing flag of p would take as its value. |
| Cli.BareFlagExamples | scripts/createUser.js:26-32 | `--dry` before another flag, and `--role ""`, become `true`. |
| Cli.StrayTokenIgnored | scripts/createUser.js:24 | A token that is not a flag, in front of any command line, changes nothing in the flag pass. |
| Cli.PositionalExample | scripts/createUser.js:37-43 | `alice secret1 admin` parses and validates as an admin request, not dry. |
| Cli.ConsumedValuesStillPositional | scripts/createUser.js:37-43 | In `--password x a b`, the consumed `x` still counts as a bare token, so x, a and b become username, password and role. |
| Cli.ValidateParsed | scripts/createUser.js:37-61 | For any command line: with `--username` the checks see the flags alone. Otherwise fewer than three bare tokens are "required" failures. With three or more, an empty one among the first three is a "required" failure, and the request goes ahead exactly when the first two are non-empty and the third is "admin" or "owner"; its username, password and role come from those tokens. |
| Cli.RoleExamples | scripts/createUser.js:51-59 | A role of "manager", or a bare `--role`, is rejected as a bad role. A missing password is rejected as missing. |

## Left out

- Express routing, the auth middleware and JWT signing are left out. The token is modelled as its payload.
- Password hashing and comparison are left out: `matches` is a parameter of `Auth.Login`, and passwords are kept as given.
- Mongoose details are left out: persistence, `populate` beyond the student paths the two payment reads select, ObjectId syntax checks ("Invalid owner id", "Invalid messId", the `--messId` check of the script), `trim` setters and unique indexes. Ids are natural numbers.
- Read-only listing endpoints are left out, beyond the status and contact rules modelled above: getStudents, getStudentById, getPayments/getPaymentById scoping, getAllMesses, getMessById, listOwners, getOwner, and the `me` handler.
- The clock, time zones and month rollover are left out. `now`, the month key and the month bounds are parameters, and the payment month and the "current month" of addPayment are the same key.
- Concurrency is left out. Each request is one atomic transition, so the read-then-write race on `totalStudents` is not modelled.
- The 500 answers from store failures are left out. Only validation failures are modelled: the student save in addPayment and toggleFreeze, the mess saves in addStudent, assignOwner, createOwner and updateOwner (an empty mess name), and the password minimum in createOwner and updateOwner.
- Alerts.Percent: `Math.round` on a floating-point quotient is modelled as exact round-half-up, so behaviour at float boundaries is not modelled. Alert message texts, dates and the `read: false` flag are not modelled either.
- Billing.AddPayment: the `paymentStatus` save inside its own try/catch cannot fail once the first save has passed, so it is modelled as always succeeding.
- Auth.Login: the "Failed to load user details" 500 cannot happen, because the account was just found. `isActive` is a boolean, so the absent-`isActive` case is not modelled.
- Roster.ApplyUpdate: body values are null, booleans, whole numbers and strings. Several casts are not modelled, and each of these is refused as a cast failure. Null on a String, Number, Boolean or ObjectId path, which Mongoose stores as null. Number strings with white space, '+', a fraction, an exponent, a hex prefix or "Infinity", and "" on a Number path. Date strings. ObjectId strings. Objects, including any value for the `paymentStatus` map.
- Roster.UpdateStudent: it answers 500 for the body values that Roster.ApplyUpdate leaves out, where Mongoose would write them.
- Roster.AddStudent, Registry.AssignOwner, Owners.CreateOwner and Owners.UpdateOwner: only the empty name is modelled as failing the mess save validators. The `capacity` path always holds a number here, and the unique index on `name` is not modelled.
- Links.AssignOwnerKeepsLinks: it promises the link only while the saved mess passes validation. Links.AssignOwnerEmptyNameUnlinks shows the case it leaves out.
- Requests.ApplyKeepsLinks, Requests.AddStudentKeepsCounter and Requests.ApplyKeepsCounter assume every mess passes validation. Requests.ApplyKeepsMessesValid shows that this holds unless an as-written updateMess empties a name.
- Requests.RunKeepsLinks and Requests.RunKeepsBooks require the corrected handlers, or no request of the failing kinds: updateOwner, an update naming a `messId`, an update emptying a mess name. With the as-written handlers the invariants fail, as the Findings show.
- Billing.ListingStatus and Billing.DetailStatus: they state the status expressions over whatever student fields are given, not what the endpoints show. The endpoints load fewer fields, and what they show is stated by Billing.ListedStatus and Billing.DetailShownStatus.
- Billing.StatusSourcesDisagree: its first two clauses compare the status expressions over the stored student, which no endpoint shows as written. Its last two clauses state what the endpoints do show.
- Cli.ScanFlags: its own contract states only that keys are added. Where each entry comes from is stated by Cli.ScanFlagsSources.
- The mess `contact` sent to createMess is not stored, because the Mess schema has no such path. So the mess-contact branch of the display rule is modelled, but no stored mess reaches it.
- deleteStudent leaves payments and revenue untouched, and updateStudent lets a student's `messId` change. The model follows the code in both.

## Findings

| source | as written | input that shows it | evidently intended | confidence | as-written member | corrected member |
|---|---|---|---|---|---|---|
| src/controllers/ownerController.js:154 | The allowed-keys loop writes the body's `messId` onto the owner before the reassignment block reads `owner.messId` at lines 166 and 181. So the previous mess is never unlinked. | An owner linked to mess A, updated with `messId: null` or with `messId` of a free mess B: A still names the owner. | Read the previous `messId` before the loop, and clear A's `ownerId` when the owner is unassigned or moved. | high (not executed) | Links.UpdateOwnerUnassignKeepsStaleMess | Owners.UpdateOwnerIntended |
| src/controllers/ownerController.js:186-192 | The new mess is saved with the owner before the owner is saved, and the owner save fails validation for a password shorter than 6. | An owner with no mess, updated with `messId` of a free mess and `password: "abc"`: the answer is 500, but the mess names the owner, who does not name it. | Validate the password before writing any mess, so a rejected update writes nothing. | high (not executed) | Links.UpdateOwnerShortPasswordHalfLinks | Owners.UpdateOwnerIntended |
| src/controllers/studentController.js:105-117 | The whole request body goes to `findByIdAndUpdate`, `messId` included, and neither mess's `totalStudents` is adjusted. | An owner updates one of their students with `messId` of another mess: the old mess's `totalStudents` stays one above its student count. | A student's mess never changes after creation, so `messId` is dropped from the update. | medium (not executed) | Requests.MovingStudentBreaksCounter | Roster.UpdateStudentIntended |
| src/controllers/messController.js:186-190 | `findByIdAndUpdate` runs no validators, so an empty `name` is stored. Every later `save()` of that mess then fails: addStudent stores the student but not the new count, and assignOwner unlinks the previous owner but does not save the mess. | A mess owned by O, updated with `name: ""`, then assigned to a free owner P: the answer is 500, O no longer names the mess, but the mess still names O. | Validate the update as `save()` does, so an empty name is refused and nothing is written. | medium (not executed) | Requests.EmptyNameThenAssignBreaksLinks | Registry.UpdateMessIntended |
| src/controllers/ownerController.js:221-226 | When the subscription still runs, `base` is the stored Date itself. `setDate` changes it in place and assigning it back does not mark the path modified, so `save()` writes `isActive` but not the new expiry. | An owner whose expiry is today + 10, toggled with `extendDays: 30` and no `subscriptionExpiry`: the answer shows today + 40, the store keeps today + 10. | Extend a copy (`new Date(owner.subscriptionExpiry)`), as addPayment does with the membership end, so the extended expiry is stored. | medium (not executed) | Owners.RunningExtensionNotStored | Owners.ToggleActiveIntended |
| src/controllers/paymentController.js:24 | getPayments populates the student with "name mobile fee", so `membershipEnd` is undefined when lines 59-66 read it and the "overdue" override never applies. | A payment of 600 against a fee of 1000 for a student whose membership ended last week: the list shows "partial". | Select `membershipEnd` as well, so the list shows "overdue". | medium (not executed) | Billing.EndedMembershipNotListedOverdue | Billing.ListedStatusIntended |
| src/controllers/paymentController.js:96 | getPaymentById populates the student with "name fee", so neither `paymentStatus` nor `membershipEnd` is present when lines 137-156 read them, and the status is always "unpaid". | Any payment just recorded by addPayment, which marked its month "paid": the detail shows "unpaid". | Select `paymentStatus` and `membershipEnd` as well, so the detail shows the month's status. | medium (not executed) | Billing.PaidMonthShownUnpaid | Billing.DetailShownStatusIntended |
