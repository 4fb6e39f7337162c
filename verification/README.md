# health_test backend, modelled in Dafny

This project models the decision logic of the health_test REST backend, an Express and
Mongoose service for a health platform. It covers:

- user and admin accounts: registration, OTP verification, login, password reset and token refresh;
- the two authentication middlewares, the error middleware and the Mongoose error classification;
- doctor, job and health categories, and the doctors and healthcare centres that belong to them;
- bookings of doctors and centres, with their statistics;
- blogs, with slugs, publishing and paged listings;
- jobs and job applications;
- course categories, courses and course registrations.

Each handler becomes a pure check function and, where the handler writes, a method. The check
function returns the record to store or the error reply, in the handler's own order of checks.
The method applies that check to an in-memory collection (`Table.Collection`), a class whose
`rows` field the methods reassign. Its ensures state the reply and the whole new state in
terms of the check function. Lemmas beside each handler prove the invariants it keeps, such as
unique emails, names, slugs and titles, existing categories, distinct registration pairs and
publication stamps. Other lemmas relate several handlers: register, verify and then log in; a
verified OTP is single-use; a second application or registration is refused.

Records are `datatype`s, and a collection is a `seq<Row<R>>` of rows with natural-number ids.
A request body is a datatype of `Option` fields, where `None` is an absent key. JavaScript
truthiness is written out: a present string is non-empty and a present number is non-zero.
Clocks, token verification, password comparison, OTP generation, `slugify` and e-mail delivery
are parameters.

Four behaviours a reader might not expect follow the code:

- `updateBookingStatus` (src/controller/booking/booking.controller.js:206-245) moves a booking
  to any valid status, including out of Completed or Cancelled. Only `cancelBooking` refuses
  terminal bookings. `BookingController.CancelIsFinalOnlyForCancel` states this.
- The blog read routes by id and by slug run without an authentication middleware. So
  `req.user` is never set there, and an unpublished blog is refused with 403 to every caller,
  admins included. `Blogs.ShowBlog` keeps the admin branch the code has, and
  `Blogs.PublicRoutesNeverShowDrafts` states what the routes actually do. The blog
  controller's own comments (src/controller/blog/blog.controller.js:177, :204) say admins
  may see drafts there.
- `createBooking` checks `new Date(appointmentDate)` against the clock
  (src/controller/booking/booking.controller.js:88), but the booking stores Mongoose's date cast
  of the same text (line 103). The two parsers differ on a digit string too large to be a
  year: `new Date` gives an Invalid Date, which never compares as past, and the cast reads the
  text as milliseconds since the epoch. So a text such as "300000" is stored as a date in 1970.
  A date value therefore carries both readings, and `BookingController.PastDateThroughCast`
  states the consequence.
- Two schema references name models under a spelling the source never registers:
  - `ref: "HealthCare"` (src/models/appointment/booking.model.js:17) against
    `mongoose.model("healthCare", …)` (src/models/health/healthCare.model.js:43);
  - `ref: "Course"` (src/models/course/courseRegistration.model.js:6) against
    `mongoose.model("course", …)` (src/models/course/course.model.js:35).

  Mongoose looks model names up case-sensitively. So populating a booking's `healthcareCenter`
  or a registration's `course` very likely throws a MissingSchemaError. The handler's catch
  block turns that into 500 "Internal server error". This model answers as if `populate`
  succeeded; see "Left out" for the handlers concerned.

## Model

| member | source | states |
|---|---|---|
| MongooseError.HandleMongoErrors | src/utils/mongooseError.js:3-27 | The reply is 400 with the field messages joined by ", " for a validation error. It is 409 "Duplicate value for field: f" exactly for a non-validation error with code 11000. It is 400 naming the path for a cast error. It is 500 "Internal server error" exactly when none of these holds. It never carries data. |
| MongooseError.ValidationReportsEveryField | src/utils/mongooseError.js:4-9 | Every field message of a validation error occurs in the reply's message. |
| ErrorMiddleware.ErrorHandler | src/middleware/error.middleware.js:4-24 | A thrown ApiResponse is sent as it is, whatever its status and data. Any other error goes through the Mongoose classification, and one that is not a database error becomes 500. A non-ApiResponse error always gives a reply of at least 400 with no data. |
| AuthMiddleware.BearerSplit | src/middleware/auth.middleware.js:15 | For a header starting "Bearer ", splitting on spaces gives at least two pieces, and the second is the text after the prefix up to the next space. |
| AuthMiddleware.BearerToken | src/middleware/auth.middleware.js:15 | The token is the text after "Bearer " up to the next space, and it holds no space. |
| AuthMiddleware.TryUserToken | src/middleware/auth.middleware.js:17-34 | It succeeds only with a stored, active user whose id the token decodes to. A verifier error is rethrown by name. |
| AuthMiddleware.AuthenticateUser | src/middleware/auth.middleware.js:7-38 | A missing or non-Bearer header gives 401 "Authorization token required". Every other failure, a 403 for an inactive account included, gives 401 "Invalid or expired token". It succeeds exactly for a decodable token of an existing active user. |
| AuthMiddleware.InactiveUserGets401 | src/middleware/auth.middleware.js:27-37 | The 403 "Account is not active" thrown inside the try block is replaced by a thrown 401 "Invalid or expired token". |
| AuthMiddleware.Authenticate | src/middleware/auth.middleware.js:7-38 | On success it attaches the user and calls next. Otherwise it throws the reply and leaves the request unchanged. |
| AuthMiddleware.AdminOnly | src/middleware/auth.middleware.js:40-45 | It passes exactly for role "admin". Any other role, or none, gives 403 "Admin access required". |
| AuthMiddleware.RequireAdmin | src/middleware/auth.middleware.js:40-45 | Without an attached user it throws a TypeError. Otherwise it calls next exactly for an admin role and throws the 403 for any other. |
| AdminAuthMiddleware.AdminToken | src/middleware/admin.auth.middleware.js:10 | There is a token exactly when there is a header. |
| AdminAuthMiddleware.AdminTokenForms | src/middleware/admin.auth.middleware.js:10 | A header without "Bearer " is used unchanged as the token, and "Bearer " + t gives t. |
| AdminAuthMiddleware.CatchAdminError | src/middleware/admin.auth.middleware.js:39-47 | Thrown replies pass through unchanged. TokenExpiredError becomes 401 "Token expired", JsonWebTokenError becomes 401 "Invalid token", and anything else is rethrown. |
| AdminAuthMiddleware.TryAdmin | src/middleware/admin.auth.middleware.js:8-38 | It succeeds only with a stored admin whose status is "active". |
| AdminAuthMiddleware.AuthenticateAdmin | src/middleware/admin.auth.middleware.js:7-48 | A missing token gives 401 "Authorization token required". Each token error, a payload without a user id, an unknown admin and an inactive admin has its own reply. It succeeds exactly for an active admin. |
| AdminAuthMiddleware.AdminOwnErrorsPassThrough | src/middleware/admin.auth.middleware.js:27-47 | An unknown admin gives 401 "Admin not found" and an inactive one gives 403 "Admin account is inactive", both through the catch block unchanged. |
| AdminAuthMiddleware.OtherTokenErrorsRethrown | src/middleware/admin.auth.middleware.js:39-47 | A verifier error with any other name is rethrown unchanged. |
| AdminAuthMiddleware.AuthenticateAdminRequest | src/middleware/admin.auth.middleware.js:7-48 | On success it attaches the admin and calls next. Otherwise it throws and leaves the request unchanged. |
| UserAuth.RegisterCheck | src/controller/user/userAuth.controller.js:13-62 | A missing field gives 400. An existing email gives 409 exactly when it is taken. A new user is unverified and active, and carries the issued OTP and expiry and an optional referral id. |
| UserAuth.RegisterKeepsEmailsDistinct | src/controller/user/userAuth.controller.js:25-31 | A registration that passes its checks keeps user emails distinct. |
| UserAuth.RegisterUser | src/controller/user/userAuth.controller.js:13-62 | It stores the checked user. The reply is 201 with the id and email when the mail goes out, and 500 (after the save) when it does not. Errors leave the users unchanged. |
| UserAuth.VerifyOtpCheck | src/controller/user/userAuth.controller.js:65-91 | The errors come in order: 400 missing fields, 404 unknown email, 400 expired, 400 invalid. It succeeds exactly when the stored OTP equals the sent one and has not expired. |
| UserAuth.VerifyOtp | src/controller/user/userAuth.controller.js:65-121 | On success only that account changes: it becomes verified and its OTP and expiry are cleared. |
| UserAuth.OtpIsSingleUse | src/controller/user/userAuth.controller.js:81-96 | After a successful verification, any further code for that email is refused as expired. |
| UserAuth.LoginUser | src/controller/user/userAuth.controller.js:157-213 | A missing field gives 400. An unknown email or a wrong password gives 401. A right password on an unverified account gives 403. The reply is 200 with the session exactly for a verified account with the right password. |
| UserAuth.RegisterVerifyLogin | src/controller/user/userAuth.controller.js:13-213 | Right after registering, login gives 403. The issued OTP verifies the account. The same credentials then log in. |
| UserAuth.ReissueCheck | src/controller/user/userAuth.controller.js:124-137 | A missing email gives 400 and an unknown one gives 404. Otherwise the result is the account's position. |
| UserAuth.ReissueOtp | src/controller/user/userAuth.controller.js:124-154 | It stores the new OTP on that account only. The reply is 200 with the email when the mail goes out, 500 otherwise. |
| UserAuth.ResendOtp | src/controller/user/userAuth.controller.js:124-154 | It reissues the OTP with the message "OTP resent successfully". |
| UserAuth.ForgotPassword | src/controller/user/userAuth.controller.js:299-333 | It reissues the OTP with the message "OTP sent for password reset". |
| UserAuth.ResetCheck | src/controller/user/userAuth.controller.js:336-351 | A missing field gives 400 and an unknown email gives 404. No OTP is consulted. |
| UserAuth.ResetPassword | src/controller/user/userAuth.controller.js:336-371 | It sets the new password and clears the OTP on that account only. |
| UserAuth.ResetThenLogin | src/controller/user/userAuth.controller.js:336-371 | After a reset, a verified account logs in with the new password. |
| UserAuth.RefreshToken | src/controller/user/userAuth.controller.js:246-296 | A missing token gives 401. The two token error names give their own 401s. It succeeds exactly for a token decoding to an existing user. Any other non-200 is 401, except for other thrown errors. |
| UserAuth.GetCurrentUser | src/controller/user/userAuth.controller.js:216-232 | 200 exactly for an existing account, otherwise 404 "User not found". |
| UserAuth.LogoutUser | src/controller/user/userAuth.controller.js:235-243 | Always 200 with no data. |
| AdminAuth.RegisterAdminCheck | src/controller/admin/adminAuth.controller.js:13-69 | A missing field gives 400 and a taken email gives 409. A new admin has role "admin", the default status and no OTP. |
| AdminAuth.RegisterAdminKeepsEmailsDistinct | src/controller/admin/adminAuth.controller.js:26-34 | A registration that passes keeps admin emails distinct. |
| AdminAuth.RegisterAdmin | src/controller/admin/adminAuth.controller.js:13-69 | It stores the checked admin and replies 201. Errors change nothing. |
| AdminAuth.LoginAdmin | src/controller/admin/adminAuth.controller.js:72-128 | 400 for missing fields and 401 for bad credentials. A right password with a status other than "active" gives 403. It is 200 exactly for an active admin with the right password. |
| AdminAuth.RegisterAdminThenLogin | src/controller/admin/adminAuth.controller.js:13-128 | A freshly registered admin logs in with its password. |
| AdminAuth.AdminReissueCheck | src/controller/admin/adminAuth.controller.js:216-231 | A missing email gives 400 and an unknown one gives 404 "Admin not found". |
| AdminAuth.AdminReissueOtp | src/controller/admin/adminAuth.controller.js:216-252 | It stores a new OTP on that admin only. The reply is 200 or, on a failed send, 500. |
| AdminAuth.ForgotAdminPassword | src/controller/admin/adminAuth.controller.js:216-252 | It reissues the OTP with the forgot-password message. |
| AdminAuth.ResendAdminOtp | src/controller/admin/adminAuth.controller.js:342-374 | It reissues the OTP with the resend message. |
| AdminAuth.VerifyAdminOtpCheck | src/controller/admin/adminAuth.controller.js:255-282 | The errors come in order: 400, 404, expired, invalid. It succeeds exactly for a matching, unexpired OTP. |
| AdminAuth.VerifyAdminOtp | src/controller/admin/adminAuth.controller.js:255-301 | On success it only spends that admin's OTP. |
| AdminAuth.UnrequestedAdminOtpIsInvalid | src/controller/admin/adminAuth.controller.js:265-282 | An admin that never requested an OTP is answered "Invalid OTP", never "expired". |
| AdminAuth.ResetAdminCheck | src/controller/admin/adminAuth.controller.js:304-321 | A missing field gives 400 and an unknown email gives 404. |
| AdminAuth.ResetAdminPassword | src/controller/admin/adminAuth.controller.js:304-339 | It sets the new password on that admin only and leaves its OTP in place. |
| AdminAuth.ResetLeavesOtpUsable | src/controller/admin/adminAuth.controller.js:304-339 | An OTP that verified before a reset still verifies after it. |
| AdminAuth.RefreshAdminToken | src/controller/admin/adminAuth.controller.js:163-213 | Same contract as the user refresh, over admins. |
| AdminAuth.GetCurrentAdmin | src/controller/admin/adminAuth.controller.js:131-149 | 200 exactly for an existing admin, otherwise 404 "Admin not found". |
| AdminAuth.LogoutAdmin | src/controller/admin/adminAuth.controller.js:152-160 | Always 200 with no data. |
| NamedCategories.ByName | src/controller/doctor/doctorCategory.controller.js:18 | The position found has the name. None is returned exactly when no category has it. |
| NamedCategories.CreateCategoryCheck | src/controller/doctor/doctorCategory.controller.js:7-43 | A missing name gives 400. An existing name gives 409 exactly when it is taken. The stored category has the name, isActive true only when sent as true, and the controller's description default. The same holds in jobCategory.controller.js:7-43 and healthCategory.controller.js:8-44. |
| NamedCategories.CreateKeepsNamesDistinct | src/controller/doctor/doctorCategory.controller.js:18-24 | An accepted create keeps category names distinct. |
| NamedCategories.CreateCategory | src/controller/doctor/doctorCategory.controller.js:7-43 | It appends the checked category and replies 201. Errors change nothing. |
| NamedCategories.AllCategories | src/controller/doctor/doctorCategory.controller.js:46-62 | Every category, sorted by name. |
| NamedCategories.ActiveCategories | src/controller/doctor/doctorCategory.controller.js:65-83 | Exactly the active categories, each as often as stored, sorted by name. |
| NamedCategories.CategoryById | src/controller/doctor/doctorCategory.controller.js:86-105 | 404 exactly for an unknown id, otherwise 200 with that category. |
| NamedCategories.UpdateCategoryCheck | src/controller/doctor/doctorCategory.controller.js:108-145 | An unknown id gives 404. A new name taken by another category gives 409. |
| NamedCategories.UpdateKeepsNamesDistinct | src/controller/doctor/doctorCategory.controller.js:108-145 | An accepted update keeps names distinct. |
| NamedCategories.UpdateCategory | src/controller/doctor/doctorCategory.controller.js:108-145 | It replaces that category with the truthy name and the defined description and isActive. |
| NamedCategories.DeleteCategory | src/controller/doctor/doctorCategory.controller.js:148-167 | 404 for an unknown id. Otherwise it removes exactly that row. The same holds for jobCategory.controller.js:148-165. |
| HealthCategories.DeleteCategoryCheck | src/controller/healthcare/healthCategory.controller.js:151-185 | A category some centre uses is refused with 400, before the existence check. An unknown one gives 404. |
| HealthCategories.DeleteKeepsCategoriesExist | src/controller/healthcare/healthCategory.controller.js:151-185 | A permitted delete leaves every centre's category in existence. |
| HealthCategories.DeleteHealthCategory | src/controller/healthcare/healthCategory.controller.js:151-185 | It removes the category exactly when the check permits. |
| Doctors.ByEmail | src/controller/doctor/doctor.controller.js:55 | The position found has the email. None is returned exactly when no doctor has it. |
| Doctors.SaveErrors | src/models/doctor/doctor.model.js:3-64 | There are no messages exactly when every required string path is non-empty. An empty email is reported. |
| Doctors.CreateDoctorCheck | src/controller/doctor/doctor.controller.js:8-91 | The errors come in order: 400 missing fields, 404 category, 409 email, the last exactly when it is taken. A new doctor is active only when sent true, and it passes save. |
| Doctors.CreateKeepsEmailsDistinct | src/controller/doctor/doctor.controller.js:54-63 | An accepted create keeps doctor emails distinct. |
| Doctors.CreateDoctor | src/controller/doctor/doctor.controller.js:8-91 | It appends the checked doctor and replies 201. Errors change nothing. |
| Doctors.PatchAllStoresLast | src/controller/doctor/doctor.controller.js:208-212 | After the forEach, email, category and isActive are the body's last values, or unchanged. |
| Doctors.ApplyPatches | src/controller/doctor/doctor.controller.js:208-212 | The loop computes PatchAll. |
| Doctors.UpdateDoctorCheck | src/controller/doctor/doctor.controller.js:173-223 | The errors come in order: 404 doctor, 404 category, 409 email taken by another doctor. |
| Doctors.UpdateKeepsEmailsDistinct | src/controller/doctor/doctor.controller.js:173-223 | A saved update keeps emails distinct. |
| Doctors.UpdateDoctor | src/controller/doctor/doctor.controller.js:173-223 | It replaces that doctor with the patched one, or reports save's validation error. |
| Doctors.DeleteDoctor | src/controller/doctor/doctor.controller.js:226-243 | 404 for an unknown id. Otherwise it removes exactly that row. |
| Doctors.AllDoctors | src/controller/doctor/doctor.controller.js:94-107 | A permutation of all doctors, sorted by name. |
| Doctors.DoctorById | src/controller/doctor/doctor.controller.js:127-147 | 404 with the not-found message exactly for an unknown id; otherwise 200 with that document. |
| Doctors.ActiveDoctors | src/controller/doctor/doctor.controller.js:110-124 | Exactly the active doctors, each as often as stored, sorted by name. |
| Doctors.DoctorsByCategory | src/controller/doctor/doctor.controller.js:150-170 | Exactly the active doctors of the category, each as often as stored, sorted by name. |
| Doctors.SearchDoctors | src/controller/doctor/doctor.controller.js:246-278 | Exactly the active doctors meeting every given criterion, each as often as stored, sorted by name. |
| HealthCares.AsList | src/controller/healthcare/healthCare.controller.js:68 | A single specialty becomes a one-element list, and a list is kept. |
| HealthCares.ByEmail | src/controller/healthcare/healthCare.controller.js:47 | Same as the doctors' lookup, over centres. |
| HealthCares.SaveErrors | src/models/health/healthCare.model.js:3-39 | There are no messages exactly when name, address, contact number and email are non-empty. |
| HealthCares.CreateCenterCheck | src/controller/healthcare/healthCare.controller.js:9-88 | The errors come in order: 400, 404 category, 409 email. Specialties are stored as a list, and the centre passes save. |
| HealthCares.CreateKeepsEmailsDistinct | src/controller/healthcare/healthCare.controller.js:46-58 | An accepted create keeps centre emails distinct. |
| HealthCares.CreateCenter | src/controller/healthcare/healthCare.controller.js:9-88 | It appends the checked centre and replies 201. |
| HealthCares.PatchAllStoresLast | src/controller/healthcare/healthCare.controller.js:231-239 | After the forEach, email, category and specialties (wrapped into a list) are the body's last values, or unchanged. |
| HealthCares.ApplyPatches | src/controller/healthcare/healthCare.controller.js:231-239 | The loop computes PatchAll. |
| HealthCares.UpdateCenterCheck | src/controller/healthcare/healthCare.controller.js:190-256 | The errors come in order: 404 centre, 404 category, 409 email. |
| HealthCares.UpdateKeepsEmailsDistinct | src/controller/healthcare/healthCare.controller.js:190-256 | A saved update keeps emails distinct. |
| HealthCares.UpdateCenter | src/controller/healthcare/healthCare.controller.js:190-256 | It replaces that centre with the patched one, or reports the validation error. |
| HealthCares.CreateKeepsCategoriesExist | src/controller/healthcare/healthCare.controller.js:38-44 | A created centre refers to an existing category. |
| HealthCares.UpdateKeepsCategoriesExist | src/controller/healthcare/healthCare.controller.js:202-210 | An updated centre still refers to an existing category. |
| HealthCares.DeleteCenter | src/controller/healthcare/healthCare.controller.js:259-278 | 404 for an unknown id. Otherwise it removes exactly that row. |
| HealthCares.AllCenters | src/controller/healthcare/healthCare.controller.js:91-110 | A permutation of all centres, sorted by name. |
| HealthCares.ActiveCenters | src/controller/healthcare/healthCare.controller.js:113-131 | Exactly the active centres, each as often as stored, sorted by name. |
| HealthCares.CenterById | src/controller/healthcare/healthCare.controller.js:134-161 | 404 with the not-found message exactly for an unknown id; otherwise 200 with that document. |
| HealthCares.CentersByCategory | src/controller/healthcare/healthCare.controller.js:164-187 | Exactly the active centres of the category, each as often as stored, sorted by name. |
| HealthCares.SearchCenters | src/controller/healthcare/healthCare.controller.js:281-319 | An unparsable pincode is a cast error. Otherwise the result is exactly the active centres meeting every criterion, each as often as stored, sorted by name. |
| HealthCares.CentersByPincode | src/controller/healthcare/healthCare.controller.js:322-345 | An unparsable pincode gives 400. Otherwise the result is exactly the active centres with that pincode. |
| BookingModel.ParseStatus | src/controller/booking/booking.controller.js:212-214 | A status is recognised exactly when it is one of the four names, and it is the one it names. |
| BookingModel.ParseKind | src/models/appointment/booking.model.js:20-24 | A booking type is recognised exactly when it is "Doctor" or "HealthcareCenter". |
| BookingModel.DraftErrors | src/models/appointment/booking.model.js:3-41 | There are no messages exactly when Mongoose's cast reads the date, the type is in the enumeration and the required paths are present. |
| BookingModel.SaveBooking | src/models/appointment/booking.model.js:3-41 | Save succeeds exactly when there are no draft errors, and the stored booking has the draft's values, its date being the cast of the text. Otherwise the result is a validation error with those messages, including the enum message. |
| BookingController.CreateBookingCheck | src/controller/booking/booking.controller.js:11-123 | The errors come in order: 400 fields, 400 missing target, 404 user, 404 or 400 target missing or inactive, 400 date not in the future. A draft is pending and for the requester. |
| BookingController.BookingToStore | src/controller/booking/booking.controller.js:11-123 | A stored booking is pending, belongs to the requester and names exactly the one active target its type asks for. Its date is Mongoose's cast of the text, and it lies strictly in the future whenever `new Date` reads the text the same way. An unknown type is refused by save with 400. |
| BookingController.PastDateThroughCast | src/controller/booking/booking.controller.js:87-108 | When `new Date` cannot read the date text but the cast reads it as an instant not after now, every other check passing, the booking is stored with a date in the past. |
| BookingController.CreateBooking | src/controller/booking/booking.controller.js:11-123 | It appends exactly the booking to store, or replies with its error. |
| BookingController.UpdateStatusCheck | src/controller/booking/booking.controller.js:206-245 | A missing or unknown status gives 400 and an unknown id gives 404. Otherwise the result is the position and the parsed status. |
| BookingController.UpdateBookingStatus | src/controller/booking/booking.controller.js:206-245 | It sets that booking's status, whatever the current one. |
| BookingController.AlreadyMessages | src/controller/booking/booking.controller.js:260-269 | The refusals read "Booking is already completed" and "Booking is already cancelled". |
| BookingController.CancelCheck | src/controller/booking/booking.controller.js:248-288 | An unknown id gives 404. A completed or cancelled booking gives 400. Otherwise the result is the position. |
| BookingController.CancelBooking | src/controller/booking/booking.controller.js:248-288 | It sets that booking to Cancelled exactly when the check passes. |
| BookingController.CancelIsFinalOnlyForCancel | src/controller/booking/booking.controller.js:206-288 | After a cancel, a second cancel is refused, while a status update may still move the booking to any status. |
| BookingController.AllBookings | src/controller/booking/booking.controller.js:126-148 | Exactly the bookings matching the truthy filters, each as often as stored, newest first. |
| BookingController.UserBookings | src/controller/booking/booking.controller.js:151-172 | Exactly the bookings with the status filter, each as often as stored, newest first. They are not limited to the requester. |
| BookingController.BookingById | src/controller/booking/booking.controller.js:175-203 | 404 with the not-found message exactly for an unknown id; otherwise 200 with that document. |
| BookingController.Appointments | src/controller/booking/booking.controller.js:291-363 | An uncastable date gives a cast error. Otherwise the result is exactly the target's bookings in the day window and status, each as often as stored, earliest first. |
| BookingController.DoctorAppointments | src/controller/booking/booking.controller.js:291-324 | Only that doctor's bookings. |
| BookingController.CenterAppointments | src/controller/booking/booking.controller.js:327-363 | Only that centre's bookings. |
| BookingController.StatusGroups | src/controller/booking/booking.controller.js:368-375 | There is one group per status that occurs, with its positive count. |
| BookingController.BookingStats | src/controller/booking/booking.controller.js:366-408 | total is the number of bookings, today counts the local day's appointments, and byStatus maps exactly the occurring statuses to their counts. |
| BookingController.StatusCountsPartition | src/controller/booking/booking.controller.js:366-408 | The four status counts add up to the number of bookings. |
| BookingController.ByStatusSumsToTotal | src/controller/booking/booking.controller.js:366-408 | The byStatus counts add up to total. |
| Paging.CeilDiv | src/controller/blog/blog.controller.js:100 | The result is Math.ceil(n / d): the least q with q*d >= n. It is zero exactly for n = 0. |
| Paging.PageOf | src/controller/blog/blog.controller.js:90-91 | The $skip/$limit slice holds at most limit items. |
| Paging.PageNonEmpty | src/controller/blog/blog.controller.js:90-100 | A page has items exactly when its number is at most totalPages. |
| Paging.NextPageNonEmpty | src/controller/blog/blog.controller.js:90-102 | Page p+1 has items exactly when p*limit < total, the hasNext test. |
| Paging.PagesArePrefix | src/controller/blog/blog.controller.js:90-91 | Pages 1..n together are the first n*limit items. |
| Paging.AllPagesCoverAll | src/controller/blog/blog.controller.js:90-100 | Pages 1..totalPages together are the whole listing. |
| Blogs.SaveErrors | src/models/blog/blog.model.js:3-39 | There are no messages exactly when title, slug, content and image are non-empty and type is Guide or News. |
| Blogs.CreateBlogCheck | src/controller/blog/blog.controller.js:8-52 | A missing field gives 400. A slug taken by slugify(title) gives 409 exactly when it is taken. Tags default to []. isPublished is true only when sent true, and publishedAt is set to now exactly when published. |
| Blogs.CreateKeepsSlugsDistinct | src/controller/blog/blog.controller.js:19-31 | An accepted create keeps slugs distinct. |
| Blogs.CreateKeepsStamped | src/controller/blog/blog.controller.js:33-42 | Every published blog keeps a publishedAt. |
| Blogs.CreateBlog | src/controller/blog/blog.controller.js:8-52 | It appends the checked blog and replies 201, or reports save's validation error. |
| Blogs.UpdateBlogCheck | src/controller/blog/blog.controller.js:222-246 | An unknown id gives 404. A changed title recomputes the slug, and it must not belong to another blog (409). Otherwise the slug is kept. |
| Blogs.UpdatedBlog | src/controller/blog/blog.controller.js:248-261 | publishedAt is never cleared or moved. It changes only to now on publishing. Stamped is preserved. isPublished follows the body when given. |
| Blogs.AssignFields | src/controller/blog/blog.controller.js:248-261 | The step-by-step assignments compute UpdatedBlog. |
| Blogs.UpdateKeepsSlugsDistinct | src/controller/blog/blog.controller.js:232-261 | An accepted update keeps slugs distinct. |
| Blogs.UpdateKeepsStamped | src/controller/blog/blog.controller.js:253-259 | An update keeps every published blog stamped. |
| Blogs.UpdateBlog | src/controller/blog/blog.controller.js:222-271 | It replaces that blog with UpdatedBlog, or reports the error. |
| Blogs.DeleteBlog | src/controller/blog/blog.controller.js:274-289 | 404 for an unknown id. Otherwise it removes exactly that row. |
| Blogs.ShowBlog | src/controller/blog/blog.controller.js:168-192 | 404 when absent. 403 exactly for an unpublished blog and a non-admin viewer. 200 otherwise. |
| Blogs.BlogById | src/controller/blog/blog.controller.js:168-192 | 404 exactly for an unknown id. A 200 carries that blog. |
| Blogs.BlogBySlug | src/controller/blog/blog.controller.js:195-219 | 404 exactly when no blog has the slug. A 200 carries a blog with that slug. |
| Blogs.PublicRoutesNeverShowDrafts | src/routes/blog/blog.routes.js:19-25 | With no authenticated viewer, the read routes only ever answer 200 with a published blog. |
| Blogs.PagedBlogs | src/controller/blog/blog.controller.js:81-104 | A page or limit below 1, or unparsable, gives 500. Otherwise the page is the right slice of the sorted matches, with at most limit items. totalBlogs is the match count, totalPages is its ceiling division, hasNext holds iff page*limit < total, and hasPrev holds iff page > 1. |
| Blogs.PageOfSorted | src/controller/blog/blog.controller.js:89-91 | A page of a sorted listing is sorted and holds only listing members. |
| Blogs.HasNextIffNextPageHasBlogs | src/controller/blog/blog.controller.js:90-102 | hasNext on page p holds exactly when page p+1 lists some blog. |
| Blogs.PagesListEveryMatch | src/controller/blog/blog.controller.js:89-100 | Pages 1..totalPages together list every match exactly once, in order. |
| Blogs.AllBlogs | src/controller/blog/blog.controller.js:56-113 | publishedOnly "true" or "false" filters on isPublished. Any other value filters only by type and tag. |
| Blogs.PublishedBlogs | src/controller/blog/blog.controller.js:115-165 | Only published blogs matching type and tag. |
| Blogs.SearchBlogs | src/controller/blog/blog.controller.js:310-364 | Only published blogs whose title, content or a tag contains the query ignoring case, and that match type and tag. |
| Blogs.PublishedListingIsDated | src/controller/blog/blog.controller.js:115-165 | When every published blog is stamped, every blog listed as published has a publishedAt. |
| Jobs.SaveErrors | src/models/job/job.model.js:3-47 | There are no messages exactly when the required strings are present and the employment type is in the enumeration. A value outside it gives the enum message. |
| Jobs.CreateJobCheck | src/controller/job/job.controller.js:8-66 | A missing field (0 counts as missing) gives 400 and an unknown category gives 404. There is no uniqueness check. A new job is active. |
| Jobs.CreateKeepsCategoriesExist | src/controller/job/job.controller.js:37-43 | A created job refers to an existing category. |
| Jobs.CreateJob | src/controller/job/job.controller.js:8-66 | It appends the checked job and replies 201, or reports the validation error. |
| Jobs.PatchAllStoresLastCategory | src/controller/job/job.controller.js:141-146 | After the forEach, the category is the body's last one, or unchanged. |
| Jobs.ApplyPatches | src/controller/job/job.controller.js:141-146 | The loop computes PatchAll. |
| Jobs.UpdateJobCheck | src/controller/job/job.controller.js:121-157 | An unknown job gives 404 and then a new unknown category gives 404. It succeeds exactly otherwise. |
| Jobs.UpdateKeepsCategoriesExist | src/controller/job/job.controller.js:121-157 | An updated job still refers to an existing category. |
| Jobs.UpdateJob | src/controller/job/job.controller.js:121-157 | It replaces that job with the patched one, or reports the validation error. |
| Jobs.DeleteJob | src/controller/job/job.controller.js:160-175 | 404 for an unknown id. Otherwise it removes exactly that row. |
| Jobs.AllJobs | src/controller/job/job.controller.js:69-81 | A permutation of all jobs, sorted by title. |
| Jobs.JobById | src/controller/job/job.controller.js:84-99 | 404 exactly for an unknown id. |
| Jobs.JobsByCategory | src/controller/job/job.controller.js:102-118 | Exactly the jobs of the category, active or not, each as often as stored, sorted by title. |
| Jobs.SearchJobs | src/controller/job/job.controller.js:178-213 | Exactly the jobs meeting every given criterion, with no active filter, each as often as stored, sorted by title. |
| Jobs.SearchWithoutCriteriaListsAll | src/controller/job/job.controller.js:178-213 | A search with no criteria lists every job. |
| JobApplications.ApplyCheck | src/controller/job/jobApplication.controller.js:8-79 | The errors come in order: 400, 404 job, 409 exactly when the job and email pair exists. A new application belongs to the requester, is Pending and is dated now. |
| JobApplications.ApplyKeepsPairsDistinct | src/controller/job/jobApplication.controller.js:42-53 | Job and email pairs stay distinct. |
| JobApplications.ApplyingTwiceIsRefused | src/controller/job/jobApplication.controller.js:42-53 | The same body applied again, by anyone at any time, gives 409. |
| JobApplications.ApplyForJob | src/controller/job/jobApplication.controller.js:8-79 | It appends the checked application and replies 201. Errors change nothing. |
| JobApplications.JobApplicationsOf | src/controller/job/jobApplication.controller.js:82-102 | Exactly that job's applications, newest first. |
| JobApplications.AllApplications | src/controller/job/jobApplication.controller.js:105-125 | A permutation of every application, newest first, for every user. |
| JobApplications.ApplicationById | src/controller/job/jobApplication.controller.js:128-151 | 404 exactly for an unknown id. |
| JobApplications.DeleteApplication | src/controller/job/jobApplication.controller.js:154-174 | 404 for an unknown id. Otherwise it removes that row, and the id is gone. |
| CourseCategories.SaveErrors | src/models/course/courseCategory.model.js:3-15 | There are no messages exactly when the name is non-empty. |
| CourseCategories.CreateCourseCategoryCheck | src/controller/course/courseCategory.controller.js:7-43 | A missing name gives 400. A name equal ignoring case to an existing one gives 409 exactly in that case. |
| CourseCategories.CreateKeepsNamesDistinct | src/controller/course/courseCategory.controller.js:7-43 | Names stay distinct ignoring case. |
| CourseCategories.CreateCourseCategory | src/controller/course/courseCategory.controller.js:7-43 | It appends the checked category and replies 201. |
| CourseCategories.AllCourseCategories | src/controller/course/courseCategory.controller.js:46-65 | Sorted by name. Without a filter it is a permutation of all. With one, exactly the categories whose isActive equals (value == "true"). |
| CourseCategories.ActiveCourseCategories | src/controller/course/courseCategory.controller.js:68-86 | Exactly the active categories, each as often as stored, sorted by name. |
| CourseCategories.CourseCategoryById | src/controller/course/courseCategory.controller.js:89-107 | 404 exactly for an unknown id. |
| CourseCategories.UpdateCourseCategoryCheck | src/controller/course/courseCategory.controller.js:110-148 | An unknown id gives 404. A new name equal ignoring case to another category's gives 409. |
| CourseCategories.UpdatedCategory | src/controller/course/courseCategory.controller.js:135-138 | An empty body changes nothing. A field changes only to the body's value. |
| CourseCategories.UpdateKeepsNamesDistinct | src/controller/course/courseCategory.controller.js:110-148 | A saved update keeps names distinct ignoring case. |
| CourseCategories.UpdateCourseCategory | src/controller/course/courseCategory.controller.js:110-148 | It replaces that category with UpdatedCategory, or reports the validation error. |
| CourseCategories.DeleteCourseCategory | src/controller/course/courseCategory.controller.js:151-170 | 404 for an unknown id. Otherwise it removes exactly that row. |
| CourseCategories.ToggleCourseCategory | src/controller/course/courseCategory.controller.js:173-201 | It flips that category's isActive, and the message names the new state. |
| Courses.SaveErrors | src/models/course/course.model.js:3-33 | There are no messages exactly when title, description and instructor are non-empty. |
| Courses.CreateCourseCheck | src/controller/course/course.controller.js:8-74 | A missing field, or price or duration 0, gives 400. An unknown category gives 404. A title equal ignoring case to an existing one gives 409. |
| Courses.CreateKeepsTitlesDistinct | src/controller/course/course.controller.js:8-74 | Titles stay distinct ignoring case. |
| Courses.CreateCourse | src/controller/course/course.controller.js:8-74 | It appends the checked course and replies 201, or reports the validation error. |
| Courses.AllCourses | src/controller/course/course.controller.js:77-100 | Exactly the courses matching the filters, each as often as stored and in stored order. Any isActive value other than "true" lists only inactive courses. |
| Courses.CourseById | src/controller/course/course.controller.js:103-124 | 404 exactly for an unknown id. |
| Courses.UpdateCourseCheck | src/controller/course/course.controller.js:127-190 | The errors come in order: 404 course, 404 category, 409 a new title like another course's. |
| Courses.UpdatedCourse | src/controller/course/course.controller.js:172-179 | An empty body changes nothing. Each field changes only to the body's value. |
| Courses.AssignFields | src/controller/course/course.controller.js:172-179 | The step-by-step assignments compute UpdatedCourse. |
| Courses.UpdateKeepsTitlesDistinct | src/controller/course/course.controller.js:127-190 | A saved update keeps titles distinct ignoring case. |
| Courses.UpdateCourse | src/controller/course/course.controller.js:127-190 | It replaces that course with UpdatedCourse, or reports the error. |
| Courses.DeleteCourse | src/controller/course/course.controller.js:193-212 | 404 for an unknown id. Otherwise it removes exactly that row. |
| Courses.ToggleCourse | src/controller/course/course.controller.js:215-241 | It flips that course's isActive, and the message names the new state. |
| Courses.ToggleTwice | src/controller/course/course.controller.js:215-241 | Toggling twice restores every course, and the two messages differ. |
| CourseRegistrations.SaveErrors | src/models/course/courseRegistration.model.js:3-18 | There are no messages exactly when the description is non-empty. |
| CourseRegistrations.RegisterCheck | src/controller/course/courseRegistration.controller.js:10-79 | The errors come in order: 400 course or description missing, 404 course, 404 user, 409 exactly when the user is already registered for the course. A new registration is the requester's and passes save. |
| CourseRegistrations.RegisterKeepsPairsDistinct | src/controller/course/courseRegistration.controller.js:39-54 | Course and student pairs stay distinct. |
| CourseRegistrations.RegisteringTwiceIsRefused | src/controller/course/courseRegistration.controller.js:39-54 | Registering again for the same course, with any description, gives 409. |
| CourseRegistrations.Register | src/controller/course/courseRegistration.controller.js:10-79 | It appends the checked registration and replies 201. Errors change nothing. |
| CourseRegistrations.AllRegistrations | src/controller/course/courseRegistration.controller.js:82-111 | Exactly the registrations matching the given course and student, each as often as stored and in stored order. |
| CourseRegistrations.RegistrationById | src/controller/course/courseRegistration.controller.js:114-140 | 404 exactly for an unknown id, for any authenticated caller. |
| CourseRegistrations.UserRegistrations | src/controller/course/courseRegistration.controller.js:143-163 | Exactly the requester's registrations, each as often as stored and in stored order. |
| CourseRegistrations.RegistrationsOfCourse | src/controller/course/courseRegistration.controller.js:220-248 | 404 exactly for an unknown course. Otherwise exactly that course's registrations, each as often as stored and in stored order. |
| CourseRegistrations.UpdatedRegistration | src/controller/course/courseRegistration.controller.js:178-181 | Course and student never change. An absent description changes nothing. |
| CourseRegistrations.UpdateKeepsPairsDistinct | src/controller/course/courseRegistration.controller.js:166-195 | An update keeps pairs distinct. |
| CourseRegistrations.UpdateRegistration | src/controller/course/courseRegistration.controller.js:166-195 | 404 for an unknown id. An empty description is save's 400. Otherwise it replaces that registration. |
| CourseRegistrations.DeleteRegistration | src/controller/course/courseRegistration.controller.js:198-217 | 404 for an unknown id. Otherwise it removes that row, and the id is gone. |
| Sorting.SortBy | src/controller/doctor/doctor.controller.js:98 | `.sort`: the result is sorted by the key and is a permutation of the input. |
| Sorting.SortByStable | src/controller/doctor/doctor.controller.js:98 | The sort is stable: the documents sharing a key come out in their stored order. |
| Sorting.SortByOneKey | src/controller/course/course.controller.js:91 | A sort on a key every document shares, such as a `createdAt` the schema does not keep, leaves the listing as stored. |
| Table.Where | src/controller/course/courseRegistration.controller.js:94-97 | `find(query)`: every matching document, as often as stored and in stored order, and no other. |
| Table.FilterIsWhere | src/controller/course/courseRegistration.controller.js:94-97 | Any sequence holding, in stored order, every matching document as often as stored and no other, is the result of `find`. |

## Left out

- getBlogTags (the `$unwind`/`$group` tag count, src/controller/blog/blog.controller.js:292-307) is not modelled.
- Ids are natural numbers, so the CastError raised by a malformed ObjectId in a path parameter does not arise.
- `$regex` patterns come in two forms. The unanchored search patterns are modelled as case-insensitive substring tests. The anchored `new RegExp(`^${name}$`, "i")` duplicate checks (src/controller/course/courseCategory.controller.js:20, :125; src/controller/course/course.controller.js:44, :160) are modelled as equality ignoring case. In both forms, regular-expression metacharacters in the text are not interpreted. A name such as "C++" makes `new RegExp` throw, and the handler's catch block then answers 500 where the model answers 409 or 201.
- `errorHandler` (src/middleware/error.middleware.js) is registered at src/app.js:18, before every router (src/app.js:38-50), and nowhere after them. So Express never hands it an error a route or middleware throws; such errors go to Express's own default handler, which is not part of this model. The middlewares are modelled up to what they throw. `ErrorMiddleware.ErrorHandler` models the middleware on its own, as it would answer if it were registered after the routes.
- Case folding is ASCII only (A–Z). Unicode case folding is not modelled.
- Time zones: the local calendar day used by the booking statistics and the appointment windows is a parameter (`dayStart`, `nextDay`).
- The database's order among equal sort keys is stored order here (Sorting.SortByStable); MongoDB itself does not promise an order for ties.
- `populate` is not modelled: replies carry the stored ids, not the joined documents. It has a further effect the model does not capture. The references to "HealthCare" and "Course" name no registered model (see above), so the source as written very likely answers 500 "Internal server error" where the model answers 200 or 201.
  - After the write has already happened: createBooking (src/controller/booking/booking.controller.js:108-115), updateBookingStatus (:229-235) and cancelBooking (:274-280), modelled by BookingController.CreateBooking, UpdateBookingStatus and CancelBooking; createCourseRegistration (src/controller/course/courseRegistration.controller.js:63-64) and updateCourseRegistration (:183-184), modelled by CourseRegistrations.Register and UpdateRegistration.
  - On a non-empty result, at least for bookings that name a centre and for every registration: getAllBookings (:134-139), getUserBookings (:158-163), getBookingById (:179-189) and getHealthcareAppointments (:344-348), modelled by BookingController.AllBookings, UserBookings, BookingById and CenterAppointments; getAllCourseRegistrations (:94-97), getCourseRegistrationById (:118-120) and getUserCourseRegistrations (:147-149), modelled by CourseRegistrations.AllRegistrations, RegistrationById and UserRegistrations.
- `updatedAt` and the `createdAt` of collections with timestamps are only modelled where a listing sorts on them.
- Collections without timestamps (courses, blogs, course registrations) have no `createdAt`, so a sort on it keeps stored order (Sorting.SortByOneKey); those listings are modelled without the sort.
- The user and admin models, `ApiResponse`, the token utilities, `generateOTP` and `comparePassword` are not part of this model. Their defaults are assumed: a new user is unverified and active; an admin's status defaults to "active", and a new admin has no `otp` and no `otpExpiry` (the schema is assumed to give them no default).
- Validation of array elements (doctor availability days, specialty strings) is not modelled.
- An update body holding `null` for a field, or keys the schema does not know, is not modelled. Each update body is a list of known keys with values.
- Numeric casts of body values (a price sent as text) are not modelled. Numbers arrive as integers.
- JavaScript floating-point numbers: prices, durations, experience, vacancies and pincodes are integers.
- Concurrency between requests (two creates racing past a uniqueness check) is not modelled. Each handler runs alone against the collections.
- Console logging is left out.
- A booking date sent as a JSON number rather than as text is not modelled; a date value is a text with its two readings, `new Date(text)` and Mongoose's cast, given as data rather than computed.
- E-mail delivery is a parameter `mailSent`, and OTP values and clocks are parameters.
- `slugify` is a parameter function: its lower-casing and character stripping are not modelled.
- Blogs.ShowBlog: the admin branch of getBlogById and getBlogBySlug is modelled, but the routes mount no authentication middleware. So the model states separately, in Blogs.PublicRoutesNeverShowDrafts, that no viewer is ever attached there.
