/**
 * backend/controllers/authController.js: registration, OTP login, logout,
 * admin deletion, profile update and the AI-backed quiz endpoints, as
 * operations on the `User` and `Otp` collections.
 *
 * The collections are maps inside a `Store`: users by id, OTP entries by
 * email. The clock, the random draw behind the OTP code, the outcome of
 * sending the email and the results of the AI calls are parameters.
 */
module AuthController {
  import opened Js
  import opened UserSchema
  import Ai

  /** An `Otp` document: the code and the time (in ms) it expires at. */
  datatype OtpEntry = OtpEntry(code: string, expiresAt: int)

  /** Five minutes, in milliseconds. */
  const OtpLifetime: int := 5 * 60 * 1000

  /**
   * An HTTP status with the `message` of its JSON body; a 200 that carries
   * data (`{ quiz }`, `{ career_titles }`, `{ career_details }`) names the key
   * holding it instead.
   */
  datatype Response = Response(status: int, message: string)

  const ServerError: Response := Response(500, "Server error")

  // ---------------------------------------------------------------------------
  // generateOtp

  function Pow10(k: nat): nat {
    if k == 0 then 1 else 10 * Pow10(k - 1)
  }

  lemma {:induction false} DecimalDigitsLength(n: nat, k: nat)
    requires 1 <= k && Pow10(k - 1) <= n < Pow10(k)
    ensures |DecimalDigits(n)| == k
    decreases k
  {
    if k > 1 {
      assert Pow10(k - 1) == 10 * Pow10(k - 2);
      assert Pow10(k) == 10 * Pow10(k - 1);
      assert Pow10(k - 2) >= 1 by { Pow10Positive(k - 2); }
      DecimalDigitsLength(n / 10, k - 1);
    }
  }

  lemma {:induction false} Pow10Positive(k: nat)
    ensures Pow10(k) >= 1
    decreases k
  {
    if k > 0 {
      Pow10Positive(k - 1);
    }
  }

  /**
   * `generateOtp`: `Math.floor(100000 + Math.random() * 900000).toString()`,
   * the random number being an integer draw in [0, 900000). The code is six
   * decimal digits, the first of them not zero.
   */
  function OtpCode(draw: nat): (code: string)
    requires draw < 900000
    ensures |code| == 6 && AllDigits(code) && code[0] != '0'
    ensures DecimalValue(code) == 100000 + draw
  {
    assert Pow10(5) == 100000 && Pow10(6) == 1000000 by {
      assert Pow10(1) == 10 && Pow10(2) == 100 && Pow10(3) == 1000 && Pow10(4) == 10000;
    }
    DecimalDigitsLength(100000 + draw, 6);
    DecimalDigits(100000 + draw)
  }

  // ---------------------------------------------------------------------------
  // updateProfile's `update` object

  /** The fields `updateProfile` takes from the request body; `None` is `undefined`. */
  datatype ProfileFields = ProfileFields(
    age: Option<int>,
    gender: Option<string>,
    academicInterests: Option<seq<string>>,
    name: Option<string>,
    dob: Option<string>,
    qualification: Option<string>,
    specialization: Option<string>,
    state: Option<string>,
    district: Option<string>)

  /**
   * The effect the handler promises on a user record: `age` is taken
   * whenever it is not `undefined` (0 too); `academic_interests` whenever
   * given (every array is truthy, the empty one too); each other listed
   * field only when it is a non-empty string; every other field is kept.
   */
  ghost predicate ProfileUpdated(before: User, after: User, body: ProfileFields) {
    && after.age == (if body.age.Some? then body.age else before.age)
    && after.gender == (if Given(body.gender) then body.gender else before.gender)
    && after.academicInterests == (if body.academicInterests.Some? then body.academicInterests.value else before.academicInterests)
    && after.name == (if Given(body.name) then body.name.value else before.name)
    && after.dob == (if Given(body.dob) then body.dob.value else before.dob)
    && after.qualification == (if Given(body.qualification) then body.qualification.value else before.qualification)
    && after.specialization == (if Given(body.specialization) then body.specialization else before.specialization)
    && after.state == (if Given(body.state) then body.state.value else before.state)
    && after.district == (if Given(body.district) then body.district.value else before.district)
    && after.email == before.email
    && after.createdAt == before.createdAt
    && after.isLoggedIn == before.isLoggedIn
  }

  /** `findByIdAndUpdate(id, update)`: each key set in `update` overwrites that field. */
  function ApplyUpdate(u: User, update: ProfileFields): User {
    u.(
      age := if update.age.Some? then update.age else u.age,
      gender := if update.gender.Some? then update.gender else u.gender,
      academicInterests := if update.academicInterests.Some? then update.academicInterests.value else u.academicInterests,
      name := if update.name.Some? then update.name.value else u.name,
      dob := if update.dob.Some? then update.dob.value else u.dob,
      qualification := if update.qualification.Some? then update.qualification.value else u.qualification,
      specialization := if update.specialization.Some? then update.specialization else u.specialization,
      state := if update.state.Some? then update.state.value else u.state,
      district := if update.district.Some? then update.district.value else u.district)
  }

  /** `if (field) update.field = field`: a field of the body reaches the update only when it is a non-empty string. */
  function KeepGiven(field: Option<string>): Option<string> {
    if Given(field) then field else None
  }

  /** The `update` object `updateProfile` builds from `body`: `age` and `academic_interests` when defined, the other fields when non-empty. */
  predicate BuiltFrom(update: ProfileFields, body: ProfileFields) {
    && update.age == body.age
    && update.academicInterests == body.academicInterests
    && update.gender == KeepGiven(body.gender)
    && update.name == KeepGiven(body.name)
    && update.dob == KeepGiven(body.dob)
    && update.qualification == KeepGiven(body.qualification)
    && update.specialization == KeepGiven(body.specialization)
    && update.state == KeepGiven(body.state)
    && update.district == KeepGiven(body.district)
  }

  /** `updateProfile`'s `update` object, built one key at a time. */
  method BuildUpdate(body: ProfileFields) returns (update: ProfileFields)
    ensures BuiltFrom(update, body)
  {
    var age := if body.age.Some? then body.age else None;
    var gender := KeepGiven(body.gender);
    var academicInterests := if body.academicInterests.Some? then body.academicInterests else None;
    var name := KeepGiven(body.name);
    var dob := KeepGiven(body.dob);
    var qualification := KeepGiven(body.qualification);
    var specialization := KeepGiven(body.specialization);
    var state := KeepGiven(body.state);
    var district := KeepGiven(body.district);
    update := ProfileFields(age, gender, academicInterests, name, dob, qualification, specialization, state, district);
  }

  /** Applied to any user, the update built from a body performs the promised profile update. */
  lemma BuiltUpdateUpdatesProfile(u: User, update: ProfileFields, body: ProfileFields)
    requires BuiltFrom(update, body)
    ensures ProfileUpdated(u, ApplyUpdate(u, update), body)
  {
  }

  /** The OTP in `otps` for `email` exists and carries `code`. */
  predicate OtpMatches(otps: map<string, OtpEntry>, email: string, code: string) {
    email in otps && otps[email].code == code
  }

  /** `register`'s 400 for a 12th-pass student without a specialization. */
  predicate MissingSpecialization(f: Registration) {
    f.qualification == Some("12") && !Given(f.specialization)
  }

  // ---------------------------------------------------------------------------
  // The collections and the handlers

  class Store {
    var users: map<UserId, User>
    var otps: map<string, OtpEntry>
    var nextId: UserId
    /** `process.env.ADMIN_PASSWORD`. */
    const adminPassword: Option<string>

    /** Ids are allocated below `nextId`, and no two users share an email. */
    ghost predicate Valid()
      reads this
    {
      && (forall id :: id in users ==> id < nextId)
      && EmailsUnique(users)
    }

    /** Every stored OTP belongs to a registered email. */
    ghost predicate OtpsOwned()
      reads this
    {
      forall e :: e in otps ==> HasEmail(users, e)
    }

    constructor (adminPassword: Option<string>)
      ensures Valid() && OtpsOwned()
      ensures users == map[] && otps == map[] && nextId == 0 && this.adminPassword == adminPassword
    {
      users := map[];
      otps := map[];
      nextId := 0;
      this.adminPassword := adminPassword;
    }

    /** `User.findOne({ email })`. */
    method FindByEmail(email: string) returns (id: Option<UserId>)
      requires Valid()
      ensures id.Some? ==> id.value in users && users[id.value].email == email
      ensures id.None? <==> !HasEmail(users, email)
    {
      if i :| i in users && users[i].email == email {
        id := Some(i);
      } else {
        id := None;
      }
    }

    /** The upsert shared by `register` and `login`: a fresh code, upserted as the email's only OTP, expiring in five minutes. */
    method IssueOtp(email: string, now: int, draw: nat)
      requires draw < 900000
      modifies this
      ensures otps == old(otps)[email := OtpEntry(OtpCode(draw), now + OtpLifetime)]
      ensures users == old(users) && nextId == old(nextId)
    {
      var code := OtpCode(draw);
      otps := otps[email := OtpEntry(code, now + OtpLifetime)];
    }

    /**
     * `register`: the checks come first and store nothing; a new user is
     * saved only if the schema accepts it, and then gets an OTP. A failure
     * to send the email is a 500 after both writes.
     */
    method Register(f: Registration, now: int, draw: nat, mailSent: bool) returns (r: Response)
      requires Valid()
      requires draw < 900000
      modifies this
      ensures Valid() && (old(OtpsOwned()) ==> OtpsOwned())
      ensures !RegistrationComplete(f) ==>
        r == Response(400, "All fields are required") && unchanged(this)
      ensures RegistrationComplete(f) && MissingSpecialization(f) ==>
        r == Response(400, "Specialization is required for 12th pass students") && unchanged(this)
      ensures RegistrationComplete(f) && !MissingSpecialization(f) && HasEmail(old(users), f.email.value) ==>
        r == Response(409, "User already exists, please login") && unchanged(this)
      ensures RegistrationComplete(f) && !MissingSpecialization(f) && !HasEmail(old(users), f.email.value) ==>
        if SchemaValid(NewUser(f, now)) then
          && users == old(users)[old(nextId) := NewUser(f, now)]
          && nextId == old(nextId) + 1
          && otps == old(otps)[f.email.value := OtpEntry(OtpCode(draw), now + OtpLifetime)]
          && r == (if mailSent then Response(200, "Registered successfully, OTP sent to email") else ServerError)
        else
          r == ServerError && unchanged(this)
    {
      if !RegistrationComplete(f) {
        return Response(400, "All fields are required");
      }
      if MissingSpecialization(f) {
        return Response(400, "Specialization is required for 12th pass students");
      }
      var email := f.email.value;
      var existing := FindByEmail(email);
      if existing.Some? {
        return Response(409, "User already exists, please login");
      }
      var user := NewUser(f, now);
      if !SchemaValid(user) {
        // user.save() fails validation
        return ServerError;
      }
      ghost var before := users;
      users := users[nextId := user];
      nextId := nextId + 1;
      assert HasEmail(users, email) by {
        assert users[nextId - 1].email == email;
      }
      forall x | HasEmail(before, x) ensures HasEmail(users, x) {
        var k :| k in before && before[k].email == x;
        assert k in users && users[k].email == x;
      }
      IssueOtp(email, now, draw);
      if !mailSent {
        return ServerError;
      }
      r := Response(200, "Registered successfully, OTP sent to email");
    }

    /** `login`: an OTP is issued only to a registered email. */
    method Login(email: Option<string>, now: int, draw: nat, mailSent: bool) returns (r: Response)
      requires Valid()
      requires draw < 900000
      modifies this
      ensures Valid() && (old(OtpsOwned()) ==> OtpsOwned())
      ensures !Given(email) ==> r == Response(400, "Email is required") && unchanged(this)
      ensures Given(email) && !HasEmail(old(users), email.value) ==>
        r == Response(404, "User not found, please register") && unchanged(this)
      ensures Given(email) && HasEmail(old(users), email.value) ==>
        && otps == old(otps)[email.value := OtpEntry(OtpCode(draw), now + OtpLifetime)]
        && users == old(users) && nextId == old(nextId)
        && r == (if mailSent then Response(200, "OTP sent to email") else ServerError)
    {
      if !Given(email) {
        return Response(400, "Email is required");
      }
      var id := FindByEmail(email.value);
      if id.None? {
        return Response(404, "User not found, please register");
      }
      IssueOtp(email.value, now, draw);
      if !mailSent {
        return ServerError;
      }
      r := Response(200, "OTP sent to email");
    }

    /**
     * `verifyOtp`: a missing or different code is "Invalid OTP" before
     * expiry is looked at; an expired code is refused; neither failure
     * touches the stored OTP. A valid code is consumed and logs the user in.
     */
    method VerifyOtp(email: Option<string>, otp: Option<string>, now: int) returns (r: Response)
      requires Valid()
      modifies this
      ensures Valid() && (old(OtpsOwned()) ==> OtpsOwned())
      ensures !Given(email) || !Given(otp) ==> r == Response(400, "Email and OTP required") && unchanged(this)
      ensures Given(email) && Given(otp) && !OtpMatches(old(otps), email.value, otp.value) ==>
        r == Response(400, "Invalid OTP") && unchanged(this)
      ensures Given(email) && Given(otp) && OtpMatches(old(otps), email.value, otp.value) && old(otps)[email.value].expiresAt < now ==>
        r == Response(400, "OTP expired") && unchanged(this)
      ensures Given(email) && Given(otp) && OtpMatches(old(otps), email.value, otp.value) && !(old(otps)[email.value].expiresAt < now) ==>
        && otps == old(otps) - {email.value}
        && nextId == old(nextId)
        && (HasEmail(old(users), email.value) ==> r == Response(200, "OTP verified"))
        && (!HasEmail(old(users), email.value) ==> r == Response(404, "User not found") && users == old(users))
        && (forall id :: id in old(users) && old(users)[id].email == email.value ==>
              users == old(users)[id := old(users)[id].(isLoggedIn := true)])
      ensures old(OtpsOwned()) ==> r.status != 404
    {
      if !Given(email) || !Given(otp) {
        return Response(400, "Email and OTP required");
      }
      var e := email.value;
      if !OtpMatches(otps, e, otp.value) {
        return Response(400, "Invalid OTP");
      }
      if otps[e].expiresAt < now {
        return Response(400, "OTP expired");
      }
      otps := otps - {e};
      var id := FindByEmail(e);
      if id.None? {
        return Response(404, "User not found");
      }
      var before := users;
      users := users[id.value := users[id.value].(isLoggedIn := true)];
      SameEmailsPreserve(before, users);
      r := Response(200, "OTP verified");
    }

    /** `logout`: clears the flag of the authenticated user, if the record still exists. */
    method Logout(userId: UserId) returns (r: Response)
      requires Valid()
      modifies this
      ensures Valid() && (old(OtpsOwned()) ==> OtpsOwned())
      ensures r == Response(200, "Logged out successfully")
      ensures otps == old(otps) && nextId == old(nextId)
      ensures users == if userId in old(users) then old(users)[userId := old(users)[userId].(isLoggedIn := false)] else old(users)
    {
      if userId in users {
        var before := users;
        users := users[userId := users[userId].(isLoggedIn := false)];
        SameEmailsPreserve(before, users);
      }
      r := Response(200, "Logged out successfully");
    }

    /** `dashboard`: reads the authenticated user's record back, `null` once it is gone; nothing changes. */
    method Dashboard(userId: UserId) returns (r: Response, user: Option<User>)
      requires Valid()
      ensures r.status == 200
      ensures user.Some? <==> userId in users
      ensures user.Some? ==> user.value == users[userId] && HasEmail(users, user.value.email)
    {
      if userId in users {
        user := Some(users[userId]);
      } else {
        user := None;
      }
      r := Response(200, "");
    }

    /**
     * `adminDeleteUser`: both fields are needed and the password must equal
     * the configured one exactly; the OTP is deleted only together with a
     * user.
     */
    method AdminDeleteUser(email: Option<string>, password: Option<string>) returns (r: Response)
      requires Valid()
      modifies this
      ensures Valid() && (old(OtpsOwned()) ==> OtpsOwned())
      ensures !Given(email) || !Given(password) ==>
        r == Response(400, "Email and adminPassword required") && unchanged(this)
      ensures Given(email) && Given(password) && adminPassword != password ==>
        r == Response(403, "Invalid admin password") && unchanged(this)
      ensures Given(email) && Given(password) && adminPassword == password && !HasEmail(old(users), email.value) ==>
        r == Response(404, "User not found") && unchanged(this)
      ensures Given(email) && Given(password) && adminPassword == password && HasEmail(old(users), email.value) ==>
        && r == Response(200, "User deleted successfully")
        && otps == old(otps) - {email.value}
        && nextId == old(nextId)
        && users.Keys <= old(users).Keys
        && (forall id :: id in old(users) ==> (id in users <==> old(users)[id].email != email.value))
        && (forall id :: id in users ==> users[id] == old(users)[id])
    {
      if !Given(email) || !Given(password) {
        return Response(400, "Email and adminPassword required");
      }
      if password != adminPassword {
        return Response(403, "Invalid admin password");
      }
      var e := email.value;
      var id := FindByEmail(e);
      if id.None? {
        return Response(404, "User not found");
      }
      ghost var before := users;
      users := users - {id.value};
      otps := otps - {e};
      assert forall k :: k in before && before[k].email == e ==> k == id.value;
      if old(OtpsOwned()) {
        forall x | x in otps ensures HasEmail(users, x) {
          var k :| k in before && before[k].email == x;
          assert k in users && users[k].email == x;
        }
      }
      r := Response(200, "User deleted successfully");
    }

    /** `updateProfile`: applies the update built field by field; a missing record stays missing. */
    method UpdateProfile(userId: Option<UserId>, body: ProfileFields) returns (r: Response)
      requires Valid()
      modifies this
      ensures Valid() && (old(OtpsOwned()) ==> OtpsOwned())
      ensures userId.None? ==> r == Response(401, "Unauthorized") && unchanged(this)
      ensures userId.Some? ==>
        && r == Response(200, "Profile updated")
        && otps == old(otps) && nextId == old(nextId)
        && users.Keys == old(users).Keys
        && (forall id :: id in users && id != userId.value ==> users[id] == old(users)[id])
        && (userId.value in users ==> ProfileUpdated(old(users)[userId.value], users[userId.value], body))
    {
      if userId.None? {
        return Response(401, "Unauthorized");
      }
      var update := BuildUpdate(body);
      var id := userId.value;
      if id in users {
        var before := users;
        BuiltUpdateUpdatesProfile(users[id], update, body);
        users := users[id := ApplyUpdate(users[id], update)];
        SameEmailsPreserve(before, users);
      }
      r := Response(200, "Profile updated");
    }

    /**
     * `getQuiz`: the quiz comes from the export `geminiGenerateQuiz`, which is
     * the OpenAI, Gemini, DeepSeek chain; a falsy result is a 503.
     */
    method GetQuiz(userId: Option<UserId>, net: (Ai.Provider, Ai.Prompt) -> Ai.Reply, parse: string -> Option<Json>)
      returns (r: Response, quiz: Json)
      ensures userId.None? ==> r == Response(401, "Unauthorized")
      ensures userId.Some? && userId.value !in users ==> r == Response(404, "User not found")
      ensures userId.Some? && userId.value in users ==>
        && (exists calls :: Ai.FallbackOutcome(Ai.QuizPrompt(users[userId.value].qualification), net, parse, quiz, calls))
        && (Truthy(quiz) ==> r == Response(200, "quiz"))
        && (!Truthy(quiz) ==> r == Response(503, "Failed to generate quiz. AI service may be unavailable."))
    {
      quiz := JNull;
      if userId.None? {
        return Response(401, "Unauthorized"), quiz;
      }
      if userId.value !in users {
        return Response(404, "User not found"), quiz;
      }
      var calls;
      quiz, calls := Ai.GenerateQuiz(users[userId.value].qualification, net, parse);
      if !Truthy(quiz) {
        return Response(503, "Failed to generate quiz. AI service may be unavailable."), quiz;
      }
      r := Response(200, "quiz");
    }

    /**
     * `submitQuiz`: after the `answers` check the answers are saved on the
     * user, then the career titles are asked for. `stored` is what Mongoose's
     * cast makes of the answers (`None`: a cast error); `titles` is the AI
     * call's result (`None`: the call throws, as calling the missing export
     * `getCareerTitles` does).
     */
    method SubmitQuiz(userId: Option<UserId>, answers: Option<Json>, stored: Option<seq<string>>, titles: Option<Json>)
      returns (r: Response)
      requires Valid()
      modifies this
      ensures Valid() && (old(OtpsOwned()) ==> OtpsOwned())
      ensures otps == old(otps) && nextId == old(nextId)
      ensures userId.None? ==> r == Response(401, "Unauthorized") && unchanged(this)
      ensures userId.Some? && (answers.None? || !answers.value.JArray?) ==>
        r == Response(400, "\"answers\" field is required and must be an array.") && unchanged(this)
      ensures userId.Some? && answers.Some? && answers.value.JArray? ==>
        if stored.None? || userId.value !in old(users) then
          r == ServerError && users == old(users)
        else
          && users == old(users)[userId.value := old(users)[userId.value].(academicInterests := stored.value)]
          && r == (if titles.None? then ServerError
                   else if Truthy(titles.value) then Response(200, "career_titles")
                   else Response(503, "Failed to get career suggestions. AI service may be unavailable."))
    {
      if userId.None? {
        return Response(401, "Unauthorized");
      }
      if answers.None? || !answers.value.JArray? {
        return Response(400, "\"answers\" field is required and must be an array.");
      }
      var id := userId.value;
      if stored.None? || id !in users {
        // the update's cast fails, or `user.qualification` reads through null
        return ServerError;
      }
      var before := users;
      users := users[id := users[id].(academicInterests := stored.value)];
      SameEmailsPreserve(before, users);
      if titles.None? {
        return ServerError;
      }
      if !Truthy(titles.value) {
        return Response(503, "Failed to get career suggestions. AI service may be unavailable.");
      }
      r := Response(200, "career_titles");
    }

    /**
     * `getCareerDetails`: `details` is the AI call's result (`None`: the call
     * throws, as calling the missing export `getCareerDetails` does).
     */
    method GetCareerDetails(userId: Option<UserId>, careerTitle: Option<string>, details: Option<Json>)
      returns (r: Response)
      ensures userId.None? ==> r == Response(401, "Unauthorized")
      ensures userId.Some? && userId.value !in users ==> r == Response(404, "User not found")
      ensures userId.Some? && userId.value in users && !Given(careerTitle) ==>
        r == Response(400, "\"career_title\" is required.")
      ensures userId.Some? && userId.value in users && Given(careerTitle) ==>
        r == (if details.None? then ServerError
              else if Truthy(details.value) then Response(200, "career_details")
              else Response(503, "Failed to get career details. AI service may be unavailable."))
    {
      if userId.None? {
        return Response(401, "Unauthorized");
      }
      if userId.value !in users {
        return Response(404, "User not found");
      }
      if !Given(careerTitle) {
        return Response(400, "\"career_title\" is required.");
      }
      if details.None? {
        return ServerError;
      }
      if !Truthy(details.value) {
        return Response(503, "Failed to get career details. AI service may be unavailable.");
      }
      r := Response(200, "career_details");
    }
  }

  /**
   * A client of the store: after a registration and a successful
   * verification, the same code is refused, because verification consumed it.
   */
  method OtpIsSingleUse(f: Registration, now: int, draw: nat) returns (first: Response, second: Response)
    requires RegistrationComplete(f) && !MissingSpecialization(f)
    requires SchemaValid(NewUser(f, now))
    requires draw < 900000
    ensures first == Response(200, "OTP verified")
    ensures second == Response(400, "Invalid OTP")
  {
    var store := new Store(None);
    var registered := store.Register(f, now, draw, true);
    first := store.VerifyOtp(f.email, Some(OtpCode(draw)), now);
    second := store.VerifyOtp(f.email, Some(OtpCode(draw)), now);
  }

  /**
   * A client of the store: the dashboard of a freshly verified user shows
   * them logged in, and after logout it shows them logged out.
   */
  method DashboardFollowsLogin(f: Registration, now: int, draw: nat) returns (before: Option<User>, after: Option<User>)
    requires RegistrationComplete(f) && !MissingSpecialization(f)
    requires SchemaValid(NewUser(f, now))
    requires draw < 900000
    ensures before.Some? && before.value.isLoggedIn
    ensures after.Some? && !after.value.isLoggedIn
    ensures after.value == before.value.(isLoggedIn := false)
  {
    var store := new Store(None);
    var registered := store.Register(f, now, draw, true);
    assert store.users == map[0 := NewUser(f, now)];
    var verified := store.VerifyOtp(f.email, Some(OtpCode(draw)), now);
    assert store.users == map[0 := NewUser(f, now).(isLoggedIn := true)];
    var shown;
    shown, before := store.Dashboard(0);
    var loggedOut := store.Logout(0);
    shown, after := store.Dashboard(0);
  }
}
