/**
 * backend/models/User.js: the user document, the constraints its schema
 * declares (required fields, enumerations, a unique email) and its defaults.
 */
module UserSchema {
  import opened Js

  const Qualifications: seq<string> := ["10", "12"]
  const Districts: seq<string> := ["Kalaburagi", "Koppal"]
  const Genders: seq<string> := ["male", "female", "other"]
  const DefaultState: string := "Karnataka"

  type UserId = nat

  /**
   * A stored user. `dob` is the date as the client sent it and `createdAt`
   * a time in milliseconds; optional fields are `None` while unset.
   */
  datatype User = User(
    name: string,
    dob: string,
    qualification: string,
    state: string,
    district: string,
    specialization: Option<string>,
    age: Option<int>,
    gender: Option<string>,
    academicInterests: seq<string>,
    email: string,
    createdAt: int,
    isLoggedIn: bool)

  /**
   * What the schema's validators accept: the required strings are non-empty,
   * `qualification`, `district` and (when set) `gender` lie in their
   * enumerations.
   */
  predicate SchemaValid(u: User) {
    && u.name != "" && u.dob != "" && u.email != ""
    && u.qualification in Qualifications
    && u.district in Districts
    && (u.gender.None? || u.gender.value in Genders)
  }

  /** The `unique: true` index on `email`. */
  ghost predicate EmailsUnique(users: map<UserId, User>) {
    forall a, b :: a in users && b in users && users[a].email == users[b].email ==> a == b
  }

  ghost predicate HasEmail(users: map<UserId, User>, email: string) {
    exists id :: id in users && users[id].email == email
  }

  /** The fields of a registration request body; `None` is `undefined`. */
  datatype Registration = Registration(
    name: Option<string>,
    dob: Option<string>,
    qualification: Option<string>,
    specialization: Option<string>,
    state: Option<string>,
    district: Option<string>,
    email: Option<string>,
    age: Option<int>,
    gender: Option<string>,
    academicInterests: Option<seq<string>>)

  /** The six fields `register` insists on. */
  predicate RegistrationComplete(f: Registration) {
    Given(f.name) && Given(f.dob) && Given(f.qualification) && Given(f.state) && Given(f.district) && Given(f.email)
  }

  /**
   * The document `new User({...})` builds from a registration: an unset
   * `state` takes its default, `academic_interests` defaults to the empty
   * array, `isLoggedIn` to false and `createdAt` to the creation time. Once
   * the required fields are present, the validators reject exactly the
   * values outside the enumerations.
   */
  function NewUser(f: Registration, now: int): (u: User)
    requires f.name.Some? && f.dob.Some? && f.qualification.Some? && f.district.Some? && f.email.Some?
    ensures u.state == (if f.state.Some? then f.state.value else DefaultState)
    ensures !u.isLoggedIn && u.createdAt == now
    ensures u.email == f.email.value
    ensures RegistrationComplete(f) ==>
      (SchemaValid(u) <==>
         f.qualification.value in Qualifications && f.district.value in Districts
         && (f.gender.None? || f.gender.value in Genders))
  {
    User(
      name := f.name.value,
      dob := f.dob.value,
      qualification := f.qualification.value,
      state := if f.state.Some? then f.state.value else DefaultState,
      district := f.district.value,
      specialization := f.specialization,
      age := f.age,
      gender := f.gender,
      academicInterests := if f.academicInterests.Some? then f.academicInterests.value else [],
      email := f.email.value,
      createdAt := now,
      isLoggedIn := false)
  }

  /** Two user tables with the same ids and the same email under each id. */
  ghost predicate SameEmails(before: map<UserId, User>, after: map<UserId, User>) {
    before.Keys == after.Keys && forall id :: id in before ==> before[id].email == after[id].email
  }

  /** Changing fields other than `email` keeps the unique index satisfied and every email registered. */
  lemma SameEmailsPreserve(before: map<UserId, User>, after: map<UserId, User>)
    requires SameEmails(before, after)
    ensures EmailsUnique(before) ==> EmailsUnique(after)
    ensures forall e :: HasEmail(before, e) ==> HasEmail(after, e)
  {
    forall e | HasEmail(before, e) ensures HasEmail(after, e) {
      var id :| id in before && before[id].email == e;
      assert id in after && after[id].email == e;
    }
  }
}
