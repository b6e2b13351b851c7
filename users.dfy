/**
 * The user account as the handlers read it, and `User.findOne({ email })`.
 */
module Users {
  import opened Common

  type UserId = nat

  datatype User = User(
    id: UserId,
    email: string,
    fullName: string,
    phoneNumber: string,
    reportingManager: string,
    state: Option<string>,
    role: string)

  /**
   * `User.findOne({ email })` over the collection in its natural order: the first user
   * whose email is exactly the given string. Body values are primitives in this model, so a
   * value that is not a string (a number, a boolean, null) matches nobody; object bodies such as
   * a query operator are not modelled.
   */
  function FindByEmail(users: seq<User>, email: JsValue): (r: Option<User>)
    ensures r.Some? ==> email.Str? && r.value in users && r.value.email == email.s
    ensures r.Some? ==> exists k :: 0 <= k < |users| && users[k] == r.value
                          && forall j :: 0 <= j < k ==> users[j].email != email.s
    ensures r.None? ==> forall u :: u in users ==> !(email.Str? && u.email == email.s)
  {
    if !email.Str? || users == [] then None
    else if users[0].email == email.s then Some(users[0])
    else
      var r := FindByEmail(users[1..], email);
      if r.Some? then
        ghost var k :| 0 <= k < |users[1..]| && users[1..][k] == r.value
                    && forall j :: 0 <= j < k ==> users[1..][j].email != email.s;
        assert users[k + 1] == r.value;
        r
      else r
  }
}
