/** The staff model (`api/staff/models.py`): a staff member's display name,
    password helpers and the hash guard of `save`. */
module StaffModel {
  import opened Base
  import opened Text
  import opened Hashing
  import CustomerModel

  /** `__str__`: the stripped "first last", or the username when that is
      empty. */
  function StaffName(firstName: string, lastName: Option<string>, username: string): (s: string)
    ensures CustomerModel.DisplayName(firstName, lastName) != "" ==> s == CustomerModel.DisplayName(firstName, lastName)
    ensures CustomerModel.DisplayName(firstName, lastName) == "" ==> s == username
  {
    var name := CustomerModel.DisplayName(firstName, lastName);
    if name != "" then name else username
  }

  /** Names made only of white space (and no last name, or an all-space
      one) fall back to the username; a trimmed first name with no last
      name is shown as it is. */
  lemma StaffNameFallback(firstName: string, lastName: Option<string>, username: string)
    ensures AllSpace(firstName) && (lastName.None? || AllSpace(lastName.value))
            ==> StaffName(firstName, lastName, username) == username
    ensures firstName != "" && !IsSpace(firstName[0]) && !IsSpace(firstName[|firstName| - 1]) && lastName.None?
            ==> StaffName(firstName, lastName, username) == firstName
  {
    if AllSpace(firstName) && (lastName.None? || AllSpace(lastName.value)) {
      BlankName(firstName, lastName);
    }
    if firstName != "" && !IsSpace(firstName[0]) && !IsSpace(firstName[|firstName| - 1]) && lastName.None? {
      CustomerModel.DisplayNameParts(firstName, lastName);
      StripCore([], firstName, []);
      assert [] + firstName + [] == firstName;
    }
  }

  /** White space joined to white space strips to nothing. */
  lemma BlankName(firstName: string, lastName: Option<string>)
    requires AllSpace(firstName) && (lastName.None? || AllSpace(lastName.value))
    ensures CustomerModel.DisplayName(firstName, lastName) == ""
  {
    var tail := " " + OrEmpty(lastName);
    assert AllSpace(tail) by {
      forall k | 0 <= k < |tail| ensures IsSpace(tail[k]) {
        if k > 0 {
          assert tail[k] == OrEmpty(lastName)[k - 1];
        }
      }
    }
    AllSpaceConcat(firstName, tail);
    assert firstName + " " + OrEmpty(lastName) == firstName + tail;
    StripCore(firstName + tail, [], []);
    assert firstName + tail + [] + [] == firstName + tail;
  }

  class Staff {
    var username: string
    var password: Password
    var firstName: string
    var lastName: Option<string>

    constructor (username: string, password: Password, firstName: string, lastName: Option<string>)
      ensures this.username == username && this.password == password
      ensures this.firstName == firstName && this.lastName == lastName
    {
      this.username := username;
      this.password := password;
      this.firstName := firstName;
      this.lastName := lastName;
    }

    /** `__str__`: a blank name shows the username, a trimmed first name
        alone shows itself, trimmed first and last names show
        "first last"; the result is empty only for an empty username. */
    function Str(): (s: string)
      reads this
      ensures s == StaffName(firstName, lastName, username)
      ensures AllSpace(firstName) && (lastName.None? || AllSpace(lastName.value)) ==> s == username
      ensures firstName != "" && !IsSpace(firstName[0]) && !IsSpace(firstName[|firstName| - 1]) && lastName.None?
              ==> s == firstName
      ensures firstName != "" && !IsSpace(firstName[0]) && lastName.Some? && lastName.value != ""
              && !IsSpace(lastName.value[|lastName.value| - 1])
              ==> s == firstName + " " + lastName.value
      ensures s == "" ==> username == ""
    {
      StaffNameFallback(firstName, lastName, username);
      CustomerModel.DisplayNameParts(firstName, lastName);
      StaffName(firstName, lastName, username)
    }

    /** `set_password(raw)`: the field becomes a hash of `raw`. */
    method SetPassword(raw: string, salt: nat)
      modifies this
      ensures password == MakePassword(raw, salt)
      ensures username == old(username) && firstName == old(firstName) && lastName == old(lastName)
    {
      password := MakePassword(raw, salt);
    }

    /** `check_password(raw)`. */
    predicate CheckPassword(raw: string)
      reads this
    {
      Hashing.CheckPassword(raw, password)
    }

    /** `save()`: a non-empty password without `$` is hashed before the row
        is written; one that is empty or holds `$` is written as it is. */
    method Save(salt: nat)
      modifies this
      ensures password == HashOnSave(old(password), salt)
      ensures username == old(username) && firstName == old(firstName) && lastName == old(lastName)
    {
      if password != Plain("") && !HasDollar(password) {
        password := MakePassword(password.text, salt);
      }
    }
  }
}
