/** The username rules of `register` and `admin_user_edit`: the main admin's name is
    reserved, compared without regard to letter case, and the main admin's account cannot be
    edited. */
module Accounts {
  import opened Common
  import opened Text

  /** The configured main admin name (`MYTUBE_ADMIN_USER`) when that is not set. */
  const DefaultAdminName: string := "admin"

  /** `a.lower() == b.lower()`. */
  predicate SameIgnoringCase(a: string, b: string) {
    Lower(a) == Lower(b)
  }

  /** `admin_user_edit` treats the account as the main admin's when its name matches the
      configured admin name in any letter case. */
  predicate IsMainAdmin(username: string, adminName: string)
    ensures IsMainAdmin(username, adminName) ==> |username| == |adminName|
    ensures username == adminName ==> IsMainAdmin(username, adminName)
  {
    SameIgnoringCase(username, adminName)
  }

  /** The messages `register` can answer a POST with, in the order it checks them. */
  datatype RegisterError = RegisterRequired | PasswordsNoMatch | UsernameReserved | UsernameExists

  /** The checks `register` runs before inserting: a username (after `.strip()`) and a
      password are required, the two passwords must match, and the username may not be the
      admin name in any letter case. The uniqueness check is the database's. */
  function CheckRegistration(username: string, password: string, password2: string, adminName: string):
    (r: Option<RegisterError>)
    ensures r != Some(UsernameExists)
    ensures r == None <==>
              && Strip(username) != [] && password != [] && password == password2
              && !SameIgnoringCase(Strip(username), adminName)
    ensures r == Some(RegisterRequired) <==> Strip(username) == [] || password == []
    ensures r == Some(PasswordsNoMatch) <==> Strip(username) != [] && password != [] && password != password2
    ensures r == Some(UsernameReserved) <==>
              && Strip(username) != [] && password != [] && password == password2
              && SameIgnoringCase(Strip(username), adminName)
  {
    var name := Strip(username);
    if name == [] || password == [] then Some(RegisterRequired)
    else if password != password2 then Some(PasswordsNoMatch)
    else if SameIgnoringCase(name, adminName) then Some(UsernameReserved)
    else None
  }

  /** ASCII upper case, to state which spellings of a name are reserved. */
  function UpperChar(c: char): char {
    if 'a' <= c <= 'z' then (c as int - 32) as char else c
  }

  function Upper(s: string): (r: string)
    ensures |r| == |s|
  {
    seq(|s|, i requires 0 <= i < |s| => UpperChar(s[i]))
  }

  lemma LowerOfUpper(s: string)
    ensures Lower(Upper(s)) == Lower(s)
  {
    forall i | 0 <= i < |s| ensures Lower(Upper(s))[i] == Lower(s)[i] {
      assert Upper(s)[i] == UpperChar(s[i]);
    }
  }

  /** Every case variant of the admin name is refused at registration once the other
      checks pass: the name itself, its upper-case spelling, and any other spelling that
      lower-cases to the same text. */
  lemma ReservedInAnyCase(username: string, password: string, adminName: string)
    requires Strip(username) != [] && password != []
    requires Lower(Strip(username)) == Lower(adminName) || Lower(Strip(username)) == Lower(Upper(adminName))
    ensures CheckRegistration(username, password, password, adminName) == Some(UsernameReserved)
  {
    LowerOfUpper(adminName);
  }

  /** The main admin account is recognised in every case spelling, and so are the
      accounts an admin renames to one. */
  lemma MainAdminInAnyCase(username: string, adminName: string)
    requires Lower(username) == Lower(adminName) || username == Upper(adminName)
    ensures IsMainAdmin(username, adminName)
  {
    LowerOfUpper(adminName);
  }
}
