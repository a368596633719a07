/** The login form (components/AuthPage.tsx): its submit handler checks that
    no field is empty and builds the signed-in user. */
module Auth {
  import opened Types
  import JsString

  /** `handleSubmit`: `None` when `onAuth` is not called, otherwise the user
      passed to it. No field is trimmed, and the password is only checked for
      being non-empty. */
  function HandleSubmit(name: string, username: string, password: string): (r: Option<User>)
    ensures r.None? <==> name == "" || username == "" || password == ""
    ensures r.Some? ==> r.value.name == name && r.value.username == JsString.RemoveFirst(username, '@')
  {
    if name == "" || username == "" || password == "" then None
    else Some(User(name, JsString.RemoveFirst(username, '@')))
  }

  /** The password decides only whether the user signs in, never what the
      user record holds. */
  lemma PasswordNotStored(name: string, username: string, p1: string, p2: string)
    requires p1 != "" && p2 != ""
    ensures HandleSubmit(name, username, p1) == HandleSubmit(name, username, p2)
  {
  }

  /** Fields of white space only are accepted: there is no trimming. */
  lemma BlankFieldsAccepted(name: string, username: string, password: string)
    requires name != "" && username != "" && password != ""
    requires JsString.IsBlank(name) && JsString.IsBlank(username) && JsString.IsBlank(password)
    ensures HandleSubmit(name, username, password).Some?
  {
  }

  /** The username loses its first '@' only: "@@bob" signs in as "@bob", and a
      username without '@' is kept as typed. */
  lemma {:induction false} UsernameLosesFirstAt(name: string, username: string, password: string)
    requires name != "" && username != "" && password != ""
    ensures var u := HandleSubmit(name, username, password).value.username;
            && ('@' !in username ==> u == username)
            && ('@' in username ==> |u| == |username| - 1)
            && ('@' in username ==> multiset(u) == multiset(username) - multiset{'@'})
  {
    JsString.RemoveFirstRemovesOne(username, '@');
  }

  /** A username that is a single '@' signs in with an empty username. */
  lemma LoneAtGivesEmptyUsername(name: string, password: string)
    requires name != "" && password != ""
    ensures HandleSubmit(name, "@", password) == Some(User(name, ""))
  {
    assert "@"[0] == '@' && "@"[1..] == "";
  }
}
