/** Model/RenterUser.js and Model/CustomerUser.js: the two account kinds, which share one
    shape. Passwords and their hashing are not part of this model. */
module Accounts {
  import opened Http
  import opened Collection

  datatype Account = Account(email: string, isAllowed: bool)

  /** A new account: allowed by default. */
  function NewAccount(email: string): (r: Account)
    ensures r.isAllowed && r.email == email
  {
    Account(email, true)
  }

  /** `Model.findOne({ email })`: the first account with that e-mail, if any. */
  function FindByEmail(s: seq<Doc<Account>>, email: string): (r: Option<Doc<Account>>)
    ensures r.Some? ==> r.value in s && r.value.data.email == email
    ensures r.None? ==> forall i :: 0 <= i < |s| ==> s[i].data.email != email
  {
    if s == [] then None
    else if s[0].data.email == email then Some(s[0])
    else FindByEmail(s[1..], email)
  }
}
