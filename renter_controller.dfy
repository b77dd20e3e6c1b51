/** Controller/RenterController.js: the administrator's view of renter accounts. */
module RenterController {
  import opened Http
  import opened Collection
  import opened Accounts

  const RenterNotFoundMessage: string := "Renter not found"
  const RenterDeletedMessage: string := "Renter deleted successfully"

  /** `getAllRenters`: every renter, in stored order. */
  function GetAllRenters(renters: seq<Doc<Account>>): (r: Reply<seq<Doc<Account>>>)
    ensures r.Ok? && r.body == renters
  {
    Ok(renters)
  }

  /** `deleteRenter`: 404 and no change when the id is absent; otherwise that renter, and
      only it, is removed. */
  method DeleteRenter(renters: Table<Account>, id: Id) returns (r: Reply<string>)
    requires renters.Valid()
    modifies renters`docs
    ensures renters.Valid()
    ensures renters.docs == Remove(old(renters.docs), id)
    ensures r.NotFound? <==> old(Lookup(renters.docs, id)).None?
    ensures r.NotFound? ==> renters.docs == old(renters.docs)
    ensures r.Ok? || r.NotFound?
  {
    assert renters.FindById(id) == Lookup(renters.docs, id);
    var before := renters.docs;
    var d := renters.FindByIdAndDelete(id);
    if d.None? {
      RemoveAbsent(before, id);
      return NotFound(RenterNotFoundMessage);
    }
    r := Ok(RenterDeletedMessage);
  }

  /** `renter.isAllowed = !renter.isAllowed` */
  function Flip(): Account -> Account {
    (a: Account) => a.(isAllowed := !a.isAllowed)
  }

  /** The message reporting the new status. */
  function StatusMessage(isAllowed: bool): (m: string)
    ensures isAllowed <==> m == "Renter is now allowed"
    ensures !isAllowed <==> m == "Renter is now disallowed"
  {
    "Renter is now " + (if isAllowed then "allowed" else "disallowed")
  }

  /** `toggleRenterStatus`: 404 and no change when the id is absent; otherwise that
      renter's `isAllowed` is negated, nothing else changes, and the message reports the
      new value. */
  method ToggleRenterStatus(renters: Table<Account>, id: Id) returns (r: Reply<string>)
    requires renters.Valid()
    modifies renters`docs
    ensures renters.Valid()
    ensures renters.docs == Modify(old(renters.docs), id, Flip())
    ensures r.NotFound? <==> old(Lookup(renters.docs, id)).None?
    ensures r.NotFound? ==> renters.docs == old(renters.docs)
    ensures r.Ok? ==> r.body == StatusMessage(!old(Lookup(renters.docs, id)).value.isAllowed)
    ensures r.Ok? || r.NotFound?
  {
    assert renters.FindById(id) == Lookup(renters.docs, id);
    var u := renters.FindByIdAndUpdate(id, Flip());
    if u.None? {
      return NotFound(RenterNotFoundMessage);
    }
    r := Ok(StatusMessage(u.value.isAllowed));
  }

  /** Toggling the same renter twice restores every account. */
  lemma ToggleTwice(renters: seq<Doc<Account>>, id: Id)
    ensures Modify(Modify(renters, id, Flip()), id, Flip()) == renters
  {
    ModifyInvolution(renters, id, Flip());
  }
}
