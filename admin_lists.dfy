/** Admin/Customers.jsx and Admin/Renters.jsx, which are the same component over the two
    account kinds: the full list of accounts, the list on show, and an e-mail search.
    The requests are parameters: the answer of the listing request, and whether the
    delete request succeeded (axios throws on any other answer, and then nothing
    changes). */
module AdminLists {
  import opened Http
  import opened Collection
  import opened Accounts
  import Text
  import Lists

  /** `account.email.toLowerCase().includes(searchQuery.toLowerCase())` */
  predicate EmailMatches(a: Doc<Account>, query: string) {
    Text.Contains(Text.Lower(a.data.email), Text.Lower(query))
  }

  /** `handleSearch`'s filter: the accounts whose e-mail contains the query, ignoring
      case, in their listed order (see SearchAppend). */
  function Search(accounts: seq<Doc<Account>>, query: string): (r: seq<Doc<Account>>)
    ensures forall a :: a in r <==> a in accounts && EmailMatches(a, query)
  {
    Lists.Filter(accounts, (a: Doc<Account>) => EmailMatches(a, query))
  }

  /** The search keeps the listed order: searching a concatenation searches each part. */
  lemma SearchAppend(a: seq<Doc<Account>>, b: seq<Doc<Account>>, query: string)
    ensures Search(a + b, query) == Search(a, query) + Search(b, query)
  {
    Lists.FilterAppend(a, b, (d: Doc<Account>) => EmailMatches(d, query));
  }

  /** An empty query keeps every account: every string contains the empty one. */
  lemma {:induction false} EmptyQueryKeepsAll(accounts: seq<Doc<Account>>)
    ensures Search(accounts, "") == accounts
  {
    if accounts != [] {
      var e := Text.Lower(accounts[0].data.email);
      assert Text.OccursAt(e, Text.Lower(""), 0);
      EmptyQueryKeepsAll(accounts[1..]);
    }
  }

  /** Searching twice for the same query finds nothing new. */
  lemma SearchIdempotent(accounts: seq<Doc<Account>>, query: string)
    ensures Search(Search(accounts, query), query) == Search(accounts, query)
  {
    Lists.FilterIdempotent(accounts, (d: Doc<Account>) => EmailMatches(d, query));
  }

  /** Deleting from a search result gives the search result of the list after the
      delete. */
  lemma {:induction false} SearchRemoveCommute(accounts: seq<Doc<Account>>, query: string, id: Id)
    ensures Remove(Search(accounts, query), id) == Search(Remove(accounts, id), query)
  {
    if accounts != [] {
      var h, t := accounts[0], accounts[1..];
      SearchRemoveCommute(t, query, id);
      var found := Search(accounts, query);
      var kept := Remove(accounts, id);
      assert kept == (if h.id == id then [] else [h]) + Remove(t, id);
      assert found == (if EmailMatches(h, query) then [h] else []) + Search(t, query);
      if EmailMatches(h, query) {
        assert found[0] == h && found[1..] == Search(t, query);
      } else {
        assert found == Search(t, query);
      }
      if h.id != id {
        assert kept[0] == h && kept[1..] == Remove(t, id);
      } else {
        assert kept == Remove(t, id);
      }
    }
  }

  class AccountListPage {
    var accounts: seq<Doc<Account>>
    var filtered: seq<Doc<Account>>
    var searchQuery: string
    /** The query of the last search that ran (the empty one after a fetch). */
    ghost var appliedQuery: string

    /** The list on show is always the full list searched for the last query that ran,
        whatever has been typed since. */
    ghost predicate Valid()
      reads this
    {
      filtered == Search(accounts, appliedQuery)
    }

    constructor ()
      ensures Valid()
      ensures accounts == [] && filtered == [] && searchQuery == ""
    {
      accounts := [];
      filtered := [];
      searchQuery := "";
      appliedQuery := "";
    }

    /** `fetchCustomers` / `fetchRenters`: on success both lists become the answer; a
        failure is only logged. */
    method Fetch(response: Reply<seq<Doc<Account>>>)
      requires Valid()
      modifies this`accounts, this`filtered, this`appliedQuery
      ensures Valid()
      ensures response.Succeeded() ==> accounts == response.body && filtered == response.body
      ensures !response.Succeeded() ==> accounts == old(accounts) && filtered == old(filtered)
    {
      if response.Succeeded() {
        accounts := response.body;
        filtered := response.body;
        appliedQuery := "";
        EmptyQueryKeepsAll(accounts);
      }
    }

    /** Typing in the search box; the list on show waits for the button. */
    method SetSearchQuery(query: string)
      requires Valid()
      modifies this`searchQuery
      ensures Valid()
      ensures searchQuery == query && filtered == old(filtered)
    {
      searchQuery := query;
    }

    /** `handleSearch`: the list on show becomes the full list searched for the query. */
    method HandleSearch()
      requires Valid()
      modifies this`filtered, this`appliedQuery
      ensures Valid()
      ensures filtered == Search(accounts, searchQuery)
    {
      filtered := Search(accounts, searchQuery);
      appliedQuery := searchQuery;
    }

    /** `deleteUser` / `deleteRenter`: only after the server deleted the account, that id
        leaves both lists and every other entry stays, in order. */
    method Delete(id: Id, deleted: bool)
      requires Valid()
      modifies this`accounts, this`filtered
      ensures Valid()
      ensures deleted ==> accounts == Remove(old(accounts), id) && filtered == Remove(old(filtered), id)
      ensures !deleted ==> accounts == old(accounts) && filtered == old(filtered)
    {
      if deleted {
        SearchRemoveCommute(accounts, appliedQuery, id);
        accounts := Remove(accounts, id);
        filtered := Remove(filtered, id);
      }
    }
  }
}
