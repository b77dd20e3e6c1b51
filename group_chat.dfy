/** Customer/GroupChat.jsx: the customer's chat. The page keeps its groups, the selected
    group and that group's messages; its forms call the chat routes, and socket events
    patch the local lists. The routes run on the collections passed in; `fetch` does
    not throw on an error status, so only the add-member form looks at the answer. */
module GroupChat {
  import opened Http
  import opened Collection
  import opened GroupModel
  import Text
  import Lists
  import ChatRoutes

  type Message = ChatRoutes.Message

  const GuestEmail: string := "guest@example.com"
  const InvalidGroupMessage: string := "Invalid group name or member emails"
  const AddMemberFallback: string := "Failed to add member"

  /** `localStorage.getItem('userEmail') || 'guest@example.com'` */
  function CurrentUser(stored: Option<string>): (r: string)
    ensures r != ""
    ensures stored.Some? && stored.value != "" ==> r == stored.value
    ensures stored.None? || stored.value == "" ==> r == GuestEmail
  {
    if stored.Some? && stored.value != "" then stored.value else GuestEmail
  }

  /** The create-group form's candidate members: the text split at commas, each piece
      trimmed and lower-cased. */
  function Candidates(text: string): seq<string> {
    NormalizeAll(Text.Split(text, ','))
  }

  /** The form's member list: the candidates the e-mail pattern accepts, in order. */
  function ParseMembers(text: string): (r: seq<string>)
    ensures forall m :: m in r <==> m in Candidates(text) && Text.IsEmail(m)
  {
    Lists.Filter(Candidates(text), (e: string) => Text.IsEmail(e))
  }

  /** Every parsed member is already in the form the schema's setters produce and is not
      empty, so the server stores it unchanged. */
  lemma ParsedMembersNormal(text: string)
    ensures AllNormalized(ParseMembers(text))
  {
    var r := ParseMembers(text);
    var pieces := Text.Split(text, ',');
    var c := NormalizeAll(pieces);
    assert c == Candidates(text);
    forall i | 0 <= i < |r| ensures NormalizeMember(r[i]) == r[i] && r[i] != "" {
      assert r[i] in r;
      var k :| 0 <= k < |c| && c[k] == r[i];
      NormalizeIdempotent(pieces[k]);
      EmailNotEmpty(r[i]);
    }
  }

  lemma EmailNotEmpty(e: string)
    requires Text.IsEmail(e)
    ensures e != ""
  {
    var a, b :| 0 < a && a + 1 < b < |e| - 1 && e[a] == '@' && e[b] == '.'
                && Text.AllEmailChars(e[..a]) && Text.AllEmailChars(e[a + 1..]);
  }

  /** The ids `markMessagesAsRead` reports: messages from someone else that the user has
      not read, in list order. */
  function UnreadIds(messages: seq<Doc<Message>>, user: string): (r: seq<Id>)
    ensures forall id :: id in r <==>
              exists i :: 0 <= i < |messages| && messages[i].id == id
                          && messages[i].data.sender != user && user !in messages[i].data.readBy
  {
    if messages == [] then []
    else
      var m := messages[0];
      var rest := UnreadIds(messages[1..], user);
      assert forall id :: id in rest <==>
               exists i :: 1 <= i < |messages| && messages[i].id == id
                           && messages[i].data.sender != user && user !in messages[i].data.readBy by {
        forall id ensures id in rest <==>
                 exists i :: 1 <= i < |messages| && messages[i].id == id
                             && messages[i].data.sender != user && user !in messages[i].data.readBy {
          if id in rest {
            var j :| 0 <= j < |messages[1..]| && messages[1..][j].id == id
                     && messages[1..][j].data.sender != user && user !in messages[1..][j].data.readBy;
            assert messages[j + 1] == messages[1..][j];
          }
          if exists i :: 1 <= i < |messages| && messages[i].id == id
                         && messages[i].data.sender != user && user !in messages[i].data.readBy {
            var i :| 1 <= i < |messages| && messages[i].id == id
                     && messages[i].data.sender != user && user !in messages[i].data.readBy;
            assert messages[1..][i - 1] == messages[i];
          }
        }
      }
      (if m.data.sender != user && user !in m.data.readBy then [m.id] else []) + rest
  }

  /** The `messages_read` event: the reader is appended to each listed message's
      readers, without checking for a repeat or for the message's group. */
  function ClientMarkedRead(messages: seq<Doc<Message>>, ids: seq<Id>, reader: string): (r: seq<Doc<Message>>)
    ensures |r| == |messages|
    ensures forall i :: 0 <= i < |messages| ==>
              r[i] == (if messages[i].id in ids
                       then Doc(messages[i].id, messages[i].data.(readBy := messages[i].data.readBy + [reader]))
                       else messages[i])
  {
    if messages == [] then []
    else
      var m := messages[0];
      [if m.id in ids then Doc(m.id, m.data.(readBy := m.data.readBy + [reader])) else m]
      + ClientMarkedRead(messages[1..], ids, reader)
  }

  /** For a message of the marked group, the page's copy and the stored message end up
      with the same readers; the page may list one of them twice where the store keeps
      it once. */
  lemma ClientReadAgreesWithStore(messages: seq<Doc<Message>>, ids: seq<Id>, groupId: Id, reader: string,
                                  i: nat, who: string)
    requires i < |messages| && messages[i].data.group == groupId
    ensures who in ClientMarkedRead(messages, ids, reader)[i].data.readBy
            <==> who in ChatRoutes.MarkedRead(messages, ids, groupId, reader)[i].data.readBy
  {
    var c := ClientMarkedRead(messages, ids, reader)[i];
    var s := ChatRoutes.MarkedRead(messages, ids, groupId, reader)[i];
    if messages[i].id in ids {
      var old_ := messages[i].data.readBy;
      assert c.data.readBy == old_ + [reader];
      assert s.data.readBy == ChatRoutes.AddToSet(old_, reader);
      assert who in old_ + [reader] <==> who in old_ || who == reader;
    }
  }

  /** `prev.map(g => g._id === id ? updated : g)` */
  function ReplaceGroup(groups: seq<Doc<Group>>, id: Id, updated: Group): (r: seq<Doc<Group>>)
    ensures |r| == |groups|
    ensures forall i :: 0 <= i < |groups| ==>
              r[i] == (if groups[i].id == id then Doc(id, updated) else groups[i])
  {
    Modify(groups, id, (_: Group) => updated)
  }

  lemma TrimmedNotEmpty(s: string)
    requires Text.Trim(s) != ""
    ensures s != ""
  {
    Text.TrimCutsOnlySpace(s);
    var i :| Text.TrimmedAt(s, Text.Trim(s), i);
  }

  /** What the `create-group` request of a valid form (a name, normal non-empty members)
      from `creator` leaves in the store: nothing new when the creator's address is
      blank once normalised, since validation then fails; otherwise exactly the group
      `NewGroup` builds from the deduplicated raw list, appended under the next id. */
  ghost predicate GroupStored(before: seq<Doc<Group>>, after: seq<Doc<Group>>, nextId: Id,
                              name: string, members: seq<string>, creator: string)
  {
    if NormalizeMember(creator) == "" then after == before
    else |after| == |before| + 1 && after[..|before|] == before && after[|before|].id == nextId
         && Some(after[|before|].data) == NewGroup(Some(name), ChatRoutes.RawMembers(members, creator))
  }

  /** For a valid form the schema refuses the group only for a creator blank once
      normalised. */
  lemma AcceptedUnlessCreatorBlank(name: string, members: seq<string>, creator: string)
    requires name != "" && AllNormalized(members)
    ensures NewGroup(Some(name), ChatRoutes.RawMembers(members, creator)).Some?
            <==> NormalizeMember(creator) != ""
  {
    var raw := ChatRoutes.RawMembers(members, creator);
    if NormalizeMember(creator) != "" {
      forall i | 0 <= i < |raw| ensures NormalizeMember(raw[i]) != "" {
        if raw[i] != creator {
          assert raw[i] in raw;
          var k :| 0 <= k < |members| && members[k] == raw[i];
        }
      }
    } else {
      var k :| 0 <= k < |raw| && raw[k] == creator;
    }
  }

  /** The stored group is named as typed and lists the members and the creator's normal
      form and nothing else; for a creator in normal form, none of them twice. */
  lemma GroupStoredMembers(before: seq<Doc<Group>>, after: seq<Doc<Group>>, nextId: Id,
                           name: string, members: seq<string>, creator: string)
    requires AllNormalized(members) && NormalizeMember(creator) != ""
    requires GroupStored(before, after, nextId, name, members, creator)
    ensures |after| == |before| + 1 && after[|before|].data.name == name
    ensures forall m :: m in after[|before|].data.members <==> m in members || m == NormalizeMember(creator)
    ensures NormalizeMember(creator) == creator && name != "" ==>
              Lists.NoDuplicates(after[|before|].data.members)
  {
    var raw := ChatRoutes.RawMembers(members, creator);
    var g := after[|before|].data;
    forall m ensures m in g.members <==> m in members || m == NormalizeMember(creator) {
      if m in g.members {
        var i :| 0 <= i < |g.members| && g.members[i] == m;
        if raw[i] != creator {
          assert raw[i] in raw;
          var k :| 0 <= k < |members| && members[k] == raw[i];
        }
      }
      if m in members {
        var k :| 0 <= k < |members| && members[k] == m;
        assert m in raw;
        var i :| 0 <= i < |raw| && raw[i] == m;
        assert g.members[i] == m;
      }
      if m == NormalizeMember(creator) {
        var i :| 0 <= i < |raw| && raw[i] == creator;
        assert g.members[i] == m;
      }
    }
    if NormalizeMember(creator) == creator && name != "" {
      ChatRoutes.CreateGroupDistinctWhenNormalized(name, members, creator);
    }
  }

  /** The `create-group` request of a valid form: normal, non-empty members, the user as
      creator. The store changes as `GroupStored` says: for a creator not blank once
      normalised, one group with the typed name, exactly the members and the creator's
      normal form, none twice when the creator is already in normal form. */
  method StoreGroup(store: Table<Group>, name: string, members: seq<string>, creator: string)
    requires store.Valid() && name != "" && creator != ""
    requires AllNormalized(members)
    modifies store
    ensures store.Valid()
    ensures GroupStored(old(store.docs), store.docs, old(store.nextId), name, members, creator)
    ensures NormalizeMember(creator) != "" ==>
              |store.docs| == |old(store.docs)| + 1
              && store.docs[|old(store.docs)|].data.name == name
              && (forall m :: m in store.docs[|old(store.docs)|].data.members <==>
                                m in members || m == NormalizeMember(creator))
    ensures NormalizeMember(creator) == creator ==>
              Lists.NoDuplicates(store.docs[|old(store.docs)|].data.members)
  {
    ghost var before, nextId := store.docs, store.nextId;
    AcceptedUnlessCreatorBlank(name, members, creator);
    var r := ChatRoutes.CreateGroup(store, Some(name), Some(members), Some(creator));
    if r.Created? {
      assert store.docs[..|before|] == before;
    }
    if NormalizeMember(creator) != "" {
      GroupStoredMembers(before, store.docs, nextId, name, members, creator);
    }
  }

  class GroupChatState {
    const userEmail: string
    var groups: seq<Doc<Group>>
    var selectedGroup: Option<Doc<Group>>
    var messages: seq<Doc<Message>>
    var newMessage: string
    var groupName: string
    var groupMembers: string
    var newMemberEmail: string
    var showAddMemberModal: bool
    var error: string

    ghost predicate Valid()
      reads this
    {
      userEmail != ""
    }

    constructor (stored: Option<string>)
      ensures Valid() && userEmail == CurrentUser(stored)
      ensures groups == [] && selectedGroup.None? && messages == []
      ensures newMessage == "" && groupName == "" && groupMembers == "" && newMemberEmail == ""
      ensures !showAddMemberModal && error == ""
    {
      userEmail := CurrentUser(stored);
      groups := [];
      selectedGroup := None;
      messages := [];
      newMessage := "";
      groupName := "";
      groupMembers := "";
      newMemberEmail := "";
      showAddMemberModal := false;
      error := "";
    }

    /** `fetchGroups` given the answer of `my-groups`. */
    method LoadGroups(response: Reply<seq<Doc<Group>>>)
      modifies this`groups
      ensures response.Succeeded() ==> groups == response.body
      ensures !response.Succeeded() ==> groups == old(groups)
    {
      if response.Succeeded() {
        groups := response.body;
      }
    }

    /** Selecting a group, then `fetchMessages` given the answer of `messages/:groupId`. */
    method SelectGroup(g: Doc<Group>, response: Reply<seq<Doc<Message>>>)
      modifies this`selectedGroup, this`messages
      ensures selectedGroup == Some(g)
      ensures response.Succeeded() ==> messages == response.body
      ensures !response.Succeeded() ==> messages == old(messages)
    {
      selectedGroup := Some(g);
      if response.Succeeded() {
        messages := response.body;
      }
    }

    /** Typing in the group-name box. */
    method TypeGroupName(text: string)
      modifies this`groupName
      ensures groupName == text
    {
      groupName := text;
    }

    /** Typing in the members box. */
    method TypeGroupMembers(text: string)
      modifies this`groupMembers
      ensures groupMembers == text
    {
      groupMembers := text;
    }

    /** Typing in the message box. */
    method TypeMessage(text: string)
      modifies this`newMessage
      ensures newMessage == text
    {
      newMessage := text;
    }

    /** Typing in the add-member box. */
    method TypeNewMemberEmail(text: string)
      modifies this`newMemberEmail
      ensures newMemberEmail == text
    {
      newMemberEmail := text;
    }

    /** The "Add Member" button opens the modal. */
    method OpenAddMember()
      modifies this`showAddMemberModal
      ensures showAddMemberModal
    {
      showAddMemberModal := true;
    }

    /** The modal's Cancel button closes it and clears the error. */
    method CancelAddMember()
      modifies this`showAddMemberModal, this`error
      ensures !showAddMemberModal && error == ""
    {
      showAddMemberModal := false;
      error := "";
    }

    /** `handleCreateGroup`. Without a name that survives trimming or without a single
        valid e-mail, nothing is sent and the error is shown; otherwise `create-group`
        runs and the form is cleared whatever it answers; the store changes as
        `GroupStored` says: unless the user's address is blank once normalised, the group
        holds exactly the parsed members and the user, none twice when the user's address
        is already in normal form. */
    method CreateGroup(store: Table<Group>) returns (sent: bool)
      requires Valid() && store.Valid()
      modifies this`groupName, this`groupMembers, this`error, store
      ensures store.Valid()
      ensures sent <==> Text.Trim(old(groupName)) != "" && ParseMembers(old(groupMembers)) != []
      ensures !sent ==> error == InvalidGroupMessage && store.docs == old(store.docs)
                        && groupName == old(groupName) && groupMembers == old(groupMembers)
      ensures sent ==> groupName == "" && groupMembers == "" && error == old(error)
      ensures sent ==> GroupStored(old(store.docs), store.docs, old(store.nextId), old(groupName),
                                   ParseMembers(old(groupMembers)), userEmail)
      ensures sent && NormalizeMember(userEmail) != "" ==>
                |store.docs| == |old(store.docs)| + 1
                && store.docs[|old(store.docs)|].data.name == old(groupName)
                && (forall m :: m in store.docs[|old(store.docs)|].data.members <==>
                                  m in ParseMembers(old(groupMembers)) || m == NormalizeMember(userEmail))
      ensures sent && NormalizeMember(userEmail) == userEmail ==>
                Lists.NoDuplicates(store.docs[|old(store.docs)|].data.members)
    {
      var members := ParseMembers(groupMembers);
      sent := Text.Trim(groupName) != "" && members != [];
      if sent {
        ParsedMembersNormal(groupMembers);
        TrimmedNotEmpty(groupName);
        SubmitGroup(store, members);
      } else {
        error := InvalidGroupMessage;
      }
    }

    /** The `create-group` request of an accepted form, then the form cleared. */
    method SubmitGroup(store: Table<Group>, members: seq<string>)
      requires Valid() && store.Valid() && groupName != ""
      requires AllNormalized(members)
      modifies this`groupName, this`groupMembers, store
      ensures store.Valid()
      ensures groupName == "" && groupMembers == ""
      ensures GroupStored(old(store.docs), store.docs, old(store.nextId), old(groupName), members, userEmail)
      ensures NormalizeMember(userEmail) != "" ==>
                |store.docs| == |old(store.docs)| + 1
                && store.docs[|old(store.docs)|].data.name == old(groupName)
                && (forall m :: m in store.docs[|old(store.docs)|].data.members <==>
                                  m in members || m == NormalizeMember(userEmail))
      ensures NormalizeMember(userEmail) == userEmail ==>
                Lists.NoDuplicates(store.docs[|old(store.docs)|].data.members)
    {
      StoreGroup(store, groupName, members, userEmail);
      groupName := "";
      groupMembers := "";
    }

    /** `handleSendMessage`: nothing without a selected group or with a blank message;
        otherwise `send-message` stores the message, from the user to the selected group
        and already read by them, and the input is cleared. */
    method SendMessage(store: Table<Message>, now: int) returns (sent: bool)
      requires Valid() && store.Valid()
      modifies this`newMessage, store
      ensures store.Valid()
      ensures sent <==> old(selectedGroup).Some? && Text.Trim(old(newMessage)) != ""
      ensures !sent ==> store.docs == old(store.docs) && newMessage == old(newMessage)
      ensures sent ==> newMessage == ""
                       && |store.docs| == |old(store.docs)| + 1
                       && store.docs[..|old(store.docs)|] == old(store.docs)
                       && store.docs[|old(store.docs)|].data
                          == ChatRoutes.Message(userEmail, selectedGroup.value.id, old(newMessage), [userEmail], now)
    {
      if Text.Trim(newMessage) == "" || selectedGroup.None? {
        return false;
      }
      sent := true;
      ghost var before := store.docs;
      var r := ChatRoutes.SendMessage(store, Some(selectedGroup.value.id), newMessage, userEmail, now);
      assert store.docs[..|before|] == before;
      newMessage := "";
    }

    /** `markMessagesAsRead`: nothing without a selected group or when every message
        is the user's own or already read by them; otherwise `mark-read` adds the user
        to the readers of exactly the unread messages of that group. */
    method MarkMessagesAsRead(store: Table<Message>) returns (sent: bool)
      requires Valid() && store.Valid()
      modifies store`docs
      ensures store.Valid()
      ensures sent <==> selectedGroup.Some? && UnreadIds(messages, userEmail) != []
      ensures !sent ==> store.docs == old(store.docs)
      ensures sent ==> store.docs == ChatRoutes.MarkedRead(old(store.docs), UnreadIds(messages, userEmail),
                                                           selectedGroup.value.id, userEmail)
    {
      if selectedGroup.None? {
        return false;
      }
      var unread := UnreadIds(messages, userEmail);
      if unread == [] {
        return false;
      }
      var r := ChatRoutes.MarkRead(store, Some(unread), selectedGroup.value.id, userEmail);
      sent := true;
    }

    /** `handleAddMember`: nothing without a selected group or with a blank address.
        Otherwise the trimmed, lower-cased address goes to `add-member`: an error answer
        is shown; success replaces the group in the list and in the selection, clears the
        address and closes the modal. Because the address is sent in normal form, the
        server's membership check sees through case and spaces, and a group without
        repeated members keeps none. */
    method AddMember(store: Table<Group>) returns (added: bool)
      requires Valid() && store.Valid()
      modifies this`groups, this`selectedGroup, this`newMemberEmail, this`showAddMemberModal, this`error,
               store`docs
      ensures store.Valid()
      ensures old(selectedGroup).None? || Text.Trim(old(newMemberEmail)) == "" ==>
                store.docs == old(store.docs) && !added && groups == old(groups)
                && selectedGroup == old(selectedGroup) && error == old(error)
      ensures added <==> old(selectedGroup).Some? && Text.Trim(old(newMemberEmail)) != ""
                         && Lookup(old(store.docs), old(selectedGroup).value.id).Some?
                         && NormalizeMember(old(newMemberEmail))
                              !in Lookup(old(store.docs), old(selectedGroup).value.id).value.members
      ensures added ==>
                var id := old(selectedGroup).value.id;
                var email := NormalizeMember(old(newMemberEmail));
                var before := Lookup(old(store.docs), id).value;
                email !in before.members
                && store.docs == Modify(old(store.docs), id, ChatRoutes.PushMember(email))
                && selectedGroup == Some(Doc(id, before.(members := before.members + [email])))
                && groups == ReplaceGroup(old(groups), id, before.(members := before.members + [email]))
                && newMemberEmail == "" && !showAddMemberModal
                && (Lists.NoDuplicates(before.members) ==> Lists.NoDuplicates(before.members + [email]))
      ensures !added ==> store.docs == old(store.docs) && groups == old(groups) && selectedGroup == old(selectedGroup)
      ensures !added && old(selectedGroup).Some? && Text.Trim(old(newMemberEmail)) != "" ==> error != ""
    {
      if Text.Trim(newMemberEmail) == "" || selectedGroup.None? {
        return false;
      }
      var id := selectedGroup.value.id;
      var email := NormalizeMember(newMemberEmail);
      NormalizeIdempotent(newMemberEmail);
      assert email != "";
      var r := ChatRoutes.AddMember(store, id, email);
      if !r.Ok? {
        error := if r.message != "" then r.message else AddMemberFallback;
        return false;
      }
      groups := ReplaceGroup(groups, id, r.body);
      selectedGroup := Some(Doc(id, r.body));
      newMemberEmail := "";
      showAddMemberModal := false;
      added := true;
    }

    /** `receive_message`: the message is appended. */
    method ReceiveMessage(m: Doc<Message>)
      modifies this`messages
      ensures messages == old(messages) + [m]
    {
      messages := messages + [m];
    }

    /** `messages_read` */
    method MessagesRead(ids: seq<Id>, reader: string)
      modifies this`messages
      ensures messages == ClientMarkedRead(old(messages), ids, reader)
    {
      messages := ClientMarkedRead(messages, ids, reader);
    }

    /** `group_created`: appended only when the user is among its members. */
    method GroupCreated(g: Doc<Group>)
      modifies this`groups
      ensures userEmail in g.data.members ==> groups == old(groups) + [g]
      ensures userEmail !in g.data.members ==> groups == old(groups)
    {
      if userEmail in g.data.members {
        groups := groups + [g];
      }
    }

    /** `member_added`: for a group the user belongs to, the listed copy and the
        selection (when it is that group) take the new members. */
    method MemberAdded(g: Doc<Group>)
      modifies this`groups, this`selectedGroup
      ensures userEmail in g.data.members ==> groups == ReplaceGroup(old(groups), g.id, g.data)
      ensures userEmail in g.data.members && old(selectedGroup).Some? && old(selectedGroup).value.id == g.id ==>
                selectedGroup == Some(g)
      ensures userEmail !in g.data.members || old(selectedGroup).None? || old(selectedGroup).value.id != g.id ==>
                selectedGroup == old(selectedGroup)
      ensures userEmail !in g.data.members ==> groups == old(groups)
    {
      if userEmail in g.data.members {
        groups := ReplaceGroup(groups, g.id, g.data);
        if selectedGroup.Some? && selectedGroup.value.id == g.id {
          selectedGroup := Some(Doc(g.id, g.data));
        }
      }
    }
  }
}
