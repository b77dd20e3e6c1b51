/** Routes/chatRoutes.js: chat groups and their messages, the store side of each handler
    (the socket broadcasts are not part of this model). */
module ChatRoutes {
  import opened Http
  import opened Collection
  import opened GroupModel
  import Lists
  import VehicleModel

  const InvalidInputMessage: string := "Invalid input data"
  const CreateFailedMessage: string := "Failed to create group"
  const MissingFieldsMessage: string := "Missing required fields"
  const NotAnArrayMessage: string := "messageIds must be an array"
  const MemberEmailRequiredMessage: string := "Member email is required"
  const GroupNotFoundMessage: string := "Group not found"
  const AlreadyMemberMessage: string := "Member already in group"
  const AddFailedMessage: string := "Failed to add member"

  /** A stored chat message. Model/Message.js is not part of this model: the fields are
      the ones the routes write and sort on, `readBy` holding the readers' e-mails and
      `timestamp` the creation time. */
  datatype Message = Message(sender: string, group: Id, content: string, readBy: seq<string>, timestamp: int)

  // ---------------------------------------------------------------------------
  // my-groups

  /** `GET /my-groups/:userEmail`: exactly the groups whose stored members include the
      e-mail, in stored order. Mongoose casts the filter value through the `members`
      setters, so the stored members are compared with the e-mail trimmed and lower-cased. */
  function MyGroups(groups: seq<Doc<Group>>, userEmail: string): (r: Reply<seq<Doc<Group>>>)
    ensures r.Ok?
    ensures forall i :: 0 <= i < |r.body| ==>
              r.body[i] in groups && NormalizeMember(userEmail) in r.body[i].data.members
    ensures forall i :: 0 <= i < |groups| && NormalizeMember(userEmail) in groups[i].data.members ==>
              groups[i] in r.body
  {
    var key := NormalizeMember(userEmail);
    Ok(Lists.Filter(groups, (g: Doc<Group>) => key in g.data.members))
  }

  /** The answer does not depend on the case or the surrounding spaces of the address:
      asking with its normal form finds the same groups. */
  lemma MyGroupsIgnoresCase(groups: seq<Doc<Group>>, userEmail: string)
    ensures MyGroups(groups, userEmail) == MyGroups(groups, NormalizeMember(userEmail))
  {
    NormalizeIdempotent(userEmail);
  }

  // ---------------------------------------------------------------------------
  // create-group

  /** The member list handed to the schema: `[...new Set([...members, creatorEmail])]`,
      deduplicated on the raw strings, before the setters normalise them. */
  function RawMembers(members: seq<string>, creatorEmail: string): (r: seq<string>)
    ensures Lists.NoDuplicates(r)
    ensures creatorEmail in r
    ensures forall m :: m in r <==> m in members || m == creatorEmail
  {
    Lists.Distinct(members + [creatorEmail])
  }

  /** `POST /create-group`: 400 when the name is missing or empty, or `members` is not an
      array; 500 when there is no creator e-mail or a member is empty once normalised
      (validation fails); otherwise the group is stored (201) with the normalised
      deduplicated members, the creator among them. */
  method CreateGroup(groups: Table<Group>, name: Option<string>, members: Option<seq<string>>,
                     creatorEmail: Option<string>)
    returns (r: Reply<Doc<Group>>)
    requires groups.Valid()
    modifies groups
    ensures groups.Valid()
    ensures r.BadRequest? <==> !VehicleModel.Supplied(name) || members.None?
    ensures r.Created? ==>
              creatorEmail.Some? && members.Some?
              && Some(r.body.data) == NewGroup(name, RawMembers(members.value, creatorEmail.value))
              && NormalizeMember(creatorEmail.value) in r.body.data.members
              && groups.docs == old(groups.docs) + [r.body]
              && r.body.id == old(groups.nextId)
    ensures !r.BadRequest? && creatorEmail.Some? ==>
              (r.Created? <==> NewGroup(name, RawMembers(members.value, creatorEmail.value)).Some?)
    ensures !r.Created? ==> groups.docs == old(groups.docs)
    ensures r.Created? || r.BadRequest? || r.ServerError?
  {
    if !VehicleModel.Supplied(name) || members.None? {
      return BadRequest(InvalidInputMessage);
    }
    if creatorEmail.None? {
      return ServerError(CreateFailedMessage);
    }
    var raw := RawMembers(members.value, creatorEmail.value);
    var g := NewGroup(name, raw);
    if g.None? {
      return ServerError(CreateFailedMessage);
    }
    var k :| 0 <= k < |raw| && raw[k] == creatorEmail.value;
    assert g.value.members[k] == NormalizeMember(creatorEmail.value);
    var id := groups.Insert(g.value);
    r := Created(Doc(id, g.value));
  }

  /** Deduplication happens before normalisation, so two spellings of one address are both
      kept, and the stored group lists the same member twice. */
  lemma CaseVariantsStoredTwice()
    ensures NewGroup(Some("trip"), RawMembers(["A"], "a")) == Some(Group("trip", ["a", "a"]))
  {
    var raw := RawMembers(["A"], "a");
    assert |raw| == 2 && raw[0] == "A" && raw[1] == "a" by { VariantsBothKept(); }
    assert NormalizeMember(raw[0]) == "a" && NormalizeMember(raw[1]) == "a" by { LowerCaseOne(); }
    NewGroupOfVariants("trip", raw, "a");
  }

  /** Two raw members with the same normal form are both stored in it. */
  lemma NewGroupOfVariants(name: string, raw: seq<string>, m: string)
    requires name != "" && m != ""
    requires |raw| == 2 && NormalizeMember(raw[0]) == m && NormalizeMember(raw[1]) == m
    ensures NewGroup(Some(name), raw) == Some(Group(name, [m, m]))
  {
    forall i | 0 <= i < |raw| ensures NormalizeMember(raw[i]) == m {
      assert i == 0 || i == 1;
    }
    var r := NewGroup(Some(name), raw);
    assert r.Some?;
    var ms := r.value.members;
    assert |ms| == 2 && ms[0] == m && ms[1] == m;
    assert ms == [m, m];
  }

  /** Neither spelling repeats the other, so `new Set` keeps both. */
  lemma VariantsBothKept()
    ensures RawMembers(["A"], "a") == ["A", "a"]
  {
    var all: seq<string> := ["A"] + ["a"];
    assert all[..|all| - 1] == ["A"];
    assert Lists.Distinct(["A"]) == ["A"] by {
      assert ["A"][..0] == [];
    }
  }

  lemma LowerCaseOne()
    ensures NormalizeMember("A") == "a" && NormalizeMember("a") == "a"
  {
    Text.TrimOfTrimmed("A");
    Text.TrimOfTrimmed("a");
    assert Text.Lower("A") == [Text.LowerChar('A')];
    assert Text.Lower("a") == [Text.LowerChar('a')];
  }

  /** When every raw member (the creator included) is already in normal form, as the
      group-chat form produces them, the stored members have no duplicates. */
  lemma CreateGroupDistinctWhenNormalized(name: string, members: seq<string>, creatorEmail: string)
    requires name != ""
    requires AllNormalized(members)
    requires NormalizeMember(creatorEmail) == creatorEmail && creatorEmail != ""
    ensures NewGroup(Some(name), RawMembers(members, creatorEmail)).Some?
    ensures Lists.NoDuplicates(NewGroup(Some(name), RawMembers(members, creatorEmail)).value.members)
  {
    var raw := RawMembers(members, creatorEmail);
    assert forall i :: 0 <= i < |raw| ==> NormalizeMember(raw[i]) == raw[i] && raw[i] != "" by {
      forall i | 0 <= i < |raw| ensures NormalizeMember(raw[i]) == raw[i] && raw[i] != "" {
        if raw[i] != creatorEmail {
          assert raw[i] in raw;
          var k :| 0 <= k < |members| && members[k] == raw[i];
        }
      }
    }
    var g := NewGroup(Some(name), raw).value;
    assert g.members == raw;
  }

  // ---------------------------------------------------------------------------
  // messages

  predicate SortedByTimestamp(ms: seq<Doc<Message>>) {
    forall i, j :: 0 <= i < j < |ms| ==> ms[i].data.timestamp <= ms[j].data.timestamp
  }

  /** Inserts one message into a list sorted by timestamp, after those not later. */
  function InsertByTimestamp(m: Doc<Message>, ms: seq<Doc<Message>>): (r: seq<Doc<Message>>)
    requires SortedByTimestamp(ms)
    ensures |r| == |ms| + 1
    ensures SortedByTimestamp(r)
    ensures multiset(r) == multiset(ms) + multiset{m}
    ensures r[0] == m || (ms != [] && r[0] == ms[0])
  {
    if ms == [] || m.data.timestamp <= ms[0].data.timestamp then
      SortedCons(m, ms);
      [m] + ms
    else
      var rest := InsertByTimestamp(m, ms[1..]);
      assert ms == [ms[0]] + ms[1..];
      SortedCons(ms[0], rest);
      [ms[0]] + rest
  }

  lemma SortedCons(m: Doc<Message>, ms: seq<Doc<Message>>)
    requires SortedByTimestamp(ms)
    requires ms == [] || m.data.timestamp <= ms[0].data.timestamp
    ensures SortedByTimestamp([m] + ms)
  {
    var r := [m] + ms;
    forall i, j | 0 <= i < j < |r| ensures r[i].data.timestamp <= r[j].data.timestamp {
      if i == 0 {
        assert r[j] == ms[j - 1];
        assert ms[0].data.timestamp <= ms[j - 1].data.timestamp;
      } else {
        assert r[i] == ms[i - 1] && r[j] == ms[j - 1];
      }
    }
  }

  /** `.sort({ timestamp: 1 })`: the same messages, oldest first. */
  function SortByTimestamp(ms: seq<Doc<Message>>): (r: seq<Doc<Message>>)
    ensures SortedByTimestamp(r)
    ensures multiset(r) == multiset(ms)
  {
    if ms == [] then []
    else
      assert ms == [ms[0]] + ms[1..];
      InsertByTimestamp(ms[0], SortByTimestamp(ms[1..]))
  }

  /** `GET /messages/:groupId`: exactly the group's messages, in ascending timestamp
      order. */
  function GroupMessages(messages: seq<Doc<Message>>, groupId: Id): (r: Reply<seq<Doc<Message>>>)
    ensures r.Ok?
    ensures SortedByTimestamp(r.body)
    ensures multiset(r.body) == multiset(Lists.Filter(messages, (m: Doc<Message>) => m.data.group == groupId))
    ensures forall i :: 0 <= i < |r.body| ==> r.body[i] in messages && r.body[i].data.group == groupId
  {
    var mine := Lists.Filter(messages, (m: Doc<Message>) => m.data.group == groupId);
    var sorted := SortByTimestamp(mine);
    assert forall i :: 0 <= i < |sorted| ==> sorted[i] in mine by {
      forall i | 0 <= i < |sorted| ensures sorted[i] in mine {
        assert sorted[i] in multiset(sorted);
      }
    }
    Ok(sorted)
  }

  // ---------------------------------------------------------------------------
  // send-message

  /** `POST /send-message`: 400 when the group, the content or the sender is missing;
      otherwise one message is appended (201), stamped `now`, whose only reader is its
      sender. The group's existence is not checked. */
  method SendMessage(messages: Table<Message>, groupId: Option<Id>, content: string,
                     senderEmail: string, now: int)
    returns (r: Reply<Doc<Message>>)
    requires messages.Valid()
    modifies messages
    ensures messages.Valid()
    ensures r.BadRequest? <==> groupId.None? || content == "" || senderEmail == ""
    ensures r.Created? ==> r.body.data == Message(senderEmail, groupId.value, content, [senderEmail], now)
                           && messages.docs == old(messages.docs) + [r.body]
    ensures r.BadRequest? ==> messages.docs == old(messages.docs)
    ensures r.Created? || r.BadRequest?
  {
    if groupId.None? || content == "" || senderEmail == "" {
      return BadRequest(MissingFieldsMessage);
    }
    var m := Message(senderEmail, groupId.value, content, [senderEmail], now);
    var id := messages.Insert(m);
    r := Created(Doc(id, m));
  }

  // ---------------------------------------------------------------------------
  // mark-read

  /** `$addToSet`: appends a reader not yet in the list. */
  function AddToSet(readers: seq<string>, reader: string): (r: seq<string>)
    ensures reader in r
    ensures forall i :: 0 <= i < |readers| ==> readers[i] in r
    ensures forall i :: 0 <= i < |r| ==> r[i] in readers || r[i] == reader
    ensures |r| <= |readers| + 1
    ensures reader in readers ==> r == readers
  {
    if reader in readers then readers else readers + [reader]
  }

  /** The messages after `updateMany({ _id: { $in: ids }, group }, { $addToSet: ... })`. */
  function MarkedRead(messages: seq<Doc<Message>>, ids: seq<Id>, groupId: Id, reader: string)
    : (r: seq<Doc<Message>>)
    ensures |r| == |messages|
    ensures forall i :: 0 <= i < |messages| ==>
              r[i].id == messages[i].id
              && (messages[i].id in ids && messages[i].data.group == groupId ==>
                    r[i].data == messages[i].data.(readBy := AddToSet(messages[i].data.readBy, reader)))
              && (!(messages[i].id in ids && messages[i].data.group == groupId) ==> r[i] == messages[i])
  {
    if messages == [] then []
    else
      var m := messages[0];
      [if m.id in ids && m.data.group == groupId then Doc(m.id, m.data.(readBy := AddToSet(m.data.readBy, reader))) else m]
      + MarkedRead(messages[1..], ids, groupId, reader)
  }

  /** Marking the same messages read by the same reader again changes nothing. */
  lemma MarkReadIdempotent(messages: seq<Doc<Message>>, ids: seq<Id>, groupId: Id, reader: string)
    ensures MarkedRead(MarkedRead(messages, ids, groupId, reader), ids, groupId, reader)
            == MarkedRead(messages, ids, groupId, reader)
  {
    var once := MarkedRead(messages, ids, groupId, reader);
    var twice := MarkedRead(once, ids, groupId, reader);
    forall i | 0 <= i < |messages| ensures twice[i] == once[i] {
      if messages[i].id in ids && messages[i].data.group == groupId {
        assert reader in once[i].data.readBy;
      }
    }
  }

  /** `POST /mark-read`: 400 unless `messageIds` is an array; otherwise the reader is
      added, without repetition, to the listed messages of that group, and no other
      message changes. */
  method MarkRead(messages: Table<Message>, messageIds: Option<seq<Id>>, groupId: Id, readerEmail: string)
    returns (r: Reply<bool>)
    requires messages.Valid()
    modifies messages`docs
    ensures messages.Valid()
    ensures r.BadRequest? <==> messageIds.None?
    ensures r.BadRequest? ==> messages.docs == old(messages.docs)
    ensures r.Ok? ==> r.body && messages.docs == MarkedRead(old(messages.docs), messageIds.value, groupId, readerEmail)
    ensures r.Ok? || r.BadRequest?
  {
    if messageIds.None? {
      return BadRequest(NotAnArrayMessage);
    }
    messages.docs := MarkedRead(messages.docs, messageIds.value, groupId, readerEmail);
    r := Ok(true);
  }

  // ---------------------------------------------------------------------------
  // add-member

  /** `group.members.push(member)`; the schema's setters normalise the pushed value. */
  function PushMember(member: string): Group -> Group {
    (g: Group) => g.(members := g.members + [NormalizeMember(member)])
  }

  /** `POST /add-member/:groupId`: 400 without an e-mail; 404 when the group is absent;
      400 when the e-mail, as sent, is already a member; 500 when it is empty once
      normalised; otherwise the normalised e-mail is appended to that group's members and
      nothing else changes. */
  method AddMember(groups: Table<Group>, groupId: Id, memberEmail: string)
    returns (r: Reply<Group>)
    requires groups.Valid()
    modifies groups`docs
    ensures groups.Valid()
    ensures r.BadRequest? <==> memberEmail == ""
                               || (old(Lookup(groups.docs, groupId)).Some?
                                   && memberEmail in old(Lookup(groups.docs, groupId)).value.members)
    ensures r.NotFound? <==> memberEmail != "" && old(Lookup(groups.docs, groupId)).None?
    ensures r.Ok? <==> memberEmail != "" && old(Lookup(groups.docs, groupId)).Some?
                       && memberEmail !in old(Lookup(groups.docs, groupId)).value.members
                       && NormalizeMember(memberEmail) != ""
    ensures r.Ok? ==> groups.docs == Modify(old(groups.docs), groupId, PushMember(memberEmail))
                      && r.body == old(Lookup(groups.docs, groupId)).value.(members :=
                           old(Lookup(groups.docs, groupId)).value.members + [NormalizeMember(memberEmail)])
    ensures r.Ok? ==> NormalizeMember(memberEmail) != ""
    ensures !r.Ok? ==> groups.docs == old(groups.docs)
    ensures r.Ok? || r.BadRequest? || r.NotFound? || r.ServerError?
  {
    if memberEmail == "" {
      return BadRequest(MemberEmailRequiredMessage);
    }
    assert groups.FindById(groupId) == Lookup(groups.docs, groupId);
    var g := Lookup(groups.docs, groupId);
    if g.None? {
      return NotFound(GroupNotFoundMessage);
    }
    if memberEmail in g.value.members {
      return BadRequest(AlreadyMemberMessage);
    }
    if NormalizeMember(memberEmail) == "" {
      return ServerError(AddFailedMessage);
    }
    var u := groups.FindByIdAndUpdate(groupId, PushMember(memberEmail));
    r := Ok(u.value);
  }

  /** The membership check compares the e-mail as sent with the normalised members. For
      a group without duplicates that the check lets an address into, the members stay
      free of duplicates exactly when the address's normal form was not yet a member: a
      differently spelled address of a member passes and its normal form is stored twice. */
  lemma AddMemberKeepsDistinct(g: Group, e: string)
    requires Lists.NoDuplicates(g.members) && e !in g.members
    ensures Lists.NoDuplicates(PushMember(e)(g).members) <==> NormalizeMember(e) !in g.members
  {
    var ms := PushMember(e)(g).members;
    assert ms == g.members + [NormalizeMember(e)];
    if NormalizeMember(e) in g.members {
      var k :| 0 <= k < |g.members| && g.members[k] == NormalizeMember(e);
      assert ms[k] == ms[|ms| - 1];
    }
  }

  /** Such an address exists: "A" is not listed in a group holding "a", and adding it
      lists "a" twice. */
  lemma AddMemberCaseVariant()
    ensures "A" !in ["a"]
    ensures PushMember("A")(Group("trip", ["a"])) == Group("trip", ["a", "a"])
  {
    LowerCaseOne();
  }
}
