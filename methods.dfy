/** The server's Meteor methods, as guarded updates on an in-memory store of
    tickets, users and announcements. Each method takes the caller id
    (None when nobody is logged in), and the current time or a freshly
    generated document id where the source asks the clock or the database
    for one. A refused call changes nothing. */
module Methods {
  import opened Domain
  import opened Authorized

  // ---------------------------------------------------------------------
  // Ticket updates: the `$set` documents and Mongo's update-by-id
  // ---------------------------------------------------------------------

  /** The field changes the ticket methods ask Mongo to `$set`. */
  datatype Patch =
    | ClaimBy(mentorId: Id, mentorName: string, time: int)
    | CompleteBy(mentorId: Id, mentorName: string, time: int)
    | Reopen
    | Cancel

  /** The ticket after a `$set`: only the status and the claim and completion
      fields are written; the owner, the request and the rating are kept. */
  function Apply(p: Patch, t: Ticket): (r: Ticket)
    ensures r.userId == t.userId && r.name == t.name && r.timestamp == t.timestamp
    ensures r.topic == t.topic && r.location == t.location && r.contact == t.contact
    ensures r.rating == t.rating
    ensures p.ClaimBy? || p.CompleteBy? ==> r.claimId == Some(p.mentorId) && r.claimName == Some(p.mentorName)
    ensures p.ClaimBy? ==> IsActive(r.status) && r.claimTime == Some(p.time) && r.completeTime == t.completeTime
    ensures p.CompleteBy? ==> !IsActive(r.status) && r.completeTime == Some(p.time) && r.claimTime == t.claimTime
    ensures p.Reopen? ==> r.claimId == None && r.claimName == None && IsActive(r.status)
    ensures p.Reopen? ==> r.claimTime == t.claimTime && r.completeTime == t.completeTime
    ensures p.Cancel? ==> r.status == Cancelled && r.claimId == t.claimId && r.claimName == t.claimName
    ensures p.Cancel? ==> r.claimTime == t.claimTime && r.completeTime == t.completeTime
  {
    match p
    case ClaimBy(m, name, time) =>
      t.(status := Claimed, claimId := Some(m), claimName := Some(name), claimTime := Some(time))
    case CompleteBy(m, name, time) =>
      t.(status := Complete, claimId := Some(m), claimName := Some(name), completeTime := Some(time))
    case Reopen =>
      t.(status := Open, claimId := None, claimName := None)
    case Cancel =>
      t.(status := Cancelled)
  }

  /** `Tickets.update({_id: id}, {$set: ...})`: the ticket with that id is
      patched; an absent id matches nothing and nothing is inserted. */
  function Update(m: map<Id, Ticket>, id: Id, p: Patch): (r: map<Id, Ticket>)
    ensures r.Keys == m.Keys
    ensures forall k :: k in m && k != id ==> r[k] == m[k]
    ensures id in m ==> r[id] == Apply(p, m[id])
  {
    if id in m then m[id := Apply(p, m[id])] else m
  }

  /** Claiming does not look at the current status: a CANCELLED or COMPLETE
      ticket becomes CLAIMED again, by the new mentor. */
  lemma ClaimIgnoresStatus(t: Ticket, m: Id, name: string, time: int)
    ensures Apply(ClaimBy(m, name, time), t).status == Claimed
    ensures Apply(ClaimBy(m, name, time), t).claimId == Some(m)
    ensures Apply(ClaimBy(m, name, time), t).completeTime == t.completeTime
  {
  }

  /** Completing re-stamps the claim with the completer, whoever claimed it. */
  lemma CompleteRestampsClaim(t: Ticket, m: Id, name: string, time: int)
    ensures Apply(CompleteBy(m, name, time), t).status == Complete
    ensures Apply(CompleteBy(m, name, time), t).claimId == Some(m)
    ensures Apply(CompleteBy(m, name, time), t).claimName == Some(name)
    ensures Apply(CompleteBy(m, name, time), t).claimTime == t.claimTime
  {
  }

  /** Reopening clears the claim (but not claimTime) and is idempotent. */
  lemma ReopenIdempotent(tickets: map<Id, Ticket>, id: Id)
    ensures var once := Update(tickets, id, Reopen);
            && Update(once, id, Reopen) == once
            && (id in tickets ==> once[id].status == Open && once[id].claimId == None && once[id].claimName == None)
  {
  }

  /** The ids of the OPEN or CLAIMED tickets owned by user u:
      `Tickets.find({userId: u, status: {$in: ["OPEN", "CLAIMED"]}})`. */
  function ActiveTicketsOf(tickets: map<Id, Ticket>, u: Id): (r: set<Id>)
    ensures r <= tickets.Keys
    ensures forall k :: k in r ==> tickets[k].userId == u && tickets[k].status != Complete && tickets[k].status != Cancelled
    ensures forall k :: k in tickets && tickets[k].userId == u && (tickets[k].status == Open || tickets[k].status == Claimed) ==> k in r
  {
    set k | k in tickets && tickets[k].userId == u && IsActive(tickets[k].status)
  }

  /** The document createTicket inserts. */
  function NewTicket(owner: Id, name: string, topic: string, location: string, contact: string, now: int): Ticket
  {
    Ticket(owner, name, topic, location, contact, now, Open, None, None, None, None, None)
  }

  /** createTicket's guard: a logged-in user with no active ticket. */
  predicate CanCreate(tickets: map<Id, Ticket>, users: map<Id, User>, caller: Option<Id>)
  {
    IsUser(users, caller) && ActiveTicketsOf(tickets, caller.value) == {}
  }

  /** After a ticket is inserted under a fresh id, an owner who had no active
      ticket owns exactly that one, and a second create is refused. */
  lemma InsertActive(tickets: map<Id, Ticket>, users: map<Id, User>, caller: Option<Id>, newId: Id, t: Ticket)
    requires newId !in tickets
    requires CanCreate(tickets, users, caller)
    requires t.userId == caller.value && t.status == Open
    ensures ActiveTicketsOf(tickets[newId := t], caller.value) == {newId}
    ensures !CanCreate(tickets[newId := t], users, caller)
  {
    var after := ActiveTicketsOf(tickets[newId := t], caller.value);
    assert newId in after;
    assert after - {newId} <= ActiveTicketsOf(tickets, caller.value);
  }

  // ---------------------------------------------------------------------
  // User updates: toggleRole and updateUser
  // ---------------------------------------------------------------------

  /** The only roles toggleRole accepts. */
  const Roles: seq<string> := ["admin", "mentor"]

  /** `profile[role] = !user.profile[role]`: the flag's truthiness flips, it
      becomes a boolean, and no other field changes. */
  function Toggled(u: User, role: string): (r: User)
    ensures Truthy(Get(r.profile, role)) == !Truthy(Get(u.profile, role))
    ensures role in r.profile && r.profile[role].Bool?
    ensures r.profile.Keys == u.profile.Keys + {role}
    ensures forall k :: k != role ==> Get(r.profile, k) == Get(u.profile, k)
  {
    User(u.profile[role := Bool(!Truthy(Get(u.profile, role)))])
  }

  /** Toggling twice restores the flag's truthiness, and gives back the very
      profile when the flag was a boolean (`!undefined` is true, so an absent
      flag comes back as false, not absent). */
  lemma ToggleTwice(u: User, role: string)
    ensures Truthy(Get(Toggled(Toggled(u, role), role).profile, role)) == Truthy(Get(u.profile, role))
    ensures role in u.profile && u.profile[role].Bool? ==> Toggled(Toggled(u, role), role) == u
  {
    if role in u.profile && u.profile[role].Bool? {
      assert Toggled(Toggled(u, role), role).profile == u.profile;
    }
  }

  /** Toggling a user's "mentor" flag flips what the oracle says about them
      as a mentor, and leaves what it says about them as an admin. The same
      holds the other way round for "admin". */
  lemma ToggleFlipsRole(users: map<Id, User>, id: Id)
    requires id in users
    ensures var mentorToggled := users[id := Toggled(users[id], "mentor")];
            && IsMentor(mentorToggled, Some(id)) == !IsMentor(users, Some(id))
            && IsAdmin(mentorToggled, Some(id)) == IsAdmin(users, Some(id))
    ensures var adminToggled := users[id := Toggled(users[id], "admin")];
            && IsAdmin(adminToggled, Some(id)) == !IsAdmin(users, Some(id))
            && IsMentor(adminToggled, Some(id)) == IsMentor(users, Some(id))
  {
  }

  /** The profile fields updateUser copies when they hold a string. */
  const ValidFields: seq<string> := ["name", "email", "phone"]

  /** Field k of the submitted changes is taken: a string for one of the
      valid fields, or an array for "skills". */
  predicate Accepted(submitted: map<string, Value>, k: string)
  {
    || AcceptedAmong(ValidFields, submitted, k)
    || (k == "skills" && k in submitted && submitted[k].Arr?)
  }

  /** The string test of Accepted, over the first few valid fields only: the
      form CopyValidFields' loop invariant needs after each field. */
  predicate AcceptedAmong(fields: seq<string>, submitted: map<string, Value>, k: string)
  {
    k in fields && k in submitted && submitted[k].Str?
  }

  /** The profile after the accepted changes are copied over it. */
  function EditedProfile(profile: Profile, submitted: map<string, Value>): (r: Profile)
    ensures profile.Keys <= r.Keys
    ensures forall k :: k in r && k !in profile ==> k in ValidFields || k == "skills"
    ensures forall k :: k in r ==> r[k] == Get(profile, k) || (k in submitted && r[k] == submitted[k])
    ensures forall k :: k in ValidFields && k in submitted && submitted[k].Str? ==> k in r && r[k] == submitted[k]
    ensures "skills" in submitted && submitted["skills"].Arr? ==> "skills" in r && r["skills"] == submitted["skills"]
    ensures forall k :: k in r && r[k] != Get(profile, k) ==> (k in ValidFields && r[k].Str?) || (k == "skills" && r[k].Arr?)
  {
    map k | k in profile.Keys + submitted.Keys && (k in profile || Accepted(submitted, k)) ::
      if Accepted(submitted, k) then submitted[k] else profile[k]
  }

  /** Editing never adds, removes or changes a field other than name,
      email, phone and skills; in particular the role flags stay. */
  lemma EditedProfileKeepsOtherFields(profile: Profile, submitted: map<string, Value>, k: string)
    requires k !in ValidFields && k != "skills"
    ensures Get(EditedProfile(profile, submitted), k) == Get(profile, k)
  {
  }

  /** Once the string fields are copied, the skills check completes the edit. */
  lemma SkillsStep(profile: Profile, submitted: map<string, Value>, copied: Profile)
    requires forall k :: k in copied <==> k in profile || AcceptedAmong(ValidFields, submitted, k)
    requires forall k :: k in copied ==>
      copied[k] == if AcceptedAmong(ValidFields, submitted, k) then submitted[k] else profile[k]
    ensures (if "skills" in submitted && submitted["skills"].Arr? then copied["skills" := submitted["skills"]] else copied)
            == EditedProfile(profile, submitted)
  {
  }

  /** The forEach over validFields, then the skills check, assigning into a
      copy of the stored profile. */
  method CopyValidFields(profile: Profile, submitted: map<string, Value>) returns (r: Profile)
    ensures r == EditedProfile(profile, submitted)
    ensures Get(r, "admin") == Get(profile, "admin") && Get(r, "mentor") == Get(profile, "mentor")
  {
    r := profile;
    var i := 0;
    while i < |ValidFields|
      invariant 0 <= i <= |ValidFields|
      invariant forall k :: k in r <==> k in profile || AcceptedAmong(ValidFields[..i], submitted, k)
      invariant forall k :: k in r ==>
        r[k] == if AcceptedAmong(ValidFields[..i], submitted, k) then submitted[k] else profile[k]
    {
      var field := ValidFields[i];
      assert ValidFields[..i + 1] == ValidFields[..i] + [field];
      if field in submitted && submitted[field].Str? {
        r := r[field := submitted[field]];
      }
      i := i + 1;
    }
    assert ValidFields[..i] == ValidFields;
    SkillsStep(profile, submitted, r);
    if "skills" in submitted && submitted["skills"].Arr? {
      r := r["skills" := submitted["skills"]];
    }
    EditedProfileKeepsOtherFields(profile, submitted, "admin");
    EditedProfileKeepsOtherFields(profile, submitted, "mentor");
  }

  // ---------------------------------------------------------------------
  // The store and its methods
  // ---------------------------------------------------------------------

  class Store {
    var tickets: map<Id, Ticket>
    var users: map<Id, User>
    var announcements: map<Id, Announcement>

    /** The display name the server records for a user (_getUserName),
        whose code is not part of this model. */
    const displayName: User -> string

    constructor (tickets0: map<Id, Ticket>, users0: map<Id, User>,
                 announcements0: map<Id, Announcement>, displayName: User -> string)
      ensures tickets == tickets0 && users == users0 && announcements == announcements0
      ensures this.displayName == displayName
    {
      tickets := tickets0;
      users := users0;
      announcements := announcements0;
      this.displayName := displayName;
    }

    /** createTicket(topic, location, contact): a logged-in user without an
        active ticket gets one new OPEN ticket; otherwise nothing happens.
        Returns nothing either way. */
    method CreateTicket(caller: Option<Id>, topic: string, location: string, contact: string,
                        now: int, newId: Id)
      requires newId !in tickets
      modifies this
      ensures users == old(users) && announcements == old(announcements)
      ensures CanCreate(old(tickets), users, caller) ==>
        && tickets == old(tickets)[newId := NewTicket(caller.value, displayName(users[caller.value]),
                                                      topic, location, contact, now)]
        && ActiveTicketsOf(tickets, caller.value) == {newId}
        && !CanCreate(tickets, users, caller)
      ensures !CanCreate(old(tickets), users, caller) ==> tickets == old(tickets)
    {
      if IsUser(users, caller) {
        var active := ActiveTicketsOf(tickets, caller.value);
        if active != {} {
          return;
        }
        var user := users[caller.value];
        var t := NewTicket(caller.value, displayName(user), topic, location, contact, now);
        InsertActive(tickets, users, caller, newId, t);
        tickets := tickets[newId := t];
      }
    }

    /** claimTicket(id): a mentor claims the ticket whatever its status and
        gets true; anyone else gets false and changes nothing. */
    method ClaimTicket(caller: Option<Id>, id: Id, now: int) returns (reply: Reply)
      modifies this
      ensures users == old(users) && announcements == old(announcements)
      ensures IsMentor(users, caller) ==>
        && reply == Returned(true)
        && tickets == Update(old(tickets), id, ClaimBy(caller.value, displayName(users[caller.value]), now))
      ensures !IsMentor(users, caller) ==> reply == Returned(false) && tickets == old(tickets)
    {
      if IsMentor(users, caller) {
        var user := users[caller.value];
        tickets := Update(tickets, id, ClaimBy(caller.value, displayName(user), now));
        return Returned(true);
      }
      return Returned(false);
    }

    /** completeTicket(id): a mentor completes the ticket whatever its status,
        re-stamping the claim with their own id and name. */
    method CompleteTicket(caller: Option<Id>, id: Id, now: int) returns (reply: Reply)
      modifies this
      ensures users == old(users) && announcements == old(announcements)
      ensures IsMentor(users, caller) ==>
        && reply == Returned(true)
        && tickets == Update(old(tickets), id, CompleteBy(caller.value, displayName(users[caller.value]), now))
      ensures !IsMentor(users, caller) ==> reply == Returned(false) && tickets == old(tickets)
    {
      if IsMentor(users, caller) {
        var user := users[caller.value];
        tickets := Update(tickets, id, CompleteBy(caller.value, displayName(user), now));
        return Returned(true);
      }
      return Returned(false);
    }

    /** reopenTicket(id): a mentor sets the ticket back to OPEN and clears
        the claim. */
    method ReopenTicket(caller: Option<Id>, id: Id) returns (reply: Reply)
      modifies this
      ensures users == old(users) && announcements == old(announcements)
      ensures IsMentor(users, caller) ==> reply == Returned(true) && tickets == Update(old(tickets), id, Reopen)
      ensures !IsMentor(users, caller) ==> reply == Returned(false) && tickets == old(tickets)
    {
      if IsMentor(users, caller) {
        tickets := Update(tickets, id, Reopen);
        return Returned(true);
      }
      return Returned(false);
    }

    /** cancelTicket(id): a mentor or the ticket's owner cancels it and gets
        true; anyone else gets undefined. A non-mentor naming a missing
        ticket makes the owner check read a property of undefined. */
    method CancelTicket(caller: Option<Id>, id: Id) returns (reply: Reply)
      modifies this
      ensures users == old(users) && announcements == old(announcements)
      ensures IsMentor(users, caller) ==> reply == Returned(true) && tickets == Update(old(tickets), id, Cancel)
      ensures !IsMentor(users, caller) && id !in old(tickets) ==> reply == Throws && tickets == old(tickets)
      ensures !IsMentor(users, caller) && id in old(tickets) && caller == Some(old(tickets)[id].userId) ==>
        reply == Returned(true) && tickets == Update(old(tickets), id, Cancel)
      ensures !IsMentor(users, caller) && id in old(tickets) && caller != Some(old(tickets)[id].userId) ==>
        reply == Undefined && tickets == old(tickets)
    {
      if IsMentor(users, caller) {
        tickets := Update(tickets, id, Cancel);
        return Returned(true);
      }
      if id !in tickets {
        return Throws;
      }
      if caller == Some(tickets[id].userId) {
        tickets := Update(tickets, id, Cancel);
        return Returned(true);
      }
      return Undefined;
    }

    /** deleteTicket(id): an admin removes the ticket (nothing to remove if
        the id is absent); returns nothing. */
    method DeleteTicket(caller: Option<Id>, id: Id)
      modifies this
      ensures users == old(users) && announcements == old(announcements)
      ensures IsAdmin(users, caller) ==> tickets == old(tickets) - {id}
      ensures !IsAdmin(users, caller) ==> tickets == old(tickets)
    {
      if IsAdmin(users, caller) {
        tickets := tickets - {id};
      }
    }

    /** createAnnouncement(header, content): admins only. */
    method CreateAnnouncement(caller: Option<Id>, header: string, content: string, now: int, newId: Id)
      returns (reply: Reply)
      requires newId !in announcements
      modifies this
      ensures tickets == old(tickets) && users == old(users)
      ensures IsAdmin(users, caller) ==>
        && reply == Returned(true)
        && announcements == old(announcements)[newId := Announcement(caller.value,
             displayName(users[caller.value]), now, header, content)]
      ensures !IsAdmin(users, caller) ==> reply == Returned(false) && announcements == old(announcements)
    {
      if IsAdmin(users, caller) {
        var user := users[caller.value];
        announcements := announcements[newId := Announcement(caller.value, displayName(user), now, header, content)];
        return Returned(true);
      }
      return Returned(false);
    }

    /** deleteAnnouncement(id): admins only. */
    method DeleteAnnouncement(caller: Option<Id>, id: Id) returns (reply: Reply)
      modifies this
      ensures tickets == old(tickets) && users == old(users)
      ensures IsAdmin(users, caller) ==> reply == Returned(true) && announcements == old(announcements) - {id}
      ensures !IsAdmin(users, caller) ==> reply == Returned(false) && announcements == old(announcements)
    {
      if IsAdmin(users, caller) {
        announcements := announcements - {id};
        return Returned(true);
      }
      return Returned(false);
    }

    /** toggleRole(role, id): an admin flips the "admin" or "mentor" flag of
        user id; any other role, or a non-admin caller, gets undefined. A
        missing target user makes `user.profile` throw. */
    method ToggleRole(caller: Option<Id>, role: string, id: Id) returns (reply: Reply)
      modifies this
      ensures tickets == old(tickets) && announcements == old(announcements)
      ensures !IsAdmin(old(users), caller) || role !in Roles ==> reply == Undefined && users == old(users)
      ensures IsAdmin(old(users), caller) && role in Roles && id !in old(users) ==>
        reply == Throws && users == old(users)
      ensures IsAdmin(old(users), caller) && role in Roles && id in old(users) ==>
        reply == Returned(true) && users == old(users)[id := Toggled(old(users)[id], role)]
    {
      if IsAdmin(users, caller) {
        if role !in Roles {
          return Undefined;
        }
        if id !in users {
          return Throws;
        }
        users := users[id := Toggled(users[id], role)];
        return Returned(true);
      }
      return Undefined;
    }

    /** updateUser(id, profile): an admin, or the user themself, copies the
        submitted name, email, phone (strings) and skills (an array) into the
        stored profile; nothing else can change, the role flags included.
        A missing user makes the lookup throw. Returns nothing. */
    method UpdateUser(caller: Option<Id>, id: Id, submitted: map<string, Value>) returns (reply: Reply)
      modifies this
      ensures tickets == old(tickets) && announcements == old(announcements)
      ensures id !in old(users) ==> reply == Throws && users == old(users)
      ensures id in old(users) && (IsAdmin(old(users), caller) || caller == Some(id)) ==>
        && reply == Undefined
        && users == old(users)[id := User(EditedProfile(old(users)[id].profile, submitted))]
        && Get(users[id].profile, "admin") == Get(old(users)[id].profile, "admin")
        && Get(users[id].profile, "mentor") == Get(old(users)[id].profile, "mentor")
      ensures id in old(users) && !(IsAdmin(old(users), caller) || caller == Some(id)) ==>
        reply == Undefined && users == old(users)
    {
      if id !in users {
        return Throws;
      }
      var user := users[id];
      if IsAdmin(users, caller) || caller == Some(id) {
        var edited := CopyValidFields(user.profile, submitted);
        users := users[id := User(edited)];
      }
      return Undefined;
    }
  }
}
