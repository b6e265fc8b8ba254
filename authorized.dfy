/** The authorization oracle used by every server method. Its code is not
    part of this model; it is kept abstract as three predicates over the
    caller id (None when nobody is logged in) and the user store. */
module Authorized {
  import opened Domain

  /** authorized.user: the caller is logged in with an existing account. */
  predicate IsUser(users: map<Id, User>, caller: Option<Id>)
  {
    caller.Some? && caller.value in users
  }

  /** authorized.mentor: a logged-in user whose profile.mentor is set. */
  predicate IsMentor(users: map<Id, User>, caller: Option<Id>)
  {
    IsUser(users, caller) && Truthy(Get(users[caller.value].profile, "mentor"))
  }

  /** authorized.admin: a logged-in user whose profile.admin is set. */
  predicate IsAdmin(users: map<Id, User>, caller: Option<Id>)
  {
    IsUser(users, caller) && Truthy(Get(users[caller.value].profile, "admin"))
  }
}
