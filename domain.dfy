/** Records shared by the server methods and the leaderboard: users with a
    loosely typed profile, tickets, announcements, and the ways a Meteor
    method can end (a returned boolean, no value, or a thrown error). */
module Domain {

  /** Meteor document ids and user ids are strings. */
  type Id = string

  datatype Option<+T> = None | Some(value: T)

  /** A JSON-like field value as stored in a user profile. Floating-point
      numbers are not modelled; numbers are integers. */
  datatype Value = Null | Bool(b: bool) | Num(n: int) | Str(s: string) | Arr(items: seq<Value>)

  /** JavaScript truthiness of a value. */
  predicate Truthy(v: Value)
  {
    match v
    case Null => false
    case Bool(b) => b
    case Num(n) => n != 0
    case Str(s) => s != ""
    case Arr(_) => true
  }

  /** A profile is a free-form document: name, email, phone, skills and the
      role flags admin and mentor are just keys in it. */
  type Profile = map<string, Value>

  /** Reading a profile field; an absent field reads as undefined, which
      behaves like Null everywhere it is used here. */
  function Get(p: Profile, key: string): Value
  {
    if key in p then p[key] else Null
  }

  datatype User = User(profile: Profile)

  datatype Status = Open | Claimed | Complete | Cancelled

  /** A ticket is active while it is OPEN or CLAIMED. */
  predicate IsActive(s: Status)
  {
    s == Open || s == Claimed
  }

  /** A ticket document. Fields the source leaves unset (claimId before a
      claim, rating before the owner rates) are None; a field the source
      sets to null (claimId after a reopen) is None as well. */
  datatype Ticket = Ticket(
    userId: Id,
    name: string,
    topic: string,
    location: string,
    contact: string,
    timestamp: int,
    status: Status,
    claimId: Option<Id>,
    claimName: Option<string>,
    claimTime: Option<int>,
    completeTime: Option<int>,
    rating: Option<int>)

  datatype Announcement = Announcement(
    userId: Id,
    name: string,
    timestamp: int,
    header: string,
    content: string)

  /** How a Meteor method ends: it returns a boolean, it returns nothing
      (undefined), or it throws (a property read on an undefined document). */
  datatype Reply = Returned(value: bool) | Undefined | Throws

  /** The outcome of a computation that can throw. */
  datatype Result<+T> = Ok(value: T) | Failure
}
