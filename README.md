# HelpQ ticket methods and mentor leaderboard, modelled in Dafny

HelpQ is a help-desk application. Users open support tickets. Mentors claim,
complete and reopen them. The owner or a mentor can cancel a ticket. Admins
delete tickets, manage announcements and toggle roles. A leaderboard ranks
mentors by a smoothed rating score.

This project models two parts of it:

- **The server's Meteor methods** (`methods.dfy`, module `Methods`). A class
  `Store` holds the ticket, user and announcement collections as maps keyed
  by document id. Each Meteor method is a method on the store. It takes the
  caller id (`None` when nobody is logged in). Where the source reads the
  clock or lets Mongo generate an id, the method takes `now` or `newId` as a
  parameter instead. Each method's contract gives the effect when its guard
  holds, no change when it fails, and, through `Update`, that every other
  ticket stays as it was. The ticket changes are the `$set` documents of the
  source (`Patch`, `Apply`); Mongo's update-by-id is `Update`, which does
  nothing when the id is absent.
- **The leaderboard** (`leaderboard.dfy`, module `Leaderboard`). `TopMentors`
  queries the COMPLETE tickets. A loop (`GroupByMentor`) groups them by claim
  id. Each mentor is scored with `LaplaceSmooth`, the rows are stable-sorted
  highest score first (`SortByRating`), numbered from zero and cut to `num`.
  `TopMentors` is proved equal to the specification function `Ranking`. The
  lemmas about `Ranking` give the ordering, numbering, length, uniqueness,
  ticket-count and top-N properties.

Shared records are in `domain.dfy`: tickets, users with a free-form profile
map, announcements, and how a method ends (`Reply`: a returned boolean,
undefined, or a thrown error). The authorization oracle is in
`authorized.dfy`, as three predicates over the user map.

Scores are whole numbers of tenths. The model rounds the exact quotient
(sum + 6) / (count + 2) to the nearest tenth, and an exact tie goes to the
larger tenth. `RoundTenths` states this as two inequalities, and
`RoundTenthsUnique` shows that they fix the value. JavaScript's `toFixed(1)`
rounds the double nearest to the quotient instead. The two differ on some
ties, listed under "Left out".

Three behaviours of the code are worth knowing:

- CANCELLED is not a final state. `claimTicket`, `completeTicket` and
  `reopenTicket` never read the status. A cancelled ticket can be claimed
  again, and a complete one reopened (`ClaimIgnoresStatus`).
- A mentor's claim, complete, reopen or cancel on a missing ticket id updates
  nothing and still returns true (`Update`). Only `cancelTicket` by a
  non-mentor throws, because it reads the owner of the missing ticket.
- `t.rating` is pushed whether or not it is set. So a completed ticket
  without a rating counts in `numTickets` and in the denominator of the
  score.

## Model

| member | source | states |
|---|---|---|
| `Methods.Store.CreateTicket` | server/methods.js:19-48 | a logged-in caller with no OPEN or CLAIMED ticket gets exactly one new OPEN ticket owned by them, and all existing tickets stay unchanged; afterwards the caller owns exactly that one active ticket and a second create is refused; otherwise nothing changes |
| `Methods.InsertActive` | server/methods.js:23-44 | inserting an OPEN ticket under a fresh id for an owner with no active ticket leaves the owner with exactly that one active ticket, so the create guard then refuses |
| `Methods.Apply` | server/methods.js:57-121 | each `$set` document writes only the status and the claim or completion fields. Owner, name, topic, location, contact, timestamp and rating stay. Claim sets an active status, the claimer and claimTime. Complete sets an inactive status, the completer as claimer and completeTime. Reopen clears claimId and claimName and makes the ticket active. Cancel sets CANCELLED and keeps every claim and time field |
| `Methods.ActiveTicketsOf` | server/methods.js:23-29 | the query returns every OPEN or CLAIMED ticket of that user, and only existing tickets of that user whose status is neither COMPLETE nor CANCELLED |
| `Methods.Update` | server/methods.js:54-63 | an update by id keeps the same set of ids, changes only the ticket with that id, and does nothing when the id is absent |
| `Methods.Store.ClaimTicket` | server/methods.js:50-69 | a mentor sets status CLAIMED, claimId, claimName and claimTime and gets true; a non-mentor gets false and nothing changes |
| `Methods.ClaimIgnoresStatus` | server/methods.js:54-63 | a claim makes any ticket CLAIMED by the claimer, whatever its previous status (CANCELLED and COMPLETE included) |
| `Methods.Store.CompleteTicket` | server/methods.js:71-90 | a mentor sets status COMPLETE and re-stamps claimId and claimName with themself and gets true; a non-mentor gets false and nothing changes |
| `Methods.CompleteRestampsClaim` | server/methods.js:75-84 | completing overwrites claimId and claimName with the completer, even when another mentor had claimed the ticket, and keeps claimTime |
| `Methods.Store.ReopenTicket` | server/methods.js:92-108 | a mentor sets status OPEN and clears claimId and claimName and gets true; a non-mentor gets false and nothing changes |
| `Methods.ReopenIdempotent` | server/methods.js:95-103 | reopening twice gives the same store as reopening once; a reopened ticket is OPEN with no claim |
| `Methods.Store.CancelTicket` | server/methods.js:110-127 | the ticket becomes CANCELLED with reply true exactly when the caller is a mentor or the owner; a non-mentor who is not the owner gets undefined and nothing changes; a non-mentor naming a missing ticket gets an error |
| `Methods.Store.DeleteTicket` | server/methods.js:129-137 | an admin removes exactly that id; anyone else changes nothing |
| `Methods.Store.CreateAnnouncement` | server/methods.js:139-153 | an admin adds one announcement under a fresh id and gets true; anyone else gets false and nothing changes |
| `Methods.Store.DeleteAnnouncement` | server/methods.js:155-164 | an admin removes exactly that announcement id and gets true; anyone else gets false and nothing changes |
| `Methods.Store.ToggleRole` | server/methods.js:166-183 | only an admin, and only for "admin" or "mentor", flips that one flag of the target user and gets true; any other role or caller gets undefined and nothing changes; a missing target user gives an error |
| `Methods.Toggled` | server/methods.js:174 | the flag's truthiness flips and it becomes a boolean; the profile gains at most that key, and no other field changes |
| `Methods.ToggleTwice` | server/methods.js:172-180 | toggling twice restores the flag's truthiness, and restores the whole profile when the flag was a boolean |
| `Methods.ToggleFlipsRole` | server/methods.js:172-180 | toggling "mentor" flips the oracle's mentor verdict for that user and keeps the admin verdict, and the other way round for "admin" |
| `Methods.CopyValidFields` | server/methods.js:192-210 | the loop over the valid fields and the skills check produce the stored profile with only string name, email and phone and array skills taken from the submission; admin and mentor stay as they were |
| `Methods.EditedProfile` | server/methods.js:199-210 | a submitted string name, email or phone and a submitted array skills are stored; a field's value changes only to such a string or array; every existing field is kept, no field other than those four is added, and each value is the stored or the submitted one |
| `Methods.EditedProfileKeepsOtherFields` | server/methods.js:192-210 | every field other than name, email, phone and skills reads the same after editing, the role flags included |
| `Methods.Store.UpdateUser` | server/methods.js:188-222 | an admin or the user themself replaces that user's profile by the edited profile, with the role flags unchanged; anyone else changes nothing; a missing user gives an error; the reply is undefined |
| `Leaderboard.Completed` | client/components/leaderboard/leaderboard.js:20-22 | the query returns exactly the COMPLETE tickets (through `Keep`, which keeps exactly the tickets passing its test, in order). It loses no mentor and no rating the leaderboard uses (`KeepPreservesRanking`) |
| `Leaderboard.MentorIds` | client/components/leaderboard/leaderboard.js:25-36 | the dictionary keys number no more than the tickets, and none is the empty claim id |
| `Leaderboard.RatingsOf` | client/components/leaderboard/leaderboard.js:25-34 | a mentor's list is no longer than the ticket list, and every entry is the rating of a COMPLETE ticket that mentor claimed |
| `Leaderboard.GroupByMentor` | client/components/leaderboard/leaderboard.js:25-34 | the loop over completed tickets builds one group per truthy claim id, keyed in first-seen order, holding exactly that mentor's ratings in ticket order |
| `Leaderboard.MentorIdsDistinct` | client/components/leaderboard/leaderboard.js:27-36 | each mentor id occurs once among the dictionary keys |
| `Leaderboard.MentorIdsAreContributors` | client/components/leaderboard/leaderboard.js:26-33 | a mentor is a key exactly when some COMPLETE ticket has their truthy claim id, and then their list is non-empty |
| `Leaderboard.RatingsOfCountsTickets` | client/components/leaderboard/leaderboard.js:32-41 | the length of a mentor's list, which is numTickets, equals the number of tickets that mentor completed |
| `Leaderboard.KeepPreservesRanking` | client/components/leaderboard/leaderboard.js:20-26 | any filter that keeps every COMPLETE claimed ticket changes neither the mentors nor their ratings, so the COMPLETE query loses nothing |
| `Leaderboard.RankingIgnoresOtherTickets` | client/components/leaderboard/leaderboard.js:20-34 | only tickets that are COMPLETE and have a truthy claimId influence the leaderboard |
| `Leaderboard.RoundTenths` | client/components/leaderboard/leaderboard.js:56 | the result is the tenth nearest to num / den, taking the larger one on an exact tie |
| `Leaderboard.RoundTenthsUnique` | client/components/leaderboard/leaderboard.js:56 | exactly one number of tenths satisfies the rounding bounds |
| `Leaderboard.LaplaceSmooth` | client/components/leaderboard/leaderboard.js:52-57 | the score is (sum + 6) / (count + 2) rounded to the nearest tenth, ties up |
| `Leaderboard.LaplaceSmoothEmpty` | client/components/leaderboard/leaderboard.js:52-56 | an empty rating list scores 3.0 |
| `Leaderboard.LaplaceSmoothExamples` | client/components/leaderboard/leaderboard.js:52-57 | ratings 5, 5, 5 score 4.2 and a single 3 scores 3.0 |
| `Leaderboard.LaplaceSmoothBounds` | client/components/leaderboard/leaderboard.js:52-57 | when every rating is 1 to 5 stars, the score lies between 1.0 and 5.0 |
| `Leaderboard.SortByRatingCorrect` | client/components/leaderboard/leaderboard.js:43-44 | the sort gives non-increasing scores, is a permutation of its input, and keeps rows of equal score in their input order (stable) |
| `Leaderboard.ScoredMentors` | client/components/leaderboard/leaderboard.js:37-42 | one row per dictionary key, in key order; each row holds that mentor's user profile, smoothed score and number of collected ratings (`Describes`) |
| `Leaderboard.SortByRating` | client/components/leaderboard/leaderboard.js:43-44 | the sorted list has as many rows as its input, and exactly the same rows |
| `Leaderboard.Stamp` | client/components/leaderboard/leaderboard.js:45-47 | the numbered list keeps the length and order of its input, and row i gets index i |
| `Leaderboard.Take` | client/components/leaderboard/leaderboard.js:48 | `slice(0, num)` returns a prefix of the list, of length min(num, length) for num >= 0 and by the slice rules otherwise |
| `Leaderboard.SortByRatingDistinct` | client/components/leaderboard/leaderboard.js:43-44 | sorting keeps each mentor at most once |
| `Leaderboard.Ranking` | client/components/leaderboard/leaderboard.js:18-50 | a successful ranking has no more rows than there are mentors with a completed ticket, and every row's mentor has a user record |
| `Leaderboard.RankingFails` | client/components/leaderboard/leaderboard.js:37-42 | the ranking fails exactly when some ranked mentor has no user record, where reading `.profile` throws |
| `Leaderboard.RankingShape` | client/components/leaderboard/leaderboard.js:43-48 | the output length is min(num, number of mentors) for num >= 0, with the slice rules otherwise; row i has index i; scores never increase down the list |
| `Leaderboard.RankingRows` | client/components/leaderboard/leaderboard.js:36-42 | each mentor appears at most once; each row holds that mentor's profile, smoothed score and the number of tickets they completed |
| `Leaderboard.RankingTopN` | client/components/leaderboard/leaderboard.js:43-48 | a mentor left out by the cut scores no higher than any row kept; when num is at least the number of mentors, every mentor is listed |
| `Leaderboard.RankingTiesInFirstSeenOrder` | client/components/leaderboard/leaderboard.js:36-48 | for every score, the rows shown with that score are the first of that score's mentors in key order, that is, in the order of their first completed ticket (the sort is stable) |
| `Leaderboard.DefaultRowsBound` | client/components/leaderboard/leaderboard.js:7-13 | with the template's default of 10 rows, at most 10 mentors are returned |
| `Leaderboard.TopMentors` | client/components/leaderboard/leaderboard.js:18-50 | query, grouping loop, scoring, sort, numbering and cut compute `Ranking`, and fail exactly when a ranked mentor has no user record |

## Left out

- Meteor wiring is not modelled: method registration, templates, `ReactiveVar` and subscriptions. It holds no logic.
- `_log` and `console.log` are output only, so they are not modelled.
- `createAccount` is not modelled. Apart from its admin gate it is a call into the accounts library.
- Concurrency is not modelled. Each method runs atomically, so the check-then-insert race in `createTicket` cannot happen here.
- The model does not claim "at most one active ticket per user" across all operations. The code does not keep it, because claim and reopen can bring a cancelled or completed ticket back to life. Only `createTicket`'s own guarantee is proved.
- The bodies of `authorized.user/mentor/admin` are not part of this model. They are predicates: the caller is logged in with an account, and for mentor or admin the profile flag is truthy.
- `_getUser` is a lookup in the user map. `_getUserName` is a display-name function that the store is built with.
- `Date.now()` is the parameter `now`. Mongo's generated ids are the parameter `newId`, required to be fresh.
- Method arguments are typed: topic, location, contact, header, content and role are strings, and the submitted profile is a map. A missing or non-object `profile` argument to `updateUser` is not modelled.
- `Methods.Store.UpdateUser`: the callback passed to `Meteor.users.update` is not modelled, as it only returns the error.
- `Leaderboard.LaplaceSmooth`: `stats.sum` is not part of this model. Here a missing rating adds 0 to the sum and still counts in the denominator. In JavaScript it may instead produce NaN.
- `Leaderboard.LaplaceSmooth`: ratings are taken to be non-negative star values. For a negative average, `toFixed` rounds an exact tie away from zero (-0.25 gives "-0.3"), while the model rounds it up (to -0.2). Negative ties are not modelled. A non-negative exact tie can also disagree, because `toFixed` rounds the double rather than the exact quotient. Fifteen 3-star and three 4-star ratings give 63 / 20 = 3.15. The double is just below 3.15, so JavaScript shows "3.1", while the model gives 32 tenths (3.2). Such a mentor can tie a 3.2 mentor here but rank below them in JavaScript. The model does not capture these double-rounding cases.
- `Leaderboard.LaplaceSmooth`: floating-point details of `toFixed` are not modelled. The JavaScript score is a string, and the comparator coerces it back to a number. Here the score is an exact number of tenths.
- `Leaderboard.GroupByMentor`: the key order of the `mentors` object is modelled as first-seen order. This is what JavaScript does for non-numeric string ids. JavaScript puts integer-like keys first, and it treats claim ids that name `Object.prototype` members (such as "constructor") specially. Neither is modelled.
- `Leaderboard.TopMentors`: the rows carry the mentor id so that properties can name the mentor. The source rows hold only profile, rating, numTickets and index.
- Numbers in profiles are integers. Floating point is not modelled.
