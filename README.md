# Notification bridge: subscription registry and session authenticator

This project models in Dafny the two parts of the notification bridge that
hold its logic.

**The notification pipe (`notificationpipe.js`).** This is the closure state of
`initNotificationPipe`, written as the class `NotificationPipe.Pipe`. It holds:

- the notifier table `notifiers`, mapping each publisher address to its
  subscriber set;
- the registrations per user `registeredUsers`, mapping each user to its
  ordered list of registration handles;
- a ghost `filters` multiset, which stands for the filter table of the one
  ZeroMQ subscriber socket. ZeroMQ counts subscriptions per filter, and an
  unsubscribe of a filter that has none left changes nothing.

Each of the following is a method that changes these fields in place:
`doSubscribe`/`doUnsubscribe`, the two subscribe-all loops, `addPublisher`,
`register`, `unregister`, and the directory-reply and discovery handlers. The
wire-message router is a method too, but it only reads the registrations and
returns the deliveries it would make, in order.

Module `Registry` holds the values and the specification functions that the
methods are proved against. It also holds the pipe's invariant and the lemmas
about them:

- `Inv`: no user keeps an empty list, no handle is listed twice, and every
  registered user subscribes to every notifier.
- `Counted`: the socket holds a user's filter exactly once per notifier that
  lists the user.
- `Exact`: subscriber equals registered. The comment at
  notificationpipe.js:208-210 ("we unsubscribe also from the socket") shows
  this is intended, but the code as written does not keep it.

**The session authenticator (`user.js`).** This is module `Session`. It covers:

- the `host:port` validation of `initUserRetrieval`;
- `getSessionId`, whose loop counts mismatches with no early exit;
- the store key;
- the ticket-extraction chain that runs on the unpickled session.

Foreign computations are function-typed parameters: HMAC-SHA1 as hex, with its
40-character length in the type; `JSON.parse`; `pickle.loads`; and the
session-store lookup. Module `Text` models the JavaScript string operations
used: `indexOf`, `split`, `substr`, `trim`, and the `Number()` numeric-text
test.

## Model

| member | source | states |
|---|---|---|
| NotificationPipe.Pipe.constructor | notificationpipe.js:63-65 | The pipe starts with no notifier, no registration and an empty socket filter table, and satisfies the invariant. |
| NotificationPipe.Pipe.DoSubscribe | notificationpipe.js:90-93 | The notifier gains `user` as a subscriber, and the socket gains one more subscription of `user`. Nothing else changes. |
| NotificationPipe.Pipe.DoUnsubscribe | notificationpipe.js:95-98 | The notifier loses `user`, and the socket loses one subscription of `user` (none if it had none). Nothing else changes. |
| NotificationPipe.Pipe.SubscribeToUserNotifications | notificationpipe.js:100-109 | Afterwards every notifier lists `user`. The socket's count for `user` grows by exactly the number of notifiers that lacked it. The registrations are untouched. |
| NotificationPipe.Pipe.SubscribeAt | notificationpipe.js:104-107 | One pass of the subscribe loop: a notifier not yet visited is subscribed only if it lacks the user, which keeps the loop's state description true. |
| NotificationPipe.Pipe.UnsubscribeToUserNotifications | notificationpipe.js:111-121 | As written, the loop visits only notifiers that lack `user`. No subscriber set changes, and the socket's count for `user` drops once per such notifier, stopping at zero. |
| NotificationPipe.Pipe.UnsubscribeIntended | notificationpipe.js:111-121 | The loop the code evidently means: every notifier drops `user`, and the socket's count drops once per notifier that held it. |
| NotificationPipe.Pipe.UnsubscribeAt | notificationpipe.js:114-119 | One pass of the intended loop: a notifier is unsubscribed only if it holds the user. |
| NotificationPipe.Pipe.AddPublisher | notificationpipe.js:123-148 | A known address changes nothing, socket included. A new address gets exactly one notifier, holding every registered user, with one socket subscription per registered user. The invariant is kept and no subscriber is lost. |
| NotificationPipe.Pipe.AddPublishers | notificationpipe.js:157-160 | The string entries are handed to addPublisher in order. The resulting notifier table is `AddedPublishers`: old notifiers untouched, each new address holding every registered user. The loop stops only at a non-string entry. |
| NotificationPipe.Pipe.OnDirectoryReply | notificationpipe.js:150-161 | A reply classified as null adds no publisher and leaves the socket alone. Otherwise the values that for..in visits go to addPublisher in order, up to the first that is not a string (see Left out); `processed` counts them. |
| NotificationPipe.Pipe.OnPublisherList | notificationpipe.js:172-180 | A broadcast that does not parse changes nothing. A parsed list goes to addPublisher value by value, up to the first that is not a string (see Left out). |
| NotificationPipe.Pipe.FirstRegistration | notificationpipe.js:191-195 | A first registration creates an empty list and subscribes `user` on every notifier. The socket then counts `user` once per notifier. |
| NotificationPipe.Pipe.Register | notificationpipe.js:186-198 | Returns a fresh handle carrying the user and callback, appended to the end of the user's list (the list is created if needed). Other lists are unchanged. Only a first registration subscribes. The invariant holds and subscriber sets only grow. |
| NotificationPipe.Pipe.Unregister | notificationpipe.js:199-214 | As written: the first occurrence of the handle leaves the list, and an emptied list is deleted. An unknown user or absent handle changes nothing. Notifiers and socket filters are unchanged in every case. The invariant is kept. |
| NotificationPipe.Pipe.UnregisterIntended | notificationpipe.js:199-214 | The same list update, but when the last registration goes, the user leaves every subscriber set and the socket keeps no filter for it. Subscriber-equals-registered is preserved. |
| NotificationPipe.Pipe.Route | notificationpipe.js:67-88 | A message with no '\|' or a leading '\|' is malformed. A payload JSON.parse rejects delivers nothing. Otherwise each registration of the recipient gets the payload exactly once, in list order. An unknown recipient gets nothing. |
| Registry.SplitWire | notificationpipe.js:71-77 | Splitting fails exactly when there is no '\|' or it comes first. On success the recipient is non-empty and free of '\|', and recipient + "\|" + payload is the message. |
| Registry.SplitWireRoundTrip | notificationpipe.js:71-77 | `r + "\|" + p`, for a non-empty `r` without '\|', splits back into `(r, p)`. |
| Registry.ClassifyDirectoryReply | notificationpipe.js:42-54 | Three replies become null: one that does not parse, one that parses to null, and one of length 0. Every other parsed value is kept as parsed, in both directions. A non-empty array is iterated element by element. |
| Registry.LengthIsZero | notificationpipe.js:46 | `.length === 0`: true for the empty string and the empty array, false for a non-empty string or array, and false for a boolean or a number, whose length is undefined. |
| Registry.ForInValues | notificationpipe.js:157-160 | for..in over an array visits its elements in order. Over a string it visits its characters. Over null, a boolean or a number it visits nothing. |
| Registry.RegisterSpec | notificationpipe.js:191-196 | register's effect on the registrations: the handle is appended to the user's list, the user becomes a key, and every other user's list is unchanged. |
| Registry.RegisterSpecSteps | notificationpipe.js:191-196 | register's two steps, an optional empty-list creation and then a push, reach RegisterSpec. |
| Registry.RemoveAt | notificationpipe.js:205 | splice(i, 1) removes exactly position `i`: the elements before stay in place and the ones after shift down by one. |
| Registry.SpliceOut | notificationpipe.js:203-206 | indexOf followed by splice: a handle that is absent leaves the list as it was. A present one removes exactly one occurrence. |
| Registry.UnregisterSpecSteps | notificationpipe.js:203-212 | unregister's steps reach UnregisterSpec. An absent handle leaves the list alone, and the user stays registered exactly when its list is not emptied. |
| Registry.RegisterKeepsInv | notificationpipe.js:186-198 | register with a fresh handle keeps the invariant, and no subscriber set shrinks. |
| Registry.UnregisterKeepsInv | notificationpipe.js:199-214 | unregister as written keeps the invariant: lists stay non-empty and repeat-free, and remaining users stay subscribed. |
| Registry.SpliceOutKeepsDistinct | notificationpipe.js:203-206 | Splicing a handle out keeps the list free of repeats. |
| Registry.RemoveAtKeepsDistinct | notificationpipe.js:205 | Removing one entry keeps the list free of repeats. |
| Registry.ShrunkKeepsInv | notificationpipe.js:205-211 | Dropping users, or replacing a list by a non-empty repeat-free one, keeps the invariant. |
| Registry.AddPublisherKeepsInv | notificationpipe.js:139-145 | addPublisher keeps the invariant, and no subscriber set shrinks. |
| Registry.AddPublisherIdempotent | notificationpipe.js:124-128 | A known address changes nothing. Adding an address twice is adding it once. A new address adds exactly one key. |
| Registry.AddedPublishersGrows | notificationpipe.js:157-160 | After an all-string publisher list, every listed address is a notifier and no notifier lost a subscriber. |
| Registry.RegisterUnregisterRestores | notificationpipe.js:186-214 | register followed by unregister with the returned handle restores the registrations to their previous value. |
| Registry.RegisteredLacksNothing | notificationpipe.js:114-117 | Under the invariant a registered user lacks no notifier, so the as-written unsubscribe loop has nothing to act on. |
| Registry.HoldingLackingSplit | notificationpipe.js:103-105 | Each notifier either holds or lacks a user, so the two counts add up to the number of notifiers. |
| Registry.SubscribeEverywhereKeepsCounted | notificationpipe.js:100-109 | The subscribe loop keeps the socket's filter table equal to the subscriber sets, and leaves the user counted once per notifier. |
| Registry.RegisterKeepsCounted | notificationpipe.js:191-195 | register keeps the filter table equal to the subscriber sets. |
| Registry.UnsubscribeEverywhereKeepsCounted | notificationpipe.js:95-98 | One unsubscribe per notifier holding the user keeps the filter table counted and leaves no filter for the user. |
| Registry.AddPublisherKeepsCounted | notificationpipe.js:139-145 | A new notifier adds one socket subscription per registered user, which keeps the filter table counted. |
| Registry.ExactFiltersIffRegistered | notificationpipe.js:207-212 | With subscriber-equals-registered, a counted filter table and at least one publisher, the socket holds a filter for a user if and only if the user is registered. |
| Registry.RegisterKeepsExact | notificationpipe.js:191-196 | register keeps subscriber-equals-registered. |
| Registry.AddPublisherKeepsExact | notificationpipe.js:134-145 | addPublisher keeps subscriber-equals-registered. |
| Registry.UnregisterAsWrittenBreaksExact | notificationpipe.js:111-121 | After a user's only registration is removed, the user is gone from the registrations but every notifier still lists it, so subscriber-equals-registered fails. |
| Registry.UnregisterAsWrittenLeavesFilter | notificationpipe.js:115-117 | After a user's only registration is removed, the socket still holds a filter for that user. |
| Registry.UnregisterIntendedKeepsInv | notificationpipe.js:207-212 | The intended unregister keeps the invariant. |
| Registry.UnregisterIntendedKeepsExact | notificationpipe.js:207-212 | The intended unregister keeps subscriber-equals-registered. |
| Registry.UnregisterSpec | notificationpipe.js:200-212 | unregister's effect on the registrations. An unknown user changes nothing. Other users keep their lists. The user keeps its key exactly when its list minus the handle is non-empty, and that list is then its new value. |
| Registry.AddPublisherSpec | notificationpipe.js:123-145 | A known address leaves the notifiers as they were. A new address adds exactly one key, whose subscriber set is the registered users. Every existing notifier keeps its set. |
| Registry.RegisterNotifiers | notificationpipe.js:191-195 | register's effect on the notifiers: same addresses, and only `u` can be added to a set. A first registration puts `u` in every set. A later registration changes nothing. |
| Registry.RegisterFilters | notificationpipe.js:191-195 | register's effect on the socket filters: a first registration leaves `u` subscribed once per notifier. A later one changes nothing. No other user's count changes. |
| Registry.UnregisterIntendedSpec | notificationpipe.js:207-212 | The intended unregister's effect on the notifiers: same addresses, and only `u` can leave a set. When `u`'s last registration goes, no set holds it any more. Otherwise nothing changes. |
| Registry.RegisterUnregisterIntendedRestores | notificationpipe.js:186-214 | With the intended unregister, register followed by unregister of the fresh handle restores the registrations and the notifiers. A first registration's socket filter goes back to none, so no subscription is left over. |
| Registry.SubscribeUnsubscribeAbsent | notificationpipe.js:100-121 | Subscribing everywhere a user no notifier held, and then unsubscribing it everywhere, gives the notifiers back. |
| Registry.FilterOfUnregistered | notificationpipe.js:191-212 | Under subscriber-equals-registered, an unregistered user has no socket filter. Resetting its filter to none after a first registration therefore restores the table. |
| Registry.HoldingAfterAdd | notificationpipe.js:134-145 | A new notifier holding the registered users adds one to the holding count of each registered user, and nothing to the others. |
| Registry.SpliceOutPushed | notificationpipe.js:196-205 | Splicing out a handle that was just pushed onto a list not containing it gives the list back. |
| Text.IndexOf | notificationpipe.js:71 | The result is -1 exactly when the element is absent. Otherwise it is the position of the first occurrence. |
| Text.Split | user.js:30 | split on one character gives at least one part, every part free of the separator, and the parts joined back give the text. With no separator the result is the text itself. |
| Text.SplitJoin | user.js:30 | Splitting a join of separator-free parts gives the parts back. |
| Text.IndexOfAfterFreePrefix | notificationpipe.js:71 | When a separator follows a separator-free prefix, indexOf finds it right after the prefix. |
| Text.SubstrFrom | user.js:44 | substr(start) is the rest of the text from `start`, or empty past the end. |
| Text.Prefix | user.js:47 | substr(0, n) is a prefix of length min(n, length). |
| Text.Trim | user.js:35 | trim() is no longer than the text and has no white space at either end. |
| Text.TrimSlice | user.js:35 | trim() is a contiguous slice of the text, and every character outside that slice is white space. |
| Text.IsNumericText | user.js:31-32 | `!isNaN(Number(s))`: blank text counts as a number (Number gives 0). Text that is not blank after trimming counts exactly when it is a numeric literal. |
| Text.TrimStart | user.js:35 | Removes exactly the leading white space. |
| Text.TrimEnd | user.js:35 | Removes exactly the trailing white space. |
| Text.TrimEmptyIffBlank | user.js:35-36 | trim() leaves no white space at either end. It gives "" exactly when the text is all white space. |
| Text.DigitsAreNumeric | user.js:31-32 | A run of decimal digits, or blank text, is not NaN to Number(). |
| Session.InitUserRetrieval | user.js:27-38 | Gives null exactly in three cases: no ':', a second field that Number() reads as NaN, or a blank trimmed host. Otherwise the host is the trimmed text before the first ':' and the port is the whole second `:`-separated field, numeric text. |
| Session.SplitSecondField | user.js:30-31 | The second ':'-separated field is a prefix of the text after the first ':'. |
| Session.FirstFieldIsPrefix | user.js:30 | The first field of a split is a prefix of the text. |
| Session.InitUserRetrievalAccepts | user.js:27-38 | A non-blank, trimmed host without ':', followed by ':' and a decimal port, is accepted with that host and port. |
| Session.Mismatches | user.js:55-59 | The mismatch count of two equally long strings is at most their length. |
| Session.MismatchesZeroIff | user.js:55-63 | Two equally long strings have zero mismatches if and only if they are equal. |
| Session.GetSessionId | user.js:40-65 | An empty cookie gives null with no HMAC computed. A shorter cookie than the 40-character signature fails the length check. The loop examines all 40 positions. The result is non-null iff the HMAC of `cookie[40..]` equals `cookie[..40]`, and is then exactly `cookie[40..]`. |
| Session.StoreKey | user.js:79 | The key is "beaker:", then the session id, then ":session". |
| Session.StoreKeyInjective | user.js:79 | Distinct session ids give distinct store keys. |
| Session.Member | user.js:89 | Property access: dict entries are found. A missing name gives undefined. Access on null or undefined throws. |
| Session.ElementZero | user.js:97 | `[0]`: a non-empty list gives its first element and an empty list gives undefined. Access on null or undefined throws. |
| Session.ExtractUser | user.js:88-103 | Null session data throws. Data with no ticket gives null. An empty ticket list throws. A ticket entry without user.id gives null. A well-formed user.id list gives its element 0. |
| Session.UserFromReply | user.js:80-104 | A store error gives null. A missing key throws at reply.toString(). A blob the unpickler rejects throws too. An unpickled blob is put through the extraction chain. |
| Session.SignatureChecks | user.js:44-64 | The cookie passes exactly when it has at least 40 characters and the HMAC of `substr(40)` equals `substr(0, 40)`. |
| Session.GetUser | user.js:68-107 | The store is queried, under exactly StoreKey(cookie[40..]), if and only if the cookie's signature checks. Otherwise the callback gets null. The result is the store callback's outcome for that key. |
| Session.WellFormedSessionResolves | user.js:88-103 | A session whose ticket leads to user.id = [u] resolves to u. |

## Left out

- ZeroMQ I/O: `connect`, `send` and message delivery are not modelled. The socket is represented only by the ghost filter table that doSubscribe and doUnsubscribe change. The order of socket calls is not kept, only the resulting per-filter counts. ZeroMQ filters match by prefix, so a filter `al` also receives `alice|...` messages; the model treats a filter as an exact recipient, and Route already drops unknown recipients. The model assumes `connect` succeeds for every string address. In the source, `connect` (notificationpipe.js:133) runs before the notifier is stored (line 137), so an endpoint the ZeroMQ binding rejects throws: no notifier is added and the calling for..in loop stops. For example, a directory reply that parses to the string `"tcp://a"` is passed through, and for..in visits its characters. The source stops at `connect("t")`, while the model adds "t", "c", "p", ":", "/" and "a" as notifiers.
- The request socket for the publisher directory (`requestNotifiers`) is not modelled. Its reply enters as the string given to OnDirectoryReply.
- The redis client lifecycle (`createClient`, `quit`) is not modelled. The store lookup is a parameter `string -> StoreReply`.
- HMAC-SHA1, `JSON.parse` and `pickle.loads` are function parameters. HMAC's one assumed property, a 40-character hex digest, is the type `HexDigest`. `pickle.loads` returns None where it would throw. pickle.js is not part of this model.
- NotificationPipe.Pipe.AddPublishers: the loop stops at the first entry that is not a string, also when that entry's JavaScript string form (`String(x)`, which `hasOwnProperty` applies, notificationpipe.js:125) names an already-known publisher; the source returns early at that duplicate check and goes on with the next entry (known `"a"`, list `["a", ["a"], "b"]`: the source adds `"b"`, the model stops before it). A non-string entry that is not a duplicate would reach ZeroMQ's `connect`, whose behaviour on it is not part of this model, and JavaScript's string conversion of JSON values is not modelled.
- for..in over a parsed object visits its members in textual order. JavaScript's own order (integer-like keys first) is not modelled.
- Strings are sequences of characters, not UTF-16 code units, so `substr(40)` and the 40-character signature count characters.
- User ids that collide with `Object.prototype` members (such as `__proto__`) are not modelled. `hasOwnProperty` is map membership.
- Asynchrony is not modelled. Each event handler is one atomic method call, and getUser's callback result is the method's return value.
- The stray global `publishers = []` at notificationpipe.js:171 is never read and is not modelled.
- Configuration loading in `exports.initNotificationPipe` (notificationpipe.js:218-237) is not modelled. `getUser`'s pass-through to the authenticator (notificationpipe.js:183-185) is Session.GetUser itself.
- Session.InitUserRetrieval keeps the port as the text that Number() accepts, not as the number it denotes. For fields beyond the second, `split` keeps them and the code ignores them.
- Log output is not modelled.
- server.js, testclient.js and log.js are not part of this model.
- The comment at notificationpipe.js:208-210 says unregister also unsubscribes from the socket when a user's last registration goes. The code does not (see Findings). Unregister follows the code. UnregisterIntended models the intended behaviour, and RegisterUnregisterIntendedRestores proves that it leaves no residual subscription.

## Findings

| source | as written | input that shows it | evidently intended | confidence | as-written member | corrected member |
|---|---|---|---|---|---|---|
| notificationpipe.js:115-116 | The unsubscribe loop's guard is `!subscribers.hasOwnProperty(user)`, copied from the subscribe loop. It therefore only "unsubscribes" notifiers that never had the user, and under the invariant there are none. | One publisher; `register("alice", cb)` then `unregister("alice", h)`. Alice is gone from the registrations but is still a subscriber, and the socket keeps her filter, so her messages keep arriving. | Unsubscribe the notifiers that hold the user, so that a user's filter leaves the socket with its last registration. | not executed | Registry.UnregisterAsWrittenLeavesFilter | NotificationPipe.Pipe.UnregisterIntended |
