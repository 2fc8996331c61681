# Pin board data layer, modelled in Dafny

This project models the data layer behind a pin-sharing board (an image board
with likes and like notifications). The same rules live in two places:

- **The mock API server.** It keeps three in-memory arrays: pins, users and
  notifications.
- **The browser fallback.** Three React hooks (`usePins`, `useAuth`,
  `useNotifications`) use local storage when the server cannot be reached.

The model has these modules:

| module | file | models |
|---|---|---|
| `Model` | model.dfy | The records (pins, accounts, the password-free user projection, notifications). Also the rules both sides share: owner-or-admin authorization, the pin lookup, pin removal and JavaScript truthiness of optional strings. |
| `Storage` | storage.dfy | Local storage as four independent keys: pins, users, notifications and the active session. Each key is absent or holds one decoded value. |
| `Likes` | likes.dfy | The like toggle on `likedBy` and the rule for when a like notifies the pin's owner. |
| `Pins` | pins.dfy | The local-storage branches of `usePins`, as class `PinBoard`. |
| `Auth` | auth.dfy | The local-storage branches of `useAuth`, as class `Session`: session restore, login with admin seeding and role normalisation, register, logout. |
| `Notifications` | notifications.dfy | The local-storage branches of `useNotifications`, as class `Feed`: filter, newest-first sort, unread count, mark-all-read. |
| `Server` | server.dfy | The route handlers of the mock server, as class `MockDb`. `MockDb.Valid()` is an invariant that every handler keeps: no repeated liker, no self-notification, one account per email, and the `xyz` account is an admin. |
| `Scenario` | scenario.dfy | A walkthrough in a fresh browser. Two users register, one uploads, the other likes, the owner reads the notification and then deletes the pin. It uses only the contracts above. |

The three hooks share one `LocalStore` object, as the real hooks share the
browser's storage. A method's `modifies` clause names exactly the storage keys
and hook fields that the source writes. The framing then shows that nothing
else changes.

Ids and timestamps come from `Date.now()` in the source. In the model they are
parameters supplied by the caller (`newId`, `noteId`, `now`).

## Where the code departs from its evident intent

- **Local `updatePin` has no permission check** (hooks/usePins.ts:151-158). It
  retitles every pin with the id, whoever calls it. `Pins.PinBoard.UpdatePin`
  does the same.
- **Two toggles do not always give back the same list.** Liking and then
  unliking gives back the exact list. Unliking and then liking gives back the
  same set of likers, but the user now stands last. `Likes.ToggleTwice` proves
  both facts.
- **Local delete does not remove notifications.** The server's delete does.
  Both behaviours are modelled as written.
- **A pin without an owner is not always protected on the server.** The server
  compares `pin.userId !== user.id` on values that may both be missing. So a
  pin without `userId` could be changed by a caller who sends no `x-user-id`.
  `Model.MayModify` keeps that comparison. It cannot happen in practice, because
  every server pin gets an owner (`'system'`, the caller's id or `'anonymous'`).
- **The seeded admin cannot always log in locally.** A comment at
  hooks/useAuth.ts:48 says the seeding means `admin@admin.com` / `admin` can
  always log in. The seeding runs only when no account is named `xyz`
  (hooks/useAuth.ts:49), and the login takes the first account with matching
  credentials (hooks/useAuth.ts:61). This breaks the promise in two ways:
  - An account named `xyz` with other credentials stops the seeding. The admin
    credentials then open no session (`Auth.SentinelNameBlocksAdminLogin`).
  - An earlier account registered locally with `admin@admin.com` / `admin`
    comes first. Seeding adds a second account with that email, and the admin
    credentials open the earlier account's session with role `user`
    (`Auth.EarlierAccountShadowsAdmin`).

  The model keeps the code's behaviour. `Auth.SeededAdminLogsIn` states exactly
  when the promise holds.

## Model

| member | source | states |
|---|---|---|
| `Model.Truthy` | server/index.js:82 | JavaScript truthiness of an optional string: present and non-empty; the empty string is falsy |
| `Model.MayModify` | hooks/usePins.ts:120 | An admin may always edit or delete; anyone else only when the pin's owner equals the caller's id |
| `Model.OrElse` | server/index.js:136-139 | `s \|\| fallback`: the value when it is a non-empty string, the fallback otherwise |
| `Model.Strip` | server/index.js:101 | The safe projection keeps id, username, email and role; its type has no password field |
| `Model.FindPin` | server/index.js:152-153 | `findIndex`: a found index holds the id and no earlier pin has it; none is found exactly when no pin has the id |
| `Model.WithoutPin` | hooks/usePins.ts:125 | `filter`: the result holds exactly the pins whose id differs, and is no longer than the input |
| `Model.WithoutUniquePin` | hooks/usePins.ts:125 | When the id occurs once, removal takes out exactly that pin and keeps the others in order |
| `Model.WithoutAbsentPin` | server/index.js:176 | Removing an id that no pin carries changes nothing |
| `Likes.Likers` | hooks/usePins.ts:184 | `likedBy \|\| []`: the pin's own list when it has one, no likers otherwise |
| `Likes.Remove` | hooks/usePins.ts:189 | Unlike filter: the result holds every id of the input except the removed one |
| `Likes.Toggle` | hooks/usePins.ts:184-191 | After the toggle the user is a liker exactly when they were not before; every other id keeps its membership |
| `Likes.LikeAppends` | hooks/usePins.ts:191 | A like appends the user at the end and keeps everyone else in place |
| `Likes.ToggleTwice` | hooks/usePins.ts:184-191 | Like then unlike restores the exact list; any double toggle restores the set of likers, and the multiset when there were no repeats |
| `Likes.ToggleKeepsNoDuplicates` | server/index.js:196-203 | Starting from a list without repeats, a toggle never adds a repeat |
| `Likes.Notifies` | hooks/usePins.ts:194 | A like notifies exactly when the pin has a non-empty owner id that is not the liker's, so never the liker |
| `Likes.LikeNotice` | hooks/usePins.ts:194-206 | A like notification goes to the pin's owner, never to the liker. It is from the liker, unread, of kind `like`, and refers to the pin and its image |
| `Pins.SetTitle` | hooks/usePins.ts:151-156 | Only titles change: pins with the id get the new title, all others are unchanged, and the length and order are kept |
| `Pins.LikeOne` | hooks/usePins.ts:183-217 | A pin with another id is passed through. A matching pin gets the toggled `likedBy`, so the liker's membership flips. One notice goes in front of the stored ones exactly on a like of a pin with an owner other than the liker; otherwise the notifications are unchanged |
| `Pins.LikeEach` | hooks/usePins.ts:182-219 | Only pins with the id change, and only in `likedBy`, which becomes the toggled list. With no matching pin the notifications are untouched |
| `Pins.LikeUniquePin` | hooks/usePins.ts:188-210 | On a pin with a unique id, exactly one notice is put in front of the stored ones, and only on a like (not an unlike) of a pin with a set owner other than the liker. Otherwise nothing is added |
| `Pins.LikeKeepsInvariants` | hooks/usePins.ts:184-216 | A like keeps every liker list free of repeats and never creates a self-notification |
| `Pins.PinBoard.FetchPins` | hooks/usePins.ts:39-45 | Stored pins are used as they are; only when the key is absent are the example pins seeded and stored |
| `Pins.PinBoard.AddPin` | hooks/usePins.ts:83-95 | The new pin goes first, owned by the user, authored under the user's name, with an empty `likedBy`; the list is stored |
| `Pins.PinBoard.DeletePin` | hooks/usePins.ts:116-127 | Deletes exactly when the id exists and the user is admin or owner, removing the pins with that id in order; otherwise state and storage are unchanged |
| `Pins.PinBoard.UpdatePin` | hooks/usePins.ts:151-158 | The pins become the retitled list, with no authorization, and the list is stored |
| `Pins.PinBoard.LikePin` | hooks/usePins.ts:182-222 | Pins and stored notifications become the result of the like map, and the pins are stored |
| `Auth.RoleFor` | hooks/useAuth.ts:82 | The role is `admin` exactly when the username is `xyz`, and `user` otherwise |
| `Auth.Seeded` | hooks/useAuth.ts:49-59 | The default admin is appended only when no account is named `xyz`; an existing `xyz` account is not duplicated |
| `Auth.SeedOnce` | hooks/useAuth.ts:49 | Seeding an already seeded list changes nothing |
| `Auth.FindLogin` | hooks/useAuth.ts:61 | The first account with exactly this email and password; none is found exactly when no account matches |
| `Auth.Normalise` | hooks/useAuth.ts:67-71 | `xyz` becomes admin; a missing or empty role becomes `user`; any other role is kept; nothing else changes |
| `Auth.LocalLogin` | hooks/useAuth.ts:61-71 | A session exists exactly when some account matches email and password. It is the first such account, normalised and without the password, and `xyz` is always admin |
| `Auth.SeededAdminLogsIn` | hooks/useAuth.ts:47-61 | When no stored account uses the admin's credentials, those credentials open exactly the default admin's session after seeding if no account was named `xyz`, and no session otherwise |
| `Auth.SentinelNameBlocksAdminLogin` | hooks/useAuth.ts:48-61 | An `xyz` account with other credentials stops the seeding, and the admin credentials then open no session |
| `Auth.EarlierAccountShadowsAdmin` | hooks/useAuth.ts:48-61 | With an earlier `bob` account using the admin's credentials, seeding still appends the admin, and the credentials open bob's session with role `user` |
| `Auth.Restored` | hooks/useAuth.ts:15-19 | A stored `xyz` session is made admin; any other session is unchanged |
| `Auth.Session.Restore` | hooks/useAuth.ts:11-23 | Adopts the stored session after the repair. It writes back only when an `xyz` role was not already admin. Without a stored session nothing changes |
| `Auth.Session.Login` | hooks/useAuth.ts:43-77 | Users are seeded and stored only when needed. Success matches `LocalLogin` on the seeded list and sets the page and stored session to it; on failure the session is unchanged |
| `Auth.Session.Register` | hooks/useAuth.ts:100-121 | Fails, changing nothing, when the email is known. Otherwise it appends exactly one account with the computed role and opens its session without the password |
| `Auth.Session.Logout` | hooks/useAuth.ts:124-127 | The page user and the stored session are both cleared, whatever they were, so a second logout changes nothing |
| `Notifications.ForRecipient` | hooks/useNotifications.ts:32 | The result holds exactly the stored notices addressed to the user |
| `Notifications.ForRecipientAppend` | hooks/useNotifications.ts:32 | The filter distributes over concatenation, so it keeps the stored order and every copy |
| `Notifications.Insert` | hooks/useNotifications.ts:33 | Insertion adds exactly the one notice to the multiset |
| `Notifications.InsertNewestFirst` | hooks/useNotifications.ts:33 | Inserting into a newest-first list keeps it newest first |
| `Notifications.SortNewest` | hooks/useNotifications.ts:33 | The result is ordered by `createdAt`, descending, and is a permutation of the input |
| `Notifications.CountUnread` | hooks/useNotifications.ts:35 | At most the length, and zero exactly when every notice is read |
| `Notifications.CountUnreadAppend` | hooks/useNotifications.ts:35 | The count of a concatenation is the sum of the counts |
| `Notifications.CountUnreadOne` | hooks/useNotifications.ts:35 | A single notice counts 1 when unread and 0 when read; with the sum rule this fixes the count as the number of unread notices |
| `Notifications.SortKeepsUnread` | hooks/useNotifications.ts:33-35 | Sorting does not change the unread count |
| `Notifications.FeedFor` | hooks/useNotifications.ts:31-35 | The feed holds exactly the user's stored notices, newest first, as a permutation of the filtered list, with the same unread count |
| `Notifications.MarkReadFor` | hooks/useNotifications.ts:73-76 | Only the user's notices change, and only to read; length and order are kept |
| `Notifications.MarkedAllRead` | hooks/useNotifications.ts:67-78 | After marking, none of the user's notices is unread, and marking again changes nothing |
| `Notifications.Feed.FetchNotifications` | hooks/useNotifications.ts:10-38 | With no user or no stored notices nothing changes. Otherwise the list is the user's feed and the count is its unread count |
| `Notifications.Feed.MarkAllAsRead` | hooks/useNotifications.ts:59-80 | A no-op when the unread count is 0. Otherwise it flips only the user's stored notices and refreshes, leaving the unread count at 0, so a second call is a no-op |
| `Server.Token` | server/index.js:102 | The token is `mock-jwt-token-` followed by the user id |
| `Server.WithoutNotesOf` | server/index.js:178 | The result holds exactly the notifications that do not refer to the deleted pin |
| `Server.WithoutNotesOfAppend` | server/index.js:178 | The filter distributes over concatenation, so the remaining notifications keep their order |
| `Server.FindCredentials` | server/index.js:107 | The first account with exactly this email and password: no earlier account matches. A missing field matches nothing |
| `Server.MockDb.constructor` | server/index.js:34-63 | Two seed pins owned by `system`, the default admin, no notifications; the invariant holds |
| `Server.MockDb.Register` | server/index.js:80-103 | Returns 400 and leaves users unchanged on a missing field or a known email. Otherwise it appends one account whose role is admin exactly for `xyz`, and replies without the password |
| `Server.MockDb.Login` | server/index.js:105-117 | Returns 401 unless some account matches exactly; otherwise replies with the first match without the password, `xyz` as admin. Users are unchanged under the invariant |
| `Server.MockDb.ListPins` | server/index.js:120-122 | Replies with the stored pins in stored order |
| `Server.MockDb.CreatePin` | server/index.js:124-145 | Returns 400 without a file. Otherwise it prepends a pin with an empty `likedBy`, defaulting to title `Untitled`, author `Anonymous` and owner `anonymous` |
| `Server.MockDb.UpdatePin` | server/index.js:147-163 | 404 for an unknown id, 403 unless owner or admin, both changing nothing; otherwise only the title at the found index changes |
| `Server.MockDb.DeletePin` | server/index.js:165-181 | 404 or 403 leaves pins and notifications unchanged. Otherwise it removes the pin and every notification referring to it |
| `Server.MockDb.LikePin` | server/index.js:184-225 | 401 without a caller id and 404 for an unknown pin, both changing nothing. Otherwise it toggles the caller in that pin's `likedBy` and prepends one notice only on a like of a pin with a set owner other than the caller |
| `Server.MockDb.ListNotifications` | server/index.js:228-234 | 401 without a caller id. Otherwise exactly the caller's notifications, filtered in stored order (see `Notifications.ForRecipientAppend`) |
| `Server.MockDb.MarkRead` | server/index.js:236-248 | 401 without a caller id and nothing changes; otherwise only the caller's notifications are marked read |

## Left out

- The remote-mode branches of the three hooks are not modelled. They are `fetch` calls whose results are adopted as the server sends them. The health probe (hooks/usePins.ts:12-23) is left out too. The server side of those calls is modelled as `Server.MockDb`.
- The Express, multer and cors wiring, static file serving and `app.listen` are left out (transport).
- The upload URL is not modelled. The server builds it from protocol, host and stored file name; `CreatePin` receives the finished URL.
- Local storage stores JSON text. The model keeps decoded values in `Option` fields, so JSON parsing, malformed stored text and key names are not modelled.
- `Date.now()` ids and timestamps are caller-supplied parameters. Two writes in the same millisecond could produce the same id; this is not modelled.
- `heightRatio` is left out: a random float on new local pins, fixed floats on the example pins.
- The `FileReader` data-URL conversion is asynchronous. The model receives the data URL. The stale `pins` snapshot that the `onload` callback closes over is not modelled.
- The `notificationUpdate` window event and the 10-second polling interval are left out (event plumbing).
- React rendering, the `loading` flags, `alert` and console logging are left out. A refused local delete is reported as `deleted == false`.
- Server.MockDb.UpdatePin: takes the new title as a string. A request body without `title` would set the title to `undefined`, and the model does not represent that.
- Server.MockDb.Register: body fields are optional strings. JSON values of other types (numbers, objects) are not modelled.
- Notifications.SortNewest: the insertion is stable (notices with equal `createdAt` keep their stored order), but no contract states stability.
- Notifications.Feed.MarkAllAsRead: reads the hook's `unreadCount` from the last fetch, as the source does. The model does not relate that count to the stored notices.
