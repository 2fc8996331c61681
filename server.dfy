/** The mock API server: three in-memory collections changed in place by the
    route handlers, with the caller identified by request headers. */
module Server {
  import opened Model
  import opened Likes
  import Auth
  import Notifications

  /** `x-user-id`, `x-user-role` and `x-user-name`; any of them may be missing. */
  datatype Caller = Caller(id: Option<string>, role: Option<string>, username: Option<string>)

  /** A response: a JSON body, or an error status with its message. */
  datatype Reply =
    | AuthReply(user: SafeUser, token: string)
    | PinReply(pin: Pin)
    | PinList(pins: seq<Pin>)
    | NoteList(notes: seq<Notification>)
    | Done
    | Refused(status: nat, error: string)

  /** The pins the server starts with. */
  const SEED_PINS: seq<Pin> := [
    Pin("1", "Cozy Reading Corner", "https://picsum.photos/400/600?random=1", "InteriorDaily", Some("system"), Some([])),
    Pin("2", "Mountain Hiking", "https://picsum.photos/400/400?random=2", "AdventureTime", Some("system"), Some([]))
  ]

  function Token(id: string): (t: string)
    ensures |t| == 15 + |id| && t[..15] == "mock-jwt-token-" && t[15..] == id
  {
    "mock-jwt-token-" + id
  }

  /** `notifications.filter(n => n.pinId !== pinId)` */
  function WithoutNotesOf(notes: seq<Notification>, pinId: string): (r: seq<Notification>)
    ensures forall n :: n in r <==> n in notes && n.pinId != pinId
    ensures |r| <= |notes|
  {
    if |notes| == 0 then []
    else if notes[0].pinId == pinId then WithoutNotesOf(notes[1..], pinId)
    else [notes[0]] + WithoutNotesOf(notes[1..], pinId)
  }

  /** The filter keeps the stored order: it distributes over concatenation. */
  lemma {:induction false} WithoutNotesOfAppend(a: seq<Notification>, b: seq<Notification>, pinId: string)
    ensures WithoutNotesOf(a + b, pinId) == WithoutNotesOf(a, pinId) + WithoutNotesOf(b, pinId)
  {
    if |a| > 0 {
      assert (a + b)[0] == a[0];
      assert (a + b)[1..] == a[1..] + b;
      WithoutNotesOfAppend(a[1..], b, pinId);
    } else {
      assert a + b == b;
    }
  }

  /** `users.find(u => u.email === email && u.password === password)` where a missing
      body field matches no stored account. */
  function FindCredentials(users: seq<Account>, email: Option<string>, password: Option<string>): (r: Option<nat>)
    ensures r.Some? ==> r.value < |users| && Some(users[r.value].email) == email && Some(users[r.value].password) == password
    ensures r.Some? ==> forall j :: 0 <= j < r.value ==>
      !(Some(users[j].email) == email && Some(users[j].password) == password)
    ensures r.None? <==> forall j :: 0 <= j < |users| ==> !(Some(users[j].email) == email && Some(users[j].password) == password)
  {
    if email.Some? && password.Some? then Auth.FindLogin(users, email.value, password.value) else None
  }

  predicate UniqueEmails(users: seq<Account>) {
    forall i, j :: 0 <= i < j < |users| ==> users[i].email != users[j].email
  }

  predicate SentinelIsAdmin(users: seq<Account>) {
    forall i :: 0 <= i < |users| && users[i].username == SENTINEL ==> users[i].role == Some(ADMIN)
  }

  /** The mock database behind the routes. */
  class MockDb {
    var pins: seq<Pin>
    var users: seq<Account>
    var notifications: seq<Notification>

    /** No repeated liker, no self-notification, one account per email, and the
        sentinel account is an administrator. */
    ghost predicate Valid()
      reads this
    {
      && LikersDistinct(pins)
      && NoSelfNotices(notifications)
      && UniqueEmails(users)
      && SentinelIsAdmin(users)
    }

    constructor ()
      ensures Valid()
      ensures pins == SEED_PINS && users == [DEFAULT_ADMIN] && notifications == []
    {
      pins := SEED_PINS;
      users := [DEFAULT_ADMIN];
      notifications := [];
    }

    /** POST /api/auth/register */
    method Register(username: Option<string>, email: Option<string>, password: Option<string>, newId: string)
      returns (reply: Reply)
      requires Valid()
      modifies this`users
      ensures Valid()
      ensures !(Truthy(username) && Truthy(email) && Truthy(password)) ==>
        reply == Refused(400, "Missing fields") && users == old(users)
      ensures Truthy(username) && Truthy(email) && Truthy(password) && Auth.HasEmail(old(users), email.value) ==>
        reply == Refused(400, "User already exists") && users == old(users)
      ensures Truthy(username) && Truthy(email) && Truthy(password) && !Auth.HasEmail(old(users), email.value) ==>
        var role := Some(Auth.RoleFor(username.value));
        && users == old(users) + [Account(newId, username.value, email.value, password.value, role)]
        && reply == AuthReply(SafeUser(newId, username.value, email.value, role), Token(newId))
    {
      if !(Truthy(username) && Truthy(email) && Truthy(password)) {
        return Refused(400, "Missing fields");
      }
      if Auth.HasEmail(users, email.value) {
        return Refused(400, "User already exists");
      }
      var role := Auth.RoleFor(username.value);
      var account := Account(newId, username.value, email.value, password.value, Some(role));
      users := users + [account];
      reply := AuthReply(Strip(account), Token(newId));
    }

    /** POST /api/auth/login: the first account with exactly these credentials;
        a sentinel account is set to admin on the way (already so under Valid). */
    method Login(email: Option<string>, password: Option<string>) returns (reply: Reply)
      requires Valid()
      modifies this`users
      ensures Valid()
      ensures users == old(users)
      ensures var k := FindCredentials(old(users), email, password);
        && (k.None? ==> reply == Refused(401, "Invalid credentials"))
        && (k.Some? ==>
              var a := old(users)[k.value];
              var a' := if a.username == SENTINEL then a.(role := Some(ADMIN)) else a;
              reply == AuthReply(Strip(a'), Token(a.id)))
      ensures reply.AuthReply? && reply.user.username == SENTINEL ==> reply.user.role == Some(ADMIN)
    {
      var k := FindCredentials(users, email, password);
      if k.None? {
        return Refused(401, "Invalid credentials");
      }
      var a := users[k.value];
      if a.username == SENTINEL {
        a := a.(role := Some(ADMIN));
        users := users[k.value := a];
      }
      reply := AuthReply(Strip(a), Token(a.id));
    }

    /** GET /api/pins */
    method ListPins() returns (reply: Reply)
      ensures reply == PinList(pins)
    {
      reply := PinList(pins);
    }

    /** POST /api/pins: `upload` is the URL of the stored image file, missing when
        no file came with the request. */
    method CreatePin(title: Option<string>, author: Option<string>, upload: Option<string>, caller: Caller, newId: string)
      returns (reply: Reply)
      requires Valid()
      modifies this`pins
      ensures Valid()
      ensures upload.None? ==> reply == Refused(400, "No file uploaded.") && pins == old(pins)
      ensures upload.Some? ==>
        var pin := Pin(newId, OrElse(title, "Untitled"), upload.value, OrElse(author, "Anonymous"),
                       Some(OrElse(caller.id, "anonymous")), Some([]));
        pins == [pin] + old(pins) && reply == PinReply(pin)
    {
      if upload.None? {
        return Refused(400, "No file uploaded.");
      }
      var pin := Pin(newId, OrElse(title, "Untitled"), upload.value, OrElse(author, "Anonymous"),
                     Some(OrElse(caller.id, "anonymous")), Some([]));
      pins := [pin] + pins;
      assert forall i :: 1 <= i < |pins| ==> pins[i] == old(pins)[i - 1];
      reply := PinReply(pin);
    }

    /** PUT /api/pins/:id: retitle the first pin with the id, for its owner or an admin. */
    method UpdatePin(id: string, title: string, caller: Caller) returns (reply: Reply)
      requires Valid()
      modifies this`pins
      ensures Valid()
      ensures var k := FindPin(old(pins), id);
        && (k.None? ==> reply == Refused(404, "Pin not found") && pins == old(pins))
        && (k.Some? && !MayModify(old(pins)[k.value].userId, caller.id, caller.role) ==>
              reply == Refused(403, "Unauthorized") && pins == old(pins))
        && (k.Some? && MayModify(old(pins)[k.value].userId, caller.id, caller.role) ==>
              var p := old(pins)[k.value].(title := title);
              pins == old(pins)[k.value := p] && reply == PinReply(p))
    {
      var k := FindPin(pins, id);
      if k.None? {
        return Refused(404, "Pin not found");
      }
      var pin := pins[k.value];
      if pin.userId != caller.id && caller.role != Some(ADMIN) {
        return Refused(403, "Unauthorized");
      }
      pins := pins[k.value := pin.(title := title)];
      reply := PinReply(pins[k.value]);
    }

    /** DELETE /api/pins/:id: for the owner or an admin, remove the pin and every
        notification about it. */
    method DeletePin(id: string, caller: Caller) returns (reply: Reply)
      requires Valid()
      modifies this`pins, this`notifications
      ensures Valid()
      ensures var k := FindPin(old(pins), id);
        && (k.None? ==> reply == Refused(404, "Pin not found"))
        && (k.Some? && !MayModify(old(pins)[k.value].userId, caller.id, caller.role) ==>
              reply == Refused(403, "Unauthorized"))
        && (k.Some? && MayModify(old(pins)[k.value].userId, caller.id, caller.role) ==>
              && pins == WithoutPin(old(pins), id)
              && notifications == WithoutNotesOf(old(notifications), id)
              && reply == Done)
      ensures reply != Done ==> pins == old(pins) && notifications == old(notifications)
    {
      var k := FindPin(pins, id);
      if k.None? {
        return Refused(404, "Pin not found");
      }
      var pin := pins[k.value];
      if pin.userId != caller.id && caller.role != Some(ADMIN) {
        return Refused(403, "Unauthorized");
      }
      pins := WithoutPin(pins, id);
      notifications := WithoutNotesOf(notifications, id);
      reply := Done;
    }

    /** POST /api/pins/:id/like: toggle the caller's like on the first pin with the id;
        a like (not an unlike) of a pin with a known owner other than the caller puts
        one notification in front. */
    method LikePin(id: string, caller: Caller, noteId: string, now: int) returns (reply: Reply)
      requires Valid()
      modifies this`pins, this`notifications
      ensures Valid()
      ensures !Truthy(caller.id) ==>
        reply == Refused(401, "Unauthorized") && pins == old(pins) && notifications == old(notifications)
      ensures Truthy(caller.id) && FindPin(old(pins), id).None? ==>
        reply == Refused(404, "Pin not found") && pins == old(pins) && notifications == old(notifications)
      ensures Truthy(caller.id) && FindPin(old(pins), id).Some? ==>
        var k := FindPin(old(pins), id).value;
        var uid := caller.id.value;
        var p := old(pins)[k];
        var p' := p.(likedBy := Some(Toggle(Likers(p), uid)));
        && pins == old(pins)[k := p']
        && reply == PinReply(p')
        && notifications ==
             if uid !in Likers(p) && Notifies(p.userId, uid)
             then [LikeNotice(p, uid, OrElse(caller.username, "Someone"), noteId, now)] + old(notifications)
             else old(notifications)
    {
      if !Truthy(caller.id) {
        return Refused(401, "Unauthorized");
      }
      var uid := caller.id.value;
      var k := FindPin(pins, id);
      if k.None? {
        return Refused(404, "Pin not found");
      }
      var pin := pins[k.value];
      var liked := Likers(pin);
      if uid !in liked && Notifies(pin.userId, uid) {
        var note := LikeNotice(pin, uid, OrElse(caller.username, "Someone"), noteId, now);
        notifications := [note] + notifications;
        assert forall i :: 1 <= i < |notifications| ==> notifications[i] == old(notifications)[i - 1];
      }
      ToggleKeepsNoDuplicates(liked, uid);
      pin := pin.(likedBy := Some(Toggle(liked, uid)));
      pins := pins[k.value := pin];
      reply := PinReply(pin);
    }

    /** GET /api/notifications: the caller's notifications in stored order. */
    method ListNotifications(caller: Caller) returns (reply: Reply)
      ensures !Truthy(caller.id) ==> reply == Refused(401, "Unauthorized")
      ensures Truthy(caller.id) ==> reply.NoteList?
      ensures reply.NoteList? ==>
        forall n :: n in reply.notes <==> n in notifications && n.recipientId == caller.id.value
      ensures reply.NoteList? ==> reply.notes == Notifications.ForRecipient(notifications, caller.id.value)
    {
      if !Truthy(caller.id) {
        return Refused(401, "Unauthorized");
      }
      reply := NoteList(Notifications.ForRecipient(notifications, caller.id.value));
    }

    /** POST /api/notifications/mark-read: mark the caller's notifications read. */
    method MarkRead(caller: Caller) returns (reply: Reply)
      requires Valid()
      modifies this`notifications
      ensures Valid()
      ensures !Truthy(caller.id) ==> reply == Refused(401, "Unauthorized") && notifications == old(notifications)
      ensures Truthy(caller.id) ==>
        notifications == Notifications.MarkReadFor(old(notifications), caller.id.value) && reply == Done
    {
      if !Truthy(caller.id) {
        return Refused(401, "Unauthorized");
      }
      notifications := Notifications.MarkReadFor(notifications, caller.id.value);
      reply := Done;
    }
  }
}
