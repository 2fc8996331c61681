/** The notification feed: one recipient's notices, newest first, with an unread
    count, and the bulk mark-as-read. */
module Notifications {
  import opened Model
  import opened Storage

  /** `notes.filter(n => n.recipientId === uid)` */
  function ForRecipient(notes: seq<Notification>, uid: string): (r: seq<Notification>)
    ensures forall n :: n in r <==> n in notes && n.recipientId == uid
    ensures |r| <= |notes|
  {
    if |notes| == 0 then []
    else if notes[0].recipientId == uid then [notes[0]] + ForRecipient(notes[1..], uid)
    else ForRecipient(notes[1..], uid)
  }

  /** The filter keeps the stored order: it distributes over concatenation. */
  lemma {:induction false} ForRecipientAppend(a: seq<Notification>, b: seq<Notification>, uid: string)
    ensures ForRecipient(a + b, uid) == ForRecipient(a, uid) + ForRecipient(b, uid)
  {
    if |a| > 0 {
      assert (a + b)[0] == a[0];
      assert (a + b)[1..] == a[1..] + b;
      ForRecipientAppend(a[1..], b, uid);
    } else {
      assert a + b == b;
    }
  }

  /** Ordered by creation time, most recent first. */
  predicate NewestFirst(s: seq<Notification>) {
    forall i, j :: 0 <= i < j < |s| ==> s[i].createdAt >= s[j].createdAt
  }

  /** Insert `n` into a newest-first list, in front of the notices as recent as it
      (so that notices with equal times keep their order). */
  function Insert(n: Notification, s: seq<Notification>): (r: seq<Notification>)
    ensures |r| == |s| + 1
    ensures forall m :: m in r <==> m == n || m in s
    ensures multiset(r) == multiset(s) + multiset{n}
  {
    if |s| == 0 || n.createdAt >= s[0].createdAt then [n] + s
    else
      assert s == [s[0]] + s[1..];
      [s[0]] + Insert(n, s[1..])
  }

  lemma {:induction false} InsertNewestFirst(n: Notification, s: seq<Notification>)
    requires NewestFirst(s)
    ensures NewestFirst(Insert(n, s))
  {
    if |s| > 0 && n.createdAt < s[0].createdAt {
      var t := Insert(n, s[1..]);
      InsertNewestFirst(n, s[1..]);
      forall i, j | 0 <= i < j < |[s[0]] + t|
        ensures ([s[0]] + t)[i].createdAt >= ([s[0]] + t)[j].createdAt
      {
        if i == 0 {
          var m := t[j - 1];
          assert m in t;
          assert m == n || m in s[1..];
        } else {
          assert ([s[0]] + t)[i] == t[i - 1];
          assert ([s[0]] + t)[j] == t[j - 1];
        }
      }
    }
  }

  /** `notes.sort((a, b) => b.createdAt - a.createdAt)`, a stable sort. */
  function SortNewest(s: seq<Notification>): (r: seq<Notification>)
    ensures NewestFirst(r)
    ensures multiset(r) == multiset(s)
  {
    if |s| == 0 then []
    else
      assert s == [s[0]] + s[1..];
      InsertNewestFirst(s[0], SortNewest(s[1..]));
      Insert(s[0], SortNewest(s[1..]))
  }

  /** `s.filter(n => !n.isRead).length` */
  function CountUnread(s: seq<Notification>): (r: nat)
    ensures r <= |s|
    ensures r == 0 <==> forall i :: 0 <= i < |s| ==> s[i].isRead
  {
    if |s| == 0 then 0
    else (if s[0].isRead then 0 else 1) + CountUnread(s[1..])
  }

  /** The count adds up over concatenation ... */
  lemma {:induction false} CountUnreadAppend(a: seq<Notification>, b: seq<Notification>)
    ensures CountUnread(a + b) == CountUnread(a) + CountUnread(b)
  {
    if |a| > 0 {
      assert (a + b)[0] == a[0];
      assert (a + b)[1..] == a[1..] + b;
      CountUnreadAppend(a[1..], b);
    } else {
      assert a + b == b;
    }
  }

  /** ... and a single notice counts one exactly when it is unread; together these
      fix the count as the number of unread notices. */
  lemma CountUnreadOne(n: Notification)
    ensures CountUnread([n]) == if n.isRead then 0 else 1
  {
    assert [n][1..] == [];
  }

  lemma {:induction false} InsertKeepsUnread(n: Notification, s: seq<Notification>)
    ensures CountUnread(Insert(n, s)) == CountUnread([n] + s)
  {
    if |s| > 0 && n.createdAt < s[0].createdAt {
      InsertKeepsUnread(n, s[1..]);
      assert ([n] + s)[1..] == s;
      assert ([n] + s[1..])[1..] == s[1..];
    }
  }

  /** Sorting the feed does not change how many notices are unread. */
  lemma {:induction false} SortKeepsUnread(s: seq<Notification>)
    ensures CountUnread(SortNewest(s)) == CountUnread(s)
  {
    if |s| > 0 {
      SortKeepsUnread(s[1..]);
      InsertKeepsUnread(s[0], SortNewest(s[1..]));
      assert ([s[0]] + SortNewest(s[1..]))[1..] == SortNewest(s[1..]);
    }
  }

  /** The feed shown to `uid`: exactly their stored notices, newest first. */
  function FeedFor(all: seq<Notification>, uid: string): (r: seq<Notification>)
    ensures forall n :: n in r <==> n in all && n.recipientId == uid
    ensures NewestFirst(r)
    ensures multiset(r) == multiset(ForRecipient(all, uid))
    ensures CountUnread(r) == CountUnread(ForRecipient(all, uid))
  {
    var mine := ForRecipient(all, uid);
    SortKeepsUnread(mine);
    var r := SortNewest(mine);
    assert forall n :: n in r <==> n in mine by {
      forall n ensures n in r <==> n in mine {
        assert n in r <==> n in multiset(r);
        assert n in mine <==> n in multiset(mine);
      }
    }
    r
  }

  /** `notes.map(n => n.recipientId === uid ? { ...n, isRead: true } : n)` */
  function MarkReadFor(notes: seq<Notification>, uid: string): (r: seq<Notification>)
    ensures |r| == |notes|
    ensures forall i :: 0 <= i < |r| && notes[i].recipientId == uid ==> r[i] == notes[i].(isRead := true)
    ensures forall i :: 0 <= i < |r| && notes[i].recipientId != uid ==> r[i] == notes[i]
  {
    if |notes| == 0 then []
    else [if notes[0].recipientId == uid then notes[0].(isRead := true) else notes[0]]
         + MarkReadFor(notes[1..], uid)
  }

  /** After marking, nothing addressed to `uid` is unread, and marking again changes nothing. */
  lemma MarkedAllRead(notes: seq<Notification>, uid: string)
    ensures CountUnread(ForRecipient(MarkReadFor(notes, uid), uid)) == 0
    ensures CountUnread(FeedFor(MarkReadFor(notes, uid), uid)) == 0
    ensures MarkReadFor(MarkReadFor(notes, uid), uid) == MarkReadFor(notes, uid)
  {
    var marked := MarkReadFor(notes, uid);
    var mine := ForRecipient(marked, uid);
    forall i | 0 <= i < |mine| ensures mine[i].isRead {
      assert mine[i] in marked;
    }
  }

  /** The `useNotifications` hook in local-storage mode for the signed-in `user`. */
  class Feed {
    var notifications: seq<Notification>
    var unreadCount: nat
    const store: LocalStore

    constructor (store: LocalStore)
      ensures this.store == store && notifications == [] && unreadCount == 0
    {
      this.store := store;
      notifications := [];
      unreadCount := 0;
    }

    /** Show the user's stored notices newest first and count the unread ones;
        without a user or without stored notices nothing changes. */
    method FetchNotifications(user: Option<SafeUser>)
      modifies this`notifications, this`unreadCount
      ensures user.None? || store.notifications.None? ==>
        notifications == old(notifications) && unreadCount == old(unreadCount)
      ensures user.Some? && store.notifications.Some? ==>
        && notifications == FeedFor(store.notifications.value, user.value.id)
        && unreadCount == CountUnread(notifications)
    {
      if user.None? {
        return;
      }
      match store.notifications
      case None =>
      case Some(all) =>
        var mine := ForRecipient(all, user.value.id);
        var sorted := SortNewest(mine);
        notifications := sorted;
        unreadCount := CountUnread(sorted);
    }

    /** Mark every stored notice of the user read and refresh; skipped when the
        unread count is already zero. */
    method MarkAllAsRead(user: Option<SafeUser>)
      modifies this`notifications, this`unreadCount, store`notifications
      ensures old(unreadCount) == 0 || user.None? || old(store.notifications).None? ==>
        && notifications == old(notifications) && unreadCount == old(unreadCount)
        && store.notifications == old(store.notifications)
      ensures old(unreadCount) != 0 && user.Some? && old(store.notifications).Some? ==>
        && store.notifications == Some(MarkReadFor(old(store.notifications).value, user.value.id))
        && notifications == FeedFor(store.notifications.value, user.value.id)
        && unreadCount == 0
    {
      if unreadCount == 0 || user.None? {
        return;
      }
      match store.notifications
      case None =>
      case Some(all) =>
        var updated := MarkReadFor(all, user.value.id);
        store.notifications := Some(updated);
        FetchNotifications(user);
        MarkedAllRead(all, user.value.id);
    }
  }
}
