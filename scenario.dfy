/** A browser with no stored data, driven through the hooks in local-storage mode:
    what the contracts above let a caller conclude. */
module Scenario {
  import opened Model
  import opened Likes
  import opened Storage
  import opened Pins
  import opened Auth
  import opened Notifications

  method LocalWalkthrough()
  {
    var store := new LocalStore();
    var session := new Session(store);
    var board := new PinBoard(store);
    var feed := new Feed(store);
    board.FetchPins();
    assert board.pins == INITIAL_PINS;

    // two registrations: an ordinary user, then the sentinel
    var ok := session.Register("alice", "a@x.com", "pw", "100");
    assert ok;
    var alice := session.user.value;
    assert alice.role == Some(USER);
    ok := session.Register(SENTINEL, "admin@admin.com", "admin", "101");
    assert !HasEmail([Account("100", "alice", "a@x.com", "pw", Some(USER))], "admin@admin.com");
    assert ok;
    var admin := session.user.value;
    assert admin.role == Some(ADMIN);

    // alice's upload goes first, owned by her, with no likers
    board.AddPin("Sunset", "data:image/png;base64,", alice, "200");
    var pin := board.pins[0];
    assert pin.userId == Some("100") && pin.likedBy == Some([]);

    // the admin's like reaches alice as one unread notice
    assert forall j :: 0 <= j < |board.pins| && j != 0 ==> board.pins[j].id != pin.id;
    LikeOwnedPin(board, admin);
    var notice := LikeNotice(pin, "101", SENTINEL, "300", 1000);
    assert store.notifications == Some([notice]);

    ReadFeed(feed, alice, notice);

    // alice reads everything
    feed.MarkAllAsRead(Some(alice));
    assert feed.unreadCount == 0;

    // and deletes her own pin
    var deleted := board.DeletePin("200", alice);
    assert deleted;
    assert forall p :: p in board.pins ==> p.id != "200";
  }

  /** `liker` likes the newest pin, which nobody has liked yet and whose id no other pin has. */
  method LikeOwnedPin(board: PinBoard, liker: SafeUser)
    requires |board.pins| > 0 && board.store.notifications.None?
    requires forall j :: 0 < j < |board.pins| ==> board.pins[j].id != board.pins[0].id
    requires board.pins[0].likedBy == Some([]) && Notifies(board.pins[0].userId, liker.id)
    modifies board`pins, board.store`pins, board.store`notifications
    ensures board.store.notifications ==
      Some([LikeNotice(old(board.pins[0]), liker.id, liker.username, "300", 1000)])
    ensures |board.pins| == old(|board.pins|)
    ensures board.pins[0] == old(board.pins[0]).(likedBy := Some([liker.id]))
    ensures board.pins[1..] == old(board.pins[1..])
  {
    var before := board.pins;
    board.LikePin(before[0].id, liker, "300", 1000);
    LikeUniquePin(before, 0, liker, None, "300", 1000);
    assert Likers(before[0]) == [];
    assert Toggle([], liker.id) == [liker.id];
    assert board.pins[0] == before[0].(likedBy := Some([liker.id]));
    var n := LikeNotice(before[0], liker.id, liker.username, "300", 1000);
    assert [n] + None.GetOr([]) == [n];
    assert forall j :: 0 < j < |before| ==> board.pins[j] == before[j];
  }

  /** The recipient of the only stored notice, unread, opens the feed. */
  method ReadFeed(feed: Feed, user: SafeUser, notice: Notification)
    requires feed.store.notifications == Some([notice])
    requires notice.recipientId == user.id && !notice.isRead
    modifies feed`notifications, feed`unreadCount
    ensures feed.notifications == [notice] && feed.unreadCount == 1
  {
    feed.FetchNotifications(Some(user));
    var mine := ForRecipient([notice], user.id);
    assert mine == [notice] by {
      assert ForRecipient([notice][1..], user.id) == [];
    }
    assert feed.notifications == SortNewest([notice]) by {
      assert forall n :: n in feed.notifications <==> n == notice;
    }
    assert SortNewest([notice]) == [notice] by {
      assert SortNewest([notice][1..]) == [];
    }
  }
}
