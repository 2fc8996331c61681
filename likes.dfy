/** The like toggle and the notification it may raise: one rule that the
    browser fallback and the mock server both follow. */
module Likes {
  import opened Model

  const LIKE: string := "like"
  const LIKE_MESSAGE: string := "liked your pin"

  predicate NoDuplicates(s: seq<string>) {
    forall i, j :: 0 <= i < j < |s| ==> s[i] != s[j]
  }

  /** `p.likedBy || []`: a pin without a liker list has no likers. */
  function Likers(p: Pin): (r: seq<string>)
    ensures p.likedBy.None? ==> r == []
    ensures p.likedBy.Some? ==> r == p.likedBy.value
  {
    p.likedBy.GetOr([])
  }

  /** `s.filter(id => id !== x)` */
  function Remove(s: seq<string>, x: string): (r: seq<string>)
    ensures forall v :: v in r <==> v in s && v != x
    ensures |r| <= |s|
  {
    if |s| == 0 then []
    else if s[0] == x then Remove(s[1..], x)
    else [s[0]] + Remove(s[1..], x)
  }

  lemma {:induction false} RemoveAbsent(s: seq<string>, x: string)
    requires x !in s
    ensures Remove(s, x) == s
  {
    if |s| > 0 {
      RemoveAbsent(s[1..], x);
    }
  }

  lemma {:induction false} RemoveKeepsNoDuplicates(s: seq<string>, x: string)
    requires NoDuplicates(s)
    ensures NoDuplicates(Remove(s, x))
  {
    if |s| > 0 {
      RemoveKeepsNoDuplicates(s[1..], x);
      if s[0] != x {
        var t := Remove(s[1..], x);
        assert s[0] !in s[1..];
        assert s[0] !in t;
        forall i, j | 0 <= i < j < |[s[0]] + t|
          ensures ([s[0]] + t)[i] != ([s[0]] + t)[j]
        {
          if i == 0 {
            assert ([s[0]] + t)[j] == t[j - 1];
          }
        }
      }
    }
  }

  /** A user's like on a liker list: unlike when present, like (append) when absent. */
  function Toggle(likedBy: seq<string>, uid: string): (r: seq<string>)
    ensures uid in r <==> uid !in likedBy
    ensures forall v :: v != uid ==> (v in r <==> v in likedBy)
  {
    if uid in likedBy then Remove(likedBy, uid) else likedBy + [uid]
  }

  /** A like appends the user at the end of the list and keeps everyone else in place. */
  lemma LikeAppends(likedBy: seq<string>, uid: string)
    requires uid !in likedBy
    ensures Toggle(likedBy, uid) == likedBy + [uid]
  {
  }

  /** Liking and unliking in a row gives the list back; unliking and liking gives
      back the same set of likers (the returning user now stands last). */
  lemma {:induction false} ToggleTwice(likedBy: seq<string>, uid: string)
    ensures uid !in likedBy ==> Toggle(Toggle(likedBy, uid), uid) == likedBy
    ensures forall v :: v in Toggle(Toggle(likedBy, uid), uid) <==> v in likedBy
    ensures NoDuplicates(likedBy) ==>
      multiset(Toggle(Toggle(likedBy, uid), uid)) == multiset(likedBy)
  {
    if uid !in likedBy {
      assert uid in likedBy + [uid];
      RemoveAbsent(likedBy, uid);
      RemoveSplit(likedBy, uid);
    } else if NoDuplicates(likedBy) {
      RemoveOnce(likedBy, uid);
    }
  }

  /** Removing the last element appended, when it was absent before. */
  lemma {:induction false} RemoveSplit(s: seq<string>, x: string)
    requires x !in s
    ensures Remove(s + [x], x) == s
  {
    if |s| == 0 {
      assert Remove([x][1..], x) == [];
    } else {
      assert (s + [x])[1..] == s[1..] + [x];
      RemoveSplit(s[1..], x);
    }
  }

  /** In a list without repeats, removing a present id takes out exactly one copy. */
  lemma {:induction false} RemoveOnce(s: seq<string>, x: string)
    requires NoDuplicates(s) && x in s
    ensures multiset(Remove(s, x)) + multiset{x} == multiset(s)
  {
    assert s == [s[0]] + s[1..];
    if s[0] == x {
      assert x !in s[1..];
      RemoveAbsent(s[1..], x);
    } else {
      RemoveOnce(s[1..], x);
    }
  }

  /** A toggle never puts the same id on a pin twice. */
  lemma ToggleKeepsNoDuplicates(likedBy: seq<string>, uid: string)
    requires NoDuplicates(likedBy)
    ensures NoDuplicates(Toggle(likedBy, uid))
  {
    if uid in likedBy {
      RemoveKeepsNoDuplicates(likedBy, uid);
    }
  }

  /** Every pin's liker list is free of repeats. */
  predicate LikersDistinct(pins: seq<Pin>) {
    forall i :: 0 <= i < |pins| ==> NoDuplicates(Likers(pins[i]))
  }

  /** Nobody is ever notified about their own like. */
  predicate NoSelfNotices(notes: seq<Notification>) {
    forall i :: 0 <= i < |notes| ==> notes[i].recipientId != notes[i].senderId
  }

  /** `pin.userId && pin.userId !== user.id`: the pin has a known owner other than the liker. */
  predicate Notifies(owner: Option<string>, uid: string)
    ensures Notifies(owner, uid) ==> owner.Some? && owner != Some(uid)
    ensures owner == Some("") || owner.None? ==> !Notifies(owner, uid)
    ensures owner.Some? && owner.value != "" && owner.value != uid ==> Notifies(owner, uid)
  {
    Truthy(owner) && owner.value != uid
  }

  /** The notification a like on `pin` sends to its owner. */
  function LikeNotice(pin: Pin, liker: string, likerName: string, id: string, now: int): (n: Notification)
    requires Notifies(pin.userId, liker)
    ensures n.recipientId == pin.userId.value && n.senderId == liker
    ensures n.recipientId != n.senderId
    ensures n.pinId == pin.id && n.pinImage == pin.imageUrl && n.senderName == likerName
    ensures !n.isRead && n.kind == LIKE && n.createdAt == now && n.id == id
  {
    Notification(id, pin.userId.value, liker, likerName, LIKE, pin.id, pin.imageUrl,
                 LIKE_MESSAGE, false, now)
  }
}
