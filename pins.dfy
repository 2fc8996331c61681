/** The pin store as the browser keeps it when the server is unreachable:
    the pin list held by the page and mirrored to local storage. */
module Pins {
  import opened Model
  import opened Likes
  import opened Storage

  /** The example pins a fresh browser starts with: no owner, no likers. */
  const INITIAL_PINS: seq<Pin> := [
    Pin("1", "Cozy Reading Corner", "https://picsum.photos/400/600?random=1", "InteriorDaily", None, None),
    Pin("2", "Mountain Hiking", "https://picsum.photos/400/400?random=2", "AdventureTime", None, None),
    Pin("3", "Healthy Breakfast", "https://picsum.photos/400/550?random=3", "FoodieLife", None, None),
    Pin("4", "Abstract Art", "https://picsum.photos/400/300?random=4", "ArtGallery", None, None),
    Pin("5", "Urban Photography", "https://picsum.photos/400/500?random=5", "CitySnaps", None, None),
    Pin("6", "Minimalist Desk", "https://picsum.photos/400/450?random=6", "TechSetup", None, None),
    Pin("7", "Forest Path", "https://picsum.photos/400/650?random=7", "NatureLovers", None, None)
  ]

  /** The title edit: `pins.map(p => p.id === pinId ? { ...p, title } : p)`. */
  function SetTitle(pins: seq<Pin>, pinId: string, title: string): (r: seq<Pin>)
    ensures |r| == |pins|
    ensures forall i :: 0 <= i < |r| ==> r[i].(title := pins[i].title) == pins[i]
    ensures forall i :: 0 <= i < |r| && pins[i].id == pinId ==> r[i].title == title
    ensures forall i :: 0 <= i < |r| && pins[i].id != pinId ==> r[i] == pins[i]
  {
    if |pins| == 0 then []
    else [if pins[0].id == pinId then pins[0].(title := title) else pins[0]]
         + SetTitle(pins[1..], pinId, title)
  }

  /** One step of the like map: the pin after the like, and the stored notifications
      after it (a new notice in front, only on a like of someone else's pin). */
  function LikeOne(p: Pin, pinId: string, liker: SafeUser, notes: Option<seq<Notification>>,
                   noteId: string, now: int): (r: (Pin, Option<seq<Notification>>))
    ensures p.id != pinId ==> r == (p, notes)
    ensures p.id == pinId ==> r.0 == p.(likedBy := Some(Toggle(Likers(p), liker.id)))
    ensures p.id == pinId ==> (liker.id in Likers(r.0) <==> liker.id !in Likers(p))
    ensures p.id == pinId && liker.id !in Likers(p) && Notifies(p.userId, liker.id) ==>
      r.1 == Some([LikeNotice(p, liker.id, liker.username, noteId, now)] + notes.GetOr([]))
    ensures !(liker.id !in Likers(p) && Notifies(p.userId, liker.id)) ==> r.1 == notes
  {
    if p.id != pinId then (p, notes)
    else
      var liked := Likers(p);
      var p' := p.(likedBy := Some(Toggle(liked, liker.id)));
      if liker.id !in liked && Notifies(p.userId, liker.id) then
        (p', Some([LikeNotice(p, liker.id, liker.username, noteId, now)] + notes.GetOr([])))
      else
        (p', notes)
  }

  /** The like map over every pin, front to back, threading the stored notifications. */
  function LikeEach(pins: seq<Pin>, pinId: string, liker: SafeUser, notes: Option<seq<Notification>>,
                    noteId: string, now: int): (r: (seq<Pin>, Option<seq<Notification>>))
    ensures |r.0| == |pins|
    ensures forall i :: 0 <= i < |pins| && pins[i].id != pinId ==> r.0[i] == pins[i]
    ensures forall i :: 0 <= i < |pins| && pins[i].id == pinId ==>
      r.0[i] == pins[i].(likedBy := Some(Toggle(Likers(pins[i]), liker.id)))
    ensures (forall i :: 0 <= i < |pins| ==> pins[i].id != pinId) ==> r.1 == notes
  {
    if |pins| == 0 then ([], notes)
    else
      var (p', notes1) := LikeOne(pins[0], pinId, liker, notes, noteId, now);
      var (rest, notes2) := LikeEach(pins[1..], pinId, liker, notes1, noteId, now);
      ([p'] + rest, notes2)
  }

  /** For a pin whose id is unique, a like adds exactly one notice in front of the
      stored ones when it likes (not unlikes) a pin with a known owner other than
      the liker, and leaves the notifications untouched otherwise. */
  lemma {:induction false} LikeUniquePin(pins: seq<Pin>, k: nat, liker: SafeUser,
                                         notes: Option<seq<Notification>>, noteId: string, now: int)
    requires k < |pins|
    requires forall j :: 0 <= j < |pins| && j != k ==> pins[j].id != pins[k].id
    ensures var p := pins[k];
      LikeEach(pins, p.id, liker, notes, noteId, now).1 ==
        if liker.id !in Likers(p) && Notifies(p.userId, liker.id)
        then Some([LikeNotice(p, liker.id, liker.username, noteId, now)] + notes.GetOr([]))
        else notes
  {
    var id := pins[k].id;
    if k == 0 {
      var (_, notes1) := LikeOne(pins[0], id, liker, notes, noteId, now);
      assert forall j :: 0 <= j < |pins[1..]| ==> pins[1..][j].id != id by {
        forall j | 0 <= j < |pins[1..]| ensures pins[1..][j].id != id {
          assert pins[1..][j] == pins[j + 1];
        }
      }
    } else {
      assert pins[1..][k - 1] == pins[k];
      assert forall j :: 0 <= j < |pins[1..]| && j != k - 1 ==> pins[1..][j].id != id by {
        forall j | 0 <= j < |pins[1..]| && j != k - 1 ensures pins[1..][j].id != id {
          assert pins[1..][j] == pins[j + 1];
        }
      }
      LikeUniquePin(pins[1..], k - 1, liker, notes, noteId, now);
    }
  }

  /** A like keeps every liker list free of repeats and never notifies a user of their own like. */
  lemma {:induction false} LikeKeepsInvariants(pins: seq<Pin>, pinId: string, liker: SafeUser,
                                               notes: Option<seq<Notification>>, noteId: string, now: int)
    requires LikersDistinct(pins) && NoSelfNotices(notes.GetOr([]))
    ensures LikersDistinct(LikeEach(pins, pinId, liker, notes, noteId, now).0)
    ensures NoSelfNotices(LikeEach(pins, pinId, liker, notes, noteId, now).1.GetOr([]))
  {
    var r := LikeEach(pins, pinId, liker, notes, noteId, now);
    forall i | 0 <= i < |pins| ensures NoDuplicates(Likers(r.0[i])) {
      if pins[i].id == pinId {
        ToggleKeepsNoDuplicates(Likers(pins[i]), liker.id);
      }
    }
    if |pins| > 0 {
      var (p', notes1) := LikeOne(pins[0], pinId, liker, notes, noteId, now);
      assert LikersDistinct(pins[1..]) by {
        forall j | 0 <= j < |pins[1..]| ensures NoDuplicates(Likers(pins[1..][j])) {
          assert pins[1..][j] == pins[j + 1];
        }
      }
      assert NoSelfNotices(notes1.GetOr([])) by {
        if notes1 != notes {
          var n := LikeNotice(pins[0], liker.id, liker.username, noteId, now);
          var old_ := notes.GetOr([]);
          forall j | 0 <= j < |[n] + old_|
            ensures ([n] + old_)[j].recipientId != ([n] + old_)[j].senderId
          {
            if j > 0 { assert ([n] + old_)[j] == old_[j - 1]; }
          }
        }
      }
      LikeKeepsInvariants(pins[1..], pinId, liker, notes1, noteId, now);
    }
  }

  /** The `usePins` hook in local-storage mode: `pins` is the page's copy, `store`
      the browser storage shared with the other hooks. */
  class PinBoard {
    var pins: seq<Pin>
    const store: LocalStore

    constructor (store: LocalStore)
      ensures this.store == store && pins == []
    {
      this.store := store;
      pins := [];
    }

    /** Load the stored pins, or seed and store the example pins on first use. */
    method FetchPins()
      modifies this`pins, store`pins
      ensures old(store.pins).Some? ==> pins == old(store.pins).value && store.pins == old(store.pins)
      ensures old(store.pins).None? ==> pins == INITIAL_PINS && store.pins == Some(INITIAL_PINS)
    {
      match store.pins
      case Some(stored) =>
        pins := stored;
      case None =>
        pins := INITIAL_PINS;
        store.pins := Some(INITIAL_PINS);
    }

    /** Prepend a new pin owned by `user`, with no likers; `dataUrl` is the image read
        as a data URL and `newId` the creation timestamp. */
    method AddPin(title: string, dataUrl: string, user: SafeUser, newId: string)
      modifies this`pins, store`pins
      ensures pins == [Pin(newId, title, dataUrl, user.username, Some(user.id), Some([]))] + old(pins)
      ensures pins[0].userId == Some(user.id) && pins[0].likedBy == Some([]) && pins[1..] == old(pins)
      ensures store.pins == Some(pins)
    {
      var pin := Pin(newId, title, dataUrl, user.username, Some(user.id), Some([]));
      pins := [pin] + pins;
      store.pins := Some(pins);
    }

    /** Delete, allowed to the owner or an admin; a missing id or a refused caller changes nothing. */
    method DeletePin(pinId: string, user: SafeUser) returns (deleted: bool)
      modifies this`pins, store`pins
      ensures var k := FindPin(old(pins), pinId);
        deleted <==> k.Some? && MayModify(old(pins)[k.value].userId, Some(user.id), user.role)
      ensures !deleted ==> pins == old(pins) && store.pins == old(store.pins)
      ensures deleted ==> pins == WithoutPin(old(pins), pinId) && store.pins == Some(pins)
    {
      var k := FindPin(pins, pinId);
      if k.None? {
        return false;
      }
      var target := pins[k.value];
      if user.role != Some(ADMIN) && target.userId != Some(user.id) {
        return false;
      }
      pins := WithoutPin(pins, pinId);
      store.pins := Some(pins);
      deleted := true;
    }

    /** Retitle every pin with the id; no permission check here (the page only offers
        the edit to the owner or an admin). */
    method UpdatePin(pinId: string, title: string, user: SafeUser)
      modifies this`pins, store`pins
      ensures pins == SetTitle(old(pins), pinId, title)
      ensures store.pins == Some(pins)
    {
      pins := SetTitle(pins, pinId, title);
      store.pins := Some(pins);
    }

    /** Toggle `user`'s like on the pin; a like on someone else's pin also stores a
        notice for its owner (`noteId` and `now` stand for the clock). */
    method LikePin(pinId: string, user: SafeUser, noteId: string, now: int)
      modifies this`pins, store`pins, store`notifications
      ensures (pins, store.notifications) == LikeEach(old(pins), pinId, user, old(store.notifications), noteId, now)
      ensures store.pins == Some(pins)
    {
      var r := LikeEach(pins, pinId, user, store.notifications, noteId, now);
      store.notifications := r.1;
      pins := r.0;
      store.pins := Some(pins);
    }
  }
}
