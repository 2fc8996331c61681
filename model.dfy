/** The records the pin board keeps (pins, user accounts, notifications) and
    the rules that the browser fallback and the mock server share. */
module Model {

  datatype Option<T> = None | Some(value: T) {
    /** `x || default` for a value that may be missing */
    function GetOr(default: T): T {
      if Some? then value else default
    }
  }

  const ADMIN: string := "admin"
  const USER: string := "user"
  /** The one username that is always an administrator. */
  const SENTINEL: string := "xyz"

  /** JavaScript truthiness of a string that may be missing: present and non-empty. */
  predicate Truthy(s: Option<string>)
    ensures Truthy(s) ==> s.Some?
    ensures s.Some? ==> (Truthy(s) <==> |s.value| > 0)
  {
    s.Some? && s.value != ""
  }

  /** `s || fallback` on an optional string. */
  function OrElse(s: Option<string>, fallback: string): (r: string)
    ensures Truthy(s) ==> r == s.value
    ensures !Truthy(s) ==> r == fallback
  {
    if Truthy(s) then s.value else fallback
  }

  /** A pin; the layout ratio (a floating-point hint) is not kept. */
  datatype Pin = Pin(
    id: string,
    title: string,
    imageUrl: string,
    author: string,
    userId: Option<string>,
    likedBy: Option<seq<string>>)

  /** A stored account, password included; records read back from storage may lack a role. */
  datatype Account = Account(
    id: string,
    username: string,
    email: string,
    password: string,
    role: Option<string>)

  /** The safe projection of an account: everything but the password. */
  datatype SafeUser = SafeUser(
    id: string,
    username: string,
    email: string,
    role: Option<string>)

  datatype Notification = Notification(
    id: string,
    recipientId: string,
    senderId: string,
    senderName: string,
    kind: string,
    pinId: string,
    pinImage: string,
    message: string,
    isRead: bool,
    createdAt: int)

  /** The administrator account both the mock server and the local login seed. */
  const DEFAULT_ADMIN: Account :=
    Account("default-admin", SENTINEL, "admin@admin.com", "admin", Some(ADMIN))

  /** `const { password, ...safeUser } = account` */
  function Strip(a: Account): (u: SafeUser)
    ensures u.id == a.id && u.username == a.username && u.email == a.email && u.role == a.role
  {
    SafeUser(a.id, a.username, a.email, a.role)
  }

  /** Owner-or-admin: the caller may edit or delete a pin owned by `owner`. */
  predicate MayModify(owner: Option<string>, caller: Option<string>, role: Option<string>)
    ensures role == Some(ADMIN) ==> MayModify(owner, caller, role)
    ensures role != Some(ADMIN) ==> (MayModify(owner, caller, role) <==> owner == caller)
  {
    owner == caller || role == Some(ADMIN)
  }

  /** `pins.findIndex(p => p.id === id)`, with -1 as None. */
  function FindPin(pins: seq<Pin>, id: string): (r: Option<nat>)
    ensures r.Some? ==> r.value < |pins| && pins[r.value].id == id
    ensures r.Some? ==> forall j :: 0 <= j < r.value ==> pins[j].id != id
    ensures r.None? <==> forall j :: 0 <= j < |pins| ==> pins[j].id != id
  {
    if |pins| == 0 then None
    else if pins[0].id == id then Some(0)
    else match FindPin(pins[1..], id)
      case None => None
      case Some(k) => Some(k + 1)
  }

  /** `pins.filter(p => p.id !== id)` */
  function WithoutPin(pins: seq<Pin>, id: string): (r: seq<Pin>)
    ensures forall p :: p in r <==> p in pins && p.id != id
    ensures |r| <= |pins|
  {
    if |pins| == 0 then []
    else if pins[0].id == id then WithoutPin(pins[1..], id)
    else [pins[0]] + WithoutPin(pins[1..], id)
  }

  /** Removing a pin whose id occurs exactly once removes exactly that pin
      and keeps the others in their order. */
  lemma {:induction false} WithoutUniquePin(pins: seq<Pin>, id: string, k: nat)
    requires k < |pins| && pins[k].id == id
    requires forall j :: 0 <= j < |pins| && j != k ==> pins[j].id != id
    ensures WithoutPin(pins, id) == pins[..k] + pins[k + 1..]
  {
    var pre, post := pins[..k], pins[k + 1..];
    assert pins == pre + ([pins[k]] + post);
    WithoutPinAppend(pre, [pins[k]] + post, id);
    WithoutPinAppend([pins[k]], post, id);
    assert WithoutPin([pins[k]], id) == [] by {
      assert [pins[k]][1..] == [];
    }
    assert forall j :: 0 <= j < |pre| ==> pre[j].id != id by {
      forall j | 0 <= j < |pre| ensures pre[j].id != id {
        assert pre[j] == pins[j];
      }
    }
    assert forall j :: 0 <= j < |post| ==> post[j].id != id by {
      forall j | 0 <= j < |post| ensures post[j].id != id {
        assert post[j] == pins[k + 1 + j];
      }
    }
    WithoutAbsentPin(pre, id);
    WithoutAbsentPin(post, id);
  }

  /** Filtering distributes over concatenation. */
  lemma {:induction false} WithoutPinAppend(a: seq<Pin>, b: seq<Pin>, id: string)
    ensures WithoutPin(a + b, id) == WithoutPin(a, id) + WithoutPin(b, id)
  {
    if |a| == 0 {
      assert a + b == b;
    } else {
      assert (a + b)[0] == a[0];
      assert (a + b)[1..] == a[1..] + b;
      WithoutPinAppend(a[1..], b, id);
    }
  }

  /** Removing an id no pin carries changes nothing. */
  lemma {:induction false} WithoutAbsentPin(pins: seq<Pin>, id: string)
    requires forall j :: 0 <= j < |pins| ==> pins[j].id != id
    ensures WithoutPin(pins, id) == pins
  {
    if |pins| > 0 {
      WithoutAbsentPin(pins[1..], id);
    }
  }
}
