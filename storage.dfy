/** The browser's local storage as the pin board uses it: four independent
    keys, each absent or holding one decoded value. */
module Storage {
  import opened Model

  class LocalStore {
    /** `pinclone_pins` */
    var pins: Option<seq<Pin>>
    /** `pinclone_users_db` */
    var users: Option<seq<Account>>
    /** `pinclone_notifications` */
    var notifications: Option<seq<Notification>>
    /** `pinclone_user`: the active session */
    var session: Option<SafeUser>

    /** A browser profile that has never stored anything. */
    constructor ()
      ensures pins.None? && users.None? && notifications.None? && session.None?
    {
      pins, users, notifications, session := None, None, None, None;
    }
  }
}
