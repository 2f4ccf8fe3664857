/**
 * The registry of tracked users (username -> MAC address) kept in the
 * persistent store under the key 'users', and `addUser` of index.js:158-162,
 * which reads it (an unset key reads as `{}`), sets one entry and stores it.
 */
module UserRegistry {
  import opened Options

  /** `(stored || {})[username] = mac` */
  function Registered(stored: Option<map<string, string>>, username: string, mac: string): (r: map<string, string>)
    ensures username in r && r[username] == mac
    ensures stored.None? ==> r.Keys == {username}
    ensures stored.Some? ==> r.Keys == stored.value.Keys + {username}
    ensures stored.Some? ==> forall u :: u in stored.value && u != username ==> r[u] == stored.value[u]
  {
    var users := if stored.Some? then stored.value else map[];
    users[username := mac]
  }

  /** Registering a user twice keeps the later MAC address, unlike the
      attendance log, where the first time of a day stays. */
  lemma LastWriteWins(stored: Option<map<string, string>>, username: string, first: string, later: string)
    ensures Registered(Some(Registered(stored, username, first)), username, later)
         == Registered(stored, username, later)
  {
  }

  /** The store's 'users' entry; `None` until the first user is added. */
  class Registry {
    var stored: Option<map<string, string>>

    constructor (initial: Option<map<string, string>>)
      ensures stored == initial
    {
      stored := initial;
    }

    /** `addUser(username, mac)` */
    method AddUser(username: string, mac: string)
      modifies this
      ensures stored == Some(Registered(old(stored), username, mac))
    {
      var users := if stored.Some? then stored.value else map[];
      users := users[username := mac];
      stored := Some(users);
    }
  }
}
