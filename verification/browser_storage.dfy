/** The browser's `localStorage` as the client uses it: a string-to-string store in which
    the session keeps its token under "token" and the user's JSON under "user". */
module BrowserStorage {
  import opened Common

  /** `localStorage.getItem(key)` read for truthiness: None when the key is missing or its
      value is empty. */
  function Stored(items: map<string, string>, key: string): Option<string>
  {
    if key in items && items[key] != [] then Some(items[key]) else None
  }

  /** The two `setItem` calls of a sign-in. */
  function SaveSession(items: map<string, string>, token: string, userJson: string): map<string, string>
  {
    items["token" := token]["user" := userJson]
  }

  /** The two `removeItem` calls of a sign-out, a failed restore and a 401. */
  function ClearSession(items: map<string, string>): map<string, string>
  {
    items - {"token", "user"}
  }

  /** Saving writes exactly the two session keys; clearing removes exactly them; every
      other key is left alone by both. */
  lemma SessionKeys(items: map<string, string>, token: string, userJson: string)
    ensures SaveSession(items, token, userJson)["token"] == token
    ensures SaveSession(items, token, userJson)["user"] == userJson
    ensures "token" !in ClearSession(items) && "user" !in ClearSession(items)
    ensures forall k | k != "token" && k != "user" ::
      (k in SaveSession(items, token, userJson) <==> k in items) && (k in ClearSession(items) <==> k in items)
    ensures forall k | k in items && k != "token" && k != "user" ::
      SaveSession(items, token, userJson)[k] == items[k] && ClearSession(items)[k] == items[k]
  {
  }

  /** Signing in and then out leaves the store as signing out alone would. */
  lemma SaveThenClear(items: map<string, string>, token: string, userJson: string)
    ensures ClearSession(SaveSession(items, token, userJson)) == ClearSession(items)
  {
  }

  class LocalStorage {
    var items: map<string, string>

    constructor (items: map<string, string>)
      ensures this.items == items
    {
      this.items := items;
    }

    method SetItem(key: string, value: string)
      modifies this
      ensures items == old(items)[key := value]
    {
      items := items[key := value];
    }

    method RemoveItem(key: string)
      modifies this
      ensures items == old(items) - {key}
    {
      items := items - {key};
    }
  }
}
