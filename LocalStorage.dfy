/** The browser's local storage as the authentication code uses it: a map
    from keys to string values, read with `getItem`, written with
    `setItem` and cleared with `removeItem`. */
module LocalStorage {
  import opened Wrappers

  type Store = map<string, string>

  /** `localStorage.getItem(key)`: the value, or nothing when absent. */
  function GetItem(store: Store, key: string): (r: Option<string>)
    ensures r.Some? <==> key in store
    ensures r.Some? ==> r.value == store[key]
  {
    if key in store then Some(store[key]) else None
  }

  /** `localStorage.setItem(key, value)`. */
  function SetItem(store: Store, key: string, value: string): (r: Store)
    ensures key in r && r[key] == value
  {
    store[key := value]
  }

  /** `localStorage.removeItem(key)`. */
  function RemoveItem(store: Store, key: string): (r: Store)
    ensures key !in r
  {
    store - {key}
  }

  /** The storage laws: a key reads back the value last written to it and
      nothing once removed, and writing or removing one key leaves every
      other key reading as before. */
  lemma GetItemLaws(store: Store, key: string, value: string, other: string)
    ensures GetItem(SetItem(store, key, value), key) == Some(value)
    ensures GetItem(RemoveItem(store, key), key) == None
    ensures other != key ==>
      GetItem(SetItem(store, key, value), other) == GetItem(store, other) &&
      GetItem(RemoveItem(store, key), other) == GetItem(store, other)
  {
  }
}
