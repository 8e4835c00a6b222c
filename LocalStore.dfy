/**
  The browser's `localStorage` as the scripts use it: one string value per
  string key, last write wins.
 */
module LocalStore {
  import opened Wrappers

  /** `localStorage.getItem`: the stored string, or null. */
  function Lookup(items: map<string, string>, key: string): Option<string> {
    if key in items then Some(items[key]) else None
  }

  /** A possibly-null string that JavaScript treats as true: present and non-empty. */
  predicate Truthy(v: Option<string>) {
    v.Some? && v.value != []
  }

  class Store {
    var items: map<string, string>

    constructor (initial: map<string, string>)
      ensures items == initial
    {
      items := initial;
    }

    /** `localStorage.getItem`: the value stored under `key`, or null when there is none. */
    function GetItem(key: string): (v: Option<string>)
      reads this
      ensures v.Some? <==> key in items
      ensures v.Some? ==> v.value == items[key]
    {
      Lookup(items, key)
    }

    /** `localStorage.setItem`: `key` now holds `value`, every other key is unchanged. */
    method SetItem(key: string, value: string)
      modifies this
      ensures items == old(items)[key := value]
    {
      items := items[key := value];
    }

    /** `localStorage.removeItem`: `key` is gone, every other key is unchanged. */
    method RemoveItem(key: string)
      modifies this
      ensures items == old(items) - {key}
    {
      items := items - {key};
    }
  }
}
