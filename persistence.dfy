/**
 * The browser's `localStorage`, seen as a key-value map. Serialisation of the
 * stored values (`JSON.stringify` / `JSON.parse`) is taken as the identity, so
 * the map holds the values themselves rather than their text.
 */
module Persistence {
  import opened Wrappers

  class Storage<V> {
    var items: map<string, V>

    constructor (initial: map<string, V>)
      ensures items == initial
    {
      items := initial;
    }

    /** `getItem`: the stored value, or `None` (JavaScript `null`) for a missing key. */
    function GetItem(key: string): Option<V>
      reads this
    {
      if key in items then Some(items[key]) else None
    }

    /** `setItem`: overwrite the entry for `key` and leave every other key alone. */
    method SetItem(key: string, value: V)
      modifies this
      ensures items == old(items)[key := value]
    {
      items := items[key := value];
    }
  }
}
