/**
 * `localStorage` and the two pairs of helpers over it. The site-wide
 * `setLocalStorage`/`getLocalStorage` catch every failure: a refused write
 * reports `false`, and a failed read gives the caller's default. The
 * competitions page's versions let the failure through. Stored values are
 * kept as values: the JSON text in between is not modelled. Whether the
 * browser refuses an access (storage disabled, quota exceeded, stored text
 * that does not parse) is an input, `fails`.
 */
module Storage {
  import opened Wrappers

  class Store<V> {
    var items: map<string, V>

    constructor (items: map<string, V>)
      ensures this.items == items
    {
      this.items := items;
    }

    /** The site-wide `setLocalStorage`: never throws, and says whether the value was stored. */
    method Set(key: string, value: V, fails: bool) returns (saved: bool)
      modifies this
      ensures saved <==> !fails
      ensures items == if fails then old(items) else old(items)[key := value]
    {
      if fails {
        return false;
      }
      items := items[key := value];
      return true;
    }

    /**
     * The site-wide `getLocalStorage`: the stored value, or `default` when
     * there is none or the read fails.
     */
    method Get(key: string, default: Option<V>, fails: bool) returns (r: Option<V>)
      ensures !fails && key in items ==> r == Some(items[key])
      ensures fails || key !in items ==> r == default
    {
      if fails || key !in items {
        return default;
      }
      return Some(items[key]);
    }

    /** The competitions page's `setLocalStorage`: a refused write throws. */
    method SetStrict(key: string, value: V, fails: bool) returns (r: Outcome<()>)
      modifies this
      ensures r.Threw? <==> fails
      ensures items == if fails then old(items) else old(items)[key := value]
    {
      if fails {
        return Threw;
      }
      items := items[key := value];
      return Returned(());
    }

    /** The competitions page's `getLocalStorage`: `None` (null) for a missing key; a failed read throws. */
    method GetStrict(key: string, fails: bool) returns (r: Outcome<Option<V>>)
      ensures r.Threw? <==> fails
      ensures !fails ==> (r.value.Some? <==> key in items)
      ensures !fails && key in items ==> r.value == Some(items[key])
    {
      if fails {
        return Threw;
      }
      if key in items {
        return Returned(Some(items[key]));
      }
      return Returned(None);
    }
  }
}
