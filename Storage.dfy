/** The device's persistent key-value store (AsyncStorage) as a map from keys to strings.
    Every call may reject instead of completing; whether it does is an input of the call. */
module Storage {
  import opened Async

  class AsyncStorage {
    var items: map<string, string>

    constructor (initial: map<string, string>)
      ensures items == initial
    {
      items := initial;
    }

    /** `getItem`: the stored string, `null` for a missing key, or a rejection. */
    method GetItem(key: string, fails: bool) returns (r: Settled<Option<string>>)
      ensures fails ==> r == Rejected
      ensures !fails && key in items ==> r == Resolved(Some(items[key]))
      ensures !fails && key !in items ==> r == Resolved(None)
    {
      if fails {
        r := Rejected;
      } else if key in items {
        r := Resolved(Some(items[key]));
      } else {
        r := Resolved(None);
      }
    }

    /** `setItem`: a rejected write leaves the store as it was. */
    method SetItem(key: string, value: string, fails: bool) returns (r: Settled<()>)
      modifies this
      ensures r.Rejected? == fails
      ensures items == if fails then old(items) else old(items)[key := value]
    {
      if fails {
        r := Rejected;
      } else {
        items := items[key := value];
        r := Resolved(());
      }
    }

    /** `removeItem`: removing a missing key succeeds and changes nothing. */
    method RemoveItem(key: string, fails: bool) returns (r: Settled<()>)
      modifies this
      ensures r.Rejected? == fails
      ensures items == if fails then old(items) else old(items) - {key}
    {
      if fails {
        r := Rejected;
      } else {
        items := items - {key};
        r := Resolved(());
      }
    }
  }
}
