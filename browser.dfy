/**
 * The parts of the browser the pages use: local storage, where the access
 * token is kept under "accessToken", and the current route.
 */
module Browser {
  import opened Base

  const TokenKey := "accessToken"

  class Window {
    var storage: map<string, string>
    var location: string

    constructor (storage: map<string, string>, location: string)
      ensures this.storage == storage && this.location == location
    {
      this.storage := storage;
      this.location := location;
    }

    /** `localStorage.getItem("accessToken")`: null when nothing is stored. */
    function Token(): (r: Option<string>)
      reads this
      ensures r.Some? <==> TokenKey in storage
      ensures r.Some? ==> r.value == storage[TokenKey]
    {
      if TokenKey in storage then Some(storage[TokenKey]) else None
    }

    /** `navigate(to)`. */
    method Navigate(to: string)
      modifies this`location
      ensures location == to
    {
      location := to;
    }

    /** `localStorage.setItem(key, value)`. */
    method Store(key: string, value: string)
      modifies this`storage
      ensures storage == old(storage)[key := value]
    {
      storage := storage[key := value];
    }
  }
}
