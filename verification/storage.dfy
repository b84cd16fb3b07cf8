/** The browser's `localStorage` as the model sees it: a string-to-string map
    whose writes may be refused. Every operation is atomic and sequential. */
module Storage {

  type Store = map<string, string>

  /** How the medium answers one `setItem`: it stores the value, or throws a
      `QuotaExceededError`, or throws some other error. A refused write leaves
      the store as it was. */
  datatype WriteStatus = Accepted | QuotaExceeded | OtherFailure

  /** `localStorage.setItem(key, value)` when the medium answers `status`. */
  function SetItem(store: Store, key: string, value: string, status: WriteStatus): (r: Store)
    ensures status == Accepted ==> key in r && r[key] == value
    ensures status != Accepted ==> r == store
    ensures forall k | k in r && k != key :: k in store && r[k] == store[k]
    ensures forall k | k in store && k != key :: k in r
  {
    if status == Accepted then store[key := value] else store
  }

  /** Removes every key satisfying `doomed` and nothing else: the
      `Object.keys(localStorage).forEach(k => … removeItem(k))` pattern. */
  function RemoveWhere(store: Store, doomed: string -> bool): (r: Store)
    ensures forall k :: k in r <==> k in store && !doomed(k)
    ensures forall k | k in r :: r[k] == store[k]
  {
    map k | k in store && !doomed(k) :: store[k]
  }
}
