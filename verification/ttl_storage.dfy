/**
 * Browser storage with expiry (`setData`, `getData`, `removeData`): every
 * key holds a value together with the instant, in milliseconds, after which
 * it is stale. Reading a stale entry deletes it. The clock (`Date.now()`)
 * is passed in as `now`.
 */
module TtlStorage {
  import opened Wrappers

  /** What is stored under a key: the value and its expiry instant. */
  datatype Item<T> = Item(value: T, expiry: int)

  /** An entry is still live at instant `now` up to and including its expiry. */
  predicate Live<T>(item: Item<T>, now: int) {
    !(now > item.expiry)
  }

  /**
   * What `getData(key)` returns at instant `now`, and what storage holds
   * afterwards.
   */
  function Read<T>(items: map<string, Item<T>>, key: string, now: int): (r: (Option<T>, map<string, Item<T>>))
    ensures r.0.Some? <==> key in items && Live(items[key], now)
    ensures r.0.Some? ==> r.0.value == items[key].value && r.1 == items
    ensures r.0.None? ==> r.1.Keys == items.Keys - {key}
    ensures forall k :: k in r.1 ==> k in items && r.1[k] == items[k]
  {
    if key !in items then (None, items)
    else if now > items[key].expiry then (None, items - {key})
    else (Some(items[key].value), items)
  }

  /** Reading a key that was never written (or was removed) yields null and changes nothing. */
  lemma ReadAbsent<T>(items: map<string, Item<T>>, key: string, now: int)
    requires key !in items
    ensures Read(items, key, now) == (None, items)
  {
  }

  /** A stale entry is reported as missing and removed; nothing else is touched. */
  lemma ReadExpired<T>(items: map<string, Item<T>>, key: string, now: int)
    requires key in items && now > items[key].expiry
    ensures Read(items, key, now) == (None, items - {key})
  {
  }

  /** `setData(k, v, ttl)` followed by `getData(k)` at the same instant returns `v` when `ttl >= 0`. */
  lemma SetThenRead<T>(items: map<string, Item<T>>, key: string, value: T, ttlMs: int, now: int)
    requires ttlMs >= 0
    ensures var stored := items[key := Item(value, now + ttlMs)];
            Read(stored, key, now) == (Some(value), stored)
  {
  }

  /** The write stays readable until exactly `now + ttl`, and is gone one millisecond later. */
  lemma SetExpiresAfterTtl<T>(items: map<string, Item<T>>, key: string, value: T, ttlMs: int, now: int, later: int)
    ensures var stored := items[key := Item(value, now + ttlMs)];
            (Read(stored, key, later).0.Some? <==> later <= now + ttlMs)
            && (later > now + ttlMs ==> Read(stored, key, later).1 == items - {key})
  {
    var stored := items[key := Item(value, now + ttlMs)];
    assert later > now + ttlMs ==> stored - {key} == items - {key};
  }

  /** The local storage area seen by the page. */
  class Store<T> {
    var items: map<string, Item<T>>

    /** An empty storage area. */
    constructor ()
      ensures items == map[]
    {
      items := map[];
    }

    /** `setData(key, value, ttlMs)`: store `value` with expiry `now + ttlMs`, replacing any earlier entry. */
    method SetData(key: string, value: T, ttlMs: int, now: int)
      modifies this
      ensures items == old(items)[key := Item(value, now + ttlMs)]
    {
      items := items[key := Item(value, now + ttlMs)];
    }

    /** `getData(key)`: the value when the entry is live; otherwise null, deleting a stale entry. */
    method GetData(key: string, now: int) returns (r: Option<T>)
      modifies this
      ensures (r, items) == Read(old(items), key, now)
    {
      if key !in items {
        return None;
      }
      var item := items[key];
      if now > item.expiry {
        items := items - {key};
        return None;
      }
      r := Some(item.value);
    }

    /** `removeData(key)`: delete the entry under `key`; every other key is kept. */
    method RemoveData(key: string)
      modifies this
      ensures items == old(items) - {key}
    {
      items := items - {key};
    }
  }
}
