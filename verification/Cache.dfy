/** The availability cache: an expiring map from lane and day to a listing. */
module Cache {
  import opened Prelude
  import opened Calendar
  import opened Models

  datatype Key = Key(lane: Id, day: int)

  /** A stored listing and the instant it expires. */
  datatype Entry = Entry(rows: seq<SlotRow>, expires: Time)

  /** What a `Get` at instant `now` finds. */
  function Lookup(entries: map<Key, Entry>, key: Key, now: Time): Option<seq<SlotRow>> {
    if key in entries && now < entries[key].expires then Some(entries[key].rows) else None
  }

  /** The key a change to a slot invalidates: `SafeTruncate` of its start, formatted as a day. */
  function SlotKey(slot: Slot): Key {
    Key(slot.lane, KeyDay(SafeTruncate(slot.start)))
  }

  class RedisCache {
    const ttl: int
    var entries: map<Key, Entry>

    constructor (ttl: int)
      ensures this.ttl == ttl && entries == map[]
    {
      this.ttl := ttl;
      entries := map[];
    }

    method Get(key: Key, now: Time) returns (r: Option<seq<SlotRow>>)
      ensures r == Lookup(entries, key, now)
    {
      r := if key in entries && now < entries[key].expires then Some(entries[key].rows) else None;
    }

    method Set(key: Key, rows: seq<SlotRow>, now: Time)
      modifies this
      ensures entries == old(entries)[key := Entry(rows, now + ttl)]
      ensures forall t :: Lookup(entries, key, t) == if t < now + ttl then Some(rows) else None
    {
      entries := entries[key := Entry(rows, now + ttl)];
    }

    method Delete(key: Key)
      modifies this
      ensures entries == old(entries) - {key}
      ensures forall now :: Lookup(entries, key, now) == None
    {
      entries := entries - {key};
    }
  }
}
