/** The reading half of `LaneService`: cache-aside availability and its invalidation. */
module Availability {
  import opened Prelude
  import opened Calendar
  import opened Models
  import opened Tables
  import opened Repository
  import opened Cache

  /** The cache-aside read: its answer and the cache after it. */
  function ReadThrough(db: Db, entries: map<Key, Entry>, lane: Id, date: Time, now: Time, ttl: int)
    : (Result<seq<SlotRow>, RepoError>, map<Key, Entry>)
  {
    var key := Key(lane, KeyDay(date));
    match Lookup(entries, key, now)
    case Some(rows) => (Ok(rows), entries)
    case None =>
      if lane !in db.lanes then (Err(NotFound), entries) else
        var rows := Available(db, lane, DayOf(date));
        (Ok(rows), entries[key := Entry(rows, now + ttl)])
  }

  /**
   A read fails exactly when nothing live is cached under its day and the lane is missing, and then it caches
   nothing. Any other answer is repeated, whatever becomes of the tables, until its entry expires, and a
   miss answers with the day's free slots and lives one TTL.
   */
  lemma ReadOutcomeExact(db: Db, entries: map<Key, Entry>, lane: Id, date: Time, now: Time, ttl: int, later: Db, t: Time)
    ensures var (r, after) := ReadThrough(db, entries, lane, date, now, ttl);
      var live := Lookup(entries, Key(lane, date / 86_400_000_000), now);
      && (r.Err? <==> live.None? && lane !in db.lanes) && (r.Err? ==> r.error == NotFound && after == entries)
      && (live.Some? ==> r == Ok(live.value) && after == entries)
      && (live.None? && lane in db.lanes ==> r == Ok(Available(db, lane, date / 86_400_000_000)))
      && (live.None? && lane in db.lanes && t < now + ttl ==> ReadThrough(later, after, lane, date, t, ttl) == (r, after))
      && (forall other :: other != Key(lane, date / 86_400_000_000) ==> Lookup(after, other, t) == Lookup(entries, other, t))
  {
  }

  class Service {
    const db: Database
    const cache: RedisCache

    constructor (db: Database, cache: RedisCache)
      ensures this.db == db && this.cache == cache
    {
      this.db, this.cache := db, cache;
    }

    /**
     A hit is returned as cached, without a look at the database. A miss on an existing lane is
     answered with the fresh query, which is then cached; a miss on a missing lane caches nothing.
     */
    method GetAvailableSlots(lane: Id, date: Time, now: Time) returns (r: Result<seq<SlotRow>, RepoError>)
      modifies cache
      ensures (r, cache.entries) == ReadThrough(db.State(), old(cache.entries), lane, date, now, cache.ttl)
    {
      var cacheKey := Key(lane, KeyDay(date));
      var val := cache.Get(cacheKey, now);
      if val.Some? {
        return Ok(val.value);
      }
      r := Fetch(lane, date, now);
    }

    /** The miss path. */
    method Fetch(lane: Id, date: Time, now: Time) returns (r: Result<seq<SlotRow>, RepoError>)
      modifies cache
      ensures lane !in db.lanes ==> r == Err(NotFound) && cache.entries == old(cache.entries)
      ensures lane in db.lanes ==>
        var rows := Available(db.State(), lane, DayOf(date));
        r == Ok(rows) && cache.entries == old(cache.entries)[Key(lane, KeyDay(date)) := Entry(rows, now + cache.ttl)]
    {
      var found := db.HasLane(lane);
      if found.Err? {
        return Err(found.error);
      }
      var slots := db.GetAvailableByLaneAndDate(lane, date);
      assert slots == Available(db.State(), lane, DayOf(date));
      cache.Set(Key(lane, KeyDay(date)), slots, now);
      r := Ok(slots);
    }

    method InvalidateSlotsCache(lane: Id, date: Time)
      modifies cache
      ensures cache.entries == old(cache.entries) - {Key(lane, KeyDay(date))}
    {
      cache.Delete(Key(lane, KeyDay(date)));
    }
  }
}
