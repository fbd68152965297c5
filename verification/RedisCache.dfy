/**
 The decision cache kept in Redis: a map with expiry times whose commands may fail and which may drop
 entries of its own accord.  Redis drops expired entries itself.
 */
module RedisCache {
  import opened Wrappers
  import C = MemoryCache

  class RedisCache {
    var data: C.Data
    var stats: C.Stats

    constructor ()
      ensures data == map[] && stats == C.Stats(0, 0, 0)
    {
      data := map[];
      stats := C.Stats(0, 0, 0);
    }

    /** A failing command is reported like a miss but is not counted as one. */
    method Get(key: string, now: int, fails: bool) returns (r: Option<C.Decision>)
      modifies this
      ensures r == if fails then None else C.Lookup(old(data), key, now)
      ensures data == if fails || r.Some? then old(data) else old(data) - {key}
      ensures stats == if fails then old(stats)
                       else old(stats).(hits := old(stats).hits + (if r.Some? then 1 else 0),
                                        misses := old(stats).misses + (if r.Some? then 0 else 1))
    {
      if fails {
        return None;
      }
      if key !in data || now > data[key].expiresAt {
        data := data - {key};
        stats := stats.(misses := stats.misses + 1);
        return None;
      }
      stats := stats.(hits := stats.hits + 1);
      return Some(data[key].result);
    }

    /** The server may drop any entries; a failing command stores nothing. */
    method Set(key: string, result: C.Decision, ttl: int, now: int, lost: set<string>, fails: bool)
      modifies this`data
      ensures data == if fails then old(data) - lost
                      else (old(data) - lost)[key := C.Entry(result, now + ttl)]
    {
      data := data - lost;
      if !fails {
        data := data[key := C.Entry(result, now + ttl)];
      }
    }
  }
}
