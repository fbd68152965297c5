/**
 The in-memory decision cache: a bounded map with expiry times that evicts the entry expiring first,
 whatever order the map is iterated in, and what its hits mean against an unbounded TTL map.
 */
module MemoryCache {
  import opened Wrappers

  /** What a cached decision holds; the source's unused score, challenge and host fields are dropped. */
  datatype Decision = Decision(success: bool, action: string, errorCodes: seq<string>, timestamp: int)

  datatype Entry = Entry(result: Decision, expiresAt: int)

  type Data = map<string, Entry>

  datatype Stats = Stats(hits: int, misses: int, size: int)

  // ---------------------------------------------------------------- the eviction scan

  /** An order in which a map iteration may visit the keys. */
  ghost predicate IsOrder(order: seq<string>, data: Data) {
    && (forall k :: k in order <==> k in data)
    && (forall i, j | 0 <= i < j < |order| :: order[i] != order[j])
  }

  /** The loop of evictOldest over one order; "" stands for no key chosen yet. */
  function Scan(order: seq<string>, data: Data): (oldest: string)
    requires forall k <- order :: k in data
    ensures oldest == "" || oldest in data
  {
    if order == [] then ""
    else
      var k := order[|order| - 1];
      var oldest := Scan(order[..|order| - 1], data);
      if oldest == "" || data[k].expiresAt < data[oldest].expiresAt then k else oldest
  }

  function Evicted(order: seq<string>, data: Data): Data
    requires forall k <- order :: k in data
  {
    if Scan(order, data) != "" then data - {Scan(order, data)} else data
  }

  lemma {:induction false} ScanIsMinimal(order: seq<string>, data: Data)
    requires forall k <- order :: k in data && k != ""
    ensures order != [] ==>
              && Scan(order, data) in order
              && forall k <- order :: data[Scan(order, data)].expiresAt <= data[k].expiresAt
  {
    if order == [] {
    } else {
      var rest := order[..|order| - 1];
      ScanIsMinimal(rest, data);
      forall k | k in order ensures k in rest || k == order[|order| - 1] {}
    }
  }

  /** With non-empty keys, eviction removes exactly one entry, of minimal expiry, under any order. */
  lemma EvictsAMinimum(order: seq<string>, data: Data) returns (victim: string)
    requires IsOrder(order, data) && "" !in data && |data| > 0
    ensures victim in data && Evicted(order, data) == data - {victim}
    ensures forall k <- data :: data[victim].expiresAt <= data[k].expiresAt
    ensures |Evicted(order, data)| == |data| - 1
  {
    assert order != [] by {
      var k :| k in data.Keys;
      assert k in order;
    }
    ScanIsMinimal(order, data);
    victim := Scan(order, data);
    assert (data - {victim}).Keys == data.Keys - {victim};
  }

  /** An expired entry in the map shields every live one from eviction. */
  lemma ExpiredShieldsLive(order: seq<string>, data: Data, expired: string, live: string, now: int)
    requires IsOrder(order, data) && "" !in data
    requires expired in data && data[expired].expiresAt < now
    requires live in data && now <= data[live].expiresAt
    ensures live in Evicted(order, data) && Evicted(order, data)[live] == data[live]
  {
    var victim := EvictsAMinimum(order, data);
  }

  /** The empty key is why keys must be non-empty: visited last, it makes eviction remove nothing. */
  lemma EmptyKeyBlocksEviction(d: Decision)
    ensures var data := map["" := Entry(d, 0), "k" := Entry(d, 1)];
            IsOrder(["k", ""], data) && Evicted(["k", ""], data) == data
  {
  }

  // ---------------------------------------------------------------- the object

  function Capacity(maxMemorySize: int): int {
    if maxMemorySize > 1 then maxMemorySize else 1
  }

  ghost predicate WithinCapacity(data: Data, maxMemorySize: int) {
    "" !in data && |data| <= Capacity(maxMemorySize)
  }

  /** The map after Set, when an eviction, if one is due, scans in the given order. */
  function AfterSet(max: int, data: Data, order: seq<string>, key: string, entry: Entry): Data
    requires forall k <- order :: k in data
  {
    (if |data| >= max then Evicted(order, data) else data)[key := entry]
  }

  class MemoryCache {
    const maxMemorySize: int
    var data: Data
    var stats: Stats

    /** In serial use the reported size is never below the true one. */
    ghost predicate Valid()
      reads this
    {
      |data| <= stats.size
    }

    constructor (maxMemorySize: int)
      ensures Valid() && this.maxMemorySize == maxMemorySize && data == map[] && stats == Stats(0, 0, 0)
    {
      this.maxMemorySize := maxMemorySize;
      data := map[];
      stats := Stats(0, 0, 0);
    }

    method Get(key: string, now: int) returns (r: Option<Decision>)
      requires Valid()
      modifies this
      ensures Valid()
      ensures r.Some? <==> key in old(data) && now <= old(data)[key].expiresAt
      ensures r.Some? ==> r.value == old(data)[key].result && data == old(data)
      ensures r.None? ==> data == old(data) - {key}
      ensures stats == old(stats).(hits := old(stats).hits + (if r.Some? then 1 else 0),
                                   misses := old(stats).misses + (if r.Some? then 0 else 1))
    {
      if key !in data {
        stats := stats.(misses := stats.misses + 1);
        assert data - {key} == data;
        return None;
      }
      var entry := data[key];
      if now > entry.expiresAt {
        Shrinks(data, key);
        data := data - {key};
        stats := stats.(misses := stats.misses + 1);
        return None;
      }
      stats := stats.(hits := stats.hits + 1);
      return Some(entry.result);
    }

    method Set(key: string, result: Decision, ttl: int, now: int) returns (ghost order: seq<string>)
      requires Valid()
      modifies this
      ensures Valid() && stats == old(stats).(size := |data|)
      ensures IsOrder(order, old(data))
      ensures data == AfterSet(maxMemorySize, old(data), order, key, Entry(result, now + ttl))
      ensures key != "" && WithinCapacity(old(data), maxMemorySize) ==> WithinCapacity(data, maxMemorySize)
    {
      ghost var before := data;
      if |data| >= maxMemorySize {
        order := EvictOldest();
      } else {
        order := AnOrder(data);
      }
      KeepsCapacity(maxMemorySize, before, order, key, Entry(result, now + ttl));
      data := data[key := Entry(result, now + ttl)];
      stats := stats.(size := |data|);
    }

    method Delete(key: string)
      requires Valid()
      modifies this
      ensures Valid() && data == old(data) - {key} && stats == old(stats).(size := |data|)
    {
      data := data - {key};
      stats := stats.(size := |data|);
    }

    method Clear()
      modifies this
      ensures Valid() && data == map[] && stats == old(stats).(size := 0)
    {
      data := map[];
      stats := stats.(size := 0);
    }

    method GetStats() returns (s: Stats)
      requires Valid()
      ensures s == stats && |data| <= s.size
    {
      s := stats;
    }

    /** The loop visits the keys in an arbitrary order, which it reports. */
    method EvictOldest() returns (ghost order: seq<string>)
      modifies this`data
      ensures IsOrder(order, old(data)) && data == Evicted(order, old(data))
    {
      var oldestKey, oldestTime := "", 0;
      var rest := data.Keys;
      order := [];
      while rest != {}
        invariant rest <= data.Keys && data == old(data)
        invariant forall k :: k in order <==> k in data && k !in rest
        invariant forall i, j | 0 <= i < j < |order| :: order[i] != order[j]
        invariant oldestKey == Scan(order, data)
        invariant oldestKey != "" ==> oldestKey in data && oldestTime == data[oldestKey].expiresAt
        decreases |rest|
      {
        var key :| key in rest;
        rest := rest - {key};
        ghost var longer := order + [key];
        assert longer[..|order|] == order;
        order := longer;
        if oldestKey == "" || data[key].expiresAt < oldestTime {
          oldestKey := key;
          oldestTime := data[key].expiresAt;
        }
      }
      if oldestKey != "" {
        data := data - {oldestKey};
      }
    }
  }

  lemma Shrinks(data: Data, key: string)
    ensures |data - {key}| <= |data|
    ensures key in data ==> |data - {key}| == |data| - 1
  {
  }

  /** Every map can be iterated. */
  lemma {:induction false} AnOrder(data: Data) returns (order: seq<string>)
    ensures IsOrder(order, data)
    decreases |data|
  {
    order := [];
    if data == map[] {
    } else {
      var k :| k in data;
      Shrinks(data, k);
      var rest := AnOrder(data - {k});
      order := rest + [k];
    }
  }

  /** Capacity: with non-empty keys a Set leaves at most max(1, maxMemorySize) entries. */
  lemma KeepsCapacity(max: int, data: Data, order: seq<string>, key: string, entry: Entry)
    requires IsOrder(order, data)
    ensures key != "" && WithinCapacity(data, max) ==>
              WithinCapacity(AfterSet(max, data, order, key, entry), max)
  {
  }

  // ---------------------------------------------------------------- histories

  /**
   The atomic steps of any number of concurrent users.  A Get of an expired entry gives up its lock
   before deleting the key, so the deletion (Expire) is a step of its own, which may come after
   another user's Set; a Set may evict, scanning in any order.
   */
  datatype Op =
    | Set(key: string, entry: Entry, order: seq<string>)
    | Delete(key: string)
    | Clear
    | Expire(key: string)

  /** The map after a history, if every eviction scan was an iteration of the map it met. */
  ghost function Replay(max: int, ops: seq<Op>): Option<Data> {
    if ops == [] then Some(map[])
    else
      match Replay(max, ops[..|ops| - 1])
      case None => None
      case Some(data) =>
        match ops[|ops| - 1]
        case Set(key, entry, order) =>
          if IsOrder(order, data) then Some(AfterSet(max, data, order, key, entry)) else None
        case Delete(key) => Some(data - {key})
        case Clear => Some(map[])
        case Expire(key) => Some(data - {key})
  }

  /** The unbounded TTL map: the last entry set for a key and not since deleted or cleared. */
  function LastSet(ops: seq<Op>, key: string): Option<Entry> {
    if ops == [] then None
    else
      var op := ops[|ops| - 1];
      if op.Set? && op.key == key then Some(op.entry)
      else if op.Clear? || (op.Delete? && op.key == key) then None
      else LastSet(ops[..|ops| - 1], key)
  }

  /**
   Refinement of the unbounded map: after any history, under any iteration orders and interleaving,
   every entry present is the one last set and not since deleted or cleared.
   */
  lemma {:induction false} PresentIsLastSet(max: int, ops: seq<Op>, key: string)
    requires Replay(max, ops).Some? && key in Replay(max, ops).value
    ensures LastSet(ops, key) == Some(Replay(max, ops).value[key])
  {
    var init := ops[..|ops| - 1];
    var op := ops[|ops| - 1];
    if op.Set? && op.key == key {
    } else {
      PresentIsLastSet(max, init, key);
    }
  }

  /** The reading half of Get: an entry, unless it is missing or past its expiry. */
  function Lookup(data: Data, key: string, now: int): Option<Decision> {
    if key in data && now <= data[key].expiresAt then Some(data[key].result) else None
  }

  /** A hit returns the last value set, unexpired and not since removed; only extra misses occur. */
  lemma HitsAreGenuine(max: int, ops: seq<Op>, key: string, now: int)
    requires Replay(max, ops).Some? && Lookup(Replay(max, ops).value, key, now).Some?
    ensures LastSet(ops, key).Some? && now <= LastSet(ops, key).value.expiresAt
    ensures Lookup(Replay(max, ops).value, key, now).value == LastSet(ops, key).value.result
  {
    PresentIsLastSet(max, ops, key);
  }

  /** With non-empty keys, no history grows the map past its capacity. */
  lemma {:induction false} AlwaysWithinCapacity(max: int, ops: seq<Op>)
    requires Replay(max, ops).Some? && forall op <- ops :: op.Set? ==> op.key != ""
    ensures WithinCapacity(Replay(max, ops).value, max)
  {
    if ops == [] {
    } else {
      var init := ops[..|ops| - 1];
      var op := ops[|ops| - 1];
      AlwaysWithinCapacity(max, init);
      var data := Replay(max, init).value;
      match op
      case Set(key, entry, order) => KeepsCapacity(max, data, order, key, entry);
      case Delete(key) => Shrinks(data, key);
      case Clear =>
      case Expire(key) => Shrinks(data, key);
    }
  }

  // ---------------------------------------------------------------- what is evicted is not the oldest

  /** The index of the last Set of a key, or -1. */
  function LastSetAt(ops: seq<Op>, key: string): (n: int)
    ensures -1 <= n < |ops|
    ensures n >= 0 ==> ops[n].Set? && ops[n].key == key
  {
    if ops == [] then -1
    else if ops[|ops| - 1].Set? && ops[|ops| - 1].key == key then |ops| - 1
    else LastSetAt(ops[..|ops| - 1], key)
  }

  /** An entry present is the one its key was last set to. */
  lemma {:induction false} PresentSince(max: int, ops: seq<Op>, key: string)
    requires Replay(max, ops).Some? && key in Replay(max, ops).value
    ensures LastSetAt(ops, key) >= 0 && ops[LastSetAt(ops, key)].entry == Replay(max, ops).value[key]
  {
    var init := ops[..|ops| - 1];
    var op := ops[|ops| - 1];
    if op.Set? && op.key == key {
    } else {
      PresentSince(max, init, key);
    }
  }

  /** Decisions are set at increasing times, to expire after one of two periods by their outcome. */
  ghost predicate SetInTime(ops: seq<Op>, ttl: int, failedTTL: int) {
    && (forall i | 0 <= i < |ops| && ops[i].Set? ::
          && ops[i].key != ""
          && ops[i].entry.expiresAt == ops[i].entry.result.timestamp
                                       + if ops[i].entry.result.success then ttl else failedTTL)
    && (forall i, j | 0 <= i < j < |ops| && ops[i].Set? && ops[j].Set? ::
          ops[i].entry.result.timestamp < ops[j].entry.result.timestamp)
  }

  /** The eviction, scanning in this order, removes the key whose last Set is the earliest. */
  ghost predicate EvictsOldest(ops: seq<Op>, order: seq<string>, data: Data)
    requires IsOrder(order, data)
  {
    var victim := Scan(order, data);
    victim in data && forall k <- data :: LastSetAt(ops, victim) <= LastSetAt(ops, k)
  }

  /** Every eviction after every such history, in every order, removes the oldest entry. */
  ghost predicate EvictionIsByAge(ttl: int, failedTTL: int) {
    forall max, ops, order | Evicting(max, ops, order) && SetInTime(ops, ttl, failedTTL) ::
      EvictsOldest(ops, order, Replay(max, ops).value)
  }

  /** An eviction due after this history, scanning in this order. */
  ghost predicate Evicting(max: int, ops: seq<Op>, order: seq<string>) {
    && Replay(max, ops).Some?
    && |Replay(max, ops).value| >= max && Replay(max, ops).value != map[]
    && IsOrder(order, Replay(max, ops).value)
  }

  lemma OneTTLEvictsOldest(max: int, ops: seq<Op>, order: seq<string>, ttl: int)
    requires Evicting(max, ops, order) && SetInTime(ops, ttl, ttl)
    ensures EvictsOldest(ops, order, Replay(max, ops).value)
  {
    var data := Replay(max, ops).value;
    forall k | k in data ensures k != "" { PresentSince(max, ops, k); }
    ScanIsMinimal(order, data);
    var v := Scan(order, data);
    assert v in data by { var k :| k in data; assert k in order; }
    PresentSince(max, ops, v);
    forall k | k in data ensures LastSetAt(ops, v) <= LastSetAt(ops, k) {
      PresentSince(max, ops, k);
    }
  }

  /** A history of two Sets. */
  function TwoSets(first: Entry, second: Entry): seq<Op> {
    [Set("a", first, [])] + [Set("b", second, ["a"])]
  }

  lemma TwoSetsReplay(first: Entry, second: Entry)
    ensures Replay(2, TwoSets(first, second)) == Some(map["a" := first, "b" := second])
    ensures LastSetAt(TwoSets(first, second), "a") == 0 && LastSetAt(TwoSets(first, second), "b") == 1
  {
    var ops := TwoSets(first, second);
    assert ops[..1] == [Set("a", first, [])] && ops[..1][..0] == [];
    assert Replay(2, []) == Some(map[]);
    assert Replay(2, ops[..1]) == Some(map["a" := first]);
    assert |map["a" := first]| == 1;
  }

  lemma ScanOfTwo(first: Entry, second: Entry)
    requires second.expiresAt <= first.expiresAt
    ensures var data := map["a" := first, "b" := second];
            IsOrder(["b", "a"], data) && |data| == 2 && Scan(["b", "a"], data) == "b"
  {
    var data := map["a" := first, "b" := second];
    assert data.Keys == {"a", "b"};
    assert ["b", "a"][..1] == ["b"] && ["b"][..0] == [];
    assert Scan(["b"], data) == "b";
  }

  /** Two entries set one after the other, the first to expire no sooner: the second is evicted. */
  lemma NewerIsEvicted(ttl: int, failedTTL: int) returns (ops: seq<Op>, order: seq<string>)
    requires ttl != failedTTL
    ensures Evicting(2, ops, order) && SetInTime(ops, ttl, failedTTL)
    ensures !EvictsOldest(ops, order, Replay(2, ops).value)
  {
    var longer := ttl > failedTTL;
    var first := Entry(Decision(longer, "", [], 0), if longer then ttl else failedTTL);
    var second := Entry(Decision(!longer, "", [], 1), 1 + if longer then failedTTL else ttl);
    ops, order := TwoSets(first, second), ["b", "a"];
    TwoSetsReplay(first, second);
    ScanOfTwo(first, second);
  }

  /**
   The eviction removes the least recently set entry, as its comment says, if and only if allowed and
   denied decisions live equally long.
   */
  lemma EvictsOldestIffOneTTL(ttl: int, failedTTL: int)
    ensures EvictionIsByAge(ttl, failedTTL) <==> ttl == failedTTL
  {
    if ttl == failedTTL {
      forall max, ops, order | Evicting(max, ops, order) && SetInTime(ops, ttl, failedTTL)
        ensures EvictsOldest(ops, order, Replay(max, ops).value)
      {
        OneTTLEvictsOldest(max, ops, order, ttl);
      }
    } else {
      var ops, order := NewerIsEvicted(ttl, failedTTL);
    }
  }
}
