/**
 * The slot-availability cache: the key a query is cached under, the
 * read-through lookup, and invalidation by date, product type and team.
 * The cache itself is a map from keys to slot lists; its size bound and
 * expiry belong to the cache library and are not modelled.
 */
module SlotCaching {
  import opened Wrappers
  import opened Strings

  /** The parameters of `getAvailableSlots` and `generateCacheKey`. */
  datatype SlotQuery = SlotQuery(date: string, productTypeId: string, teamId: Option<string>)

  /** The parameters of `invalidateSlotCache`, every one of them optional. */
  datatype Invalidation = Invalidation(date: Option<string>, productTypeId: Option<string>, teamId: Option<string>)

  /** An optional string parameter that is truthy: present and not empty. */
  predicate Given(o: Option<string>) {
    o.Some? && o.value != ""
  }

  /** The last segment of a key: the team, or `all` when no team is given. */
  function TeamSegment(teamId: Option<string>): string {
    if Given(teamId) then teamId.value else "all"
  }

  /** `generateCacheKey`. */
  function CacheKey(q: SlotQuery): string {
    "slots:" + q.date + ":" + q.productTypeId + ":" + TeamSegment(q.teamId)
  }

  /** A query none of whose fields holds the key separator. */
  predicate ColonFree(q: SlotQuery) {
    ':' !in q.date && ':' !in q.productTypeId && ':' !in TeamSegment(q.teamId)
  }

  /** Splitting a key on `:` gives back its four segments, when no field holds a `:`. */
  lemma KeySegments(q: SlotQuery)
    requires ColonFree(q)
    ensures Split(CacheKey(q), ':') == ["slots", q.date, q.productTypeId, TeamSegment(q.teamId)]
  {
    var parts := ["slots", q.date, q.productTypeId, TeamSegment(q.teamId)];
    assert parts[1..] == parts[1..4];
    JoinThree(q.date, q.productTypeId, TeamSegment(q.teamId), ":");
    assert Join(parts, ":") == CacheKey(q);
    SplitJoin(parts, ':');
  }

  /** Two colon-free queries share a key exactly when they agree on date, product type and team segment. */
  lemma KeysDistinguishQueries(q1: SlotQuery, q2: SlotQuery)
    requires ColonFree(q1) && ColonFree(q2)
    ensures CacheKey(q1) == CacheKey(q2) <==>
      q1.date == q2.date && q1.productTypeId == q2.productTypeId && TeamSegment(q1.teamId) == TeamSegment(q2.teamId)
  {
    if CacheKey(q1) == CacheKey(q2) {
      KeySegments(q1);
      KeySegments(q2);
    }
  }

  /** Destructuring `key.split(':')`: a missing element is `undefined`. */
  function SegmentAt(parts: seq<string>, i: nat): Option<string> {
    if i < |parts| then Some(parts[i]) else None
  }

  /** No parameter is truthy: invalidation clears the whole cache. */
  predicate ClearsAll(inv: Invalidation) {
    !Given(inv.date) && !Given(inv.productTypeId) && !Given(inv.teamId)
  }

  /** A key is invalidated when its second, third and fourth segments equal every truthy parameter. */
  predicate Matches(inv: Invalidation, key: string) {
    var parts := Split(key, ':');
    && (Given(inv.date) ==> SegmentAt(parts, 1) == inv.date)
    && (Given(inv.productTypeId) ==> SegmentAt(parts, 2) == inv.productTypeId)
    && (Given(inv.teamId) ==> SegmentAt(parts, 3) == inv.teamId)
  }

  /** A generated key is invalidated exactly when every truthy parameter equals the query field it was built from. */
  lemma MatchesGenerated(inv: Invalidation, q: SlotQuery)
    requires ColonFree(q)
    ensures Matches(inv, CacheKey(q)) <==>
      && (Given(inv.date) ==> inv.date.value == q.date)
      && (Given(inv.productTypeId) ==> inv.productTypeId.value == q.productTypeId)
      && (Given(inv.teamId) ==> inv.teamId.value == TeamSegment(q.teamId))
  {
    KeySegments(q);
  }

  /**
   * A team id holding a `:` splits into two segments, so invalidating by
   * that same team leaves its key in place.
   */
  lemma ColonTeamSurvives()
    ensures var q := SlotQuery("2024-03-01", "p1", Some("north:east"));
      !Matches(Invalidation(None, None, Some("north:east")), CacheKey(q))
  {
    var key := CacheKey(SlotQuery("2024-03-01", "p1", Some("north:east")));
    var parts := ["slots", "2024-03-01", "p1", "north", "east"];
    assert parts[1..] == parts[1..5];
    assert parts[2..] == parts[2..5];
    assert parts[2..][1..] == parts[3..5];
    JoinThree("p1", "north", "east", ":");
    JoinThree("slots", "2024-03-01", Join(parts[2..], ":"), ":");
    assert Join(parts, ":") == key;
    SplitJoin(parts, ':');
    assert SegmentAt(Split(key, ':'), 3) == Some("north");
  }

  /** `slotCache`: the cached slot lists by key. */
  class SlotCache<Slot> {
    var entries: map<string, seq<Slot>>

    constructor()
      ensures entries == map[]
    {
      entries := map[];
    }

    /**
     * `getAvailableSlots`: a cached list is returned as it is; otherwise the
     * store is asked and its answer cached. An empty cached list is still a
     * hit, since an array is truthy.
     */
    method GetAvailableSlots(q: SlotQuery, fetch: SlotQuery -> seq<Slot>) returns (slots: seq<Slot>)
      modifies this
      ensures CacheKey(q) in old(entries) ==> slots == old(entries)[CacheKey(q)] && entries == old(entries)
      ensures CacheKey(q) !in old(entries) ==> slots == fetch(q) && entries == old(entries)[CacheKey(q) := slots]
      ensures CacheKey(q) in entries && entries[CacheKey(q)] == slots
    {
      var key := CacheKey(q);
      if key in entries {
        return entries[key];
      }
      slots := fetch(q);
      entries := entries[key := slots];
    }

    /**
     * `invalidateSlotCache`: with no truthy parameter the cache is emptied;
     * otherwise exactly the matching keys are deleted and every other entry
     * keeps its value.
     */
    method InvalidateSlotCache(inv: Invalidation)
      modifies this
      ensures ClearsAll(inv) ==> entries == map[]
      ensures !ClearsAll(inv) ==> forall k :: k in entries <==> k in old(entries) && !Matches(inv, k)
      ensures forall k | k in entries :: k in old(entries) && entries[k] == old(entries)[k]
    {
      if ClearsAll(inv) {
        entries := map[];
        return;
      }
      var pending := entries.Keys;
      while pending != {}
        invariant pending <= old(entries).Keys
        invariant forall k :: k in entries <==> k in old(entries) && (k in pending || !Matches(inv, k))
        invariant forall k | k in entries :: entries[k] == old(entries)[k]
        decreases |pending|
      {
        var key :| key in pending;
        if Matches(inv, key) {
          entries := entries - {key};
        }
        pending := pending - {key};
      }
    }
  }
}
