/** `RecentStopsManager`: the recently used stops, newest first, at most ten
    of them and each id once, kept as one entry of the app's preferences. */
module RecentStopsStore {
  import opened Wrappers
  import opened Seqs
  import opened BusModel

  /** `maxRecentStops`. */
  const MaxRecentStops: nat := 10

  /** What the preferences hold under the key `stops`: nothing, a list that
      decodes, or text that does not decode. */
  datatype Persisted = Missing | Stored(stops: seq<BusStop>) | Unreadable

  /** `getRecentStops`: the stored list, or the empty list when the key is
      absent or its text does not decode. */
  function Listed(p: Persisted): (r: seq<BusStop>)
    ensures p.Stored? ==> r == p.stops
    ensures p.Missing? || p.Unreadable? ==> r == []
  {
    if p.Stored? then p.stops else []
  }

  /** `removeAll { it.id == id }`: every entry with another id, in order. */
  function RemoveId(stops: seq<BusStop>, id: string): (r: seq<BusStop>)
    ensures forall x :: x in r <==> x in stops && x.id != id
    ensures |r| <= |stops|
  {
    Filter(stops, (x: BusStop) => x.id != id)
  }

  /** The list `addRecentStop` writes back: the new entry first, the other
      entries after it, cut to `MaxRecentStops`. */
  function Added(stops: seq<BusStop>, stop: BusStop): (r: seq<BusStop>)
    ensures 1 <= |r| <= MaxRecentStops && r[0] == stop
    ensures forall k :: 1 <= k < |r| ==> r[k] in stops && r[k].id != stop.id
  {
    var others := RemoveId(stops, stop.id);
    var r := Take([stop] + others, MaxRecentStops);
    assert forall k :: 1 <= k < |r| ==> r[k] == others[k - 1] && others[k - 1] in others;
    r
  }

  /** Ids are pairwise distinct. */
  ghost predicate DistinctIds(stops: seq<BusStop>) {
    forall i, j :: 0 <= i < j < |stops| ==> stops[i].id != stops[j].id
  }

  /** Removing an id keeps the relative order of what remains: it removes
      from each part of a concatenation separately. */
  lemma RemoveIdConcat(a: seq<BusStop>, b: seq<BusStop>, id: string)
    ensures RemoveId(a + b, id) == RemoveId(a, id) + RemoveId(b, id)
  {
    FilterConcat(a, b, (x: BusStop) => x.id != id);
  }

  /** Removing an id no entry has leaves the list as it is. */
  lemma RemoveAbsentId(stops: seq<BusStop>, id: string)
    requires forall k :: 0 <= k < |stops| ==> stops[k].id != id
    ensures RemoveId(stops, id) == stops
  {
    FilterKeepsAll(stops, (x: BusStop) => x.id != id);
  }

  /** Removing entries keeps the remaining ids distinct. */
  lemma {:induction false} RemoveIdDistinct(stops: seq<BusStop>, id: string)
    requires DistinctIds(stops)
    ensures DistinctIds(RemoveId(stops, id))
  {
    if stops != [] {
      var head, tail := stops[0], stops[1..];
      DistinctTail(stops);
      RemoveIdDistinct(tail, id);
      var rest := RemoveId(tail, id);
      assert RemoveId(stops, id) == if head.id != id then [head] + rest else rest;
      if head.id != id {
        forall x | x in rest ensures x.id != head.id {
          assert x in tail;
        }
        DistinctCons(head, rest);
      }
    }
  }

  lemma DistinctTail(stops: seq<BusStop>)
    requires DistinctIds(stops) && stops != []
    ensures DistinctIds(stops[1..])
    ensures forall x :: x in stops[1..] ==> x.id != stops[0].id
  {
    var tail := stops[1..];
    forall x | x in tail ensures x.id != stops[0].id {
      var j :| 0 <= j < |tail| && tail[j] == x;
      assert stops[j + 1] == x;
    }
  }

  lemma DistinctCons(head: BusStop, rest: seq<BusStop>)
    requires DistinctIds(rest)
    requires forall x :: x in rest ==> x.id != head.id
    ensures DistinctIds([head] + rest)
  {
    var r := [head] + rest;
    forall i, j | 0 <= i < j < |r| ensures r[i].id != r[j].id {
      assert r[j] == rest[j - 1];
      if i > 0 {
        assert r[i] == rest[i - 1];
      } else {
        assert r[j] in rest;
      }
    }
  }

  /** After an add the new entry is first, exactly as given (a name known
      before is replaced, even by `None`); there are at most ten entries;
      and the rest are the other entries in their old order, cut to nine. */
  lemma AddedShape(stops: seq<BusStop>, stop: BusStop)
    ensures var r := Added(stops, stop);
      && 1 <= |r| <= MaxRecentStops && r[0] == stop
      && r[1..] == Take(RemoveId(stops, stop.id), MaxRecentStops - 1)
      && forall k :: 1 <= k < |r| ==> r[k].id != stop.id
  {
    var r := Added(stops, stop);
    var others := RemoveId(stops, stop.id);
    assert ([stop] + others)[1..] == others;
    assert forall k :: 1 <= k < |r| ==> r[k] == others[k - 1];
    forall k | 1 <= k < |r| ensures r[k].id != stop.id {
      assert others[k - 1] in others;
    }
  }

  /** An add keeps the ids distinct. */
  lemma AddedDistinct(stops: seq<BusStop>, stop: BusStop)
    requires DistinctIds(stops)
    ensures DistinctIds(Added(stops, stop))
  {
    var others := RemoveId(stops, stop.id);
    RemoveIdDistinct(stops, stop.id);
    AddedShape(stops, stop);
    var r := Added(stops, stop);
    forall i, j | 0 <= i < j < |r| ensures r[i].id != r[j].id {
      if i > 0 {
        assert r[i] == ([stop] + others)[i] == others[i - 1];
        assert r[j] == ([stop] + others)[j] == others[j - 1];
      }
    }
  }

  /** An entry that survives an add: the other entries keep their place
      relative to each other, and only the old copy of the id and what falls
      past the tenth place are gone. */
  lemma AddedKeeps(stops: seq<BusStop>, stop: BusStop, x: BusStop)
    ensures x in Added(stops, stop) <==>
              x == stop || (x in Take(RemoveId(stops, stop.id), MaxRecentStops - 1))
  {
    AddedShape(stops, stop);
    var r := Added(stops, stop);
    assert r == [r[0]] + r[1..];
  }

  /** Adding an id the list does not hold puts it in front of the list. */
  lemma AddedFresh(stops: seq<BusStop>, stop: BusStop)
    requires forall k :: 0 <= k < |stops| ==> stops[k].id != stop.id
    ensures Added(stops, stop) == Take([stop] + stops, MaxRecentStops)
  {
    RemoveAbsentId(stops, stop.id);
  }

  /** The list after adding each stop of `stops` in turn to `start`. */
  function AddAll(start: seq<BusStop>, stops: seq<BusStop>): seq<BusStop>
    decreases |stops|
  {
    if stops == [] then start
    else Added(AddAll(start, stops[..|stops| - 1]), stops[|stops| - 1])
  }

  /** Adding stops with pairwise distinct ids to an empty list leaves the ten
      newest, newest first: adding eleven evicts only the first one. */
  lemma {:induction false} AddAllDistinct(stops: seq<BusStop>)
    requires DistinctIds(stops)
    ensures AddAll([], stops) == Take(Reverse(stops), MaxRecentStops)
  {
    if stops != [] {
      var init, last := stops[..|stops| - 1], stops[|stops| - 1];
      assert DistinctIds(init);
      AddAllDistinct(init);
      var before := Take(Reverse(init), MaxRecentStops);
      NewestIsFresh(stops);
      AddedFresh(before, last);
      assert Reverse(stops) == [last] + Reverse(init);
      TakeConsTake(last, Reverse(init), MaxRecentStops);
    }
  }

  /** The last of distinct stops has an id none of the ten before it has. */
  lemma NewestIsFresh(stops: seq<BusStop>)
    requires DistinctIds(stops) && stops != []
    ensures var init := stops[..|stops| - 1];
      forall k :: 0 <= k < |Take(Reverse(init), MaxRecentStops)| ==>
        Take(Reverse(init), MaxRecentStops)[k].id != stops[|stops| - 1].id
  {
    var init := stops[..|stops| - 1];
    var before := Take(Reverse(init), MaxRecentStops);
    forall k | 0 <= k < |before| ensures before[k].id != stops[|stops| - 1].id {
      assert before[k] == init[|init| - 1 - k] == stops[|init| - 1 - k];
    }
  }

  /** The class itself: the preferences entry is its only state. */
  class RecentStopsManager {
    var prefs: Persisted

    /** At most ten entries with distinct ids are listed. */
    ghost predicate Valid()
      reads this
    {
      |Listed(prefs)| <= MaxRecentStops && DistinctIds(Listed(prefs))
    }

    constructor(initial: Persisted)
      ensures prefs == initial
    {
      prefs := initial;
    }

    /** `getRecentStops`: it never fails; a missing or unreadable entry
        lists as empty. */
    method GetRecentStops() returns (stops: seq<BusStop>)
      ensures stops == Listed(prefs)
      ensures prefs.Missing? || prefs.Unreadable? ==> stops == []
    {
      stops := if prefs.Stored? then prefs.stops else [];
    }

    /** `addRecentStop`: reads the list (empty over an unreadable entry),
        removes the id, puts the new entry first, cuts to ten and stores. */
    method AddRecentStop(id: string, name: Option<string>, now: int)
      modifies this
      ensures prefs == Stored(Added(old(Listed(prefs)), BusStop(id, name, now)))
      ensures old(Valid()) ==> Valid()
      ensures Listed(prefs)[0] == BusStop(id, name, now) && |Listed(prefs)| <= MaxRecentStops
    {
      var stops := GetRecentStops();
      var stop := BusStop(id, name, now);
      stops := RemoveId(stops, id);
      stops := [stop] + stops;
      stops := Take(stops, MaxRecentStops);
      AddedShape(old(Listed(prefs)), stop);
      if old(Valid()) {
        AddedDistinct(old(Listed(prefs)), stop);
      }
      prefs := Stored(stops);
    }

    /** `clearRecentStops`: removes the entry. */
    method ClearRecentStops()
      modifies this
      ensures prefs == Missing
      ensures Listed(prefs) == [] && Valid()
    {
      prefs := Missing;
    }

    /** `removeStop`: stores the list without the entries of that id. */
    method RemoveStop(id: string)
      modifies this
      ensures prefs == Stored(RemoveId(old(Listed(prefs)), id))
      ensures old(Valid()) ==> Valid()
      ensures (forall k :: 0 <= k < |old(Listed(prefs))| ==> old(Listed(prefs))[k].id != id)
              ==> Listed(prefs) == old(Listed(prefs))
    {
      var stops := GetRecentStops();
      if old(Valid()) {
        RemoveIdDistinct(stops, id);
      }
      if forall k :: 0 <= k < |stops| ==> stops[k].id != id {
        RemoveAbsentId(stops, id);
      }
      stops := RemoveId(stops, id);
      prefs := Stored(stops);
    }
  }
}
