/** The bot's `user_locations` dictionary: the upsert of `handle_location` and one pass of the
    `cleanup_locations` sweep. Time is an explicit parameter (the value of time.time()). */
module Locations {
  import opened Wrappers

  type UserId = int

  /** How long, in seconds, a shared location stays on file. */
  const ExpirySeconds: real := 600.0

  datatype UserLocation = UserLocation(latitude: real, longitude: real, timestamp: real)

  /** The sweep at time now removes loc: it is strictly older than the expiry. */
  predicate Expired(loc: UserLocation, now: real) {
    now - loc.timestamp > ExpirySeconds
  }

  /** What a sweep at time now leaves of m: the entries that have not expired, unchanged. */
  function Unexpired(m: map<UserId, UserLocation>, now: real): map<UserId, UserLocation> {
    map u | u in m && !Expired(m[u], now) :: m[u]
  }

  lemma HasMember(s: set<UserId>)
    requires s != {}
    ensures exists u :: u in s
  {
    if forall u :: u !in s {
      assert false;
    }
  }

  class LocationStore {
    var locations: map<UserId, UserLocation>

    /** The dictionary starts empty. */
    constructor ()
      ensures locations == map[]
    {
      locations := map[];
    }

    /** handle_location: records the user's position with the time it was shared, replacing
        any earlier one. */
    method HandleLocation(user: UserId, latitude: real, longitude: real, now: real)
      modifies this
      ensures user in locations && locations[user] == UserLocation(latitude, longitude, now)
      ensures locations.Keys == old(locations).Keys + {user}
      ensures forall v :: v in old(locations) && v != user ==> locations[v] == old(locations)[v]
    {
      locations := locations[user := UserLocation(latitude, longitude, now)];
    }

    /** The lookup of show_carpark_availability: None when the user has no location on file. */
    function Lookup(user: UserId): (r: Option<UserLocation>)
      reads this
      ensures r.Some? <==> user in locations
      ensures r.Some? ==> r.value == locations[user]
    {
      if user in locations then Some(locations[user]) else None
    }

    /** The first loop of a sweep: the users whose location has expired, each listed once. */
    method ExpiredUsers(now: real) returns (expired: seq<UserId>)
      ensures forall u :: u in expired <==> u in locations && Expired(locations[u], now)
      ensures forall i, j :: 0 <= i < j < |expired| ==> expired[i] != expired[j]
    {
      expired := [];
      var pending: set<UserId> := locations.Keys;
      while pending != {}
        invariant pending <= locations.Keys
        invariant forall u :: u in expired <==> u in locations && u !in pending && Expired(locations[u], now)
        invariant forall i, j :: 0 <= i < j < |expired| ==> expired[i] != expired[j]
        decreases |pending|
      {
        HasMember(pending);
        var u :| u in pending;
        if Expired(locations[u], now) {
          expired := expired + [u];
        }
        pending := pending - {u};
      }
    }

    /** One pass of cleanup_locations at time now: collects the expired users, then deletes
        each of them. */
    method CleanupPass(now: real)
      modifies this
      ensures locations == Unexpired(old(locations), now)
    {
      ghost var before := locations;
      var expired := ExpiredUsers(now);
      assert forall u :: u in expired <==> u in before && Expired(before[u], now);
      for i := 0 to |expired|
        invariant locations == map u | u in before && u !in expired[..i] :: before[u]
      {
        locations := locations - {expired[i]};
        assert expired[..i + 1] == expired[..i] + [expired[i]];
      }
      assert expired[..|expired|] == expired;
      forall u ensures u in locations <==> u in Unexpired(before, now) {
        assert u in expired <==> u in before && Expired(before[u], now);
      }
    }
  }

  /** Exactly the entries with now - timestamp <= 600 survive a sweep, with their values; an
      entry exactly 600 seconds old is kept. */
  lemma SweepKeepsFreshEntries(m: map<UserId, UserLocation>, now: real, u: UserId)
    ensures u in Unexpired(m, now) <==> u in m && now - m[u].timestamp <= ExpirySeconds
    ensures u in Unexpired(m, now) ==> Unexpired(m, now)[u] == m[u]
    ensures u in m && m[u].timestamp == now - 600.0 ==> u in Unexpired(m, now)
  {
  }

  /** A second sweep at the same time removes nothing more. */
  lemma SweepIdempotent(m: map<UserId, UserLocation>, now: real)
    ensures Unexpired(Unexpired(m, now), now) == Unexpired(m, now)
  {
  }

  /** Sweeping at an earlier time and then at a later one is the same as sweeping once at the
      later time. */
  lemma SweepsCompose(m: map<UserId, UserLocation>, earlier: real, later: real)
    requires earlier <= later
    ensures Unexpired(Unexpired(m, earlier), later) == Unexpired(m, later)
  {
    var a := Unexpired(Unexpired(m, earlier), later);
    var b := Unexpired(m, later);
    forall u ensures u in a <==> u in b {
      if u in m && !Expired(m[u], later) {
        assert !Expired(m[u], earlier);
      }
    }
  }

  /** A location shared at time t is still on file after a sweep at any time up to t + 600, and
      gone after a sweep at any later time. */
  lemma SharedLocationLifetime(m: map<UserId, UserLocation>, u: UserId, lat: real, lon: real, t: real, now: real)
    ensures u in Unexpired(m[u := UserLocation(lat, lon, t)], now) <==> now <= t + ExpirySeconds
  {
  }
}
