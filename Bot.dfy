/** The request handled by `show_carpark_availability`: look up the user's location, fetch the
    metadata page by page and the live availability, then rank. Chat replies are left out; the
    result is the list of carparks the reply would show, or the reason for the error reply. */
module Bot {
  import opened Wrappers
  import opened Carparks
  import opened Ranking
  import opened Pagination
  import opened Locations

  datatype CoreError =
    | NoLocationOnFile  // "Please share your location first"
    | FetchFailed       // "Failed to fetch carpark data."

  /** The availability endpoint's reply: a status code and the 'carpark_data' of each element of
      'items', or an exception (connection error, malformed JSON, missing keys). */
  datatype AvailabilityReply = AvailabilityReply(status: int, items: seq<seq<Availability>>) | AvailabilityRaised

  /** fetch_carpark_availability: raise_for_status() raises on 4xx and 5xx; an empty 'items'
      list raises IndexError; otherwise the carpark_data of the first item. */
  function FetchCarparkAvailability(reply: AvailabilityReply): (r: Option<seq<Availability>>)
    ensures r.Some? <==> reply.AvailabilityReply? && !(400 <= reply.status < 600) && reply.items != []
    ensures r.Some? ==> r.value == reply.items[0]
  {
    match reply
    case AvailabilityRaised => None
    case AvailabilityReply(status, items) =>
      if 400 <= status < 600 then None
      else if items == [] then None
      else Some(items[0])
  }

  /** show_carpark_availability for one user: the nearest carparks to the location on file, or
      the error the bot replies with. */
  method ShowCarparkAvailability(store: LocationStore, user: UserId, datastore: Datastore,
                                 availability: AvailabilityReply, geo: Geo)
    returns (r: Result<seq<RankedCarpark>, CoreError>)
    requires user in store.locations ==> exists k: nat :: EndsPaging(Page(datastore, k))
    ensures user !in store.locations <==> r == Failure(NoLocationOnFile)
    ensures user in store.locations && (PagedMetadata(datastore).None? || FetchCarparkAvailability(availability).None?)
            ==> r == Failure(FetchFailed)
    ensures user in store.locations && PagedMetadata(datastore).Some? && FetchCarparkAvailability(availability).Some?
            ==> var loc := store.locations[user];
                r == Success(Nearest(Candidates(geo, loc.latitude, loc.longitude,
                                                FetchCarparkAvailability(availability).value,
                                                PagedMetadata(datastore).value)))
  {
    var loc := store.Lookup(user);
    if loc.None? {
      return Failure(NoLocationOnFile);
    }
    var userLat := loc.value.latitude;
    var userLon := loc.value.longitude;
    var metadata := FetchAllMetadata(datastore);
    if metadata.None? {
      return Failure(FetchFailed);
    }
    var carparkAvailability := FetchCarparkAvailability(availability);
    if carparkAvailability.None? {
      return Failure(FetchFailed);
    }
    var nearest := RankCarparks(geo, userLat, userLon, carparkAvailability.value, metadata.value);
    return Success(nearest);
  }
}
