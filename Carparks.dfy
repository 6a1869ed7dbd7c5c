/** The per-record part of the ranking pass of `show_carpark_availability`: joining a metadata
    record to the live availability by normalized carpark number, totalling the car lots, and
    building the ranked entry, or dropping the record when any step fails. */
module Carparks {
  import opened Wrappers
  import opened Text

  /** A record of the carpark metadata dataset. freeParking is None when the record has no
      'free_parking' field. */
  datatype MetaRecord = MetaRecord(
    carParkNo: string,
    address: string,
    xCoord: string,
    yCoord: string,
    freeParking: Option<string>)

  /** One entry of an availability record's 'carpark_info' list. */
  datatype LotInfo = LotInfo(lotType: string, lotsAvailable: string)

  /** A record of the live availability dataset. */
  datatype Availability = Availability(carparkNumber: string, carparkInfo: seq<LotInfo>)

  /** An entry of the bot's carpark list. */
  datatype RankedCarpark = RankedCarpark(
    carParkNo: string,
    address: string,
    lat: real,
    lng: real,
    distance: real,
    availableLots: int,
    freeParking: string)

  /** The numeric collaborators of the ranking pass, left uninterpreted: Python's float() on a
      coordinate string, the SVY21 to WGS84 transform (which returns (lng, lat)), and haversine. */
  datatype Geo = Geo(
    parseFloat: string -> Option<real>,
    toWgs84: (real, real) -> (real, real),
    haversine: (real, real, real, real) -> real)

  /** The lot type whose lots are counted. */
  const CarLotType: string := "C"

  /** The default for a record without 'free_parking'. */
  const UnknownFreeParking: string := "Unknown"

  predicate SameCarpark(a: Availability, carParkNo: string) {
    Normalize(a.carparkNumber) == Normalize(carParkNo)
  }

  /** The index of the first occurrence of x in s, or None. */
  function FirstIndex<T(==)>(s: seq<T>, x: T): (r: Option<nat>)
    ensures r.Some? ==> r.value < |s| && s[r.value] == x && forall k :: 0 <= k < r.value ==> s[k] != x
    ensures r.None? ==> forall k :: 0 <= k < |s| ==> s[k] != x
  {
    if s == [] then None
    else if s[0] == x then Some(0)
    else
      match FirstIndex(s[1..], x)
      case None => None
      case Some(j) => Some(j + 1)
  }

  /** The normalized carpark numbers of the availability records, in order. */
  function CarparkKeys(avail: seq<Availability>): (keys: seq<string>)
    ensures |keys| == |avail|
    ensures forall k :: 0 <= k < |avail| ==> keys[k] == Normalize(avail[k].carparkNumber)
  {
    seq(|avail|, k requires 0 <= k < |avail| => Normalize(avail[k].carparkNumber))
  }

  /** The index of the first availability record whose carpark number matches, as the source's
      next(...) generator finds it, or None. */
  function FirstMatch(avail: seq<Availability>, carParkNo: string): (r: Option<nat>)
    ensures r.Some? ==> r.value < |avail| && SameCarpark(avail[r.value], carParkNo)
    ensures r.Some? ==> forall k :: 0 <= k < r.value ==> !SameCarpark(avail[k], carParkNo)
    ensures r.None? ==> forall k :: 0 <= k < |avail| ==> !SameCarpark(avail[k], carParkNo)
  {
    FirstIndex(CarparkKeys(avail), Normalize(carParkNo))
  }

  /** Addition where None (a raised exception) absorbs everything. */
  function AddOpt(a: Option<int>, b: Option<int>): Option<int> {
    if a.Some? && b.Some? then Some(a.value + b.value) else None
  }

  /** The sum of parse(lots_available) over the entries of type "C", evaluated left to right;
      None where one of those parses fails. Other entries are never parsed. The loop body uses
      it with int() (ParseInt); the lemmas below hold for every parser. */
  function SumCarLots(parse: string -> Option<int>, info: seq<LotInfo>): (r: Option<int>)
    ensures (forall k :: 0 <= k < |info| ==> info[k].lotType != CarLotType) ==> r == Some(0)
  {
    if info == [] then Some(0)
    else if info[0].lotType != CarLotType then SumCarLots(parse, info[1..])
    else AddOpt(parse(info[0].lotsAvailable), SumCarLots(parse, info[1..]))
  }

  /** The C-type entries of a carpark_info list, in order. */
  function CarLots(info: seq<LotInfo>): (r: seq<LotInfo>)
    ensures forall e :: e in r <==> e in info && e.lotType == CarLotType
    ensures forall e :: multiset(r)[e] == if e.lotType == CarLotType then multiset(info)[e] else 0
  {
    if info == [] then []
    else
      assert info == [info[0]] + info[1..];
      (if info[0].lotType == CarLotType then [info[0]] else []) + CarLots(info[1..])
  }

  lemma {:induction false} SumCarLotsAppend(parse: string -> Option<int>, a: seq<LotInfo>, b: seq<LotInfo>)
    ensures SumCarLots(parse, a + b) == AddOpt(SumCarLots(parse, a), SumCarLots(parse, b))
  {
    if a == [] {
      assert a + b == b;
    } else {
      assert (a + b)[0] == a[0];
      assert (a + b)[1..] == a[1..] + b;
      SumCarLotsAppend(parse, a[1..], b);
    }
  }

  /** Only C-type entries matter: the total over a carpark_info list is the total over its
      C-type entries alone, whatever the other entries hold. */
  lemma {:induction false} SumCarLotsOnlyCarLots(parse: string -> Option<int>, info: seq<LotInfo>)
    ensures SumCarLots(parse, info) == SumCarLots(parse, CarLots(info))
  {
    if info != [] {
      var rest := CarLots(info[1..]);
      SumCarLotsOnlyCarLots(parse, info[1..]);
      if info[0].lotType == CarLotType {
        assert CarLots(info) == [info[0]] + rest;
        SumCarLotsAppend(parse, [info[0]], rest);
        assert [info[0]][1..] == [];
      } else {
        assert CarLots(info) == rest;
      }
    }
  }

  /** The total is defined exactly when every C-type entry's lots_available parses. */
  lemma {:induction false} SumCarLotsDefined(parse: string -> Option<int>, info: seq<LotInfo>)
    ensures SumCarLots(parse, info).Some? <==>
      forall k :: 0 <= k < |info| && info[k].lotType == CarLotType ==> parse(info[k].lotsAvailable).Some?
  {
    if info != [] {
      SumCarLotsDefined(parse, info[1..]);
      assert forall k :: 1 <= k < |info| ==> info[k] == info[1..][k - 1];
    }
  }

  /** A worked case: a "C" entry of 10 lots and an "H" entry; only the car lots count, whatever
      the H entry holds. */
  lemma SumCarLotsExample(heavyLots: string)
    ensures SumCarLots(ParseInt, [LotInfo("C", "10"), LotInfo("H", heavyLots)]) == Some(10)
  {
    var info := [LotInfo("C", "10"), LotInfo("H", heavyLots)];
    ParseIntOfDecimal(10);
    assert IntToDecimal(10) == "10";
    assert info[1..] == [LotInfo("H", heavyLots)];
    assert info[1..][1..] == [];
    assert "H" != CarLotType;
    assert SumCarLots(ParseInt, info[1..]) == Some(0);
  }

  /** One iteration of the ranking loop: the entry built from a metadata record, or None when
      the record is skipped (a coordinate or lot count does not parse, no availability record
      matches, or the matched record's carpark_info is empty). */
  function RankRecord(geo: Geo, userLat: real, userLon: real, avail: seq<Availability>, rec: MetaRecord)
    : (r: Option<RankedCarpark>)
    ensures r.Some? ==> r.value.carParkNo == rec.carParkNo && r.value.address == rec.address
    ensures r.Some? ==>
      r.value.freeParking == if rec.freeParking.Some? then rec.freeParking.value else UnknownFreeParking
    ensures r.Some? ==>
      && FirstMatch(avail, rec.carParkNo).Some?
      && avail[FirstMatch(avail, rec.carParkNo).value].carparkInfo != []
      && SumCarLots(ParseInt, avail[FirstMatch(avail, rec.carParkNo).value].carparkInfo) == Some(r.value.availableLots)
  {
    match (geo.parseFloat(rec.xCoord), geo.parseFloat(rec.yCoord))
    case (Some(x), Some(y)) =>
      var (lng, lat) := geo.toWgs84(x, y);
      var distance := geo.haversine(userLat, userLon, lat, lng);
      (match FirstMatch(avail, rec.carParkNo)
       case None => None
       case Some(j) =>
         var carLots := avail[j].carparkInfo;
         var freeParking := if rec.freeParking.Some? then rec.freeParking.value else UnknownFreeParking;
         if carLots == [] then None
         else
           match SumCarLots(ParseInt, carLots)
           case None => None
           case Some(total) =>
             Some(RankedCarpark(rec.carParkNo, rec.address, lat, lng, distance, total, freeParking)))
    case _ => None
  }

  /** The values of f over s, in order, leaving out the elements on which f gives None: the
      shape of a loop that appends one result per element and skips the elements that fail. */
  function FilterMap<T, U>(f: T -> Option<U>, s: seq<T>): seq<U> {
    if s == [] then []
    else
      FilterMap(f, s[..|s| - 1]) +
        (match f(s[|s| - 1])
         case Some(u) => [u]
         case None => [])
  }

  lemma {:induction false} FilterMapLength<T, U>(f: T -> Option<U>, s: seq<T>)
    ensures |FilterMap(f, s)| <= |s|
  {
    if s != [] {
      FilterMapLength(f, s[..|s| - 1]);
    }
  }

  lemma {:induction false} FilterMapAppend<T, U>(f: T -> Option<U>, a: seq<T>, b: seq<T>)
    ensures FilterMap(f, a + b) == FilterMap(f, a) + FilterMap(f, b)
  {
    if b == [] {
      assert a + b == a;
    } else {
      assert (a + b)[..|a + b| - 1] == a + b[..|b| - 1];
      FilterMapAppend(f, a, b[..|b| - 1]);
    }
  }

  lemma FilterMapSkip<T, U>(f: T -> Option<U>, a: seq<T>, x: T, b: seq<T>)
    requires f(x).None?
    ensures FilterMap(f, a + [x] + b) == FilterMap(f, a + b)
  {
    FilterMapAppend(f, a + [x], b);
    FilterMapAppend(f, a, [x]);
    FilterMapAppend(f, a, b);
    assert [x][..0] == [];
  }

  /** Each result comes from an element of s, and each element's result is kept. */
  lemma {:induction false} FilterMapMembers<T, U>(f: T -> Option<U>, s: seq<T>, u: U)
    ensures u in FilterMap(f, s) <==> exists i :: 0 <= i < |s| && f(s[i]) == Some(u)
  {
    if s != [] {
      var prefix := s[..|s| - 1];
      FilterMapMembers(f, prefix, u);
      if u in FilterMap(f, prefix) {
        var i :| 0 <= i < |prefix| && f(prefix[i]) == Some(u);
        assert s[i] == prefix[i];
      }
      if exists i :: 0 <= i < |s| && f(s[i]) == Some(u) {
        var i :| 0 <= i < |s| && f(s[i]) == Some(u);
        if i < |prefix| {
          assert f(prefix[i]) == Some(u);
        }
      }
    }
  }

  /** The carpark list built by the ranking loop, in metadata order. */
  function Candidates(geo: Geo, userLat: real, userLon: real, avail: seq<Availability>, meta: seq<MetaRecord>)
    : (r: seq<RankedCarpark>)
    ensures |r| <= |meta|
  {
    var f := rec => RankRecord(geo, userLat, userLon, avail, rec);
    FilterMapLength(f, meta);
    FilterMap(f, meta)
  }

  /** A skipped record contributes nothing, and the records around it are processed as if it
      were not there. */
  lemma SkippedRecordIgnored(geo: Geo, userLat: real, userLon: real, avail: seq<Availability>,
                             a: seq<MetaRecord>, rec: MetaRecord, b: seq<MetaRecord>)
    requires RankRecord(geo, userLat, userLon, avail, rec).None?
    ensures Candidates(geo, userLat, userLon, avail, a + [rec] + b) == Candidates(geo, userLat, userLon, avail, a + b)
  {
    FilterMapSkip(r => RankRecord(geo, userLat, userLon, avail, r), a, rec, b);
  }

  /** Why a record is skipped: at least one of the failure modes of the loop body. */
  lemma RankRecordSkipped(geo: Geo, userLat: real, userLon: real, avail: seq<Availability>, rec: MetaRecord)
    ensures RankRecord(geo, userLat, userLon, avail, rec).None? <==>
      || geo.parseFloat(rec.xCoord).None?
      || geo.parseFloat(rec.yCoord).None?
      || FirstMatch(avail, rec.carParkNo).None?
      || avail[FirstMatch(avail, rec.carParkNo).value].carparkInfo == []
      || SumCarLots(ParseInt, avail[FirstMatch(avail, rec.carParkNo).value].carparkInfo).None?
  {
  }

  /** c is the entry the loop builds from rec, spelled out field by field. */
  predicate FromRecord(geo: Geo, userLat: real, userLon: real, avail: seq<Availability>, rec: MetaRecord, c: RankedCarpark) {
    && geo.parseFloat(rec.xCoord).Some?
    && geo.parseFloat(rec.yCoord).Some?
    && (c.lng, c.lat) == geo.toWgs84(geo.parseFloat(rec.xCoord).value, geo.parseFloat(rec.yCoord).value)
    && c.distance == geo.haversine(userLat, userLon, c.lat, c.lng)
    && c.carParkNo == rec.carParkNo
    && c.address == rec.address
    && c.freeParking == (if rec.freeParking.Some? then rec.freeParking.value else UnknownFreeParking)
    && exists j ::
         && 0 <= j < |avail|
         && SameCarpark(avail[j], rec.carParkNo)
         && (forall k :: 0 <= k < j ==> !SameCarpark(avail[k], rec.carParkNo))
         && avail[j].carparkInfo != []
         && SumCarLots(ParseInt, avail[j].carparkInfo) == Some(c.availableLots)
  }

  lemma RankRecordProvenance(geo: Geo, userLat: real, userLon: real, avail: seq<Availability>, rec: MetaRecord)
    requires RankRecord(geo, userLat, userLon, avail, rec).Some?
    ensures FromRecord(geo, userLat, userLon, avail, rec, RankRecord(geo, userLat, userLon, avail, rec).value)
  {
    var j := FirstMatch(avail, rec.carParkNo).value;
    assert SameCarpark(avail[j], rec.carParkNo);
  }

  /** Every entry of the list comes from some metadata record: its own number, address and
      free-parking value (or "Unknown"), the transformed coordinates and their distance, and the
      C-lot total of the FIRST availability record whose normalized number matches, which has a
      non-empty carpark_info. */
  lemma CandidateProvenance(geo: Geo, userLat: real, userLon: real, avail: seq<Availability>,
                            meta: seq<MetaRecord>, c: RankedCarpark)
    requires c in Candidates(geo, userLat, userLon, avail, meta)
    ensures exists i :: 0 <= i < |meta| && FromRecord(geo, userLat, userLon, avail, meta[i], c)
  {
    var f := r => RankRecord(geo, userLat, userLon, avail, r);
    FilterMapMembers(f, meta, c);
    var i :| 0 <= i < |meta| && f(meta[i]) == Some(c);
    RankRecordProvenance(geo, userLat, userLon, avail, meta[i]);
  }
}
