/** The end of the ranking pass of `show_carpark_availability`: the loop that builds the carpark
    list, the stable sort by distance and the cut to the nearest five. */
module Ranking {
  import opened Wrappers
  import opened Carparks
  import opened Text

  /** How many carparks the bot reports. */
  const NearestCount: nat := 5

  predicate SortedByDistance(s: seq<RankedCarpark>) {
    forall i, j :: 0 <= i < j < |s| ==> s[i].distance <= s[j].distance
  }

  /** The entries of s at exactly distance d, in their order in s. */
  function AtDistance(s: seq<RankedCarpark>, d: real): seq<RankedCarpark> {
    if s == [] then []
    else (if s[0].distance == d then [s[0]] else []) + AtDistance(s[1..], d)
  }

  lemma {:induction false} AtDistanceMembers(s: seq<RankedCarpark>, d: real, c: RankedCarpark)
    ensures c in AtDistance(s, d) <==> c in s && c.distance == d
  {
    if s != [] {
      AtDistanceMembers(s[1..], d, c);
      assert s == [s[0]] + s[1..];
    }
  }

  /** Places c before the first entry of s that is at least as far away. */
  function InsertByDistance(c: RankedCarpark, s: seq<RankedCarpark>): (r: seq<RankedCarpark>)
    ensures multiset(r) == multiset(s) + multiset{c}
  {
    if s == [] || c.distance <= s[0].distance then [c] + s
    else
      assert s == [s[0]] + s[1..];
      [s[0]] + InsertByDistance(c, s[1..])
  }

  lemma {:induction false} InsertKeepsSorted(c: RankedCarpark, s: seq<RankedCarpark>)
    requires SortedByDistance(s)
    ensures SortedByDistance(InsertByDistance(c, s))
  {
    if s != [] && c.distance > s[0].distance {
      var t := InsertByDistance(c, s[1..]);
      InsertKeepsSorted(c, s[1..]);
      var r := [s[0]] + t;
      forall j | 0 < j < |r| ensures s[0].distance <= r[j].distance {
        assert r[j] in multiset(t);
        if r[j] != c {
          assert r[j] in s[1..];
        }
      }
    }
  }

  /** Python's sorted(carpark_list, key=distance), a stable sort, written as insertion sort. */
  function SortByDistance(s: seq<RankedCarpark>): (r: seq<RankedCarpark>)
    ensures multiset(r) == multiset(s)
    ensures SortedByDistance(r)
  {
    if s == [] then []
    else
      assert s == [s[0]] + s[1..];
      InsertKeepsSorted(s[0], SortByDistance(s[1..]));
      InsertByDistance(s[0], SortByDistance(s[1..]))
  }

  lemma {:induction false} InsertAtDistance(c: RankedCarpark, s: seq<RankedCarpark>, d: real)
    ensures AtDistance(InsertByDistance(c, s), d) == (if c.distance == d then [c] else []) + AtDistance(s, d)
  {
    if s == [] || c.distance <= s[0].distance {
      assert ([c] + s)[1..] == s;
    } else {
      InsertAtDistance(c, s[1..], d);
      var r := [s[0]] + InsertByDistance(c, s[1..]);
      assert r[1..] == InsertByDistance(c, s[1..]);
    }
  }

  /** Stability: the entries at any one distance come out in the order they went in. Together
      with sortedness this says the sort keeps every entry and breaks ties by input order. */
  lemma {:induction false} SortStable(s: seq<RankedCarpark>, d: real)
    ensures AtDistance(SortByDistance(s), d) == AtDistance(s, d)
  {
    if s != [] {
      SortStable(s[1..], d);
      InsertAtDistance(s[0], SortByDistance(s[1..]), d);
    }
  }

  lemma AtDistanceHead(s: seq<RankedCarpark>)
    requires s != []
    ensures AtDistance(s, s[0].distance) == [s[0]] + AtDistance(s[1..], s[0].distance)
  {
  }

  /** A sorted sequence is determined by its entries at each distance: two sorted sequences that
      agree distance by distance are equal. */
  lemma {:induction false} SortedDeterminedByTies(a: seq<RankedCarpark>, b: seq<RankedCarpark>)
    requires SortedByDistance(a) && SortedByDistance(b)
    requires forall d :: AtDistance(a, d) == AtDistance(b, d)
    ensures a == b
    decreases |a|
  {
    if a == [] {
      if b != [] {
        AtDistanceHead(b);
      }
    } else if b == [] {
      AtDistanceHead(a);
    } else {
      var da, db := a[0].distance, b[0].distance;
      AtDistanceHead(a);
      AtDistanceHead(b);
      AtDistanceMembers(a, db, b[0]);
      AtDistanceMembers(b, da, a[0]);
      assert da == db;
      assert a[0] == b[0] by {
        assert AtDistance(a, da)[0] == AtDistance(b, da)[0];
      }
      forall d ensures AtDistance(a[1..], d) == AtDistance(b[1..], d) {
        assert AtDistance(a, d) == AtDistance(b, d);
        if d != da {
          assert AtDistance(a, d) == AtDistance(a[1..], d);
          assert AtDistance(b, d) == AtDistance(b[1..], d);
        } else {
          assert [a[0]] + AtDistance(a[1..], d) == [b[0]] + AtDistance(b[1..], d);
          assert AtDistance(a[1..], d) == ([a[0]] + AtDistance(a[1..], d))[1..];
        }
      }
      SortedDeterminedByTies(a[1..], b[1..]);
      assert a == [a[0]] + a[1..];
      assert b == [b[0]] + b[1..];
    }
  }

  /** Any stable sort of s by distance (Python's sorted among them) gives SortByDistance(s). */
  lemma StableSortIsUnique(s: seq<RankedCarpark>, r: seq<RankedCarpark>)
    requires SortedByDistance(r)
    requires forall d :: AtDistance(r, d) == AtDistance(s, d)
    ensures r == SortByDistance(s)
  {
    forall d ensures AtDistance(r, d) == AtDistance(SortByDistance(s), d) {
      SortStable(s, d);
    }
    SortedDeterminedByTies(r, SortByDistance(s));
  }

  /** carpark_list[:5] after sorting: at most five entries, nearest first, all drawn from the
      candidates. */
  function Nearest(candidates: seq<RankedCarpark>): (r: seq<RankedCarpark>)
    ensures |r| == if |candidates| <= NearestCount then |candidates| else NearestCount
    ensures SortedByDistance(r)
    ensures multiset(r) <= multiset(candidates)
  {
    var sorted := SortByDistance(candidates);
    assert |sorted| == |multiset(sorted)| == |multiset(candidates)| == |candidates|;
    if |sorted| <= NearestCount then sorted
    else
      assert sorted == sorted[..NearestCount] + sorted[NearestCount..];
      sorted[..NearestCount]
  }

  lemma SortedSplit(s: seq<RankedCarpark>, n: nat)
    requires SortedByDistance(s) && n <= |s|
    ensures forall x, y :: x in s[..n] && y in s[n..] ==> x.distance <= y.distance
  {
    forall x, y | x in s[..n] && y in s[n..] ensures x.distance <= y.distance {
      var i :| 0 <= i < n && s[..n][i] == x;
      var j :| 0 <= j < |s| - n && s[n..][j] == y;
      assert s[i] == x && s[n + j] == y;
    }
  }

  /** Every candidate left out of the reply is at least as far away as every one listed. */
  lemma NearestIsNearest(candidates: seq<RankedCarpark>)
    ensures forall x, y :: x in Nearest(candidates) && y in multiset(candidates) - multiset(Nearest(candidates))
                           ==> x.distance <= y.distance
  {
    var sorted := SortByDistance(candidates);
    var n := |Nearest(candidates)|;
    assert Nearest(candidates) == sorted[..n];
    SortedPrefixFirst(sorted, n);
  }

  /** What a sorted list leaves out after its first n entries is no nearer than what it keeps. */
  lemma SortedPrefixFirst(s: seq<RankedCarpark>, n: nat)
    requires SortedByDistance(s) && n <= |s|
    ensures forall x, y :: x in s[..n] && y in multiset(s) - multiset(s[..n]) ==> x.distance <= y.distance
  {
    assert s == s[..n] + s[n..];
    assert multiset(s) - multiset(s[..n]) == multiset(s[n..]);
    SortedSplit(s, n);
  }

  lemma {:induction false} AtDistancePrefix(s: seq<RankedCarpark>, n: nat, d: real)
    requires n <= |s|
    ensures AtDistance(s[..n], d) <= AtDistance(s, d)
  {
    if n > 0 {
      AtDistancePrefix(s[1..], n - 1, d);
      assert s[..n][1..] == s[1..][..n - 1];
    }
  }

  /** Ties keep metadata order: the listed carparks at any one distance are the first ones at
      that distance among the candidates, in candidate order. */
  lemma NearestKeepsTieOrder(candidates: seq<RankedCarpark>, d: real)
    ensures AtDistance(Nearest(candidates), d) <= AtDistance(candidates, d)
  {
    var sorted := SortByDistance(candidates);
    SortStable(candidates, d);
    if |sorted| > NearestCount {
      AtDistancePrefix(sorted, NearestCount, d);
    }
  }

  /** The ranking pass: the loop that builds the carpark list, then sorted(...)[:5]. */
  method RankCarparks(geo: Geo, userLat: real, userLon: real, avail: seq<Availability>, meta: seq<MetaRecord>)
    returns (nearest: seq<RankedCarpark>)
    ensures nearest == Nearest(Candidates(geo, userLat, userLon, avail, meta))
    ensures |nearest| <= NearestCount && SortedByDistance(nearest)
  {
    ghost var f := rec => RankRecord(geo, userLat, userLon, avail, rec);
    var carparkList := [];
    for i := 0 to |meta|
      invariant carparkList == FilterMap(f, meta[..i])
    {
      assert meta[..i + 1][..i] == meta[..i];
      var entry := RankRecord(geo, userLat, userLon, avail, meta[i]);
      if entry.Some? {
        carparkList := carparkList + [entry.value];
      }
    }
    assert meta[..|meta|] == meta;
    var sorted := SortByDistance(carparkList);
    nearest := if |sorted| <= NearestCount then sorted else sorted[..NearestCount];
  }

  /** A worked case: the metadata record "A1" matches the availability record " a1" once both
      numbers are trimmed and upper-cased; its "C" lots are counted and the "H" entry, whose
      count is not even a number, is ignored; the missing free_parking reads "Unknown". */
  lemma SingleCarparkExample(geo: Geo, xCoord: string, yCoord: string, address: string)
    requires geo.parseFloat(xCoord).Some? && geo.parseFloat(yCoord).Some?
    ensures
      var (lng, lat) := geo.toWgs84(geo.parseFloat(xCoord).value, geo.parseFloat(yCoord).value);
      var meta := [MetaRecord("A1", address, xCoord, yCoord, None)];
      var avail := [Availability(" a1", [LotInfo("C", "10"), LotInfo("H", "n/a")])];
      Nearest(Candidates(geo, 1.3, 103.8, avail, meta)) ==
        [RankedCarpark("A1", address, lat, lng, geo.haversine(1.3, 103.8, lat, lng), 10, "Unknown")]
  {
    var rec := MetaRecord("A1", address, xCoord, yCoord, None);
    var avail := [Availability(" a1", [LotInfo("C", "10"), LotInfo("H", "n/a")])];
    NormalizeExample();
    assert FirstMatch(avail, "A1") == Some(0);
    SumCarLotsExample("n/a");
    var c := RankRecord(geo, 1.3, 103.8, avail, rec).value;
    assert FilterMap(r => RankRecord(geo, 1.3, 103.8, avail, r), [rec]) == [c] by {
      assert [rec][..0] == [];
    }
  }
}
