/** The location bookkeeping of the web server (orderWorker, getUnknownLocations) over the location
    download of location.go. `server(k)` is the answer to the k-th structure request of the run. */
module OrderWorker {
  import opened Wrappers
  import opened Ints
  import opened Orders
  import opened ActiveMarkets
  import opened Esi

  datatype Location = Location(
    id: uint64, typeId: uint64, ownerId: uint64, systemId: uint64, regionId: uint64, security: uint32, name: string)

  datatype Station = Station(
    id: uint64, name: string, security: uint32, typeId: uint64, ownerId: uint64, systemId: uint64)

  datatype System = System(id: uint64, regionId: uint64, security: uint32)

  datatype Structure = Structure(name: string, systemId: uint64, typeId: uint64, ownerId: uint64)

  datatype Tables = Tables(stations: seq<Station>, systems: seq<System>)

  type Server = nat -> Answer<Structure>

  datatype DumpError = UnknownNpcStation | UnknownSystem | FetchFailed(error: Error)

  /** `asked` lists the structures requested since the start of the run. */
  datatype LocationDump = LocationDump(
    locations: seq<Location>, forbidden: seq<uint64>, asked: seq<uint64>, error: Option<DumpError>)

  // ---------------------------------------------------------------- location.go

  function First<T>(rows: seq<T>, id: T -> uint64, x: uint64): Option<T> {
    if rows == [] then None
    else
      var n := |rows| - 1;
      var found := First(rows[..n], id, x);
      if found.None? && id(rows[n]) == x then Some(rows[n]) else found
  }

  /** The first row with that id, if there is one. */
  lemma {:induction false} FirstIsFirst<T>(rows: seq<T>, id: T -> uint64, x: uint64)
    ensures match First(rows, id, x)
            case None => forall i :: 0 <= i < |rows| ==> id(rows[i]) != x
            case Some(row) => exists i ::
              0 <= i < |rows| && rows[i] == row && id(row) == x && forall j :: 0 <= j < i ==> id(rows[j]) != x
  {
    if rows != [] {
      var n := |rows| - 1;
      FirstIsFirst(rows[..n], id, x);
      if First(rows[..n], id, x).Some? {
        var i :| 0 <= i < n && rows[..n][i] == First(rows[..n], id, x).value && id(rows[i]) == x
                 && forall j :: 0 <= j < i ==> id(rows[..n][j]) != x;
        assert forall j :: 0 <= j < i ==> rows[..n][j] == rows[j];
      } else {
        assert forall j :: 0 <= j < n ==> rows[..n][j] == rows[j];
      }
    }
  }

  lemma {:induction false} FirstStays<T>(rows: seq<T>, id: T -> uint64, x: uint64, n: nat)
    requires n <= |rows| && First(rows[..n], id, x).Some?
    ensures First(rows, id, x) == First(rows[..n], id, x)
  {
    if n < |rows| {
      assert rows[..|rows| - 1][..n] == rows[..n];
      FirstStays(rows[..|rows| - 1], id, x, n);
    } else {
      assert rows[..n] == rows;
    }
  }

  function StationId(s: Station): uint64 { s.id }

  function SystemId(s: System): uint64 { s.id }

  method GetStationById(stations: seq<Station>, id: uint64) returns (station: Option<Station>)
    ensures station == First(stations, StationId, id)
  {
    for i := 0 to |stations|
      invariant First(stations[..i], StationId, id) == None
    {
      assert stations[..i + 1][..i] == stations[..i];
      if stations[i].id == id {
        FirstStays(stations, StationId, id, i + 1);
        return Some(stations[i]);
      }
    }
    assert stations[..|stations|] == stations;
    station := None;
  }

  method GetSystemById(systems: seq<System>, id: uint64) returns (system: Option<System>)
    ensures system == First(systems, SystemId, id)
  {
    for i := 0 to |systems|
      invariant First(systems[..i], SystemId, id) == None
    {
      assert systems[..i + 1][..i] == systems[..i];
      if systems[i].id == id {
        FirstStays(systems, SystemId, id, i + 1);
        return Some(systems[i]);
      }
    }
    assert systems[..|systems|] == systems;
    system := None;
  }

  predicate IsNpcStation(id: uint64) { 60000000 <= id <= 64000000 }

  /** The outcome of the k-th request, made with a single trail. */
  function Reply(server: Server, k: nat): Result<Structure> { Fetch(server, k, 1).0 }

  /** The server refuses: an error of its own, whatever the code. */
  predicate Refused(server: Server, k: nat) { Reply(server, k).Err? && AsEsiError(Reply(server, k).error).Some? }

  /** One turn of the loop over the unknown locations. */
  function Visit(tables: Tables, server: Server, d: LocationDump, id: uint64): LocationDump {
    if IsNpcStation(id) then
      match First(tables.stations, StationId, id)
      case None => d.(error := Some(UnknownNpcStation))
      case Some(s) =>
        d.(locations := d.locations + [Location(s.id, s.typeId, s.ownerId, s.systemId, 0, s.security, s.name)])
    else
      var d, k := d.(asked := d.asked + [id]), |d.asked|;
      if Refused(server, k) then d.(forbidden := d.forbidden + [id])
      else
        match Reply(server, k)
        case Err(e) => d.(error := Some(FetchFailed(e)))
        case Ok(s) => (
          match First(tables.systems, SystemId, s.systemId)
          case None => d.(error := Some(UnknownSystem))
          case Some(system) =>
            d.(locations := d.locations
              + [Location(id, s.typeId, s.ownerId, system.id, system.regionId, system.security, s.name)]))
  }

  /** The loop up to the first error. */
  function Download(tables: Tables, server: Server, asked: seq<uint64>, unknown: seq<uint64>): LocationDump {
    if unknown == [] then LocationDump([], [], asked, None)
    else
      var d := Download(tables, server, asked, unknown[..|unknown| - 1]);
      if d.error.Some? then d else Visit(tables, server, d, unknown[|unknown| - 1])
  }

  /** On an error the locations found so far are not handed out, the refusals are. */
  function Returned(d: LocationDump): LocationDump { if d.error.Some? then d.(locations := []) else d }

  /** DownloadLocationDump; `asked` lists the structures requested before. */
  method DownloadLocationDump(tables: Tables, server: Server, asked: seq<uint64>, unknown: seq<uint64>)
    returns (dump: LocationDump)
    ensures dump == Returned(Download(tables, server, asked, unknown))
    ensures dump.error.Some? ==> dump.locations == []
  {
    hide Fetch, First;
    var locationData: seq<Location> := [];
    var forbiddenLocations: seq<uint64> := [];
    var requested := asked;
    for i := 0 to |unknown|
      invariant Download(tables, server, asked, unknown[..i])
                == LocationDump(locationData, forbiddenLocations, requested, None)
    {
      var locId := unknown[i];
      ghost var before := LocationDump(locationData, forbiddenLocations, requested, None);
      assert unknown[..i + 1][..i] == unknown[..i];
      assert Download(tables, server, asked, unknown[..i + 1]) == Visit(tables, server, before, locId);
      var error: Option<DumpError> := None;
      if 60000000 <= locId <= 64000000 {
        var station := GetStationById(tables.stations, locId);
        if station.Some? {
          var s := station.value;
          locationData := locationData + [Location(s.id, s.typeId, s.ownerId, s.systemId, 0, s.security, s.name)];
        } else {
          error := Some(UnknownNpcStation);
        }
      } else {
        var response := Reply(server, |requested|);
        requested := requested + [locId];
        if response.Err? && AsEsiError(response.error).Some? {
          forbiddenLocations := forbiddenLocations + [locId];
          continue;
        }
        if response.Err? {
          error := Some(FetchFailed(response.error));
        } else {
          var s := response.data;
          var system := GetSystemById(tables.systems, s.systemId);
          if system.None? {
            error := Some(UnknownSystem);
          } else {
            locationData := locationData
              + [Location(locId, s.typeId, s.ownerId, system.value.id, system.value.regionId,
                          system.value.security, s.name)];
          }
        }
      }
      if error.Some? {
        StopsThere(tables, server, asked, unknown, i + 1);
        return LocationDump([], forbiddenLocations, requested, error);
      }
    }
    assert unknown[..|unknown|] == unknown;
    dump := LocationDump(locationData, forbiddenLocations, requested, None);
  }

  lemma {:induction false} StopsThere(tables: Tables, server: Server, asked: seq<uint64>, unknown: seq<uint64>, n: nat)
    requires n <= |unknown| && Download(tables, server, asked, unknown[..n]).error.Some?
    ensures Download(tables, server, asked, unknown) == Download(tables, server, asked, unknown[..n])
    decreases |unknown|
  {
    hide Visit;
    if n < |unknown| {
      assert unknown[..|unknown| - 1][..n] == unknown[..n];
      StopsThere(tables, server, asked, unknown[..|unknown| - 1], n);
    } else {
      assert unknown[..n] == unknown;
    }
  }

  // ---------------------------------------------------------------- what a download is good for

  function Ids(locations: seq<Location>): seq<uint64> {
    seq(|locations|, i requires 0 <= i < |locations| => locations[i].id)
  }

  /** The structures the server has refused, in the order of the requests. */
  function Refusals(server: Server, asked: seq<uint64>): seq<uint64> {
    if asked == [] then []
    else
      var n := |asked| - 1;
      Refusals(server, asked[..n]) + if Refused(server, n) then [asked[n]] else []
  }

  /** Each structure is requested at most once; the forbidden ones are those refused. */
  ghost predicate AskedSound(server: Server, asked: seq<uint64>, unknown: seq<uint64>, d: LocationDump) {
    && asked <= d.asked
    && NoDuplicates(d.asked[|asked|..])
    && (forall x <- d.asked[|asked|..] :: x in unknown)
    && Refusals(server, d.asked) == Refusals(server, asked) + d.forbidden
  }

  /** Found and forbidden locations are distinct and apart, and all there is unless an error came. */
  ghost predicate FoundSound(unknown: seq<uint64>, d: LocationDump) {
    && NoDuplicates(Ids(d.locations)) && NoDuplicates(d.forbidden)
    && (forall x <- Ids(d.locations) :: x in unknown && x !in d.forbidden)
    && (forall x <- d.forbidden :: x in unknown)
    && (d.error == None ==> forall x <- unknown :: x in Ids(d.locations) || x in d.forbidden)
  }

  /** What holds of a download of `unknown`, also of one cut short by an error. */
  ghost predicate Sound(server: Server, asked: seq<uint64>, unknown: seq<uint64>, d: LocationDump) {
    AskedSound(server, asked, unknown, d) && FoundSound(unknown, d)
  }

  lemma {:induction false} DownloadIsSound(tables: Tables, server: Server, asked: seq<uint64>, unknown: seq<uint64>)
    requires NoDuplicates(unknown)
    ensures Sound(server, asked, unknown, Download(tables, server, asked, unknown))
  {
    hide Refusals, First, Refused, Reply;
    if unknown == [] {
      assert Refusals(server, asked) + [] == Refusals(server, asked);
    } else {
      var n := |unknown| - 1;
      DownloadIsSound(tables, server, asked, unknown[..n]);
      assert unknown == unknown[..n] + [unknown[n]];
      var d := Download(tables, server, asked, unknown[..n]);
      if d.error.None? {
        VisitIsSound(tables, server, asked, unknown[..n], d, unknown[n]);
      }
    }
  }

  lemma {:induction false} VisitIsSound(tables: Tables, server: Server, asked: seq<uint64>, seen: seq<uint64>,
                                        d: LocationDump, id: uint64)
    requires Sound(server, asked, seen, d) && d.error.None? && id !in seen
    ensures Sound(server, asked, seen + [id], Visit(tables, server, d, id))
  {
    hide Visit, Ids, Refused, Refusals, AskedSound, FoundSound;
    VisitAdds(tables, server, d, id);
    VisitAsks(server, asked, seen, d, Visit(tables, server, d, id), id);
    VisitFinds(seen, d, Visit(tables, server, d, id), id);
  }

  lemma {:induction false} VisitAsks(server: Server, asked: seq<uint64>, seen: seq<uint64>, d: LocationDump,
                                     e: LocationDump, id: uint64)
    requires AskedSound(server, asked, seen, d) && id !in seen
    requires e.asked == d.asked || e.asked == d.asked + [id]
    requires e.forbidden == d.forbidden + if e.asked != d.asked && Refused(server, |d.asked|) then [id] else []
    ensures AskedSound(server, asked, seen + [id], e)
  {
    hide Refused;
    if e.asked == d.asked {
      assert e.forbidden == d.forbidden;
    } else {
      assert e.asked[..|asked|] == asked;
      assert e.asked[|asked|..] == d.asked[|asked|..] + [id];
      assert e.asked[..|d.asked|] == d.asked;
    }
  }

  lemma {:induction false} VisitFinds(seen: seq<uint64>, d: LocationDump, e: LocationDump, id: uint64)
    requires FoundSound(seen, d) && d.error.None? && id !in seen
    requires e.forbidden == d.forbidden || e.forbidden == d.forbidden + [id]
    requires Ids(e.locations) == Ids(d.locations)
             || (Ids(e.locations) == Ids(d.locations) + [id] && e.forbidden == d.forbidden)
    requires e.error.None? ==> Ids(e.locations) != Ids(d.locations) || e.forbidden != d.forbidden
    ensures FoundSound(seen + [id], e)
  {
    hide Ids;
  }

  /** A turn adds the location to one list at most, and to none only with an error. */
  lemma {:induction false} VisitAdds(tables: Tables, server: Server, d: LocationDump, id: uint64)
    requires d.error.None?
    ensures var e := Visit(tables, server, d, id);
      && (e.asked == d.asked || e.asked == d.asked + [id])
      && e.forbidden == d.forbidden + (if e.asked != d.asked && Refused(server, |d.asked|) then [id] else [])
      && (Ids(e.locations) == Ids(d.locations) || (Ids(e.locations) == Ids(d.locations) + [id] && e.forbidden == d.forbidden))
      && (e.error.None? ==> Ids(e.locations) != Ids(d.locations) || e.forbidden != d.forbidden)
  {
    hide Refused, Reply, First;
    var e := Visit(tables, server, d, id);
    FirstIsFirst(tables.stations, StationId, id);
    if e.locations != d.locations {
      assert e.locations[..|d.locations|] == d.locations;
      assert Ids(e.locations) == Ids(d.locations) + [id];
    }
  }

  // ---------------------------------------------------------------- getUnknownLocations

  /** The locations of the orders that are neither known nor forbidden, each once. */
  function Unknown(orders: seq<Order>, known: seq<Location>, forbidden: seq<uint64>): seq<uint64> {
    if orders == [] then []
    else
      var u, id := Unknown(orders[..|orders| - 1], known, forbidden), orders[|orders| - 1].locationId;
      if id in Ids(known) || id in forbidden || id in u then u else u + [id]
  }

  predicate Resolved(id: uint64, known: seq<Location>, forbidden: seq<uint64>) { id in Ids(known) || id in forbidden }

  predicate Names(orders: seq<Order>, x: uint64) { exists i :: 0 <= i < |orders| && orders[i].locationId == x }

  /** The locations named by the orders and not yet resolved, each once. */
  lemma {:induction false} UnknownIsExact(orders: seq<Order>, known: seq<Location>, forbidden: seq<uint64>)
    ensures NoDuplicates(Unknown(orders, known, forbidden))
    ensures forall x: uint64 :: x in Unknown(orders, known, forbidden) <==>
                                Names(orders, x) && !Resolved(x, known, forbidden)
  {
    hide Ids, Names;
    if orders == [] {
      NobodyNames(orders);
    } else {
      var n := |orders| - 1;
      UnknownIsExact(orders[..n], known, forbidden);
      forall x: uint64
        ensures Names(orders, x) <==> Names(orders[..n], x) || x == orders[n].locationId
      {
        LastNames(orders, x);
      }
    }
  }

  lemma {:induction false} NobodyNames(orders: seq<Order>)
    requires orders == []
    ensures forall x: uint64 :: !Names(orders, x)
  {
  }

  lemma {:induction false} LastNames(orders: seq<Order>, x: uint64)
    requires orders != []
    ensures Names(orders, x) <==> Names(orders[..|orders| - 1], x) || x == orders[|orders| - 1].locationId
  {
    var n := |orders| - 1;
    assert forall i :: 0 <= i < n ==> orders[..n][i] == orders[i];
  }

  method GetUnknownLocations(orders: seq<Order>, known: seq<Location>, forbidden: seq<uint64>)
    returns (unknown: seq<uint64>)
    ensures unknown == Unknown(orders, known, forbidden)
  {
    unknown := [];
    for i := 0 to |orders|
      invariant unknown == Unknown(orders[..i], known, forbidden)
    {
      var id := orders[i].locationId;
      assert orders[..i + 1][..i] == orders[..i];
      var isKnown := false;
      for j := 0 to |known|
        invariant !isKnown && forall k :: 0 <= k < j ==> known[k].id != id
      {
        if id == known[j].id {
          assert Ids(known)[j] == id;
          isKnown := true;
          break;
        }
      }
      if isKnown || id in forbidden || id in unknown {
        continue;
      }
      unknown := unknown + [id];
    }
    assert orders[..|orders|] == orders;
  }

  // ---------------------------------------------------------------- orderWorker

  datatype Worker = Worker(known: seq<Location>, forbidden: seq<uint64>, asked: seq<uint64>)

  /** One round; None is a failed order download. */
  function Round(tables: Tables, server: Server, w: Worker, orders: Option<seq<Order>>): Worker {
    if orders.None? then w
    else
      var unknown := Unknown(orders.value, w.known, w.forbidden);
      if unknown == [] then w
      else
        var d := Download(tables, server, w.asked, unknown);
        Worker(if d.error.Some? then w.known else w.known + d.locations, w.forbidden + d.forbidden, d.asked)
  }

  function Run(tables: Tables, server: Server, rounds: seq<Option<seq<Order>>>): Worker {
    if rounds == [] then Worker([], [], [])
    else Round(tables, server, Run(tables, server, rounds[..|rounds| - 1]), rounds[|rounds| - 1])
  }

  class LocationStore {
    var globalLocations: seq<Location>
    var globalForbiddenLocations: seq<uint64>
    var asked: seq<uint64>

    constructor ()
      ensures State() == Worker([], [], [])
    {
      globalLocations, globalForbiddenLocations, asked := [], [], [];
    }

    function State(): Worker
      reads this
    {
      Worker(globalLocations, globalForbiddenLocations, asked)
    }

    /** One pass through the loop of orderWorker, once it is time for it. */
    method RunRound(tables: Tables, server: Server, orders: Option<seq<Order>>)
      modifies this
      ensures State() == Round(tables, server, old(State()), orders)
    {
      hide Download, Unknown;
      if orders.None? {
        return;
      }
      var unknownLocation := GetUnknownLocations(orders.value, globalLocations, globalForbiddenLocations);
      if |unknownLocation| > 0 {
        var dump := DownloadLocationDump(tables, server, asked, unknownLocation);
        asked := dump.asked;
        globalForbiddenLocations := globalForbiddenLocations + dump.forbidden;
        if dump.error.Some? {
          return;
        }
        globalLocations := globalLocations + dump.locations;
      }
    }
  }

  /** Known and forbidden locations are distinct and apart, the forbidden ones are those the server
      refused, and none of these has been requested again. */
  ghost predicate Inv(server: Server, w: Worker) {
    && NoDuplicates(Ids(w.known)) && NoDuplicates(w.forbidden)
    && (forall x <- Ids(w.known) :: x !in w.forbidden)
    && w.forbidden == Refusals(server, w.asked)
    && forall i, j :: 0 <= i < j < |w.asked| && Refused(server, i) ==> w.asked[j] != w.asked[i]
  }

  lemma {:induction false} RefusedAreRefusals(server: Server, asked: seq<uint64>, i: nat)
    requires i < |asked| && Refused(server, i)
    ensures asked[i] in Refusals(server, asked)
  {
    hide Refused;
    if i < |asked| - 1 {
      RefusedAreRefusals(server, asked[..|asked| - 1], i);
    }
  }

  lemma {:induction false} IdsConcat(a: seq<Location>, b: seq<Location>)
    ensures Ids(a + b) == Ids(a) + Ids(b)
  {
  }

  lemma {:induction false} ApartConcat<T>(a: seq<T>, b: seq<T>)
    requires NoDuplicates(a) && NoDuplicates(b) && forall x <- b :: x !in a
    ensures NoDuplicates(a + b)
  {
    forall i, j | 0 <= i < j < |a + b|
      ensures (a + b)[i] != (a + b)[j]
    {
      if i < |a| <= j {
        assert b[j - |a|] in b && a[i] in a;
      }
    }
  }

  lemma {:induction false} RoundInv(tables: Tables, server: Server, w: Worker, orders: Option<seq<Order>>)
    requires Inv(server, w)
    ensures Inv(server, Round(tables, server, w, orders))
  {
    hide Download, Unknown, Ids, Refusals, Refused, Resolved;
    var next := Round(tables, server, w, orders);
    if next != w {
      var unknown := Unknown(orders.value, w.known, w.forbidden);
      var d := Download(tables, server, w.asked, unknown);
      UnknownIsExact(orders.value, w.known, w.forbidden);
      UnknownIsFresh(orders.value, w.known, w.forbidden);
      DownloadIsSound(tables, server, w.asked, unknown);
      IdsConcat(w.known, d.locations);
      ApartConcat(Ids(w.known), Ids(d.locations));
      ApartConcat(w.forbidden, d.forbidden);
      NeverAgain(server, w, unknown, d);
    }
  }

  lemma {:induction false} UnknownIsFresh(orders: seq<Order>, known: seq<Location>, forbidden: seq<uint64>)
    ensures forall x <- Unknown(orders, known, forbidden) :: x !in Ids(known) && x !in forbidden
  {
    UnknownIsExact(orders, known, forbidden);
  }

  lemma {:induction false} NeverAgain(server: Server, w: Worker, unknown: seq<uint64>, d: LocationDump)
    requires Inv(server, w) && Sound(server, w.asked, unknown, d)
    requires forall x <- unknown :: x !in w.forbidden
    ensures forall i, j :: 0 <= i < j < |d.asked| && Refused(server, i) ==> d.asked[j] != d.asked[i]
  {
    hide Refusals, Refused, Ids;
    var n := |w.asked|;
    forall i, j | 0 <= i < j < |d.asked| && Refused(server, i)
      ensures d.asked[j] != d.asked[i]
    {
      assert forall k :: n <= k < |d.asked| ==> d.asked[k] == d.asked[n..][k - n];
      assert forall k :: 0 <= k < n ==> d.asked[k] == w.asked[k];
      if i < n <= j {
        RefusedAreRefusals(server, w.asked, i);
      }
    }
  }

  /** For every run: any orders, any failures, any answers. */
  lemma {:induction false} RunInv(tables: Tables, server: Server, rounds: seq<Option<seq<Order>>>)
    ensures Inv(server, Run(tables, server, rounds))
  {
    if rounds != [] {
      RunInv(tables, server, rounds[..|rounds| - 1]);
      RoundInv(tables, server, Run(tables, server, rounds[..|rounds| - 1]), rounds[|rounds| - 1]);
    }
  }

  /** What was known or forbidden stays so. A round without error leaves no order unresolved; one with
      an error still keeps the refusals it met. A request goes out only for an order's location that
      was neither known nor forbidden, and at most once a round. */
  lemma {:induction false} RoundResolves(tables: Tables, server: Server, w: Worker, orders: seq<Order>)
    ensures var next := Round(tables, server, w, Some(orders));
      var unknown := Unknown(orders, w.known, w.forbidden);
      var error := Download(tables, server, w.asked, unknown).error;
      && w.known <= next.known && w.forbidden <= next.forbidden && w.asked <= next.asked
      && NoDuplicates(next.asked[|w.asked|..])
      && (forall x <- next.asked[|w.asked|..] :: x in unknown)
      && Refusals(server, next.asked) == Refusals(server, w.asked) + next.forbidden[|w.forbidden|..]
      && (error.None? ==> forall i :: 0 <= i < |orders| ==> Resolved(orders[i].locationId, next.known, next.forbidden))
      && (error.Some? ==> next.known == w.known)
  {
    hide Download, Unknown, Ids, Refusals;
    var unknown := Unknown(orders, w.known, w.forbidden);
    var d := Download(tables, server, w.asked, unknown);
    UnknownIsExact(orders, w.known, w.forbidden);
    DownloadIsSound(tables, server, w.asked, unknown);
    IdsConcat(w.known, d.locations);
    if unknown == [] {
      NothingToDo(tables, server, w.asked);
      assert Refusals(server, w.asked) + [] == Refusals(server, w.asked);
    }
  }

  lemma {:induction false} NothingToDo(tables: Tables, server: Server, asked: seq<uint64>)
    ensures Download(tables, server, asked, []) == LocationDump([], [], asked, None)
  {
  }

  // ---------------------------------------------------------------- which rounds get through

  /** How many of the locations are structures, each of which takes one request. */
  function Structures(ids: seq<uint64>): nat {
    if ids == [] then 0 else Structures(ids[..|ids| - 1]) + if IsNpcStation(ids[|ids| - 1]) then 0 else 1
  }

  /** The tables and the k-th answer settle the location: a station of the table; a structure that is
      refused, or lies in a system of the table. */
  predicate Serves(tables: Tables, server: Server, k: nat, id: uint64) {
    if IsNpcStation(id) then First(tables.stations, StationId, id).Some?
    else Refused(server, k) || Finds(tables, server, k)
  }

  predicate Finds(tables: Tables, server: Server, k: nat) {
    Reply(server, k).Ok? && First(tables.systems, SystemId, Reply(server, k).data.systemId).Some?
  }

  /** Location `i` of the list is settled when its turn comes, after `asked` earlier requests. */
  predicate ServesAt(tables: Tables, server: Server, asked: nat, unknown: seq<uint64>, i: nat)
    requires i < |unknown|
  {
    Serves(tables, server, asked + Structures(unknown[..i]), unknown[i])
  }

  ghost predicate ServesAll(tables: Tables, server: Server, asked: nat, unknown: seq<uint64>) {
    forall i :: 0 <= i < |unknown| ==> ServesAt(tables, server, asked, unknown, i)
  }

  /** Location `i` is found, not refused. */
  predicate FindsAt(tables: Tables, server: Server, asked: nat, unknown: seq<uint64>, i: nat)
    requires i < |unknown|
  {
    ServesAt(tables, server, asked, unknown, i)
    && (IsNpcStation(unknown[i]) || !Refused(server, asked + Structures(unknown[..i])))
  }

  ghost predicate FindsSome(tables: Tables, server: Server, asked: nat, unknown: seq<uint64>) {
    exists i :: 0 <= i < |unknown| && FindsAt(tables, server, asked, unknown, i)
  }

  lemma {:induction false} ServesAllPrefix(tables: Tables, server: Server, asked: nat, unknown: seq<uint64>)
    requires unknown != []
    ensures var n := |unknown| - 1;
      ServesAll(tables, server, asked, unknown)
      <==> ServesAll(tables, server, asked, unknown[..n]) && ServesAt(tables, server, asked, unknown, n)
    ensures var n := |unknown| - 1;
      FindsSome(tables, server, asked, unknown)
      <==> FindsSome(tables, server, asked, unknown[..n]) || FindsAt(tables, server, asked, unknown, n)
  {
    hide Serves, Refused, Structures;
    var n := |unknown| - 1;
    forall i | 0 <= i < n
      ensures ServesAt(tables, server, asked, unknown, i) == ServesAt(tables, server, asked, unknown[..n], i)
      ensures FindsAt(tables, server, asked, unknown, i) == FindsAt(tables, server, asked, unknown[..n], i)
    {
      assert unknown[..n][..i] == unknown[..i];
    }
  }

  /** One turn of the loop, seen from the inputs. */
  lemma {:induction false} VisitServes(tables: Tables, server: Server, d: LocationDump, id: uint64)
    requires d.error.None?
    ensures var e := Visit(tables, server, d, id);
      && (e.error.None? <==> Serves(tables, server, |d.asked|, id))
      && |e.asked| == |d.asked| + (if IsNpcStation(id) then 0 else 1)
      && (e.error.Some? ==> e.forbidden == d.forbidden && e.locations == d.locations)
      && (e.error.None? ==>
            (e.locations != d.locations <==> IsNpcStation(id) || !Refused(server, |d.asked|))
            && |e.locations| >= |d.locations|)
  {
    hide First, Reply, Refused;
  }

  /** The download gets through exactly when every location is settled in its turn, and then finds
      something exactly when some location is not refused. An error leaves some location unsettled. */
  lemma {:induction false} NoErrorExactly(tables: Tables, server: Server, asked: seq<uint64>, unknown: seq<uint64>)
    requires NoDuplicates(unknown)
    ensures var d := Download(tables, server, asked, unknown);
      && (d.error.None? <==> ServesAll(tables, server, |asked|, unknown))
      && (d.error.None? ==> |d.asked| == |asked| + Structures(unknown))
      && (d.error.None? ==>
            (d.locations != [] <==> FindsSome(tables, server, |asked|, unknown)))
      && (d.error.Some? ==> exists x :: x in unknown && x !in d.forbidden)
  {
    hide Serves, Visit, ServesAll, FindsSome, Refused;
    if unknown == [] {
      NothingToServe(tables, server, |asked|);
    } else {
      var n := |unknown| - 1;
      var before := Download(tables, server, asked, unknown[..n]);
      NoErrorExactly(tables, server, asked, unknown[..n]);
      ServesAllPrefix(tables, server, |asked|, unknown);
      if before.error.None? {
        VisitServes(tables, server, before, unknown[n]);
        DownloadIsSound(tables, server, asked, unknown[..n]);
        assert unknown[n] !in unknown[..n];
        assert unknown[n] in unknown;
        assert FindsAt(tables, server, |asked|, unknown, n)
          <==> ServesAt(tables, server, |asked|, unknown, n) && (IsNpcStation(unknown[n]) || !Refused(server, |before.asked|));
      }
    }
  }

  lemma {:induction false} NothingToServe(tables: Tables, server: Server, asked: nat)
    ensures ServesAll(tables, server, asked, []) && !FindsSome(tables, server, asked, [])
  {
  }

  /** The round settles all its unknown locations and does not have all of them refused. */
  ghost predicate Learns(tables: Tables, server: Server, w: Worker, orders: Option<seq<Order>>) {
    && orders.Some?
    && ServesAll(tables, server, |w.asked|, Unknown(orders.value, w.known, w.forbidden))
    && FindsSome(tables, server, |w.asked|, Unknown(orders.value, w.known, w.forbidden))
  }

  /** For every state and all orders: after the round every order's location is known or forbidden
      exactly when the tables and the answers settle each unknown one, and a location becomes known
      exactly when, besides, one of them is not refused. */
  lemma {:induction false} RoundResolvesExactly(tables: Tables, server: Server, w: Worker, orders: seq<Order>)
    ensures var next := Round(tables, server, w, Some(orders));
      var unknown := Unknown(orders, w.known, w.forbidden);
      && ((forall i :: 0 <= i < |orders| ==> Resolved(orders[i].locationId, next.known, next.forbidden))
          <==> ServesAll(tables, server, |w.asked|, unknown))
      && (next.known != w.known <==> Learns(tables, server, w, Some(orders)))
  {
    hide Download, Unknown, Ids, Refusals, ServesAll, FindsSome;
    var next, unknown := Round(tables, server, w, Some(orders)), Unknown(orders, w.known, w.forbidden);
    UnknownIsExact(orders, w.known, w.forbidden);
    UnknownIsFresh(orders, w.known, w.forbidden);
    NoErrorExactly(tables, server, w.asked, unknown);
    RoundResolves(tables, server, w, orders);
    var d := Download(tables, server, w.asked, unknown);
    if unknown == [] {
      NothingToDo(tables, server, w.asked);
    } else if d.error.Some? {
      var x :| x in unknown && x !in d.forbidden;
      var i :| 0 <= i < |orders| && orders[i].locationId == x;
      assert !Resolved(x, next.known, next.forbidden);
    } else {
      assert next.known == w.known + d.locations;
    }
  }

  /** Round `r` of the run learns a location. */
  ghost predicate LearnsAt(tables: Tables, server: Server, rounds: seq<Option<seq<Order>>>, r: nat)
    requires r < |rounds|
  {
    Learns(tables, server, Run(tables, server, rounds[..r]), rounds[r])
  }

  ghost predicate LearnsNever(tables: Tables, server: Server, rounds: seq<Option<seq<Order>>>) {
    forall r :: 0 <= r < |rounds| ==> !LearnsAt(tables, server, rounds, r)
  }

  lemma {:induction false} LearnsNeverPrefix(tables: Tables, server: Server, rounds: seq<Option<seq<Order>>>)
    requires rounds != []
    ensures var n := |rounds| - 1;
      LearnsNever(tables, server, rounds)
      <==> LearnsNever(tables, server, rounds[..n]) && !LearnsAt(tables, server, rounds, n)
  {
    hide Learns, Run;
    var n := |rounds| - 1;
    forall r | 0 <= r < n
      ensures LearnsAt(tables, server, rounds, r) == LearnsAt(tables, server, rounds[..n], r)
    {
      assert rounds[..n][..r] == rounds[..r];
    }
  }

  /** No location is ever known exactly when no round of the run learns one. */
  lemma {:induction false} NothingKnownExactly(tables: Tables, server: Server, rounds: seq<Option<seq<Order>>>)
    ensures Run(tables, server, rounds).known == [] <==> LearnsNever(tables, server, rounds)
  {
    if rounds != [] {
      hide Round, Learns, LearnsNever;
      var n := |rounds| - 1;
      NothingKnownExactly(tables, server, rounds[..n]);
      LearnsNeverPrefix(tables, server, rounds);
      RoundLearnsExactly(tables, server, Run(tables, server, rounds[..n]), rounds[n]);
    }
  }

  lemma {:induction false} RoundLearnsExactly(tables: Tables, server: Server, w: Worker, orders: Option<seq<Order>>)
    ensures var next := Round(tables, server, w, orders);
            w.known <= next.known && (next.known != w.known <==> Learns(tables, server, w, orders))
  {
    if orders.Some? {
      hide Round, Learns;
      RoundResolvesExactly(tables, server, w, orders.value);
      RoundResolves(tables, server, w, orders.value);
    }
  }

  // ---------------------------------------------------------------- what is known is right

  /** What a single request comes to, by its answer. */
  lemma {:induction false} ReplyExactly(server: Server, k: nat)
    ensures Refused(server, k) <==> server(k).Response? && server(k).decodes
                                    && server(k).code !in {200, 500, 503, 429, 420, 504}
    ensures Reply(server, k).Ok? <==> server(k).Response? && server(k).decodes && server(k).code == 200
    ensures Reply(server, k).Ok? ==> Reply(server, k).data == server(k).data
  {
    hide AsEsiError, Is, TriedAgain;
    FetchIsRound(server, k, 1);
    if RoundResult(server(k)).Err? {
      RestsExactly(server(k));
    }
  }

  /** The first row of the station table with the id; the region is left at zero. */
  predicate IsStation(tables: Tables, l: Location, i: int) {
    && 0 <= i < |tables.stations| && (forall j :: 0 <= j < i ==> tables.stations[j].id != l.id)
    && var s := tables.stations[i];
       && l.id == s.id && l.typeId == s.typeId && l.ownerId == s.ownerId && l.systemId == s.systemId
       && l.security == s.security && l.name == s.name && l.regionId == 0
  }

  /** The structure of an answer, in the first row of the system table with its system's id. */
  predicate IsStructure(tables: Tables, s: Structure, l: Location, i: int) {
    && 0 <= i < |tables.systems| && (forall j :: 0 <= j < i ==> tables.systems[j].id != s.systemId)
    && var y := tables.systems[i];
       && l.systemId == y.id == s.systemId && l.regionId == y.regionId && l.security == y.security
       && l.typeId == s.typeId && l.ownerId == s.ownerId && l.name == s.name
  }

  /** Answer `k` is to a request for the structure. */
  ghost predicate WasAnswered(tables: Tables, server: Server, asked: seq<uint64>, l: Location, k: int) {
    && 0 <= k < |asked| && asked[k] == l.id
    && server(k).Response? && server(k).code == 200 && server(k).decodes
    && exists i :: IsStructure(tables, server(k).data, l, i)
  }

  /** A location in the range of the stations is a row of their table, any other comes from an answer. */
  ghost predicate IsRight(tables: Tables, server: Server, asked: seq<uint64>, l: Location) {
    if 60000000 <= l.id <= 64000000 then exists i :: IsStation(tables, l, i)
    else exists k :: WasAnswered(tables, server, asked, l, k)
  }

  ghost predicate AreRight(tables: Tables, server: Server, asked: seq<uint64>, ls: seq<Location>) {
    && (forall i :: 0 <= i < |ls| ==> IsRight(tables, server, asked, ls[i]))
    && forall k :: 0 <= k < |asked| ==> !(60000000 <= asked[k] <= 64000000)
  }

  lemma {:induction false} StaysRight(tables: Tables, server: Server, asked: seq<uint64>, more: seq<uint64>, l: Location)
    requires IsRight(tables, server, asked, l) && asked <= more
    ensures IsRight(tables, server, more, l)
  {
    if !(60000000 <= l.id <= 64000000) {
      var k :| WasAnswered(tables, server, asked, l, k);
      assert WasAnswered(tables, server, more, l, k);
    }
  }

  lemma {:induction false} StationIsRight(tables: Tables, server: Server, asked: seq<uint64>, id: uint64)
    requires IsNpcStation(id) && First(tables.stations, StationId, id).Some?
    ensures var s := First(tables.stations, StationId, id).value;
            IsRight(tables, server, asked, Location(s.id, s.typeId, s.ownerId, s.systemId, 0, s.security, s.name))
  {
    FirstIsFirst(tables.stations, StationId, id);
    var s := First(tables.stations, StationId, id).value;
    var i :| 0 <= i < |tables.stations| && tables.stations[i] == s && s.id == id
             && forall j :: 0 <= j < i ==> StationId(tables.stations[j]) != id;
    assert forall j :: 0 <= j < i ==> tables.stations[j].id == StationId(tables.stations[j]);
    assert IsStation(tables, Location(s.id, s.typeId, s.ownerId, s.systemId, 0, s.security, s.name), i);
  }

  lemma {:induction false} StructureIsRight(tables: Tables, server: Server, asked: seq<uint64>, id: uint64)
    requires !IsNpcStation(id) && Finds(tables, server, |asked|)
    ensures var s := Reply(server, |asked|).data;
      var y := First(tables.systems, SystemId, s.systemId).value;
      IsRight(tables, server, asked + [id], Location(id, s.typeId, s.ownerId, y.id, y.regionId, y.security, s.name))
  {
    ReplyExactly(server, |asked|);
    var s := Reply(server, |asked|).data;
    FirstIsFirst(tables.systems, SystemId, s.systemId);
    hide Reply, First;
    var y := First(tables.systems, SystemId, s.systemId).value;
    var i :| 0 <= i < |tables.systems| && tables.systems[i] == y && y.id == s.systemId
             && forall j :: 0 <= j < i ==> SystemId(tables.systems[j]) != s.systemId;
    assert forall j :: 0 <= j < i ==> tables.systems[j].id == SystemId(tables.systems[j]);
    var l := Location(id, s.typeId, s.ownerId, y.id, y.regionId, y.security, s.name);
    assert IsStructure(tables, s, l, i);
    assert WasAnswered(tables, server, asked + [id], l, |asked|);
  }

  lemma {:induction false} VisitIsRight(tables: Tables, server: Server, d: LocationDump, id: uint64)
    requires AreRight(tables, server, d.asked, d.locations)
    ensures var e := Visit(tables, server, d, id); AreRight(tables, server, e.asked, e.locations)
  {
    hide First, Reply, Refused, IsRight;
    var e := Visit(tables, server, d, id);
    if IsNpcStation(id) && First(tables.stations, StationId, id).Some? {
      StationIsRight(tables, server, d.asked, id);
    } else if !IsNpcStation(id) && Finds(tables, server, |d.asked|) {
      StructureIsRight(tables, server, d.asked, id);
    }
    forall i | 0 <= i < |d.locations|
      ensures IsRight(tables, server, e.asked, d.locations[i])
    {
      StaysRight(tables, server, d.asked, e.asked, d.locations[i]);
    }
  }

  lemma {:induction false} DownloadIsRight(tables: Tables, server: Server, asked: seq<uint64>, unknown: seq<uint64>)
    requires forall k :: 0 <= k < |asked| ==> !(60000000 <= asked[k] <= 64000000)
    ensures var d := Download(tables, server, asked, unknown);
            asked <= d.asked && AreRight(tables, server, d.asked, d.locations)
  {
    if unknown != [] {
      hide Visit, AreRight;
      DownloadIsRight(tables, server, asked, unknown[..|unknown| - 1]);
      var d := Download(tables, server, asked, unknown[..|unknown| - 1]);
      if d.error.None? {
        VisitIsRight(tables, server, d, unknown[|unknown| - 1]);
        VisitAdds(tables, server, d, unknown[|unknown| - 1]);
      }
    }
  }

  /** In every run every known location says what the station table, or the answer to a request for it
      together with the system table, says; and no station is ever asked for. */
  lemma {:induction false} KnownAreRight(tables: Tables, server: Server, rounds: seq<Option<seq<Order>>>)
    ensures var w := Run(tables, server, rounds); AreRight(tables, server, w.asked, w.known)
  {
    if rounds != [] {
      var n := |rounds| - 1;
      KnownAreRight(tables, server, rounds[..n]);
      RoundIsRight(tables, server, Run(tables, server, rounds[..n]), rounds[n]);
    }
  }

  lemma {:induction false} RoundIsRight(tables: Tables, server: Server, w: Worker, orders: Option<seq<Order>>)
    requires AreRight(tables, server, w.asked, w.known)
    ensures var next := Round(tables, server, w, orders); AreRight(tables, server, next.asked, next.known)
  {
    hide Download, Unknown, IsRight;
    if orders.Some? {
      var unknown := Unknown(orders.value, w.known, w.forbidden);
      DownloadIsRight(tables, server, w.asked, unknown);
      var d := Download(tables, server, w.asked, unknown);
      forall i | 0 <= i < |w.known|
        ensures IsRight(tables, server, d.asked, w.known[i])
      {
        StaysRight(tables, server, w.asked, d.asked, w.known[i]);
      }
    }
  }

  // ---------------------------------------------------------------- a station missing from the table

  lemma {:induction false} ForbiddenAreStructures(tables: Tables, server: Server, asked: seq<uint64>,
                                                  unknown: seq<uint64>)
    ensures forall y <- Download(tables, server, asked, unknown).forbidden :: !IsNpcStation(y)
  {
    hide First, Refused, Reply;
    if unknown != [] {
      ForbiddenAreStructures(tables, server, asked, unknown[..|unknown| - 1]);
    }
  }

  lemma {:induction false} MissingStationStops(tables: Tables, server: Server, asked: seq<uint64>,
                                               unknown: seq<uint64>, x: uint64)
    requires x in unknown && IsNpcStation(x) && First(tables.stations, StationId, x) == None
    ensures Download(tables, server, asked, unknown).error.Some?
  {
    hide First, Refused, Reply;
    var n := |unknown| - 1;
    assert unknown == unknown[..n] + [unknown[n]];
    if unknown[n] != x {
      MissingStationStops(tables, server, asked, unknown[..n], x);
    }
  }

  /** As long as the orders keep naming a station that is missing from the table, no location at all
      becomes known, whatever else is asked and answered. */
  lemma {:induction false} MissingStationBlocksAll(tables: Tables, server: Server,
                                                   rounds: seq<Option<seq<Order>>>, x: uint64)
    requires IsNpcStation(x) && First(tables.stations, StationId, x) == None
    requires forall r :: 0 <= r < |rounds| && rounds[r].Some? ==> Names(rounds[r].value, x)
    ensures Run(tables, server, rounds).known == []
    ensures forall y <- Run(tables, server, rounds).forbidden :: !IsNpcStation(y)
  {
    hide Download, Unknown, First;
    if rounds != [] {
      var n := |rounds| - 1;
      MissingStationBlocksAll(tables, server, rounds[..n], x);
      var w := Run(tables, server, rounds[..n]);
      if rounds[n].Some? {
        var unknown := Unknown(rounds[n].value, w.known, w.forbidden);
        UnknownIsExact(rounds[n].value, w.known, w.forbidden);
        assert x in unknown;
        MissingStationStops(tables, server, w.asked, unknown, x);
        ForbiddenAreStructures(tables, server, w.asked, unknown);
      }
    }
  }
}
