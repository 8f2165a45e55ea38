/** src/db/import-windsor-identity.ts: resolving lots to units and importing their identity,
    over the rows of one database. `updated_at` is not modelled. */
module Windsor {
  import opened Options
  import opened Query
  import Decimal

  type UnitId = nat
  type PropertyId = nat
  type ParcelId = nat

  datatype Lot = Lot(lotNo: nat, permit: string, address: string, houseNo: nat, uid: string)

  datatype Unit = Unit(
    propertyId: PropertyId,
    unitNumber: string,
    externalUid: Option<string>,
    lotNumber: Option<string>,
    primaryPermit: Option<string>,
    parcelId: Option<ParcelId>)

  datatype Parcel = Parcel(
    propertyId: PropertyId, apn: Option<string>, ahj: string, confidence: string, source: string)

  datatype Permit = Permit(permitType: string, jurisdiction: string, source: string)

  type Units = map<UnitId, Unit>
  type Permits = map<(UnitId, string), Permit>

  /** The tables. Parcels are listed in the order of `created_at`; the index is the id. */
  datatype Db = Db(properties: map<PropertyId, string>, units: Units, parcels: seq<Parcel>, permits: Permits)

  const WINDSOR_PROPERTY_NAME := "Windsor Park"
  const PERMIT_SOURCE := "windsor.db:2025"

  // --- Resolving a lot ---

  function ByUid(units: Units, prop: PropertyId, lot: Lot): set<UnitId> {
    set u | u in units && units[u].propertyId == prop && units[u].externalUid == Some(lot.uid)
  }

  function ByNumber(units: Units, prop: PropertyId, lot: Lot): set<UnitId> {
    set u | u in units && units[u].propertyId == prop && units[u].unitNumber in {lot.address, Decimal.Print(lot.houseNo)}
  }

  function ResolveUnitId(units: Units, prop: PropertyId, lot: Lot): (r: Option<UnitId>)
    ensures r.Some? ==> r.value in units && units[r.value].propertyId == prop
  {
    match OnlyRow(ByUid(units, prop, lot))
    case Some(u) => Some(u)
    case None => OnlyRow(ByNumber(units, prop, lot))
  }

  predicate Carries(unit: Unit, prop: PropertyId, lot: Lot) {
    unit.propertyId == prop && unit.externalUid == Some(lot.uid)
  }

  predicate NamedBy(unit: Unit, prop: PropertyId, lot: Lot) {
    unit.propertyId == prop && (unit.unitNumber == lot.address || unit.unitNumber == Decimal.Print(lot.houseNo))
  }

  /** `u` is the one unit of the property with the lot's uid. */
  ghost predicate OnlyCarrier(units: Units, prop: PropertyId, lot: Lot, u: UnitId) {
    u in units && Carries(units[u], prop, lot) && forall v | v in units && Carries(units[v], prop, lot) :: v == u
  }

  /** `u` is the one unit of the property with the lot's address or house number. */
  ghost predicate OnlyNamed(units: Units, prop: PropertyId, lot: Lot, u: UnitId) {
    u in units && NamedBy(units[u], prop, lot) && forall v | v in units && NamedBy(units[v], prop, lot) :: v == u
  }

  lemma ByUidMeans(units: Units, prop: PropertyId, lot: Lot, u: UnitId)
    ensures OnlyRow(ByUid(units, prop, lot)) == Some(u) <==> OnlyCarrier(units, prop, lot, u)
  {
    var rows := ByUid(units, prop, lot);
    assert forall v :: v in rows <==> v in units && Carries(units[v], prop, lot);
    OneRow(rows, u);
  }

  lemma ByNumberMeans(units: Units, prop: PropertyId, lot: Lot, u: UnitId)
    ensures OnlyRow(ByNumber(units, prop, lot)) == Some(u) <==> OnlyNamed(units, prop, lot, u)
  {
    var rows := ByNumber(units, prop, lot);
    assert forall v :: v in rows <==> v in units && NamedBy(units[v], prop, lot);
    OneRow(rows, u);
  }

  lemma ResolvedMeans(units: Units, prop: PropertyId, lot: Lot)
    ensures forall u: UnitId | OnlyCarrier(units, prop, lot, u) :: ResolveUnitId(units, prop, lot) == Some(u)
    ensures (forall u: UnitId :: !OnlyCarrier(units, prop, lot, u)) ==>
              forall u: UnitId :: ResolveUnitId(units, prop, lot) == Some(u) <==> OnlyNamed(units, prop, lot, u)
  {
    forall u: UnitId
      ensures OnlyRow(ByUid(units, prop, lot)) == Some(u) <==> OnlyCarrier(units, prop, lot, u)
      ensures OnlyRow(ByNumber(units, prop, lot)) == Some(u) <==> OnlyNamed(units, prop, lot, u)
    {
      ByUidMeans(units, prop, lot, u);
      ByNumberMeans(units, prop, lot, u);
    }
    hide OnlyCarrier, OnlyNamed, ByUid, ByNumber;
    var byUid := OnlyRow(ByUid(units, prop, lot));
    if byUid.Some? {
      assert OnlyCarrier(units, prop, lot, byUid.value);
    }
  }

  // --- Importing the lots ---

  /** What stays the same while the lots are imported. */
  datatype Site = Site(prop: PropertyId, parcel: ParcelId, ahj: string)

  function Linked(unit: Unit, lot: Lot, parcel: ParcelId): Unit {
    unit.(lotNumber := Some(Decimal.Print(lot.lotNo)), primaryPermit := Some(lot.permit),
          externalUid := Some(lot.uid), parcelId := Some(parcel))
  }

  datatype Rows = Rows(units: Units, permits: Permits)

  /** INSERT ... ON CONFLICT (unit_id, permit_number) DO NOTHING */
  function AddPermit(permits: Permits, u: UnitId, number: string, ahj: string): Permits {
    if (u, number) in permits then permits else permits[(u, number) := Permit("building", ahj, PERMIT_SOURCE)]
  }

  function ImportLot(site: Site, rows: Rows, lot: Lot): Rows {
    match ResolveUnitId(rows.units, site.prop, lot)
    case None => rows
    case Some(u) => Rows(rows.units[u := Linked(rows.units[u], lot, site.parcel)], AddPermit(rows.permits, u, lot.permit, site.ahj))
  }

  /** The rows after the first `i` lots. */
  function ImportLots(site: Site, rows: Rows, lots: seq<Lot>, i: nat): Rows
    requires i <= |lots|
  {
    if i == 0 then rows else ImportLot(site, ImportLots(site, rows, lots, i - 1), lots[i - 1])
  }

  /** The unit that lot `i` resolves to when its turn comes. */
  function Resolved(site: Site, rows: Rows, lots: seq<Lot>, i: nat): Option<UnitId>
    requires i < |lots|
  {
    ResolveUnitId(ImportLots(site, rows, lots, i).units, site.prop, lots[i])
  }

  function LinkedCount(site: Site, rows: Rows, lots: seq<Lot>, i: nat): nat
    requires i <= |lots|
  {
    if i == 0 then 0 else LinkedCount(site, rows, lots, i - 1) + (if Resolved(site, rows, lots, i - 1).Some? then 1 else 0)
  }

  // --- The whole import ---

  function PropertiesNamed(db: Db, name: string): set<PropertyId> {
    set p | p in db.properties && db.properties[p] == name
  }

  /** The first parcel of the property without an APN, or -1. */
  function NullApnParcel(parcels: seq<Parcel>, prop: PropertyId): (i: int)
    ensures -1 <= i < |parcels|
    ensures i >= 0 ==> parcels[i].propertyId == prop && parcels[i].apn == None
    ensures forall k :: 0 <= k < (if i < 0 then |parcels| else i) ==>
              !(parcels[k].propertyId == prop && parcels[k].apn == None)
  {
    if parcels == [] then -1
    else if parcels[0].propertyId == prop && parcels[0].apn == None then 0
    else
      var i := NullApnParcel(parcels[1..], prop);
      if i < 0 then -1 else i + 1
  }

  /** Select-or-insert of the single parcel. */
  function EnsureParcel(parcels: seq<Parcel>, prop: PropertyId, ahj: string): (r: (seq<Parcel>, ParcelId))
    ensures r.1 < |r.0|
  {
    var i := NullApnParcel(parcels, prop);
    if i >= 0 then (parcels[i := parcels[i].(ahj := ahj, confidence := "confirmed", source := PERMIT_SOURCE)], i)
    else (parcels + [Parcel(prop, None, ahj, "confirmed", PERMIT_SOURCE)], |parcels|)
  }

  function RowsOf(db: Db): Rows {
    Rows(db.units, db.permits)
  }

  function SiteOf(db: Db, prop: PropertyId, ahj: string): Site {
    Site(prop, EnsureParcel(db.parcels, prop, ahj).1, ahj)
  }

  function Imported(db: Db, lots: seq<Lot>, ahj: string): Db {
    match OnlyRow(PropertiesNamed(db, WINDSOR_PROPERTY_NAME))
    case None => db
    case Some(prop) =>
      var rows := ImportLots(SiteOf(db, prop, ahj), RowsOf(db), lots, |lots|);
      db.(parcels := EnsureParcel(db.parcels, prop, ahj).0, units := rows.units, permits := rows.permits)
  }

  /** The database that the importer's queries run against. */
  class Database {
    var db: Db

    constructor (db: Db)
      ensures this.db == db
    {
      this.db := db;
    }

    /** The uid decides if exactly one unit of the property carries it, else the number if it names
        exactly one, else nothing is resolved. */
    method ResolveUnit(prop: PropertyId, lot: Lot) returns (unitId: Option<UnitId>)
      ensures unitId == ResolveUnitId(db.units, prop, lot)
      ensures forall u: UnitId | OnlyCarrier(db.units, prop, lot, u) :: unitId == Some(u)
      ensures (forall u: UnitId :: !OnlyCarrier(db.units, prop, lot, u)) ==>
                forall u: UnitId :: unitId == Some(u) <==> OnlyNamed(db.units, prop, lot, u)
    {
      ResolvedMeans(db.units, prop, lot);
      var byUid := ByUid(db.units, prop, lot);
      if |byUid| == 1 { return OnlyRow(byUid); }
      var byNumber := ByNumber(db.units, prop, lot);
      if |byNumber| == 1 { return OnlyRow(byNumber); }
      return None;
    }

    method ImportWindsorIdentity(lots: seq<Lot>, ahj: string) returns (linked: nat, skipped: nat)
      modifies this
      ensures db == Imported(old(db), lots, ahj)
      ensures match OnlyRow(PropertiesNamed(old(db), WINDSOR_PROPERTY_NAME))
              case None => linked == 0 && skipped == 0
              case Some(prop) =>
                var site := SiteOf(old(db), prop, ahj);
                linked == LinkedCount(site, RowsOf(old(db)), lots, |lots|) && linked + skipped == |lots|
    {
      linked, skipped := 0, 0;
      match OnlyRow(PropertiesNamed(db, WINDSOR_PROPERTY_NAME))
      case None =>
      case Some(prop) =>
        var (parcels, parcel) := EnsureParcel(db.parcels, prop, ahj);
        db := db.(parcels := parcels);
        ghost var site := Site(prop, parcel, ahj);
        ghost var rows := Rows(old(db).units, old(db).permits);
        for i := 0 to |lots|
          invariant linked + skipped == i && linked == LinkedCount(site, rows, lots, i)
          invariant db == old(db).(parcels := parcels, units := ImportLots(site, rows, lots, i).units,
                                   permits := ImportLots(site, rows, lots, i).permits)
        {
          var unitId := ResolveUnit(prop, lots[i]);
          match unitId {
            case None => skipped := skipped + 1;
            case Some(u) =>
              db := db.(units := db.units[u := Linked(db.units[u], lots[i], parcel)],
                        permits := AddPermit(db.permits, u, lots[i].permit, ahj));
              linked := linked + 1;
          }
        }
    }
  }

  // --- What one run leaves behind ---

  /** No two units of the property carry the same uid. */
  ghost predicate UniqueUids(units: Units, prop: PropertyId) {
    forall u, v | u in units && v in units && units[u].propertyId == prop && units[v].propertyId == prop
                  && units[u].externalUid.Some? && units[u].externalUid == units[v].externalUid :: u == v
  }

  ghost predicate DistinctUids(lots: seq<Lot>) {
    forall i, j :: 0 <= i < |lots| && 0 <= j < |lots| && lots[i].uid == lots[j].uid ==> i == j
  }

  /** The last of the first `i` lots that resolved to `u`, or -1. */
  ghost function LastOn(site: Site, rows: Rows, lots: seq<Lot>, i: nat, u: UnitId): (k: int)
    requires i <= |lots|
    ensures -1 <= k < i
    ensures k >= 0 ==> Resolved(site, rows, lots, k) == Some(u)
    ensures forall j :: k < j < i ==> Resolved(site, rows, lots, j) != Some(u)
  {
    if i == 0 then -1
    else if Resolved(site, rows, lots, i - 1) == Some(u) then i - 1
    else LastOn(site, rows, lots, i - 1, u)
  }

  /** The unit with the identity of a lot, column by column. */
  ghost predicate HasIdentity(after: Unit, before: Unit, lot: Lot, parcel: ParcelId) {
    && after.propertyId == before.propertyId && after.unitNumber == before.unitNumber
    && after.externalUid == Some(lot.uid) && after.lotNumber == Some(Decimal.Print(lot.lotNo))
    && after.primaryPermit == Some(lot.permit) && after.parcelId == Some(parcel)
  }

  /** A unit has its own columns, and the identity of the last lot on it. */
  lemma {:induction false} UnitAfter(site: Site, rows: Rows, lots: seq<Lot>, i: nat, u: UnitId)
    requires i <= |lots|
    ensures u in ImportLots(site, rows, lots, i).units <==> u in rows.units
    ensures u in rows.units ==>
              var k := LastOn(site, rows, lots, i, u);
              var after := ImportLots(site, rows, lots, i).units[u];
              if k < 0 then after == rows.units[u] else HasIdentity(after, rows.units[u], lots[k], site.parcel)
  {
    if i > 0 {
      UnitAfter(site, rows, lots, i - 1, u);
    }
  }

  /** One of the first `i` lots was linked to `u` with this permit number. */
  ghost predicate Issued(site: Site, rows: Rows, lots: seq<Lot>, i: nat, u: UnitId, number: string)
    requires i <= |lots|
  {
    exists k :: 0 <= k < i && Resolved(site, rows, lots, k) == Some(u) && lots[k].permit == number
  }

  lemma IssuedNext(site: Site, rows: Rows, lots: seq<Lot>, i: nat, u: UnitId, number: string)
    requires i < |lots|
    ensures Issued(site, rows, lots, i + 1, u, number) <==>
              Issued(site, rows, lots, i, u, number) || (Resolved(site, rows, lots, i) == Some(u) && lots[i].permit == number)
  {
    hide ResolveUnitId, ImportLots;
    if Issued(site, rows, lots, i, u, number) {
      var k :| 0 <= k < i && Resolved(site, rows, lots, k) == Some(u) && lots[k].permit == number;
      assert k < i + 1;
    }
  }

  /** The permits afterwards are those before and one for each linked lot. */
  lemma {:induction false} PermitsAfter(site: Site, rows: Rows, lots: seq<Lot>, i: nat, u: UnitId, number: string)
    requires i <= |lots|
    ensures (u, number) in ImportLots(site, rows, lots, i).permits <==>
              (u, number) in rows.permits || Issued(site, rows, lots, i, u, number)
    ensures (u, number) in ImportLots(site, rows, lots, i).permits ==>
              ImportLots(site, rows, lots, i).permits[(u, number)] ==
              if (u, number) in rows.permits then rows.permits[(u, number)] else Permit("building", site.ahj, "windsor.db:2025")
  {
    hide Issued, ResolveUnitId, Linked;
    if i == 0 {
      assert !Issued(site, rows, lots, 0, u, number) by { NotIssued(site, rows, lots, u, number); }
    } else {
      PermitsAfter(site, rows, lots, i - 1, u, number);
      IssuedNext(site, rows, lots, i - 1, u, number);
    }
  }

  lemma NotIssued(site: Site, rows: Rows, lots: seq<Lot>, u: UnitId, number: string)
    ensures !Issued(site, rows, lots, 0, u, number)
  {
  }

  /** A unit's property and number never change, so a number always names the same units. */
  lemma NumberKept(site: Site, rows: Rows, lots: seq<Lot>, i: nat, lot: Lot)
    requires i <= |lots|
    ensures ByNumber(ImportLots(site, rows, lots, i).units, site.prop, lot) == ByNumber(rows.units, site.prop, lot)
  {
    forall u ensures u in ByNumber(ImportLots(site, rows, lots, i).units, site.prop, lot) <==> u in ByNumber(rows.units, site.prop, lot) {
      UnitAfter(site, rows, lots, i, u);
    }
  }

  lemma UniqueByUid(units: Units, prop: PropertyId, lot: Lot, u: UnitId)
    requires UniqueUids(units, prop) && u in ByUid(units, prop, lot)
    ensures OnlyRow(ByUid(units, prop, lot)) == Some(u)
  {
    assert ByUid(units, prop, lot) == {u};
  }

  /** External uids stay unique in the property. */
  lemma {:induction false} UidsStayUnique(site: Site, rows: Rows, lots: seq<Lot>, i: nat)
    requires i <= |lots| && UniqueUids(rows.units, site.prop)
    ensures UniqueUids(ImportLots(site, rows, lots, i).units, site.prop)
  {
    if i > 0 {
      UidsStayUnique(site, rows, lots, i - 1);
      var units, lot := ImportLots(site, rows, lots, i - 1).units, lots[i - 1];
      var found := ResolveUnitId(units, site.prop, lot);
      if found.Some? {
        OthersWithoutUid(units, site.prop, lot, found.value);
        LinkKeepsUnique(units, site.prop, lot, found.value, site.parcel);
      }
    }
  }

  lemma OthersWithoutUid(units: Units, prop: PropertyId, lot: Lot, u: UnitId)
    requires UniqueUids(units, prop) && ResolveUnitId(units, prop, lot) == Some(u)
    ensures forall v :: v in ByUid(units, prop, lot) ==> v == u
  {
    var byUid := ByUid(units, prop, lot);
    forall v | v in byUid ensures v == u {
      UniqueByUid(units, prop, lot, v);
    }
  }

  lemma LinkKeepsUnique(units: Units, prop: PropertyId, lot: Lot, u: UnitId, parcel: ParcelId)
    requires UniqueUids(units, prop) && u in units
    requires forall v :: v in ByUid(units, prop, lot) ==> v == u
    ensures UniqueUids(units[u := Linked(units[u], lot, parcel)], prop)
  {
    var after := units[u := Linked(units[u], lot, parcel)];
    forall x, y | x in after && y in after && after[x].propertyId == prop && after[y].propertyId == prop
                  && after[x].externalUid.Some? && after[x].externalUid == after[y].externalUid
      ensures x == y
    {
      assert after[x].externalUid == Some(lot.uid) && x != u ==> x in ByUid(units, prop, lot);
      assert after[y].externalUid == Some(lot.uid) && y != u ==> y in ByUid(units, prop, lot);
    }
  }

  /** Once its turn is over, the uid of a lot is on the unit it was linked to, and only as the
      last lot on that unit. */
  lemma UidAfter(site: Site, rows: Rows, lots: seq<Lot>, n: nat, i: nat, u: UnitId)
    requires i < n <= |lots| && UniqueUids(rows.units, site.prop) && DistinctUids(lots)
    requires u in ByUid(ImportLots(site, rows, lots, n).units, site.prop, lots[i])
    ensures LastOn(site, rows, lots, n, u) == i
  {
    UnitAfter(site, rows, lots, n, u);
    var k := LastOn(site, rows, lots, n, u);
    if k < 0 {
      UnitAfter(site, rows, lots, i, u);
      UidsStayUnique(site, rows, lots, i);
      assert LastOn(site, rows, lots, i, u) < 0;
      UniqueByUid(ImportLots(site, rows, lots, i).units, site.prop, lots[i], u);
    }
  }

  // --- The second run ---

  /** The rows after a whole run. */
  function After(site: Site, rows: Rows, lots: seq<Lot>): Rows {
    ImportLots(site, rows, lots, |lots|)
  }

  /** Lot `i` was linked to a unit that a later lot took over. */
  ghost predicate Overtaken(site: Site, rows: Rows, lots: seq<Lot>, i: nat)
    requires i < |lots|
  {
    var r := Resolved(site, rows, lots, i);
    r.Some? && LastOn(site, rows, lots, |lots|, r.value) > i
  }

  /** Lot `i` lost the unit that carried its uid, and its number alone names another unit. */
  ghost predicate Displaced(site: Site, rows: Rows, lots: seq<Lot>, i: nat)
    requires i < |lots|
  {
    var byNumber := OnlyRow(ByNumber(rows.units, site.prop, lots[i]));
    Overtaken(site, rows, lots, i) && byNumber.Some? && byNumber != Resolved(site, rows, lots, i)
  }

  /** In the second run lot `i` goes where it went before, or nowhere if its unit was taken over. */
  ghost predicate Agrees(site: Site, rows: Rows, lots: seq<Lot>, i: nat)
    requires i < |lots|
  {
    var again := Resolved(site, After(site, rows, lots), lots, i);
    again == Resolved(site, rows, lots, i) || (again == None && Overtaken(site, rows, lots, i))
  }

  /** What the second run finds under the uid of lot `i`: the unit it is still on, if it has not
      been overwritten already. */
  lemma UidInSecondRun(site: Site, rows: Rows, lots: seq<Lot>, i: nat, u: UnitId)
    requires i < |lots| && UniqueUids(rows.units, site.prop) && DistinctUids(lots)
    requires u in ByUid(ImportLots(site, After(site, rows, lots), lots, i).units, site.prop, lots[i])
    ensures LastOn(site, rows, lots, |lots|, u) == i
    ensures LastOn(site, After(site, rows, lots), lots, i, u) < 0
  {
    var first := After(site, rows, lots);
    UnitAfter(site, first, lots, i, u);
    var k := LastOn(site, first, lots, i, u);
    if k < 0 {
      UidAfter(site, rows, lots, |lots|, i, u);
    }
  }

  lemma ByUidInSecondRun(site: Site, rows: Rows, lots: seq<Lot>, i: nat)
    requires i < |lots| && UniqueUids(rows.units, site.prop) && DistinctUids(lots)
    ensures var byUid := OnlyRow(ByUid(ImportLots(site, After(site, rows, lots), lots, i).units, site.prop, lots[i]));
            byUid.Some? ==> byUid == Resolved(site, rows, lots, i) && !Overtaken(site, rows, lots, i)
  {
    var byUid := ByUid(ImportLots(site, After(site, rows, lots), lots, i).units, site.prop, lots[i]);
    if OnlyRow(byUid).Some? {
      UidInSecondRun(site, rows, lots, i, OnlyRow(byUid).value);
    }
  }

  lemma SecondResolution(site: Site, rows: Rows, lots: seq<Lot>, i: nat)
    requires i < |lots| && UniqueUids(rows.units, site.prop) && DistinctUids(lots)
    requires forall k :: 0 <= k < i ==> Agrees(site, rows, lots, k)
    ensures Agrees(site, rows, lots, i) <==> !Displaced(site, rows, lots, i)
    ensures Displaced(site, rows, lots, i) ==>
              Resolved(site, After(site, rows, lots), lots, i) == OnlyRow(ByNumber(rows.units, site.prop, lots[i]))
  {
    var first, lot := After(site, rows, lots), lots[i];
    var before, again := ImportLots(site, rows, lots, i).units, ImportLots(site, first, lots, i).units;
    var r := ResolveUnitId(before, site.prop, lot);
    NumberKept(site, rows, lots, i, lot);
    NumberKept(site, rows, lots, |lots|, lot);
    NumberKept(site, first, lots, i, lot);
    ByUidInSecondRun(site, rows, lots, i);
    if r.Some? && !Overtaken(site, rows, lots, i) {
      StillLinked(site, rows, lots, i, r.value);
    }
  }

  /** A lot that was last on its unit finds that unit again. */
  lemma StillLinked(site: Site, rows: Rows, lots: seq<Lot>, i: nat, u: UnitId)
    requires i < |lots| && UniqueUids(rows.units, site.prop) && DistinctUids(lots)
    requires Resolved(site, rows, lots, i) == Some(u) && !Overtaken(site, rows, lots, i)
    requires forall k :: 0 <= k < i ==> Agrees(site, rows, lots, k)
    ensures Resolved(site, After(site, rows, lots), lots, i) == Some(u)
  {
    var first, lot := After(site, rows, lots), lots[i];
    if LastOn(site, first, lots, i, u) < 0 {
      StillCarried(site, rows, lots, i, u);
      UidsStayUnique(site, rows, lots, |lots|);
      UidsStayUnique(site, first, lots, i);
      UniqueByUid(ImportLots(site, first, lots, i).units, site.prop, lot, u);
    } else {
      hide ByUid, ByNumber, LastOn;
      NumberKept(site, rows, lots, |lots|, lot);
      NumberKept(site, first, lots, i, lot);
      ByUidInSecondRun(site, rows, lots, i);
      var k := LastOn(site, first, lots, i, u);
      assert Agrees(site, rows, lots, k);
      TakenByNumber(site, rows, lots, i, u, k);
    }
  }

  lemma StillCarried(site: Site, rows: Rows, lots: seq<Lot>, i: nat, u: UnitId)
    requires i < |lots|
    requires Resolved(site, rows, lots, i) == Some(u) && !Overtaken(site, rows, lots, i)
    requires LastOn(site, After(site, rows, lots), lots, i, u) < 0
    ensures u in ByUid(ImportLots(site, After(site, rows, lots), lots, i).units, site.prop, lots[i])
  {
    UnitAfter(site, rows, lots, i, u);
    UnitAfter(site, rows, lots, |lots|, u);
    UnitAfter(site, After(site, rows, lots), lots, i, u);
    assert LastOn(site, rows, lots, |lots|, u) == i;
  }

  /** A lot that takes over the unit of an earlier lot finds it by number. */
  lemma TakenByNumber(site: Site, rows: Rows, lots: seq<Lot>, i: nat, u: UnitId, k: nat)
    requires k < i < |lots| && DistinctUids(lots)
    requires Resolved(site, rows, lots, i) == Resolved(site, rows, lots, k) == Some(u)
    ensures OnlyRow(ByNumber(rows.units, site.prop, lots[i])) == Some(u)
  {
    NumberKept(site, rows, lots, i, lots[i]);
    UnitAfter(site, rows, lots, i, u);
    assert LastOn(site, rows, lots, i, u) >= k;
    assert u !in ByUid(ImportLots(site, rows, lots, i).units, site.prop, lots[i]);
  }

  /** As long as no earlier lot was displaced, the second run agrees with the first. */
  lemma {:induction false} SecondRunAgrees(site: Site, rows: Rows, lots: seq<Lot>, i: nat)
    requires i <= |lots| && UniqueUids(rows.units, site.prop) && DistinctUids(lots)
    requires forall k :: 0 <= k < i ==> !Displaced(site, rows, lots, k)
    ensures forall k :: 0 <= k < i ==> Agrees(site, rows, lots, k)
  {
    hide Agrees, Displaced;
    if i > 0 {
      SecondRunAgrees(site, rows, lots, i - 1);
      SecondResolution(site, rows, lots, i - 1);
    }
  }

  /** A lot that was skipped once is skipped again, whatever happened to the others. */
  lemma SkippedStaySkipped(site: Site, rows: Rows, lots: seq<Lot>, i: nat)
    requires i < |lots| && UniqueUids(rows.units, site.prop) && DistinctUids(lots)
    requires Resolved(site, rows, lots, i) == None
    ensures Resolved(site, After(site, rows, lots), lots, i) == None
  {
    NumberKept(site, rows, lots, i, lots[i]);
    NumberKept(site, rows, lots, |lots|, lots[i]);
    NumberKept(site, After(site, rows, lots), lots, i, lots[i]);
    ByUidInSecondRun(site, rows, lots, i);
    hide ByUid, ByNumber, ImportLots;
  }

  /** A lot still on its unit finds it again, unless an earlier lot was displaced. */
  lemma LinkedStayLinked(site: Site, rows: Rows, lots: seq<Lot>, i: nat)
    requires i < |lots| && UniqueUids(rows.units, site.prop) && DistinctUids(lots)
    requires forall k | 0 <= k < i :: !Displaced(site, rows, lots, k)
    requires Resolved(site, rows, lots, i).Some? && !Overtaken(site, rows, lots, i)
    ensures Resolved(site, After(site, rows, lots), lots, i) == Resolved(site, rows, lots, i)
  {
    hide *;
    SecondRunAgrees(site, rows, lots, i);
    StillLinked(site, rows, lots, i, Resolved(site, rows, lots, i).value);
  }

  /** A second run over the rows of the first changes no row if no lot was displaced. */
  lemma RowsTwice(site: Site, rows: Rows, lots: seq<Lot>)
    requires UniqueUids(rows.units, site.prop) && DistinctUids(lots)
    requires forall k :: 0 <= k < |lots| ==> !Displaced(site, rows, lots, k)
    ensures After(site, After(site, rows, lots), lots) == After(site, rows, lots)
  {
    SecondRunAgrees(site, rows, lots, |lots|);
    var first := After(site, rows, lots);
    var second := After(site, first, lots);
    forall u ensures u in second.units <==> u in first.units
             ensures u in first.units ==> second.units[u] == first.units[u]
    {
      UnitTwice(site, rows, lots, u);
    }
    assert second.units == first.units;
    PermitsTwice(site, rows, lots, |lots|);
  }

  lemma UnitTwice(site: Site, rows: Rows, lots: seq<Lot>, u: UnitId)
    requires forall k :: 0 <= k < |lots| ==> Agrees(site, rows, lots, k)
    ensures var first := After(site, rows, lots);
            var second := After(site, first, lots);
            && (u in second.units <==> u in first.units)
            && (u in first.units ==> second.units[u] == first.units[u])
  {
    hide ResolveUnitId, ImportLots;
    var first := After(site, rows, lots);
    UnitAfter(site, rows, lots, |lots|, u);
    UnitAfter(site, first, lots, |lots|, u);
    var k := LastOn(site, rows, lots, |lots|, u);
    var k' := LastOn(site, first, lots, |lots|, u);
    if k >= 0 {
      assert Agrees(site, rows, lots, k);
    }
    if k' >= 0 {
      assert Agrees(site, rows, lots, k');
    }
  }

  lemma {:induction false} PermitsTwice(site: Site, rows: Rows, lots: seq<Lot>, i: nat)
    requires i <= |lots|
    requires forall k :: 0 <= k < |lots| ==> Agrees(site, rows, lots, k)
    ensures ImportLots(site, After(site, rows, lots), lots, i).permits == After(site, rows, lots).permits
  {
    if i > 0 {
      PermitsTwice(site, rows, lots, i - 1);
      var r := Resolved(site, After(site, rows, lots), lots, i - 1);
      assert Agrees(site, rows, lots, i - 1);
      if r.Some? {
        assert Issued(site, rows, lots, |lots|, r.value, lots[i - 1].permit);
        PermitsAfter(site, rows, lots, |lots|, r.value, lots[i - 1].permit);
      }
    }
  }

  /** A displaced lot leaves its permit on a unit that did not have it. */
  ghost predicate DisplacementShows(site: Site, rows: Rows, lots: seq<Lot>) {
    forall i | 0 <= i < |lots| && Displaced(site, rows, lots, i) ::
      (OnlyRow(ByNumber(rows.units, site.prop, lots[i])).value, lots[i].permit) !in After(site, rows, lots).permits
  }

  lemma ExactlyIfShown(site: Site, rows: Rows, lots: seq<Lot>)
    requires UniqueUids(rows.units, site.prop) && DistinctUids(lots) && DisplacementShows(site, rows, lots)
    ensures After(site, After(site, rows, lots), lots) == After(site, rows, lots) <==>
              forall k :: 0 <= k < |lots| ==> !Displaced(site, rows, lots, k)
  {
    hide Displaced, Agrees;
    if forall k :: 0 <= k < |lots| ==> !Displaced(site, rows, lots, k) {
      RowsTwice(site, rows, lots);
    } else {
      var i :| 0 <= i < |lots| && Displaced(site, rows, lots, i);
      i := FirstDisplaced(site, rows, lots, i);
      SecondRunAgrees(site, rows, lots, i);
      DisplacedChanges(site, rows, lots, i);
    }
  }

  /** Each lot has a permit number of its own, and none is recorded yet on the unit that the lot's
      number names. */
  ghost predicate PermitsNew(site: Site, rows: Rows, lots: seq<Lot>) {
    && (forall i, j | 0 <= i < |lots| && 0 <= j < |lots| && lots[i].permit == lots[j].permit :: i == j)
    && (forall i, u: UnitId | 0 <= i < |lots| && OnlyNamed(rows.units, site.prop, lots[i], u) :: (u, lots[i].permit) !in rows.permits)
  }

  lemma NewPermitsShow(site: Site, rows: Rows, lots: seq<Lot>)
    requires PermitsNew(site, rows, lots)
    ensures DisplacementShows(site, rows, lots)
  {
    forall i | 0 <= i < |lots| && Displaced(site, rows, lots, i)
      ensures (OnlyRow(ByNumber(rows.units, site.prop, lots[i])).value, lots[i].permit) !in After(site, rows, lots).permits
    {
      var v := OnlyRow(ByNumber(rows.units, site.prop, lots[i])).value;
      ByNumberMeans(rows.units, site.prop, lots[i], v);
      PermitsAfter(site, rows, lots, |lots|, v, lots[i].permit);
      hide OnlyNamed, ByNumber, ImportLots, ResolveUnitId;
    }
  }

  /** With new permits the second run changes nothing if and only if no lot was displaced. */
  lemma RowsTwiceExactly(site: Site, rows: Rows, lots: seq<Lot>)
    requires UniqueUids(rows.units, site.prop) && DistinctUids(lots) && PermitsNew(site, rows, lots)
    ensures After(site, After(site, rows, lots), lots) == After(site, rows, lots) <==>
              forall k :: 0 <= k < |lots| ==> !Displaced(site, rows, lots, k)
  {
    hide *;
    NewPermitsShow(site, rows, lots);
    ExactlyIfShown(site, rows, lots);
  }

  lemma {:induction false} FirstDisplaced(site: Site, rows: Rows, lots: seq<Lot>, i: nat) returns (k: nat)
    requires i < |lots| && Displaced(site, rows, lots, i)
    ensures k < |lots| && Displaced(site, rows, lots, k)
    ensures forall j :: 0 <= j < k ==> !Displaced(site, rows, lots, j)
  {
    hide Displaced;
    if j :| 0 <= j < i && Displaced(site, rows, lots, j) {
      k := FirstDisplaced(site, rows, lots, j);
    } else {
      k := i;
    }
  }

  lemma DisplacedChanges(site: Site, rows: Rows, lots: seq<Lot>, i: nat)
    requires i < |lots| && UniqueUids(rows.units, site.prop) && DistinctUids(lots)
    requires DisplacementShows(site, rows, lots) && Displaced(site, rows, lots, i)
    requires forall k :: 0 <= k < i ==> Agrees(site, rows, lots, k)
    ensures After(site, After(site, rows, lots), lots) != After(site, rows, lots)
  {
    SecondResolution(site, rows, lots, i);
    var first := After(site, rows, lots);
    var v := OnlyRow(ByNumber(rows.units, site.prop, lots[i])).value;
    assert Issued(site, first, lots, |lots|, v, lots[i].permit);
    PermitsAfter(site, first, lots, |lots|, v, lots[i].permit);
  }

  // --- The whole import, table by table ---

  /** The one property of the Windsor site. */
  ghost predicate IsTheSite(db: Db, prop: PropertyId) {
    && prop in db.properties && db.properties[prop] == "Windsor Park"
    && forall q | q in db.properties && db.properties[q] == "Windsor Park" :: q == prop
  }

  lemma SiteFound(db: Db, prop: PropertyId)
    ensures OnlyRow(PropertiesNamed(db, WINDSOR_PROPERTY_NAME)) == Some(prop) <==> IsTheSite(db, prop)
  {
    var rows := PropertiesNamed(db, WINDSOR_PROPERTY_NAME);
    assert forall p :: p in rows <==> p in db.properties && db.properties[p] == "Windsor Park";
    OneRow(rows, prop);
  }

  /** Without exactly one property of that name nothing is imported. */
  lemma NoSiteNoImport(db: Db, lots: seq<Lot>, ahj: string)
    requires forall prop: PropertyId :: !IsTheSite(db, prop)
    ensures Imported(db, lots, ahj) == db
  {
    var found := OnlyRow(PropertiesNamed(db, WINDSOR_PROPERTY_NAME));
    if found.Some? {
      SiteFound(db, found.value);
    }
  }

  /** The parcel, the units and the permits after the import; the properties stay. */
  lemma ImportedExactly(db: Db, lots: seq<Lot>, ahj: string, prop: PropertyId)
    requires IsTheSite(db, prop)
    ensures var after, site := Imported(db, lots, ahj), SiteOf(db, prop, ahj);
            && after.properties == db.properties
            && site.parcel < |after.parcels| && after.parcels[site.parcel] == Parcel(prop, None, ahj, "confirmed", "windsor.db:2025")
            && (forall k | 0 <= k < |db.parcels| && k != site.parcel :: k < |after.parcels| && after.parcels[k] == db.parcels[k])
            && after.units.Keys == db.units.Keys
            && (forall u | u in db.units ::
                  var k := LastOn(site, RowsOf(db), lots, |lots|, u);
                  if k < 0 then after.units[u] == db.units[u] else HasIdentity(after.units[u], db.units[u], lots[k], site.parcel))
            && (forall u: UnitId, number: string ::
                  (u, number) in after.permits <==> (u, number) in db.permits || Issued(site, RowsOf(db), lots, |lots|, u, number))
            && (forall u: UnitId, number: string | (u, number) in after.permits ::
                  after.permits[(u, number)] ==
                  if (u, number) in db.permits then db.permits[(u, number)] else Permit("building", ahj, "windsor.db:2025"))
  {
    SiteFound(db, prop);
    ParcelEnsured(db.parcels, prop, ahj);
    var site, rows := SiteOf(db, prop, ahj), RowsOf(db);
    var after := Imported(db, lots, ahj);
    assert after.parcels == EnsureParcel(db.parcels, prop, ahj).0;
    assert RowsOf(after) == ImportLots(site, rows, lots, |lots|) && after.properties == db.properties;
    hide ImportLots, EnsureParcel, HasIdentity, Issued, Imported, SiteOf;
    forall u: UnitId
      ensures u in after.units <==> u in db.units
      ensures u in db.units ==>
                var k := LastOn(site, rows, lots, |lots|, u);
                if k < 0 then after.units[u] == db.units[u] else HasIdentity(after.units[u], db.units[u], lots[k], site.parcel)
    {
      UnitAfter(site, rows, lots, |lots|, u);
    }
    forall u: UnitId, number: string
      ensures (u, number) in after.permits <==> (u, number) in db.permits || Issued(site, rows, lots, |lots|, u, number)
      ensures (u, number) in after.permits ==>
                after.permits[(u, number)] ==
                if (u, number) in db.permits then db.permits[(u, number)] else Permit("building", site.ahj, "windsor.db:2025")
    {
      PermitsAfter(site, rows, lots, |lots|, u, number);
    }
    assert site.ahj == ahj by { SiteAhj(db, prop, ahj); }
  }

  lemma SiteAhj(db: Db, prop: PropertyId, ahj: string)
    ensures SiteOf(db, prop, ahj).ahj == ahj && SiteOf(db, prop, ahj).parcel == EnsureParcel(db.parcels, prop, ahj).1
  {
  }

  // --- Importing twice ---

  /** There is one more parcel only if the property had none without an APN; the parcel found or made
      has none and says what the import says, and every other is as it was. */
  lemma ParcelEnsured(parcels: seq<Parcel>, prop: PropertyId, ahj: string)
    ensures var (after, id) := EnsureParcel(parcels, prop, ahj);
            && after[id] == Parcel(prop, None, ahj, "confirmed", "windsor.db:2025")
            && |after| == (if exists k :: 0 <= k < |parcels| && parcels[k].propertyId == prop && parcels[k].apn == None
                           then |parcels| else |parcels| + 1)
            && forall k | 0 <= k < |parcels| && k != id :: after[k] == parcels[k]
  {
    var i := NullApnParcel(parcels, prop);
    if i >= 0 {
      assert parcels[i].propertyId == prop && parcels[i].apn == None;
    }
  }

  lemma ParcelTwice(parcels: seq<Parcel>, prop: PropertyId, ahj: string)
    ensures EnsureParcel(EnsureParcel(parcels, prop, ahj).0, prop, ahj) == EnsureParcel(parcels, prop, ahj)
  {
    var (once, id) := EnsureParcel(parcels, prop, ahj);
    assert once[id].propertyId == prop && once[id].apn == None;
    assert NullApnParcel(once, prop) == id;
    assert once[id := once[id]] == once;
  }

  /** The lots whose second import would go to another unit. */
  ghost predicate NoneDisplaced(db: Db, lots: seq<Lot>, ahj: string) {
    forall prop | OnlyRow(PropertiesNamed(db, WINDSOR_PROPERTY_NAME)) == Some(prop) ::
      forall k :: 0 <= k < |lots| ==> !Displaced(SiteOf(db, prop, ahj), RowsOf(db), lots, k)
  }

  ghost predicate UidsAreUnique(db: Db) {
    forall prop | OnlyRow(PropertiesNamed(db, WINDSOR_PROPERTY_NAME)) == Some(prop) :: UniqueUids(db.units, prop)
  }

  /** The import is idempotent and keeps uids unique, unless a lot was displaced. */
  lemma ImportTwice(db: Db, lots: seq<Lot>, ahj: string)
    requires UidsAreUnique(db) && DistinctUids(lots)
    ensures UidsAreUnique(Imported(db, lots, ahj))
    ensures NoneDisplaced(db, lots, ahj) ==> Imported(Imported(db, lots, ahj), lots, ahj) == Imported(db, lots, ahj)
  {
    hide UniqueUids, DistinctUids, Displaced, ImportLots, EnsureParcel;
    var found := OnlyRow(PropertiesNamed(db, WINDSOR_PROPERTY_NAME));
    var first := Imported(db, lots, ahj);
    assert PropertiesNamed(first, WINDSOR_PROPERTY_NAME) == PropertiesNamed(db, WINDSOR_PROPERTY_NAME);
    if found.Some? {
      var prop := found.value;
      var site := SiteOf(db, prop, ahj);
      ParcelTwice(db.parcels, prop, ahj);
      UidsStayUnique(site, RowsOf(db), lots, |lots|);
      if NoneDisplaced(db, lots, ahj) {
        RowsTwice(site, RowsOf(db), lots);
      }
    }
  }

  /** If every lot that resolves takes a unit of its own, none is displaced. */
  lemma OwnUnits(site: Site, rows: Rows, lots: seq<Lot>)
    requires forall i, j :: 0 <= i < j < |lots| && Resolved(site, rows, lots, i).Some? ==>
               Resolved(site, rows, lots, i) != Resolved(site, rows, lots, j)
    ensures forall k :: 0 <= k < |lots| ==> !Displaced(site, rows, lots, k)
  {
    forall k | 0 <= k < |lots| ensures !Overtaken(site, rows, lots, k) {
      var r := Resolved(site, rows, lots, k);
      if r.Some? {
        assert LastOn(site, rows, lots, |lots|, r.value) <= k;
      }
    }
  }

  /** What a lot resolves to in the tables as they are before the import. */
  ghost function AtFirst(site: Site, rows: Rows, lots: seq<Lot>, i: nat): Option<UnitId>
    requires i < |lots|
  {
    ResolveUnitId(rows.units, site.prop, lots[i])
  }

  ghost predicate ApartAtFirst(site: Site, rows: Rows, lots: seq<Lot>) {
    forall i, j | 0 <= i < j < |lots| && AtFirst(site, rows, lots, i).Some? ::
      AtFirst(site, rows, lots, i) != AtFirst(site, rows, lots, j)
  }

  /** If no two lots resolve to the same unit beforehand, each resolves to that unit when its turn comes. */
  lemma {:induction false} ResolvesAsAtFirst(site: Site, rows: Rows, lots: seq<Lot>, i: nat)
    requires i < |lots| && UniqueUids(rows.units, site.prop) && DistinctUids(lots) && ApartAtFirst(site, rows, lots)
    ensures Resolved(site, rows, lots, i) == AtFirst(site, rows, lots, i)
    decreases i
  {
    hide AtFirst, ResolveUnitId, ImportLots;
    forall k | 0 <= k < i ensures Resolved(site, rows, lots, k) == AtFirst(site, rows, lots, k) {
      ResolvesAsAtFirst(site, rows, lots, k);
    }
    SameRows(site, rows, lots, i);
  }

  lemma SameRows(site: Site, rows: Rows, lots: seq<Lot>, i: nat)
    requires i < |lots| && UniqueUids(rows.units, site.prop) && DistinctUids(lots) && ApartAtFirst(site, rows, lots)
    requires forall k | 0 <= k < i :: Resolved(site, rows, lots, k) == AtFirst(site, rows, lots, k)
    ensures Resolved(site, rows, lots, i) == AtFirst(site, rows, lots, i)
  {
    var lot, units := lots[i], ImportLots(site, rows, lots, i).units;
    NumberKept(site, rows, lots, i, lot);
    forall u ensures u in ByUid(units, site.prop, lot) <==> u in ByUid(rows.units, site.prop, lot) {
      SameCarrier(site, rows, lots, i, u);
    }
    assert ByUid(units, site.prop, lot) == ByUid(rows.units, site.prop, lot);
  }

  lemma SameCarrier(site: Site, rows: Rows, lots: seq<Lot>, i: nat, u: UnitId)
    requires i < |lots| && UniqueUids(rows.units, site.prop) && DistinctUids(lots) && ApartAtFirst(site, rows, lots)
    requires forall k | 0 <= k < i :: Resolved(site, rows, lots, k) == AtFirst(site, rows, lots, k)
    ensures u in ByUid(ImportLots(site, rows, lots, i).units, site.prop, lots[i]) <==> u in ByUid(rows.units, site.prop, lots[i])
  {
    UnitAfter(site, rows, lots, i, u);
    var k := LastOn(site, rows, lots, i, u);
    var first, earlier := AtFirst(site, rows, lots, i), if k >= 0 then AtFirst(site, rows, lots, k) else None;
    assert k >= 0 ==> earlier == Some(u) && first != Some(u);
    if u in ByUid(rows.units, site.prop, lots[i]) {
      UniqueByUid(rows.units, site.prop, lots[i], u);
    }
  }

  /** So a caller who finds the lots on different units beforehand may import them again. */
  lemma ApartIsStable(site: Site, rows: Rows, lots: seq<Lot>)
    requires UniqueUids(rows.units, site.prop) && DistinctUids(lots) && ApartAtFirst(site, rows, lots)
    ensures After(site, After(site, rows, lots), lots) == After(site, rows, lots)
  {
    hide AtFirst, Resolved, Displaced;
    forall i | 0 <= i < |lots| ensures Resolved(site, rows, lots, i) == AtFirst(site, rows, lots, i) {
      ResolvesAsAtFirst(site, rows, lots, i);
    }
    OwnUnits(site, rows, lots);
    RowsTwice(site, rows, lots);
  }

  // --- Without the condition the import is not idempotent ---

  const LOT_A := Lot(1, "P1", "9 Oak St", 2, "A")
  const LOT_B := Lot(2, "P2", "1 Oak St", 1, "B")

  const BEFORE: Units := map[1 := Unit(0, "1", Some("A"), None, None, None), 2 := Unit(0, "2", None, None, None, None)]
  const ONCE: Units := BEFORE[1 := Unit(0, "1", Some("B"), Some("2"), Some("P2"), Some(0))]
  const TWICE: Units := ONCE[2 := Unit(0, "2", Some("A"), Some("1"), Some("P1"), Some(0))]

  /** Unit 1 carries the uid of the first lot and the number of the second; unit 2 has the number
      of the first. The second lot takes unit 1 over, so the second run moves the first to unit 2. */
  lemma ImportTwiceDiffers(ahj: string)
    ensures UniqueUids(BEFORE, 0) && DistinctUids([LOT_A, LOT_B])
    ensures After(Site(0, 0, ahj), Rows(BEFORE, map[]), [LOT_A, LOT_B]).units == ONCE
    ensures After(Site(0, 0, ahj), After(Site(0, 0, ahj), Rows(BEFORE, map[]), [LOT_A, LOT_B]), [LOT_A, LOT_B]).units == TWICE
    ensures ONCE != TWICE
  {
    hide ResolveUnitId, ImportLots, AddPermit, Linked;
    TwoLots(Site(0, 0, ahj), Rows(BEFORE, map[]));
    FirstRunDiffers();
    TwoLots(Site(0, 0, ahj), After(Site(0, 0, ahj), Rows(BEFORE, map[]), [LOT_A, LOT_B]));
    SecondRunDiffers();
    assert ONCE[2].externalUid != TWICE[2].externalUid;
  }

  lemma TwoLots(site: Site, rows: Rows)
    ensures After(site, rows, [LOT_A, LOT_B]) == ImportLot(site, ImportLot(site, rows, LOT_A), LOT_B)
  {
    hide ImportLot;
    var lots := [LOT_A, LOT_B];
    assert ImportLots(site, rows, lots, 0) == rows;
    assert ImportLots(site, rows, lots, 1) == ImportLot(site, rows, LOT_A);
  }

  lemma FirstRunDiffers()
    ensures ResolveUnitId(BEFORE, 0, LOT_A) == Some(1)
    ensures ResolveUnitId(BEFORE[1 := Linked(BEFORE[1], LOT_A, 0)], 0, LOT_B) == Some(1)
    ensures Linked(Linked(BEFORE[1], LOT_A, 0), LOT_B, 0) == ONCE[1]
  {
    assert Decimal.Print(1) == "1" && Decimal.Print(2) == "2";
    Resolves(BEFORE, LOT_A, 1, {1});
    Resolves(BEFORE[1 := Linked(BEFORE[1], LOT_A, 0)], LOT_B, 1, {});
  }

  lemma SecondRunDiffers()
    ensures ResolveUnitId(ONCE, 0, LOT_A) == Some(2)
    ensures Linked(ONCE[2], LOT_A, 0) == TWICE[2]
    ensures ResolveUnitId(TWICE, 0, LOT_B) == Some(1)
    ensures Linked(TWICE[1], LOT_B, 0) == TWICE[1]
  {
    assert Decimal.Print(1) == "1" && Decimal.Print(2) == "2";
    Resolves(ONCE, LOT_A, 2, {});
    Resolves(TWICE, LOT_B, 1, {1});
  }

  lemma Resolves(units: Units, lot: Lot, u: UnitId, byUid: set<UnitId>)
    requires ByUid(units, 0, lot) == byUid
    requires byUid == {u} || (byUid == {} && ByNumber(units, 0, lot) == {u})
    ensures ResolveUnitId(units, 0, lot) == Some(u)
  {
  }
}
