/** src/db/import-gpm-parcels.ts: the two passes over the assessor rows, with the constraints of
    the `parcels` table (src/db/schema.ts). `updated_at` is not modelled. */
module GpmParcels {
  import opened Options
  import opened Query
  import opened FoldedWords
  import opened Regex

  type PropertyId = nat
  type ParcelId = nat
  type BuildingId = nat

  /** One vendored row. Numbers that the import does not read are left out. */
  datatype Row = Row(name: string, apn: Option<string>, owner: string, ahj: string,
                     tract: Option<string>, notes: Option<string>, apnConfidence: string)

  datatype Facts = Facts(county: Option<string>, owner: Option<string>, ahj: Option<string>,
                         tract: Option<string>, confidence: string, source: Option<string>)

  datatype Parcel = Parcel(propertyId: PropertyId, apn: Option<string>, facts: Facts)

  datatype Building = Building(propertyId: PropertyId, parcelId: Option<ParcelId>)

  type Buildings = map<BuildingId, Building>

  /** The tables; a parcel's id is its index. */
  datatype Db = Db(properties: map<PropertyId, string>, parcels: seq<Parcel>, buildings: Buildings)

  const CONFIRMED := "confirmed"
  const PROVISIONAL := "provisional"
  const APN_SOURCE := "clark-assessor:2026-06-03"

  const NAME_ALIASES: map<string, string> := map[
    "Luther Mack, Jr. Senior" := "Dr. Luther Mack Jr. Senior Apartments",
    "Dr. Paul Meacham Senior" := "Dr. Paul Meacham",
    "David J. Hoggard Family" := "David Hoggard Family Community",
    "Senator Richard Bryan Senior" := "Senator Richard Bryan Apts",
    "Sarann Knight" := "Sarann Knight Apts",
    "Smith Williams Senior" := "Smith Williams Apts",
    "Yale Keyes Senior" := "Yale/Keyes Senior Apts",
    "Owens Senior Housing" := "Owens Senior"]

  // --- Confidence ---

  /** The words of the note pattern other than multi-?parcel. */
  function NoteWords(): (ws: seq<string>)
    ensures forall k | 0 <= k < |ws| :: |ws[k]| > 0
  {
    ["confirm", "separate parcel", "0 permits", "possibly 2", "2 services", "main building likely", "3 separate parcels"]
  }

  /** multi-?parcel */
  function MultiParcel(): Re {
    Cat(Word("multi"), Cat(Opt(One(Folds('-'))), Word("parcel")))
  }

  predicate NotesWarn(notes: string) {
    hide NoteWords, MultiParcel, Word, Test;
    || (exists k :: 0 <= k < |NoteWords()| && Test(Word(NoteWords()[k]), notes))
    || Test(MultiParcel(), notes)
  }

  function DeriveApnConfidence(row: Row): string {
    if row.apnConfidence == PROVISIONAL then PROVISIONAL
    else if row.notes.Some? && row.notes.value != "" && NotesWarn(row.notes.value) then PROVISIONAL
    else CONFIRMED
  }

  // --- First pass: one parcel for each resolved row ---

  function ResolveProperty(properties: map<PropertyId, string>, row: Row): Option<PropertyId> {
    var name := if row.name in NAME_ALIASES then NAME_ALIASES[row.name] else row.name;
    OnlyRow(set p | p in properties && properties[p] == name)
  }

  function ParcelFor(prop: PropertyId, row: Row): Parcel {
    Parcel(prop, row.apn, Facts(Some("Clark"), Some(row.owner), Some(row.ahj), row.tract, DeriveApnConfidence(row), Some(APN_SOURCE)))
  }

  /** UNIQUE (property_id, apn): null APNs are distinct. */
  ghost predicate KeysUnique(parcels: seq<Parcel>) {
    forall j, k | 0 <= j < |parcels| && 0 <= k < |parcels| && SameKey(parcels[j], parcels[k]) :: j == k
  }

  predicate SameKey(p: Parcel, q: Parcel) {
    p.apn.Some? && p.propertyId == q.propertyId && p.apn == q.apn
  }

  /** The unique index on confirmed APNs. */
  ghost predicate ConfirmedUnique(parcels: seq<Parcel>) {
    forall j, k | 0 <= j < |parcels| && 0 <= k < |parcels| && SameConfirmed(parcels[j], parcels[k]) :: j == k
  }

  predicate SameConfirmed(p: Parcel, q: Parcel) {
    p.apn.Some? && p.apn == q.apn && p.facts.confidence == q.facts.confidence == CONFIRMED
  }

  /** The index of the parcel with the key of `p`, or -1. */
  function Keyed(parcels: seq<Parcel>, p: Parcel): (i: int)
    ensures -1 <= i < |parcels|
    ensures i >= 0 ==> SameKey(parcels[i], p)
    ensures i < 0 ==> forall k | 0 <= k < |parcels| :: !SameKey(parcels[k], p)
  {
    if parcels == [] then -1
    else if SameKey(parcels[|parcels| - 1], p) then |parcels| - 1
    else Keyed(parcels[..|parcels| - 1], p)
  }

  /** INSERT ... ON CONFLICT (property_id, apn) DO UPDATE; None if the index on confirmed APNs is violated. */
  function Upsert(parcels: seq<Parcel>, p: Parcel): Option<seq<Parcel>> {
    var i := Keyed(parcels, p);
    if exists j :: 0 <= j < |parcels| && j != i && SameConfirmed(parcels[j], p) then None
    else if i < 0 then Some(parcels + [p])
    else Some(parcels[i := p])
  }

  /** The state of the first pass. `failed`: a statement was refused and the import has thrown.
      `resolved` is a JavaScript Set in insertion order. */
  datatype Pass = Pass(parcels: seq<Parcel>, resolved: seq<PropertyId>, failed: bool)

  function PassRow(properties: map<PropertyId, string>, pass: Pass, row: Row): Pass {
    match ResolveProperty(properties, row)
    case None => pass
    case Some(prop) =>
      var resolved := if prop in pass.resolved then pass.resolved else pass.resolved + [prop];
      match Upsert(pass.parcels, ParcelFor(prop, row))
      case None => pass.(resolved := resolved, failed := true)
      case Some(parcels) => Pass(parcels, resolved, false)
  }

  /** The first pass up to row `i`. */
  function FirstPass(properties: map<PropertyId, string>, parcels: seq<Parcel>, rows: seq<Row>, i: nat): Pass
    requires i <= |rows|
  {
    if i == 0 then Pass(parcels, [], false)
    else
      var pass := FirstPass(properties, parcels, rows, i - 1);
      if pass.failed then pass else PassRow(properties, pass, rows[i - 1])
  }

  // --- Second pass: link the buildings of single-parcel properties ---

  function ParcelsOf(parcels: seq<Parcel>, prop: PropertyId): set<ParcelId> {
    set k | 0 <= k < |parcels| && parcels[k].propertyId == prop
  }

  /** UPDATE buildings SET parcel_id = ... WHERE property_id = ... */
  function LinkProperty(parcels: seq<Parcel>, buildings: Buildings, prop: PropertyId): Buildings {
    match OnlyRow(ParcelsOf(parcels, prop))
    case None => buildings
    case Some(parcel) =>
      map b | b in buildings :: if buildings[b].propertyId == prop then buildings[b].(parcelId := Some(parcel)) else buildings[b]
  }

  function LinkAll(parcels: seq<Parcel>, buildings: Buildings, resolved: seq<PropertyId>, i: nat): Buildings
    requires i <= |resolved|
  {
    if i == 0 then buildings
    else LinkProperty(parcels, LinkAll(parcels, buildings, resolved, i - 1), resolved[i - 1])
  }

  datatype Outcome = Outcome(db: Db, completed: bool)

  function Imported(db: Db, rows: seq<Row>): Outcome {
    var pass := FirstPass(db.properties, db.parcels, rows, |rows|);
    if pass.failed then Outcome(db.(parcels := pass.parcels), false)
    else Outcome(db.(parcels := pass.parcels, buildings := LinkAll(pass.parcels, db.buildings, pass.resolved, |pass.resolved|)), true)
  }

  /** The database that the importer's statements run against. */
  class Database {
    var db: Db

    constructor (db: Db)
      ensures this.db == db
    {
      this.db := db;
    }

    method ImportGpmParcels(rows: seq<Row>) returns (completed: bool)
      modifies this
      ensures Outcome(db, completed) == Imported(old(db), rows)
    {
      hide ResolveProperty, Upsert, ParcelFor, LinkProperty;
      ghost var start := db;
      var resolvedPropertyIds: seq<PropertyId> := [];
      var i := 0;
      while i < |rows|
        invariant i <= |rows|
        invariant var pass := FirstPass(start.properties, start.parcels, rows, i);
                  !pass.failed && pass.resolved == resolvedPropertyIds && db == start.(parcels := pass.parcels)
      {
        var prop := ResolveProperty(db.properties, rows[i]);
        if prop.Some? {
          if prop.value !in resolvedPropertyIds {
            resolvedPropertyIds := resolvedPropertyIds + [prop.value];
          }
          var upserted := Upsert(db.parcels, ParcelFor(prop.value, rows[i]));
          if upserted == None {
            StaysFailed(start.properties, start.parcels, rows, i + 1, |rows|);
            return false;
          }
          db := db.(parcels := upserted.value);
        }
        i := i + 1;
      }
      for k := 0 to |resolvedPropertyIds|
        invariant db == start.(parcels := FirstPass(start.properties, start.parcels, rows, |rows|).parcels,
                               buildings := LinkAll(db.parcels, start.buildings, resolvedPropertyIds, k))
      {
        db := db.(buildings := LinkProperty(db.parcels, db.buildings, resolvedPropertyIds[k]));
      }
      return true;
    }
  }

  lemma {:induction false} StaysFailed(properties: map<PropertyId, string>, parcels: seq<Parcel>, rows: seq<Row>, i: nat, n: nat)
    requires i <= n <= |rows| && FirstPass(properties, parcels, rows, i).failed
    ensures FirstPass(properties, parcels, rows, n) == FirstPass(properties, parcels, rows, i)
  {
    if i < n {
      StaysFailed(properties, parcels, rows, i, n - 1);
    }
  }

  // --- Confidence: the pattern as words ---

  lemma MultiParcelExact(notes: string)
    ensures Test(MultiParcel(), notes) <==> Holds("multiparcel", notes) || Holds("multi-parcel", notes)
  {
    hide FoldsToAt, Test, MultiParcel;
    TestExact(MultiParcel(), notes);
    if i: nat, j: nat :| i <= j <= |notes| && Matches(MultiParcel(), notes, i, j) {
      MultiParcelFound(notes, i, j);
    }
    if i :| FoldsToAt("multiparcel", notes, i) {
      assert "multiparcel" == "multi" + "parcel";
      SplitFolds("multi", "parcel", notes, i);
      MultiParcelAt(notes, i, i + 5);
    }
    if i :| FoldsToAt("multi-parcel", notes, i) {
      assert "multi-parcel" == "multi" + "-parcel" && "-parcel" == "-" + "parcel";
      SplitFolds("multi", "-parcel", notes, i);
      SplitFolds("-", "parcel", notes, i + 5);
      MultiParcelAt(notes, i, i + 6);
    }
  }

  lemma MultiParcelFound(notes: string, i: nat, j: nat)
    requires i <= j <= |notes| && Matches(MultiParcel(), notes, i, j)
    ensures Holds("multiparcel", notes) || Holds("multi-parcel", notes)
  {
    hide FoldsToAt, Word;
    var dash, parcel := Opt(One(Folds('-'))), Word("parcel");
    var k := CatSplit(Word("multi"), Cat(dash, parcel), notes, i, j);
    var m := CatSplit(dash, parcel, notes, k, j);
    WordMatches("multi", notes, i, k);
    WordMatches("parcel", notes, m, j);
    if m == k {
      JoinFolds("multi", "parcel", notes, i);
      assert "multi" + "parcel" == "multiparcel";
    } else {
      DashAt(notes, k, m);
      JoinFolds("multi", "-", notes, i);
      assert "multi" + "-" == "multi-";
      JoinFolds("multi-", "parcel", notes, i);
      assert "multi-" + "parcel" == "multi-parcel";
    }
  }

  lemma DashAt(notes: string, k: nat, m: nat)
    requires k < m <= |notes|
    ensures Matches(Opt(One(Folds('-'))), notes, k, m) <==> m == k + 1 && FoldsToAt("-", notes, k)
  {
    assert Matches(Opt(One(Folds('-'))), notes, k, m) <==> Matches(One(Folds('-')), notes, k, m);
    assert FoldsToAt("-", notes, k) <==> Lower(notes[k + 0]) == "-"[0];
  }

  lemma JoinFolds(v: string, w: string, notes: string, i: nat)
    requires FoldsToAt(v, notes, i) && FoldsToAt(w, notes, i + |v|)
    ensures FoldsToAt(v + w, notes, i)
  {
    forall k | |v| <= k < |v + w| ensures Lower(notes[i + k]) == (v + w)[k] {
      assert Lower(notes[i + |v| + (k - |v|)]) == w[k - |v|];
    }
  }

  lemma SplitFolds(v: string, w: string, notes: string, i: int)
    requires FoldsToAt(v + w, notes, i)
    ensures FoldsToAt(v, notes, i) && FoldsToAt(w, notes, i + |v|)
  {
    assert forall k | 0 <= k < |v| :: (v + w)[k] == v[k];
    forall k | 0 <= k < |w| ensures Lower(notes[i + |v| + k]) == w[k] {
      assert Lower(notes[i + (|v| + k)]) == (v + w)[|v| + k];
    }
  }

  lemma DashPart(notes: string, k: nat, m: nat)
    requires k <= m <= |notes| && (m == k || (m == k + 1 && FoldsToAt("-", notes, k)))
    ensures Matches(Opt(One(Folds('-'))), notes, k, m)
  {
    if m > k { DashAt(notes, k, m); }
    hide FoldsToAt;
  }

  lemma FoldsInside(w: string, notes: string, i: int)
    requires FoldsToAt(w, notes, i)
    ensures 0 <= i && i + |w| <= |notes|
  {
  }

  lemma MultiParcelParts()
    ensures MultiParcel() == Cat(Word("multi"), Cat(Opt(One(Folds('-'))), Word("parcel")))
  {
    hide Word;
  }

  lemma MultiParcelAt(notes: string, i: nat, m: nat)
    requires FoldsToAt("multi", notes, i) && FoldsToAt("parcel", notes, m)
    requires m == i + 5 || (m == i + 6 && FoldsToAt("-", notes, i + 5))
    ensures m + 6 <= |notes| && Matches(MultiParcel(), notes, i, m + 6)
  {
    hide *;
    FoldsInside("multi", notes, i);
    FoldsInside("parcel", notes, m);
    DashPart(notes, i + 5, m);
    WordMatches("multi", notes, i, i + 5);
    WordMatches("parcel", notes, m, m + 6);
    MultiParcelParts();
    CatJoin(Opt(One(Folds('-'))), Word("parcel"), notes, i + 5, m, m + 6);
    CatJoin(Word("multi"), Cat(Opt(One(Folds('-'))), Word("parcel")), notes, i, i + 5, m + 6);
  }

  /** The row says so itself, or its notes hold one of the warning words, in any case. */
  ghost predicate IsProvisional(row: Row) {
    || row.apnConfidence == "provisional"
    || (row.notes.Some? && Warning(row.notes.value))
  }

  ghost predicate Warning(notes: string) {
    || Holds("confirm", notes) || Holds("separate parcel", notes) || Holds("0 permits", notes) || Holds("possibly 2", notes)
    || Holds("2 services", notes) || Holds("main building likely", notes) || Holds("3 separate parcels", notes)
    || Holds("multiparcel", notes) || Holds("multi-parcel", notes)
  }

  lemma NoteWordsAre(notes: string)
    ensures (exists k :: 0 <= k < |NoteWords()| && Holds(NoteWords()[k], notes)) || Holds("multiparcel", notes) || Holds("multi-parcel", notes)
            <==> Warning(notes)
  {
    hide Holds;
    var ws := NoteWords();
    assert ws[0] == "confirm" && ws[1] == "separate parcel" && ws[2] == "0 permits" && ws[3] == "possibly 2";
    assert ws[4] == "2 services" && ws[5] == "main building likely" && ws[6] == "3 separate parcels" && |ws| == 7;
  }

  /** A row is provisional exactly when it says so or its notes hold one of the warning words. */
  lemma DeriveExact(row: Row)
    ensures DeriveApnConfidence(row) == if IsProvisional(row) then "provisional" else "confirmed"
  {
    hide NoteWords, MultiParcel, Word, Test, Holds, Warning;
    if row.notes.Some? {
      NoteWordsAre(row.notes.value);
      var notes := row.notes.value;
      forall k | 0 <= k < |NoteWords()|
        ensures Test(Word(NoteWords()[k]), notes) <==> Holds(NoteWords()[k], notes)
        ensures notes == "" ==> !Holds(NoteWords()[k], notes)
      {
        WordHolds(NoteWords()[k], notes);
      }
      MultiParcelExact(notes);
      WordHolds("multiparcel", notes);
      WordHolds("multi-parcel", notes);
    }
  }

  lemma WordHolds(w: string, notes: string)
    requires |w| > 0
    ensures Test(Word(w), notes) <==> Holds(w, notes)
    ensures notes == "" ==> !Holds(w, notes)
  {
    WordTest(w, notes);
  }

  // --- The first pass ---

  /** The name under which a listed property stands in the catalog. */
  ghost predicate CatalogName(listed: string, catalog: string) {
    if listed == "Luther Mack, Jr. Senior" then catalog == "Dr. Luther Mack Jr. Senior Apartments"
    else if listed == "Dr. Paul Meacham Senior" then catalog == "Dr. Paul Meacham"
    else if listed == "David J. Hoggard Family" then catalog == "David Hoggard Family Community"
    else if listed == "Senator Richard Bryan Senior" then catalog == "Senator Richard Bryan Apts"
    else if listed == "Sarann Knight" then catalog == "Sarann Knight Apts"
    else if listed == "Smith Williams Senior" then catalog == "Smith Williams Apts"
    else if listed == "Yale Keyes Senior" then catalog == "Yale/Keyes Senior Apts"
    else if listed == "Owens Senior Housing" then catalog == "Owens Senior"
    else catalog == listed
  }

  /** The one property that has the row's catalog name. */
  ghost predicate IsProperty(properties: map<PropertyId, string>, row: Row, prop: PropertyId) {
    && prop in properties && CatalogName(row.name, properties[prop])
    && forall q | q in properties && CatalogName(row.name, properties[q]) :: q == prop
  }

  lemma CatalogNameIs(name: string, catalog: string)
    ensures CatalogName(name, catalog) <==> catalog == if name in NAME_ALIASES then NAME_ALIASES[name] else name
  {
  }

  /** A row resolves exactly to the one property of its catalog name. */
  lemma PropertyFound(properties: map<PropertyId, string>, row: Row, prop: PropertyId)
    ensures ResolveProperty(properties, row) == Some(prop) <==> IsProperty(properties, row, prop)
  {
    var name := if row.name in NAME_ALIASES then NAME_ALIASES[row.name] else row.name;
    var rows := set p | p in properties && properties[p] == name;
    forall p | p in properties ensures p in rows <==> CatalogName(row.name, properties[p]) {
      CatalogNameIs(row.name, properties[p]);
    }
    hide CatalogName, NAME_ALIASES;
    OneRow(rows, prop);
  }

  /** Both unique constraints survive every statement, whether it is refused or not. */
  lemma UpsertKeeps(parcels: seq<Parcel>, p: Parcel)
    requires KeysUnique(parcels) && ConfirmedUnique(parcels) && Upsert(parcels, p).Some?
    ensures KeysUnique(Upsert(parcels, p).value) && ConfirmedUnique(Upsert(parcels, p).value)
  {
  }

  lemma {:induction false} FirstPassKeeps(properties: map<PropertyId, string>, parcels: seq<Parcel>, rows: seq<Row>, i: nat)
    requires i <= |rows| && KeysUnique(parcels) && ConfirmedUnique(parcels)
    ensures KeysUnique(FirstPass(properties, parcels, rows, i).parcels)
    ensures ConfirmedUnique(FirstPass(properties, parcels, rows, i).parcels)
  {
    hide KeysUnique, ConfirmedUnique, ResolveProperty, Upsert;
    if i > 0 {
      FirstPassKeeps(properties, parcels, rows, i - 1);
      var pass := FirstPass(properties, parcels, rows, i - 1);
      var prop := ResolveProperty(properties, rows[i - 1]);
      if prop.Some? && Upsert(pass.parcels, ParcelFor(prop.value, rows[i - 1])).Some? {
        UpsertKeeps(pass.parcels, ParcelFor(prop.value, rows[i - 1]));
      }
    }
  }

  /** The statement of the row is refused: a parcel of another property already holds its confirmed APN. */
  ghost predicate Clashes(properties: map<PropertyId, string>, parcels: seq<Parcel>, row: Row) {
    row.apn.Some? && !IsProvisional(row) &&
    exists prop: PropertyId, k :: IsProperty(properties, row, prop) && HoldsConfirmed(parcels, k, row.apn, prop)
  }

  /** Parcel `k` belongs to a property other than `prop` and has the APN, confirmed. */
  ghost predicate HoldsConfirmed(parcels: seq<Parcel>, k: int, apn: Option<string>, prop: PropertyId) {
    && 0 <= k < |parcels|
    && parcels[k].propertyId != prop && parcels[k].apn == apn && parcels[k].facts.confidence == "confirmed"
  }

  lemma UpsertRefused(parcels: seq<Parcel>, prop: PropertyId, row: Row)
    requires KeysUnique(parcels)
    ensures Upsert(parcels, ParcelFor(prop, row)) == None
            <==> row.apn.Some? && !IsProvisional(row) && exists k :: HoldsConfirmed(parcels, k, row.apn, prop)
  {
    DeriveExact(row);
    hide IsProvisional, DeriveApnConfidence, Keyed;
    var p := ParcelFor(prop, row);
    var i := Keyed(parcels, p);
    if row.apn.Some? && !IsProvisional(row) {
      forall k | 0 <= k < |parcels|
        ensures HoldsConfirmed(parcels, k, row.apn, prop) <==> k != i && SameConfirmed(parcels[k], p)
      {
        assert i >= 0 && SameKey(parcels[k], p) ==> SameKey(parcels[k], parcels[i]);
      }
    }
  }

  lemma RowRefused(properties: map<PropertyId, string>, parcels: seq<Parcel>, row: Row)
    requires KeysUnique(parcels)
    ensures var prop := ResolveProperty(properties, row);
            Clashes(properties, parcels, row) <==> prop.Some? && Upsert(parcels, ParcelFor(prop.value, row)) == None
  {
    hide *;
    ClashesAt(properties, parcels, row);
    var prop := ResolveProperty(properties, row);
    if prop.Some? {
      UpsertRefused(parcels, prop.value, row);
    }
  }

  lemma ClashesAt(properties: map<PropertyId, string>, parcels: seq<Parcel>, row: Row)
    ensures var prop := ResolveProperty(properties, row);
            Clashes(properties, parcels, row) <==>
              prop.Some? && row.apn.Some? && !IsProvisional(row) && exists k :: HoldsConfirmed(parcels, k, row.apn, prop.value)
  {
    hide ResolveProperty, IsProperty, IsProvisional, HoldsConfirmed;
    forall prop: PropertyId ensures ResolveProperty(properties, row) == Some(prop) <==> IsProperty(properties, row, prop) {
      PropertyFound(properties, row, prop);
    }
  }

  /** The first pass fails exactly at a row whose confirmed APN another property's parcel already holds. */
  lemma {:induction false} PassFails(properties: map<PropertyId, string>, parcels: seq<Parcel>, rows: seq<Row>, i: nat)
    requires i <= |rows| && KeysUnique(parcels)
    ensures KeysUnique(FirstPass(properties, parcels, rows, i).parcels)
    ensures FirstPass(properties, parcels, rows, i).failed <==> exists j: nat | j < i :: RefusedAt(properties, parcels, rows, j)
  {
    hide *;
    PassStart(properties, parcels, rows);
    if i > 0 {
      PassFails(properties, parcels, rows, i - 1);
      PassNext(properties, parcels, rows, i);
      var pass, row := FirstPass(properties, parcels, rows, i - 1), rows[i - 1];
      RowRefused(properties, pass.parcels, row);
      RefusedIs(properties, parcels, rows, i - 1);
      var prop := ResolveProperty(properties, row);
      if prop.Some? && Upsert(pass.parcels, ParcelFor(prop.value, row)).Some? {
        UpsertKeepsKeys(pass.parcels, ParcelFor(prop.value, row));
      }
    }
  }

  /** The import reaches row `j`, and its statement is refused. */
  ghost predicate RefusedAt(properties: map<PropertyId, string>, parcels: seq<Parcel>, rows: seq<Row>, j: nat)
    requires j < |rows|
  {
    var pass := FirstPass(properties, parcels, rows, j);
    !pass.failed && Clashes(properties, pass.parcels, rows[j])
  }

  lemma RefusedIs(properties: map<PropertyId, string>, parcels: seq<Parcel>, rows: seq<Row>, j: nat)
    requires j < |rows|
    ensures RefusedAt(properties, parcels, rows, j) <==>
            var pass := FirstPass(properties, parcels, rows, j); !pass.failed && Clashes(properties, pass.parcels, rows[j])
  {
    hide FirstPass, Clashes;
  }

  lemma UpsertKeepsKeys(parcels: seq<Parcel>, p: Parcel)
    requires KeysUnique(parcels) && Upsert(parcels, p).Some?
    ensures KeysUnique(Upsert(parcels, p).value)
  {
  }

  /** The import stops exactly at a refused row, keeps what the rows before it wrote and links nothing. */
  lemma ImportStops(db: Db, rows: seq<Row>)
    requires KeysUnique(db.parcels)
    ensures var after := Imported(db, rows);
            && (after.completed <==> forall j: nat | j < |rows| :: !RefusedAt(db.properties, db.parcels, rows, j))
            && (forall j: nat | j < |rows| && RefusedAt(db.properties, db.parcels, rows, j) ::
                  after.db == db.(parcels := FirstPass(db.properties, db.parcels, rows, j).parcels))
  {
    hide *;
    PassFails(db.properties, db.parcels, rows, |rows|);
    ImportedIs(db, rows);
    forall j: nat | j < |rows| && RefusedAt(db.properties, db.parcels, rows, j)
      ensures FirstPass(db.properties, db.parcels, rows, |rows|).parcels == FirstPass(db.properties, db.parcels, rows, j).parcels
    {
      RefusedIs(db.properties, db.parcels, rows, j);
      PassFails(db.properties, db.parcels, rows, j);
      PassFails(db.properties, db.parcels, rows, j + 1);
      PassNext(db.properties, db.parcels, rows, j + 1);
      RowRefused(db.properties, FirstPass(db.properties, db.parcels, rows, j).parcels, rows[j]);
      StaysFailed(db.properties, db.parcels, rows, j + 1, |rows|);
    }
  }

  /** `later` comes from `earlier` by changing facts and adding rows at the end. */
  ghost predicate Grown(earlier: seq<Parcel>, later: seq<Parcel>) {
    && |earlier| <= |later|
    && forall k | 0 <= k < |earlier| :: later[k].propertyId == earlier[k].propertyId && later[k].apn == earlier[k].apn
  }

  lemma UpsertGrows(parcels: seq<Parcel>, p: Parcel)
    requires Upsert(parcels, p).Some?
    ensures Grown(parcels, Upsert(parcels, p).value)
    ensures |Upsert(parcels, p).value| == |parcels| + (if Keyed(parcels, p) < 0 then 1 else 0)
  {
  }

  lemma {:induction false} PassGrows(properties: map<PropertyId, string>, parcels: seq<Parcel>, rows: seq<Row>, i: nat, n: nat)
    requires i <= n <= |rows|
    ensures Grown(FirstPass(properties, parcels, rows, i).parcels, FirstPass(properties, parcels, rows, n).parcels)
    ensures FirstPass(properties, parcels, rows, i).failed ==> FirstPass(properties, parcels, rows, n).failed
  {
    hide *;
    GrownSelf(FirstPass(properties, parcels, rows, i).parcels);
    if i < n {
      PassGrows(properties, parcels, rows, i, n - 1);
      PassNext(properties, parcels, rows, n);
      var pass, now := FirstPass(properties, parcels, rows, n - 1), FirstPass(properties, parcels, rows, n);
      var prop := ResolveProperty(properties, rows[n - 1]);
      GrownSelf(pass.parcels);
      if prop.Some? && Upsert(pass.parcels, ParcelFor(prop.value, rows[n - 1])).Some? {
        UpsertGrows(pass.parcels, ParcelFor(prop.value, rows[n - 1]));
      }
      GrownTogether(FirstPass(properties, parcels, rows, i).parcels, pass.parcels, now.parcels);
    }
  }

  lemma GrownSelf(parcels: seq<Parcel>)
    ensures Grown(parcels, parcels)
  {
  }

  lemma GrownTogether(a: seq<Parcel>, b: seq<Parcel>, c: seq<Parcel>)
    requires Grown(a, b) && Grown(b, c)
    ensures Grown(a, c)
  {
  }

  lemma PassStart(properties: map<PropertyId, string>, parcels: seq<Parcel>, rows: seq<Row>)
    ensures FirstPass(properties, parcels, rows, 0) == Pass(parcels, [], false)
  {
  }

  /** One step of the first pass. */
  lemma PassNext(properties: map<PropertyId, string>, parcels: seq<Parcel>, rows: seq<Row>, i: nat)
    requires 0 < i <= |rows|
    ensures var pass, now, prop := FirstPass(properties, parcels, rows, i - 1), FirstPass(properties, parcels, rows, i),
                                   ResolveProperty(properties, rows[i - 1]);
            && (pass.failed || prop == None ==> now == pass)
            && (!pass.failed && prop.Some? ==>
                  var written := Upsert(pass.parcels, ParcelFor(prop.value, rows[i - 1]));
                  && (now.failed <==> written == None)
                  && now.parcels == (if written.Some? then written.value else pass.parcels)
                  && now.resolved == if prop.value in pass.resolved then pass.resolved else pass.resolved + [prop.value])
  {
    hide ResolveProperty, Upsert, ParcelFor;
  }

  /** The row resolves and writes the key of `p`. */
  ghost predicate Writes(properties: map<PropertyId, string>, row: Row, p: Parcel) {
    ResolveProperty(properties, row) == Some(p.propertyId) && row.apn.Some? && row.apn == p.apn
  }

  /** The last of the first `i` rows that writes the key of `p`, or -1. */
  ghost function LastWriter(properties: map<PropertyId, string>, rows: seq<Row>, i: nat, p: Parcel): (j: int)
    requires i <= |rows|
    ensures -1 <= j < i
    ensures j >= 0 ==> Writes(properties, rows[j], p)
    ensures forall k | j < k < i :: !Writes(properties, rows[k], p)
  {
    if i == 0 then -1
    else if Writes(properties, rows[i - 1], p) then i - 1
    else LastWriter(properties, rows, i - 1, p)
  }

  lemma UpsertAt(parcels: seq<Parcel>, p: Parcel, k: nat)
    requires KeysUnique(parcels) && Upsert(parcels, p).Some? && k < |Upsert(parcels, p).value|
    ensures var q := Upsert(parcels, p).value[k];
            if SameKey(p, q) then q == p
            else (k < |parcels| && q == parcels[k]) || (q == p && p.apn == None && k >= |parcels|)
  {
  }

  /** The parcel says what the row says, column by column. */
  ghost predicate WrittenFrom(row: Row, p: Parcel) {
    && p.apn == row.apn
    && p.facts == Facts(Some("Clark"), Some(row.owner), Some(row.ahj), row.tract,
                        if IsProvisional(row) then "provisional" else "confirmed", Some("clark-assessor:2026-06-03"))
  }

  lemma ParcelForSays(prop: PropertyId, row: Row, p: Parcel)
    ensures p == ParcelFor(prop, row) <==> p.propertyId == prop && WrittenFrom(row, p)
  {
    DeriveExact(row);
    hide DeriveApnConfidence, IsProvisional;
  }

  /** One of the first `i` rows says what the parcel says. */
  ghost predicate Listed(properties: map<PropertyId, string>, rows: seq<Row>, i: nat, p: Parcel)
    requires i <= |rows|
  {
    exists j :: 0 <= j < i && ResolveProperty(properties, rows[j]) == Some(p.propertyId) && WrittenFrom(rows[j], p)
  }

  lemma ListedNext(properties: map<PropertyId, string>, rows: seq<Row>, i: nat, p: Parcel)
    requires 0 < i <= |rows|
    ensures Listed(properties, rows, i, p) <==>
              Listed(properties, rows, i - 1, p) || (ResolveProperty(properties, rows[i - 1]) == Some(p.propertyId) && WrittenFrom(rows[i - 1], p))
  {
    hide ResolveProperty, WrittenFrom;
  }

  lemma LastWriterNext(properties: map<PropertyId, string>, rows: seq<Row>, i: nat, p: Parcel)
    requires 0 < i <= |rows|
    ensures LastWriter(properties, rows, i, p)
         == if Writes(properties, rows[i - 1], p) then i - 1 else LastWriter(properties, rows, i - 1, p)
  {
    hide Writes;
  }

  lemma NoApnNoWriter(properties: map<PropertyId, string>, rows: seq<Row>, i: nat, p: Parcel)
    requires i <= |rows| && p.apn == None
    ensures LastWriter(properties, rows, i, p) == -1
  {
  }

  lemma WrittenAt(properties: map<PropertyId, string>, parcels: seq<Parcel>, row: Row, prop: PropertyId, k: nat)
    requires KeysUnique(parcels) && ResolveProperty(properties, row) == Some(prop)
    requires Upsert(parcels, ParcelFor(prop, row)).Some? && k < |Upsert(parcels, ParcelFor(prop, row)).value|
    ensures var p := Upsert(parcels, ParcelFor(prop, row)).value[k];
            if Writes(properties, row, p) then WrittenFrom(row, p)
            else (k < |parcels| && p == parcels[k]) || (k >= |parcels| && p.apn == None && p.propertyId == prop && WrittenFrom(row, p))
  {
    var p := Upsert(parcels, ParcelFor(prop, row)).value[k];
    UpsertAt(parcels, ParcelFor(prop, row), k);
    ParcelForSays(prop, row, p);
    ParcelForSays(prop, row, ParcelFor(prop, row));
    hide Upsert, ParcelFor, ResolveProperty, KeysUnique, IsProvisional;
  }

  /** What one row makes of parcel `k`. */
  lemma ParcelNext(properties: map<PropertyId, string>, parcels: seq<Parcel>, rows: seq<Row>, i: nat, k: nat)
    requires 0 < i <= |rows| && KeysUnique(FirstPass(properties, parcels, rows, i - 1).parcels)
    requires !FirstPass(properties, parcels, rows, i).failed && k < |FirstPass(properties, parcels, rows, i).parcels|
    ensures var pass, p, row := FirstPass(properties, parcels, rows, i - 1), FirstPass(properties, parcels, rows, i).parcels[k], rows[i - 1];
            && !pass.failed
            && if Writes(properties, row, p) then WrittenFrom(row, p)
               else (k < |pass.parcels| && p == pass.parcels[k]) ||
                    (k >= |pass.parcels| && p.apn == None && ResolveProperty(properties, row) == Some(p.propertyId) && WrittenFrom(row, p))
  {
    hide FirstPass, Upsert, ParcelFor, ResolveProperty, KeysUnique, WrittenFrom;
    PassNext(properties, parcels, rows, i);
    var prop := ResolveProperty(properties, rows[i - 1]);
    if prop.Some? && !FirstPass(properties, parcels, rows, i - 1).failed {
      WrittenAt(properties, FirstPass(properties, parcels, rows, i - 1).parcels, rows[i - 1], prop.value, k);
    }
  }

  lemma NoneLost(properties: map<PropertyId, string>, parcels: seq<Parcel>, rows: seq<Row>, i: nat)
    requires i <= |rows|
    ensures |parcels| <= |FirstPass(properties, parcels, rows, i).parcels|
  {
    PassGrows(properties, parcels, rows, 0, i);
  }

  /** A parcel with an APN holds what the last row with its key says, and otherwise is as it was;
      a parcel without an APN that was there before is as it was. */
  lemma {:induction false} ParcelAfter(properties: map<PropertyId, string>, parcels: seq<Parcel>, rows: seq<Row>, i: nat, k: nat)
    requires i <= |rows| && KeysUnique(parcels) && ConfirmedUnique(parcels)
    requires !FirstPass(properties, parcels, rows, i).failed && k < |FirstPass(properties, parcels, rows, i).parcels|
    ensures var p := FirstPass(properties, parcels, rows, i).parcels[k];
            var j := LastWriter(properties, rows, i, p);
            if j >= 0 then WrittenFrom(rows[j], p)
            else (k < |parcels| && p == parcels[k]) || (k >= |parcels| && p.apn == None && Listed(properties, rows, i, p))
  {
    hide *;
    PassStart(properties, parcels, rows);
    if i > 0 {
      FirstPassKeeps(properties, parcels, rows, i - 1);
      NoneLost(properties, parcels, rows, i - 1);
      ParcelNext(properties, parcels, rows, i, k);
      var p := FirstPass(properties, parcels, rows, i).parcels[k];
      LastWriterNext(properties, rows, i, p);
      ListedNext(properties, rows, i, p);
      if k < |FirstPass(properties, parcels, rows, i - 1).parcels| {
        ParcelAfter(properties, parcels, rows, i - 1, k);
      } else if p.apn == None {
        NoApnNoWriter(properties, rows, i, p);
      }
    }
  }

  lemma {:induction false} SameLastWriter(properties: map<PropertyId, string>, rows: seq<Row>, i: nat, p: Parcel, q: Parcel)
    requires i <= |rows| && p.propertyId == q.propertyId && p.apn == q.apn
    ensures LastWriter(properties, rows, i, p) == LastWriter(properties, rows, i, q)
  {
    if i > 0 {
      SameLastWriter(properties, rows, i - 1, p, q);
    }
  }

  /** A row that went through and has an APN has its parcel in the table from then on. */
  lemma RowPresent(properties: map<PropertyId, string>, parcels: seq<Parcel>, rows: seq<Row>, i: nat, n: nat) returns (k: nat)
    requires i < n <= |rows| && !FirstPass(properties, parcels, rows, n).failed
    requires ResolveProperty(properties, rows[i]).Some? && rows[i].apn.Some?
    ensures var later := FirstPass(properties, parcels, rows, n).parcels;
            k < |later| && Writes(properties, rows[i], later[k])
  {
    PassGrows(properties, parcels, rows, i, n);
    PassGrows(properties, parcels, rows, i + 1, n);
    var before := FirstPass(properties, parcels, rows, i).parcels;
    var at := Keyed(before, ParcelFor(ResolveProperty(properties, rows[i]).value, rows[i]));
    k := if at < 0 then |before| else at;
  }

  lemma {:induction false} ResolvedSame(properties: map<PropertyId, string>, a: seq<Parcel>, b: seq<Parcel>, rows: seq<Row>, i: nat)
    requires i <= |rows|
    requires !FirstPass(properties, a, rows, i).failed && !FirstPass(properties, b, rows, i).failed
    ensures FirstPass(properties, a, rows, i).resolved == FirstPass(properties, b, rows, i).resolved
  {
    hide ResolveProperty, Upsert, ParcelFor;
    if i > 0 {
      PassGrows(properties, a, rows, i - 1, i);
      PassGrows(properties, b, rows, i - 1, i);
      ResolvedSame(properties, a, b, rows, i - 1);
    }
  }

  /** The second pass will look at exactly the properties that some row resolved to. */
  lemma {:induction false} ResolvedExact(properties: map<PropertyId, string>, parcels: seq<Parcel>, rows: seq<Row>, i: nat, prop: PropertyId)
    requires i <= |rows| && !FirstPass(properties, parcels, rows, i).failed
    ensures prop in FirstPass(properties, parcels, rows, i).resolved <==>
              exists k :: 0 <= k < i && ResolveProperty(properties, rows[k]) == Some(prop)
  {
    hide *;
    PassStart(properties, parcels, rows);
    if i > 0 {
      PassNext(properties, parcels, rows, i);
      ResolvedExact(properties, parcels, rows, i - 1, prop);
      assert ResolveProperty(properties, rows[i - 1]) == Some(prop) ==> prop in FirstPass(properties, parcels, rows, i).resolved;
    }
  }

  // --- The second pass ---

  /** A building is linked exactly if its property was resolved and has exactly one parcel, and then
      to that parcel; every other building keeps what it had. */
  lemma {:induction false} BuildingAfter(parcels: seq<Parcel>, buildings: Buildings, resolved: seq<PropertyId>, i: nat, b: BuildingId)
    requires i <= |resolved|
    ensures b in LinkAll(parcels, buildings, resolved, i) <==> b in buildings
    ensures b in buildings ==>
              var prop := buildings[b].propertyId;
              var only := OnlyRow(ParcelsOf(parcels, prop));
              LinkAll(parcels, buildings, resolved, i)[b] ==
              if only.Some? && prop in resolved[..i] then Building(prop, only) else buildings[b]
  {
    if i > 0 {
      BuildingAfter(parcels, buildings, resolved, i - 1, b);
      assert resolved[..i] == resolved[..i - 1] + [resolved[i - 1]];
    }
  }

  lemma LinkTwice(parcels: seq<Parcel>, buildings: Buildings, resolved: seq<PropertyId>)
    ensures var once := LinkAll(parcels, buildings, resolved, |resolved|);
            LinkAll(parcels, once, resolved, |resolved|) == once
  {
    var once := LinkAll(parcels, buildings, resolved, |resolved|);
    var twice := LinkAll(parcels, once, resolved, |resolved|);
    forall b ensures b in twice <==> b in once
             ensures b in once ==> twice[b] == once[b]
    {
      BuildingAfter(parcels, buildings, resolved, |resolved|, b);
      BuildingAfter(parcels, once, resolved, |resolved|, b);
    }
  }

  /** Every building whose parcel the import changes ends on the only parcel of its own property,
      and that property was named by exactly one row of `properties` for some input row. */
  lemma LinksAreSafe(db: Db, rows: seq<Row>, b: BuildingId)
    requires b in db.buildings
    ensures var after := Imported(db, rows).db;
            && b in after.buildings && after.buildings[b].propertyId == db.buildings[b].propertyId
            && (after.buildings[b] != db.buildings[b] ==>
                  && after.buildings[b].parcelId.Some?
                  && ParcelsOf(after.parcels, db.buildings[b].propertyId) == {after.buildings[b].parcelId.value}
                  && exists k :: 0 <= k < |rows| && ResolveProperty(db.properties, rows[k]) == Some(db.buildings[b].propertyId))
  {
    var pass := FirstPass(db.properties, db.parcels, rows, |rows|);
    if !pass.failed {
      BuildingAfter(pass.parcels, db.buildings, pass.resolved, |pass.resolved|, b);
      ResolvedExact(db.properties, db.parcels, rows, |rows|, db.buildings[b].propertyId);
    }
  }

  /** The only parcel of its property. */
  ghost predicate OnlyParcel(parcels: seq<Parcel>, prop: PropertyId, k: nat) {
    k < |parcels| && parcels[k].propertyId == prop && forall j | 0 <= j < |parcels| && parcels[j].propertyId == prop :: j == k
  }

  lemma OnlyParcelIs(parcels: seq<Parcel>, prop: PropertyId, k: nat)
    ensures OnlyRow(ParcelsOf(parcels, prop)) == Some(k) <==> OnlyParcel(parcels, prop, k)
  {
    var rows := ParcelsOf(parcels, prop);
    assert forall j: nat :: j in rows <==> j < |parcels| && parcels[j].propertyId == prop;
    OneRow(rows, k);
  }

  /** The buildings after a completed import: one whose property some row resolves to is linked to the only
      parcel of that property, if there is only one, and every other stays as it was. */
  lemma BuildingsExactly(db: Db, rows: seq<Row>, b: BuildingId)
    requires Imported(db, rows).completed
    ensures var after := Imported(db, rows).db;
            && after.properties == db.properties && (b in after.buildings <==> b in db.buildings)
            && (b in db.buildings ==>
                  var prop := db.buildings[b].propertyId;
                  var resolved := exists j :: 0 <= j < |rows| && IsProperty(db.properties, rows[j], prop);
                  && (forall k: nat | resolved && OnlyParcel(after.parcels, prop, k) :: after.buildings[b] == Building(prop, Some(k)))
                  && (!resolved || (forall k: nat :: !OnlyParcel(after.parcels, prop, k)) ==> after.buildings[b] == db.buildings[b]))
  {
    var pass := FirstPass(db.properties, db.parcels, rows, |rows|);
    ImportedIs(db, rows);
    BuildingAfter(pass.parcels, db.buildings, pass.resolved, |pass.resolved|, b);
    assert pass.resolved[..|pass.resolved|] == pass.resolved;
    hide Imported, FirstPass, LinkAll, ParcelsOf, OnlyRow, ResolveProperty, IsProperty, OnlyParcel;
    if b in db.buildings {
      var prop := db.buildings[b].propertyId;
      ResolvedExact(db.properties, db.parcels, rows, |rows|, prop);
      forall j | 0 <= j < |rows| ensures ResolveProperty(db.properties, rows[j]) == Some(prop) <==> IsProperty(db.properties, rows[j], prop) {
        PropertyFound(db.properties, rows[j], prop);
      }
      forall k: nat ensures OnlyRow(ParcelsOf(pass.parcels, prop)) == Some(k) <==> OnlyParcel(pass.parcels, prop, k) {
        OnlyParcelIs(pass.parcels, prop, k);
      }
    }
  }

  /** The parcels of a property that no row resolves to are untouched. */
  lemma {:induction false} UnresolvedUntouched(db: Db, rows: seq<Row>, prop: PropertyId, i: nat)
    requires i <= |rows|
    requires forall k | 0 <= k < |rows| :: ResolveProperty(db.properties, rows[k]) != Some(prop)
    ensures var after := FirstPass(db.properties, db.parcels, rows, i).parcels;
            && ParcelsOf(after, prop) == ParcelsOf(db.parcels, prop)
            && forall k | k in ParcelsOf(after, prop) :: after[k] == db.parcels[k]
  {
    hide ResolveProperty, Upsert, ParcelFor, FirstPass;
    PassStart(db.properties, db.parcels, rows);
    if i > 0 {
      UnresolvedUntouched(db, rows, prop, i - 1);
      PassNext(db.properties, db.parcels, rows, i);
      var found := ResolveProperty(db.properties, rows[i - 1]);
      if found.Some? {
        ParcelIsOf(found.value, rows[i - 1]);
        OthersUntouched(FirstPass(db.properties, db.parcels, rows, i - 1).parcels, ParcelFor(found.value, rows[i - 1]), prop);
      }
    }
  }

  lemma ParcelIsOf(prop: PropertyId, row: Row)
    ensures ParcelFor(prop, row).propertyId == prop
  {
    hide DeriveApnConfidence;
  }

  lemma OthersUntouched(parcels: seq<Parcel>, p: Parcel, prop: PropertyId)
    requires p.propertyId != prop
    ensures Upsert(parcels, p).Some? ==>
              var after := Upsert(parcels, p).value;
              ParcelsOf(after, prop) == ParcelsOf(parcels, prop) && forall k | k in ParcelsOf(after, prop) :: after[k] == parcels[k]
  {
    hide Keyed;
  }

  // --- The import run twice ---

  /** Every row that resolves has an APN. */
  ghost predicate ApnsKnown(properties: map<PropertyId, string>, rows: seq<Row>) {
    forall i | 0 <= i < |rows| && ResolveProperty(properties, rows[i]).Some? :: rows[i].apn.Some?
  }

  /** If every key is present already, rows are only overwritten. */
  lemma {:induction false} NothingAdded(properties: map<PropertyId, string>, parcels: seq<Parcel>, rows: seq<Row>, i: nat)
    requires i <= |rows| && !FirstPass(properties, parcels, rows, i).failed
    requires forall j | 0 <= j < i && ResolveProperty(properties, rows[j]).Some? ::
               exists k :: 0 <= k < |parcels| && Writes(properties, rows[j], parcels[k])
    ensures |FirstPass(properties, parcels, rows, i).parcels| == |parcels|
  {
    hide DeriveApnConfidence, ResolveProperty, Upsert;
    if i > 0 {
      PassGrows(properties, parcels, rows, i - 1, i);
      PassGrows(properties, parcels, rows, 0, i - 1);
      NothingAdded(properties, parcels, rows, i - 1);
      var pass := FirstPass(properties, parcels, rows, i - 1);
      if ResolveProperty(properties, rows[i - 1]).Some? {
        var p := ParcelFor(ResolveProperty(properties, rows[i - 1]).value, rows[i - 1]);
        var k :| 0 <= k < |parcels| && Writes(properties, rows[i - 1], parcels[k]);
        assert SameKey(pass.parcels[k], p);
        UpsertGrows(pass.parcels, p);
      }
    }
  }

  lemma ParcelsTwice(properties: map<PropertyId, string>, parcels: seq<Parcel>, rows: seq<Row>)
    requires KeysUnique(parcels) && ConfirmedUnique(parcels) && ApnsKnown(properties, rows)
    requires !FirstPass(properties, parcels, rows, |rows|).failed
    requires !FirstPass(properties, FirstPass(properties, parcels, rows, |rows|).parcels, rows, |rows|).failed
    ensures var once := FirstPass(properties, parcels, rows, |rows|).parcels;
            FirstPass(properties, once, rows, |rows|).parcels == once
  {
    var n := |rows|;
    var once := FirstPass(properties, parcels, rows, n).parcels;
    var twice := FirstPass(properties, once, rows, n).parcels;
    forall j | 0 <= j < n && ResolveProperty(properties, rows[j]).Some?
      ensures exists k :: 0 <= k < |once| && Writes(properties, rows[j], once[k])
    {
      var k := RowPresent(properties, parcels, rows, j, n);
    }
    NothingAdded(properties, once, rows, n);
    FirstPassKeeps(properties, parcels, rows, n);
    PassGrows(properties, once, rows, 0, n);
    forall k | 0 <= k < |once| ensures twice[k] == once[k] {
      ParcelAfter(properties, parcels, rows, n, k);
      ParcelAfter(properties, once, rows, n, k);
      SameLastWriter(properties, rows, n, once[k], twice[k]);
    }
  }

  /** A row without an APN adds a parcel every time. */
  lemma NullApnAdds(properties: map<PropertyId, string>, parcels: seq<Parcel>, rows: seq<Row>, i: nat)
    requires i < |rows| && !FirstPass(properties, parcels, rows, |rows|).failed
    requires ResolveProperty(properties, rows[i]).Some? && rows[i].apn == None
    ensures |FirstPass(properties, parcels, rows, |rows|).parcels| > |parcels|
  {
    PassGrows(properties, parcels, rows, 0, i);
    PassGrows(properties, parcels, rows, i, |rows|);
    PassGrows(properties, parcels, rows, i + 1, |rows|);
  }

  /** Two completed runs in a row end in the same tables exactly if every resolved row has an APN. */
  lemma ImportTwice(db: Db, rows: seq<Row>)
    requires KeysUnique(db.parcels) && ConfirmedUnique(db.parcels)
    requires Imported(db, rows).completed && Imported(Imported(db, rows).db, rows).completed
    ensures Imported(Imported(db, rows).db, rows).db == Imported(db, rows).db <==> ApnsKnown(db.properties, rows)
  {
    var once := FirstPass(db.properties, db.parcels, rows, |rows|);
    if ApnsKnown(db.properties, rows) {
      ParcelsTwice(db.properties, db.parcels, rows);
      ResolvedSame(db.properties, db.parcels, once.parcels, rows, |rows|);
      LinkTwice(once.parcels, db.buildings, once.resolved);
    } else {
      var i :| 0 <= i < |rows| && ResolveProperty(db.properties, rows[i]).Some? && rows[i].apn == None;
      NullApnAdds(db.properties, once.parcels, rows, i);
    }
  }

  /** No two resolved rows write the same parcel. */
  ghost predicate DistinctKeys(properties: map<PropertyId, string>, rows: seq<Row>) {
    forall i, j, p | 0 <= i < |rows| && 0 <= j < |rows| && Writes(properties, rows[i], p) && Writes(properties, rows[j], p) :: i == j
  }

  /** The number of rows that went through. */
  ghost function Reached(properties: map<PropertyId, string>, parcels: seq<Parcel>, rows: seq<Row>, i: nat): (m: nat)
    requires i <= |rows|
    ensures m <= i && !FirstPass(properties, parcels, rows, m).failed
    ensures FirstPass(properties, parcels, rows, i).failed <==> m < i
    ensures m < i ==> FirstPass(properties, parcels, rows, m + 1).failed
    ensures FirstPass(properties, parcels, rows, i).parcels == FirstPass(properties, parcels, rows, m).parcels
  {
    if FirstPass(properties, parcels, rows, i).failed then Reached(properties, parcels, rows, i - 1) else i
  }

  /** Writing a row over the parcel that it wrote before is allowed and changes nothing. */
  lemma UpsertAgain(properties: map<PropertyId, string>, parcels: seq<Parcel>, rows: seq<Row>, i: nat, m: nat)
    requires i < m <= |rows| && KeysUnique(parcels) && ConfirmedUnique(parcels)
    requires ApnsKnown(properties, rows) && DistinctKeys(properties, rows)
    requires !FirstPass(properties, parcels, rows, m).failed && ResolveProperty(properties, rows[i]).Some?
    ensures var once := FirstPass(properties, parcels, rows, m).parcels;
            Upsert(once, ParcelFor(ResolveProperty(properties, rows[i]).value, rows[i])) == Some(once)
  {
    hide ResolveProperty, DeriveApnConfidence;
    var once := FirstPass(properties, parcels, rows, m).parcels;
    var p := ParcelFor(ResolveProperty(properties, rows[i]).value, rows[i]);
    var k := RowPresent(properties, parcels, rows, i, m);
    FirstPassKeeps(properties, parcels, rows, m);
    ParcelAfter(properties, parcels, rows, m, k);
    assert LastWriter(properties, rows, m, once[k]) == i;
    ParcelForSays(p.propertyId, rows[i], once[k]);
    assert once[k] == p;
    KeyedIs(once, k);
    assert once[k := once[k]] == once;
  }

  lemma KeyedIs(parcels: seq<Parcel>, k: nat)
    requires KeysUnique(parcels) && k < |parcels| && parcels[k].apn.Some?
    ensures Keyed(parcels, parcels[k]) == k
  {
  }

  lemma {:induction false} PassAgain(properties: map<PropertyId, string>, parcels: seq<Parcel>, rows: seq<Row>, i: nat, m: nat)
    requires i <= m <= |rows| && KeysUnique(parcels) && ConfirmedUnique(parcels)
    requires ApnsKnown(properties, rows) && DistinctKeys(properties, rows)
    requires !FirstPass(properties, parcels, rows, m).failed
    ensures var once := FirstPass(properties, parcels, rows, m).parcels;
            FirstPass(properties, once, rows, i) == FirstPass(properties, parcels, rows, i).(parcels := once)
  {
    hide ResolveProperty, DeriveApnConfidence, Upsert;
    PassGrows(properties, parcels, rows, i, m);
    if i > 0 {
      PassGrows(properties, parcels, rows, i - 1, m);
      PassAgain(properties, parcels, rows, i - 1, m);
      if ResolveProperty(properties, rows[i - 1]).Some? {
        UpsertAgain(properties, parcels, rows, i - 1, m);
      }
    }
  }

  /** If no two rows write the same parcel and every APN is known, a second run repeats the outcome of
      the first, even one that a refused statement cut short, and changes nothing. */
  lemma ImportTwiceDistinct(db: Db, rows: seq<Row>)
    requires KeysUnique(db.parcels) && ConfirmedUnique(db.parcels)
    requires ApnsKnown(db.properties, rows) && DistinctKeys(db.properties, rows)
    ensures Imported(Imported(db, rows).db, rows) == Imported(db, rows)
  {
    hide *;
    var n := |rows|;
    var m := Reached(db.properties, db.parcels, rows, n);
    var pass := FirstPass(db.properties, db.parcels, rows, m);
    PassAgain(db.properties, db.parcels, rows, m, m);
    assert FirstPass(db.properties, pass.parcels, rows, m) == pass;
    ImportedIs(db, rows);
    ImportedIs(Imported(db, rows).db, rows);
    if m < n {
      FailedAgain(db.properties, db.parcels, pass.parcels, rows, m);
    } else {
      LinkTwice(pass.parcels, db.buildings, pass.resolved);
    }
  }

  /** Two first passes that agree up to row `m` and stop there agree to the end. */
  lemma FailedAgain(properties: map<PropertyId, string>, parcels: seq<Parcel>, others: seq<Parcel>, rows: seq<Row>, m: nat)
    requires m < |rows| && FirstPass(properties, parcels, rows, m) == FirstPass(properties, others, rows, m)
    requires !FirstPass(properties, parcels, rows, m).failed && FirstPass(properties, parcels, rows, m + 1).failed
    ensures FirstPass(properties, others, rows, |rows|) == FirstPass(properties, parcels, rows, |rows|)
  {
    hide PassRow;
    assert FirstPass(properties, others, rows, m + 1) == FirstPass(properties, parcels, rows, m + 1);
    StaysFailed(properties, others, rows, m + 1, |rows|);
    StaysFailed(properties, parcels, rows, m + 1, |rows|);
  }

  lemma ImportedIs(db: Db, rows: seq<Row>)
    ensures var pass := FirstPass(db.properties, db.parcels, rows, |rows|);
            Imported(db, rows) ==
            if pass.failed then Outcome(db.(parcels := pass.parcels), false)
            else Outcome(db.(parcels := pass.parcels, buildings := LinkAll(pass.parcels, db.buildings, pass.resolved, |pass.resolved|)), true)
  {
    hide FirstPass, LinkAll;
  }

  // --- A provisional parcel is linked like any other ---

  /** The data file says that the buildings of a provisional APN are left unlinked; the import
      links them all the same when the site has no other parcel. */
  lemma ProvisionalIsLinked(row: Row)
    requires row.apn.Some? && row.apnConfidence == PROVISIONAL && row.name !in NAME_ALIASES
    ensures var after := Imported(Db(map[0 := row.name], [], map[0 := Building(0, None)]), [row]).db;
            && after.buildings == map[0 := Building(0, Some(0))]
            && after.parcels == [Parcel(0, row.apn, Facts(Some("Clark"), Some(row.owner), Some(row.ahj), row.tract,
                                                          PROVISIONAL, Some("clark-assessor:2026-06-03")))]
  {
    OneRowPass(row);
    OneBuildingLinked([ParcelFor(0, row)]);
    hide Upsert, ResolveProperty, Keyed, FirstPass, LinkAll;
  }

  lemma OneBuildingLinked(parcels: seq<Parcel>)
    requires |parcels| == 1 && parcels[0].propertyId == 0
    ensures LinkAll(parcels, map[0 := Building(0, None)], [0], 1) == map[0 := Building(0, Some(0))]
  {
    assert ParcelsOf(parcels, 0) == {0};
    var buildings: Buildings := map[0 := Building(0, None)];
    hide LinkAll;
    forall b ensures b in LinkAll(parcels, buildings, [0], 1) <==> b == 0
             ensures b == 0 ==> LinkAll(parcels, buildings, [0], 1)[b] == Building(0, Some(0))
    {
      BuildingAfter(parcels, buildings, [0], 1, b);
    }
  }

  lemma OneRowPass(row: Row)
    requires row.name !in NAME_ALIASES
    ensures FirstPass(map[0 := row.name], [], [row], 1) == Pass([ParcelFor(0, row)], [0], false)
  {
    hide DeriveApnConfidence;
    var properties: map<PropertyId, string> := map[0 := row.name];
    var named := set q | q in properties && properties[q] == row.name;
    assert named == {0};
    assert ResolveProperty(properties, row) == OnlyRow(named) == Some(0);
    var p, start := ParcelFor(0, row), FirstPass(properties, [], [row], 0);
    assert start == Pass([], [], false);
    assert start.parcels + [p] == [p] && Keyed(start.parcels, p) == -1;
    assert FirstPass(properties, [], [row], 1) == PassRow(properties, start, row);
  }
}
