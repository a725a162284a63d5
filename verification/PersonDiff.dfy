/**
 * Reading and writing dotted paths of a stored document: `readPath`
 * (apps/api/src/workforce-import/sync.ts, lines 177-185) and the `$set` its result becomes.
 */
module DocumentPaths {
  import opened Options
  import opened WorkforceRows

  type Path = seq<string>

  datatype Entry = Entry(path: Path, value: Cell)

  /** The value at a path; nothing below what is not a record. */
  function Read(doc: Cell, path: Path): Option<Cell> {
    if path == [] then Some(doc)
    else if doc.Record? && path[0] in doc.fields then Read(doc.fields[path[0]], path[1..])
    else None
  }

  /** `readPath`: a cursor moved one segment at a time. */
  method ReadPath(doc: Cell, path: Path) returns (value: Option<Cell>)
    ensures value == Read(doc, path)
  {
    var cursor := doc;
    for i := 0 to |path|
      invariant Read(doc, path) == Read(cursor, path[i..])
    {
      if !cursor.Record? || path[i] !in cursor.fields {
        return None;
      }
      assert path[i..][1..] == path[i + 1..];
      cursor := cursor.fields[path[i]];
    }
    value := Some(cursor);
  }

  /** A `$set` of one path: missing records on the way are made, anything else in the way is an error. */
  function Write(doc: Cell, path: Path, value: Cell): Option<Cell>
    decreases |path|
  {
    if path == [] then Some(value)
    else if !doc.Record? then None
    else
      match Write(Child(doc, path[0], path[1..]), path[1..], value)
      case None => None
      case Some(child) => Some(Record(doc.fields[path[0] := child]))
  }

  /** What stands under a name; where the path goes on, a missing record counts as an empty one. */
  function Child(doc: Cell, name: string, rest: Path): Cell
    requires doc.Record?
  {
    if name in doc.fields then doc.fields[name] else if rest == [] then Null else Record(map[])
  }

  function WriteAll(doc: Cell, entries: seq<Entry>): Option<Cell> {
    if entries == [] then Some(doc)
    else
      match WriteAll(doc, entries[..|entries| - 1])
      case None => None
      case Some(d) => Write(d, entries[|entries| - 1].path, entries[|entries| - 1].value)
  }

  /** One of the two paths leads through the other. */
  predicate Overlaps(p: Path, q: Path) {
    p <= q || q <= p
  }

  /** Nothing but records stands on the way. */
  predicate Writable(doc: Cell, path: Path)
    decreases |path|
  {
    path != [] ==> doc.Record? && Writable(Child(doc, path[0], path[1..]), path[1..])
  }

  lemma {:induction false} WriteSucceedsIff(doc: Cell, path: Path, value: Cell)
    ensures Write(doc, path, value).Some? <==> Writable(doc, path)
    decreases |path|
  {
    if path != [] && doc.Record? {
      WriteSucceedsIff(Child(doc, path[0], path[1..]), path[1..], value);
    }
  }

  lemma {:induction false} WriteThenRead(doc: Cell, path: Path, value: Cell)
    requires Write(doc, path, value).Some?
    ensures Read(Write(doc, path, value).value, path) == Some(value)
    decreases |path|
  {
    if path != [] {
      WriteThenRead(Child(doc, path[0], path[1..]), path[1..], value);
    }
  }

  lemma {:induction false} OverlapTail(p: Path, q: Path)
    requires p != [] && q != [] && p[0] == q[0]
    ensures Overlaps(p, q) <==> Overlaps(p[1..], q[1..])
  {
    assert p == [p[0]] + p[1..] && q == [q[0]] + q[1..];
  }

  lemma {:induction false} ReadNothing(path: Path)
    requires path != []
    ensures Read(Record(map[]), path) == None
  {
  }

  /** A write changes nothing beside its own path. */
  lemma {:induction false} WriteFrame(doc: Cell, path: Path, value: Cell, other: Path)
    requires Write(doc, path, value).Some? && !Overlaps(path, other)
    ensures Read(Write(doc, path, value).value, other) == Read(doc, other)
    ensures Writable(Write(doc, path, value).value, other) <==> Writable(doc, other)
    decreases |path|
  {
    if path[0] == other[0] {
      OverlapTail(path, other);
      var child := Child(doc, path[0], path[1..]);
      assert path[1..] != [] && other[1..] != [];
      WriteFrame(child, path[1..], value, other[1..]);
      ReadNothing(other[1..]);
    }
  }

  /** What was a record on the way to a written path still is one. */
  lemma {:induction false} WriteKeepsRecord(doc: Cell, path: Path, value: Cell, above: Path)
    requires Write(doc, path, value).Some? && above < path
    ensures Read(Write(doc, path, value).value, above).Some? && Read(Write(doc, path, value).value, above).value.Record?
    decreases |path|
  {
    if above != [] {
      assert above[0] == path[0] && above[1..] < path[1..];
      WriteKeepsRecord(Child(doc, path[0], path[1..]), path[1..], value, above[1..]);
    }
  }

  ghost predicate Independent(entries: seq<Entry>) {
    forall i, j :: 0 <= i < j < |entries| ==> !Overlaps(entries[i].path, entries[j].path)
  }

  ghost predicate Clear(entries: seq<Entry>, path: Path) {
    forall i :: 0 <= i < |entries| ==> !Overlaps(entries[i].path, path)
  }

  ghost predicate AllWritable(doc: Cell, entries: seq<Entry>) {
    forall i :: 0 <= i < |entries| ==> Writable(doc, entries[i].path)
  }

  lemma {:induction false} IndependentInit(entries: seq<Entry>)
    requires Independent(entries) && entries != []
    ensures Independent(entries[..|entries| - 1])
    ensures Clear(entries[..|entries| - 1], entries[|entries| - 1].path)
  {
  }

  lemma {:induction false} ClearSnoc(entries: seq<Entry>, path: Path)
    requires entries != []
    ensures Clear(entries, path) <==>
              Clear(entries[..|entries| - 1], path) && !Overlaps(entries[|entries| - 1].path, path)
  {
    var n := |entries| - 1;
    assert forall i :: 0 <= i < n ==> entries[i] == entries[..n][i];
  }

  /** Writes keep everything beside them. */
  lemma {:induction false} WriteAllFrame(doc: Cell, entries: seq<Entry>, path: Path)
    requires Clear(entries, path) && WriteAll(doc, entries).Some?
    ensures Read(WriteAll(doc, entries).value, path) == Read(doc, path)
    ensures Writable(WriteAll(doc, entries).value, path) <==> Writable(doc, path)
  {
    hide Read, Write, Writable, Overlaps;
    if entries != [] {
      var n := |entries| - 1;
      ClearSnoc(entries, path);
      WriteAllFrame(doc, entries[..n], path);
      WriteFrame(WriteAll(doc, entries[..n]).value, entries[n].path, entries[n].value, path);
    }
  }

  /** Independent writes succeed together exactly when each could be made. */
  lemma {:induction false} WriteAllSucceedsIff(doc: Cell, entries: seq<Entry>)
    requires Independent(entries)
    ensures WriteAll(doc, entries).Some? <==> AllWritable(doc, entries)
  {
    hide Read, Write, Writable, Overlaps;
    if entries != [] {
      var n := |entries| - 1;
      IndependentInit(entries);
      WriteAllSucceedsIff(doc, entries[..n]);
      assert AllWritable(doc, entries) <==> AllWritable(doc, entries[..n]) && Writable(doc, entries[n].path) by {
        assert forall i :: 0 <= i < n ==> entries[i] == entries[..n][i];
      }
      if WriteAll(doc, entries[..n]).Some? {
        var d := WriteAll(doc, entries[..n]).value;
        WriteAllFrame(doc, entries[..n], entries[n].path);
        WriteSucceedsIff(d, entries[n].path, entries[n].value);
      }
    }
  }

  lemma {:induction false} OverlapsEitherWay(p: Path, q: Path)
    ensures Overlaps(p, q) <==> Overlaps(q, p)
  {
  }

  /** Each independent write is read back. */
  lemma {:induction false} WriteAllThenRead(doc: Cell, entries: seq<Entry>, k: nat)
    requires Independent(entries) && WriteAll(doc, entries).Some? && k < |entries|
    ensures Read(WriteAll(doc, entries).value, entries[k].path) == Some(entries[k].value)
  {
    hide Read, Write, Writable, Overlaps;
    var n := |entries| - 1;
    IndependentInit(entries);
    var d := WriteAll(doc, entries[..n]).value;
    if k == n {
      WriteThenRead(d, entries[n].path, entries[n].value);
    } else {
      WriteAllThenRead(doc, entries[..n], k);
      assert entries[..n][k] == entries[k];
      OverlapsEitherWay(entries[k].path, entries[n].path);
      WriteFrame(d, entries[n].path, entries[n].value, entries[k].path);
    }
  }

  /** A record stays a record when every write goes past it or beside it. */
  lemma {:induction false} WriteAllKeepsRecord(doc: Cell, entries: seq<Entry>, above: Path)
    requires WriteAll(doc, entries).Some?
    requires Read(doc, above).Some? && Read(doc, above).value.Record?
    requires forall i :: 0 <= i < |entries| ==> above < entries[i].path || !Overlaps(entries[i].path, above)
    ensures Read(WriteAll(doc, entries).value, above).Some? && Read(WriteAll(doc, entries).value, above).value.Record?
  {
    hide Read, Write, Writable, Overlaps;
    if entries != [] {
      var n := |entries| - 1;
      assert forall i :: 0 <= i < n ==> entries[i] == entries[..n][i];
      WriteAllKeepsRecord(doc, entries[..n], above);
      var d := WriteAll(doc, entries[..n]).value;
      if above < entries[n].path {
        WriteKeepsRecord(d, entries[n].path, entries[n].value, above);
      } else {
        WriteFrame(d, entries[n].path, entries[n].value, above);
      }
    }
  }
}

/** What a row asks of a stored employee, and what that changes (apps/api/src/workforce-import/sync.ts). */
module PersonDiff {
  import opened Options
  import opened Sequences
  import opened WorkforceRows
  import opened DocumentPaths
  import opened YmdText

  /** The foreign calls: text folding, the vocabulary, and what JavaScript prints and parses. */
  datatype Runtime = Runtime(
    normalizeArabic: string -> string,
    maritalStatus: Cell -> Cell,
    numberText: real -> string,
    dateOf: Cell -> Option<int>,
    sortedKeys: set<string> -> seq<string>)

  datatype Placement = Placement(branchId: string, departmentId: string, sectionId: Option<string>, jobTitleId: string)

  datatype Refusal = Refusal(path: Path, from: string, to: string)

  datatype Diff = Diff(changes: seq<Entry>, refused: seq<Refusal>)

  // ---------------------------------------------------------------- what the file asks for

  /** A path the file may fill, with its value when it does. */
  datatype Slot = Slot(path: Path, value: Option<Cell>)

  /** `put`: a blank cell means no information. */
  function Put(path: Path, value: Cell): Slot {
    Slot(path, if value.Null? then None else Some(value))
  }

  function Inner(cell: Cell, name: string): Cell {
    if cell.Record? && name in cell.fields then cell.fields[name] else Null
  }

  function Column(row: SourceRow, name: string): Cell {
    Inner(row.others, name)
  }

  function WordsOr(text: Option<string>): Cell {
    if text.Some? then Words(text.value) else Null
  }

  function TextIn(cell: Cell): string {
    if cell.Words? then cell.text else ""
  }

  /** A boolean column has no blank. */
  function FlagOf(cell: Cell): Cell {
    Flag(cell == Flag(true))
  }

  /** A record written whole, when the cell that stands for it is filled. */
  function Whole(path: Path, present: bool, fields: map<string, Cell>): Slot {
    Slot(path, if present then Some(Record(fields)) else None)
  }

  function SearchName(rt: Runtime, row: SourceRow): Cell {
    if row.fullNameAr.Some?
    then Words(rt.normalizeArabic(row.fullNameAr.value + " " + TextIn(Column(row, "fullNameEn"))))
    else Null
  }

  function AddressSlot(row: SourceRow): Slot {
    var line, governorate := Column(row, "addressLine"), Column(row, "governorate");
    Whole(["personal", "currentAddress"], !line.Null? && !governorate.Null?,
          map["line1" := line, "city" := governorate, "governorate" := governorate])
  }

  function MilitarySlot(row: SourceRow): Slot {
    var m := Column(row, "military");
    Whole(["personal", "military"], !Inner(m, "status").Null?,
          map["status" := Inner(m, "status"), "certificateRef" := Inner(m, "certificateRef"),
              "completedAt" := Inner(m, "completedAt")])
  }

  function EducationSlot(row: SourceRow): Slot {
    var e := Column(row, "education");
    Whole(["personal", "education"], !Inner(e, "level").Null?,
          map["level" := Inner(e, "level"), "institution" := Inner(e, "institution"),
              "specialization" := Inner(e, "specialization"), "graduationYear" := Inner(e, "graduationYear"),
              "grade" := Null])
  }

  function LicenseSlot(row: SourceRow): Slot {
    var expiry := Column(row, "drivingLicenseExpiry");
    Slot(["personal", "drivingLicenses"],
         if expiry.Null? then None else Some(List([Record(map["class" := Words("\U{2014}"), "expiry" := expiry])])))
  }

  function NameSlots(rt: Runtime, row: SourceRow): seq<Slot> {
    [ Put(["personal", "fullNameAr"], WordsOr(row.fullNameAr)),
      Put(["personal", "fullNameEn"], Column(row, "fullNameEn")),
      Put(["personal", "searchName"], SearchName(rt, row)) ]
  }

  function ContactSlots(row: SourceRow): seq<Slot> {
    [ Put(["personal", "contact", "primaryPhone"], Column(row, "primaryPhone")),
      Put(["personal", "contact", "secondaryPhone"], Column(row, "emergencyPhone")) ]
  }

  function FactSlots(rt: Runtime, row: SourceRow): seq<Slot> {
    [ Put(["personal", "maritalStatus"], rt.maritalStatus(Column(row, "maritalStatus"))),
      Put(["personal", "religion"], Column(row, "religion")),
      Put(["personal", "nationalIdExpiry"], Column(row, "nationalIdExpiry")),
      AddressSlot(row), MilitarySlot(row), EducationSlot(row), LicenseSlot(row) ]
  }

  const INSURANCE_FIELDS: seq<string> :=
    ["insuranceNumber", "occupation", "occupationCode", "grossWage", "contributionWage", "basicWage",
     "employerShare", "employeeShare", "status"]

  const OFFICER_FIELDS: seq<string> :=
    ["reserveOfficer", "rank", "weaponLicense", "professionPractice", "retirementDate"]

  function InsuranceSlots(row: SourceRow): (r: seq<Slot>)
    ensures |r| == |INSURANCE_FIELDS|
    ensures forall i :: 0 <= i < |r| ==>
      r[i] == Put(["insurance", INSURANCE_FIELDS[i]], Inner(Column(row, "insurance"), INSURANCE_FIELDS[i]))
  {
    FieldSlots("insurance", INSURANCE_FIELDS, Column(row, "insurance"))
  }

  /** One slot for each field of a record of cells. */
  function FieldSlots(block: string, fields: seq<string>, cells: Cell): (r: seq<Slot>)
    ensures |r| == |fields|
    ensures forall i :: 0 <= i < |r| ==> r[i] == Put([block, fields[i]], Inner(cells, fields[i]))
  {
    if fields == [] then []
    else
      var n := |fields| - 1;
      FieldSlots(block, fields[..n], cells) + [Put([block, fields[n]], Inner(cells, fields[n]))]
  }

  function OfficerSlots(row: SourceRow): seq<Slot> {
    var o := Column(row, "officer");
    [ Put(["officer", "rank"], Inner(o, "rank")),
      Put(["officer", "retirementDate"], Inner(o, "retirementDate")),
      Put(["officer", "reserveOfficer"], FlagOf(Inner(o, "reserveOfficer"))),
      Put(["officer", "professionPractice"], FlagOf(Inner(o, "professionPractice"))),
      Whole(["officer", "weaponLicense"], !Inner(o, "weaponLicenseType").Null?,
            map["type" := Inner(o, "weaponLicenseType"), "expiry" := Inner(o, "weaponLicenseExpiry")]) ]
  }

  /** The section is written even when it is null: that clears it. */
  function PlacementSlots(p: Placement): seq<Slot> {
    [ Slot(["employment", "branchId"], Some(Words(p.branchId))),
      Slot(["employment", "departmentId"], Some(Words(p.departmentId))),
      Slot(["employment", "sectionId"], Some(WordsOr(p.sectionId))),
      Slot(["employment", "jobTitleId"], Some(Words(p.jobTitleId))) ]
  }

  function MirrorSlots(p: Placement): seq<Slot> {
    [ Slot(["branchId"], Some(Words(p.branchId))),
      Slot(["departmentId"], Some(Words(p.departmentId))),
      Slot(["sectionId"], Some(WordsOr(p.sectionId))) ]
  }

  function PersonalSlots(rt: Runtime, row: SourceRow): seq<Slot> {
    NameSlots(rt, row) + ContactSlots(row) + FactSlots(rt, row)
  }

  function Slots(rt: Runtime, row: SourceRow, p: Placement): seq<Slot> {
    PersonalSlots(rt, row) + InsuranceSlots(row) + OfficerSlots(row) + PlacementSlots(p) + MirrorSlots(p)
  }

  function Filled(slots: seq<Slot>): seq<Entry> {
    if slots == [] then []
    else
      var last := slots[|slots| - 1];
      Filled(slots[..|slots| - 1]) + (if last.value.Some? then [Entry(last.path, last.value.value)] else [])
  }

  /** `desiredFrom` */
  function DesiredFrom(rt: Runtime, row: SourceRow, p: Placement): seq<Entry> {
    Filled(Slots(rt, row, p))
  }

  // ---------------------------------------------------------------- the same fact

  function Join(pieces: seq<string>): string {
    if pieces == [] then ""
    else if |pieces| == 1 then pieces[0]
    else Join(pieces[..|pieces| - 1]) + "," + pieces[|pieces| - 1]
  }

  function PrimitiveText(rt: Runtime, v: Cell): string {
    match v
    case Flag(on) => if on then "true" else "false"
    case Number(amount) => rt.numberText(amount)
    case Words(text) => text
    case ObjectId(hex) => hex
    case Date(time) => NumberText(time)
    case _ => "null"
  }

  /** `stableString` */
  function StableString(rt: Runtime, v: Cell): string
    decreases v, 1, 0
  {
    match v
    case List(items) => "[" + Join(StableItems(rt, v, items)) + "]"
    case Record(fields) => "{" + Join(StableFields(rt, v, rt.sortedKeys(fields.Keys))) + "}"
    case _ => PrimitiveText(rt, v)
  }

  function StableItems(rt: Runtime, v: Cell, items: seq<Cell>): seq<string>
    requires v.List? && items <= v.items
    decreases v, 0, |items|
  {
    if items == [] then []
    else
      var n := |items| - 1;
      assert items[n] == v.items[n];
      StableItems(rt, v, items[..n]) + [StableString(rt, items[n])]
  }

  function StableFields(rt: Runtime, v: Cell, keys: seq<string>): seq<string>
    requires v.Record?
    decreases v, 0, |keys|
  {
    if keys == [] then []
    else
      var n := |keys| - 1;
      var k := keys[n];
      StableFields(rt, v, keys[..n])
      + (if k in v.fields && !v.fields[k].Null? then [k + ":" + StableString(rt, v.fields[k])] else [])
  }

  predicate IsObject(v: Cell) {
    v.Date? || v.ObjectId? || v.List? || v.Record?
  }

  function TimeIn(rt: Runtime, v: Cell): Option<int> {
    if v.Date? then Some(v.time) else rt.dateOf(v)
  }

  /** `sameValue`: nothing stored is null, dates compare as instants, objects and ids as they are written. */
  predicate SameFact(rt: Runtime, stored: Option<Cell>, incoming: Cell) {
    var s := if stored.Some? then stored.value else Null;
    if s.Null? || incoming.Null? then s.Null? && incoming.Null?
    else if !IsObject(s) && s == incoming then true
    else if s.Date? || incoming.Date? then TimeIn(rt, s).Some? && TimeIn(rt, s) == TimeIn(rt, incoming)
    else if IsObject(s) || IsObject(incoming) then StableString(rt, s) == StableString(rt, incoming)
    else PrimitiveText(rt, s) == PrimitiveText(rt, incoming)
  }

  // ---------------------------------------------------------------- the difference

  const NATIONAL_ID: Path := ["personal", "nationalId"]

  function Held(doc: Cell): Option<string> {
    var v := Read(doc, NATIONAL_ID);
    if v.Some? && v.value.Words? then Some(v.value.text) else None
  }

  function Desired(rt: Runtime, doc: Cell, row: SourceRow, p: Placement): seq<Entry> {
    DesiredFrom(rt, row, p)
    + (if row.nationalId.Some? && Held(doc).None? then [Entry(NATIONAL_ID, Words(row.nationalId.value))] else [])
  }

  function RefusalsOf(doc: Cell, row: SourceRow): seq<Refusal> {
    if row.nationalId.Some? && Held(doc).Some? && Held(doc) != row.nationalId
    then [Refusal(NATIONAL_ID, Held(doc).value, row.nationalId.value)]
    else []
  }

  predicate IsAbsent(doc: Cell, block: string) {
    Read(doc, [block]).None? || Read(doc, [block]).value.Null?
  }

  /** A nullable block that does not exist yet. */
  predicate IsWhole(doc: Cell, block: string) {
    (block == "insurance" || block == "officer") && IsAbsent(doc, block)
  }

  function BlockOf(path: Path): string {
    if |path| > 1 then path[0] else ""
  }

  function BlockFields(block: string): seq<string> {
    if block == "insurance" then INSURANCE_FIELDS else OFFICER_FIELDS
  }

  predicate IsDirect(rt: Runtime, doc: Cell, e: Entry) {
    !IsWhole(doc, BlockOf(e.path)) && !SameFact(rt, Read(doc, e.path), e.value)
  }

  /** The paths set one by one. */
  function Direct(rt: Runtime, doc: Cell, entries: seq<Entry>): seq<Entry> {
    if entries == [] then []
    else
      var n := |entries| - 1;
      Direct(rt, doc, entries[..n]) + (if IsDirect(rt, doc, entries[n]) then [entries[n]] else [])
  }

  /** The absent blocks the file speaks of, in the order it comes to them. */
  function WholeBlocks(doc: Cell, entries: seq<Entry>): seq<string> {
    if entries == [] then []
    else
      var n := |entries| - 1;
      var rest, block := WholeBlocks(doc, entries[..n]), BlockOf(entries[n].path);
      if IsWhole(doc, block) && block !in rest then rest + [block] else rest
  }

  /** What the file says of one block, by the path below it. */
  function Draft(entries: seq<Entry>, block: string): map<Path, Cell> {
    if entries == [] then map[]
    else
      var n := |entries| - 1;
      DraftStep(Draft(entries[..n], block), entries[n], block)
  }

  function DraftStep(draft: map<Path, Cell>, e: Entry, block: string): map<Path, Cell> {
    if |e.path| > 1 && e.path[0] == block then draft[e.path[1..] := e.value] else draft
  }

  lemma {:induction false} OneMoreEntry(rt: Runtime, doc: Cell, entries: seq<Entry>, i: nat)
    requires i < |entries|
    ensures Direct(rt, doc, entries[..i + 1])
         == Direct(rt, doc, entries[..i]) + (if IsDirect(rt, doc, entries[i]) then [entries[i]] else [])
    ensures var rest, block := WholeBlocks(doc, entries[..i]), BlockOf(entries[i].path);
            WholeBlocks(doc, entries[..i + 1]) == if IsWhole(doc, block) && block !in rest then rest + [block] else rest
    ensures forall b :: Draft(entries[..i + 1], b) == DraftStep(Draft(entries[..i], b), entries[i], b)
  {
    hide IsDirect, IsWhole;
    assert entries[..i + 1][..i] == entries[..i];
    assert entries[..i + 1][i] == entries[i];
  }

  function Supplied(draft: map<Path, Cell>, field: string): Cell {
    if [field] in draft then draft[[field]] else Null
  }

  /** Every declared field of the block, null where the file said nothing. */
  function BlockValue(block: string, draft: map<Path, Cell>): Cell {
    Record(map f | f in BlockFields(block) :: Supplied(draft, f))
  }

  predicate SaysNothing(v: Cell) {
    v == Null || v == Flag(false)
  }

  predicate Silent(block: string, draft: map<Path, Cell>) {
    forall i :: 0 <= i < |BlockFields(block)| ==> SaysNothing(Supplied(draft, BlockFields(block)[i]))
  }

  function BlockChanges(entries: seq<Entry>, blocks: seq<string>): seq<Entry> {
    if blocks == [] then []
    else
      var n := |blocks| - 1;
      var draft := Draft(entries, blocks[n]);
      BlockChanges(entries, blocks[..n])
      + (if Silent(blocks[n], draft) then [] else [Entry([blocks[n]], BlockValue(blocks[n], draft))])
  }

  function ChangesOf(rt: Runtime, doc: Cell, entries: seq<Entry>): seq<Entry> {
    Direct(rt, doc, entries) + BlockChanges(entries, WholeBlocks(doc, entries))
  }

  function DiffOf(rt: Runtime, doc: Cell, row: SourceRow, p: Placement): Diff {
    Diff(ChangesOf(rt, doc, Desired(rt, doc, row, p)), RefusalsOf(doc, row))
  }

  // ---------------------------------------------------------------- the loops

  lemma {:induction false} NothingYet(rt: Runtime, doc: Cell)
    ensures Direct(rt, doc, []) == [] && WholeBlocks(doc, []) == [] && forall b :: Draft([], b) == map[]
  {
  }

  /** One pass over what is desired: a change, a line of a block's draft, or nothing. */
  method Compare(rt: Runtime, doc: Cell, entries: seq<Entry>)
    returns (changes: seq<Entry>, order: seq<string>, pending: map<string, map<Path, Cell>>)
    ensures changes == Direct(rt, doc, entries)
    ensures order == WholeBlocks(doc, entries)
    ensures forall b :: b in order ==> b in pending && pending[b] == Draft(entries, b)
  {
    hide SameFact, IsAbsent, Direct, WholeBlocks, Draft, Read;
    assert entries[..0] == [];
    NothingYet(rt, doc);
    changes, order, pending := [], [], map[];
    for i := 0 to |entries|
      invariant changes == Direct(rt, doc, entries[..i])
      invariant order == WholeBlocks(doc, entries[..i])
      invariant pending.Keys == set b | b in order
      invariant forall b :: b in order ==> IsWhole(doc, b)
      invariant forall b :: b in order ==> pending[b] == Draft(entries[..i], b)
      invariant forall b :: b !in order && IsWhole(doc, b) ==> Draft(entries[..i], b) == map[]
    {
      var e := entries[i];
      var block := BlockOf(e.path);
      OneMoreEntry(rt, doc, entries, i);
      if IsWhole(doc, block) {
        var draft := (if block in pending then pending[block] else map[])[e.path[1..] := e.value];
        if block !in pending {
          order := order + [block];
        }
        pending := pending[block := draft];
      } else {
        var stored := ReadPath(doc, e.path);
        if !SameFact(rt, stored, e.value) {
          changes := changes + [e];
        }
      }
    }
    assert entries[..|entries|] == entries;
  }

  method FillBlocks(entries: seq<Entry>, order: seq<string>, pending: map<string, map<Path, Cell>>)
    returns (changes: seq<Entry>)
    requires forall b :: b in order ==> b in pending && pending[b] == Draft(entries, b)
    ensures changes == BlockChanges(entries, order)
  {
    hide Draft, Silent, BlockValue;
    changes := [];
    for i := 0 to |order|
      invariant changes == BlockChanges(entries, order[..i])
    {
      assert order[..i + 1][..i] == order[..i];
      assert order[i] in order;
      var supplied := pending[order[i]];
      if !Silent(order[i], supplied) {
        changes := changes + [Entry([order[i]], BlockValue(order[i], supplied))];
      }
    }
    assert order[..|order|] == order;
  }

  /** `diffPerson` */
  method DiffPerson(rt: Runtime, existing: Cell, row: SourceRow, p: Placement) returns (diff: Diff)
    ensures diff == DiffOf(rt, existing, row, p)
  {
    hide DesiredFrom, Direct, WholeBlocks, Draft, BlockChanges, Read;
    var desired := DesiredFrom(rt, row, p);
    var refused := [];
    var held := Held(existing);
    if row.nationalId.Some? && row.nationalId != held {
      if held.None? {
        desired := desired + [Entry(NATIONAL_ID, Words(row.nationalId.value))];
      } else {
        refused := [Refusal(NATIONAL_ID, held.value, row.nationalId.value)];
      }
    }
    assert DesiredFrom(rt, row, p) + [] == DesiredFrom(rt, row, p);
    assert desired == Desired(rt, existing, row, p);
    var changes, order, pending := Compare(rt, existing, desired);
    var blocks := FillBlocks(desired, order, pending);
    diff := Diff(changes + blocks, refused);
  }

  // ---------------------------------------------------------------- writing it

  predicate IsIdPath(path: Path) {
    || (|path| == 1 && path[0] in ["branchId", "departmentId", "sectionId"])
    || (|path| == 2 && path[0] == "employment" && path[1] in ["branchId", "departmentId", "sectionId", "jobTitleId"])
  }

  /** The document stores these as ids where the change carries their text. */
  function Cast(e: Entry): Entry {
    if IsIdPath(e.path) && e.value.Words? then e.(value := ObjectId(e.value.text)) else e
  }

  /** `setFrom`, cast and applied. */
  function Apply(doc: Cell, changes: seq<Entry>): Option<Cell> {
    WriteAll(doc, Mapped(changes, Cast))
  }
}
