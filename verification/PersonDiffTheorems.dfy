/**
 * The paths a file may ask for, and that no two of them overlap (apps/api/src/workforce-import/sync.ts, lines 58-133).
 */
module PersonPaths {
  import opened Options
  import opened Sequences
  import opened WorkforceRows
  import opened DocumentPaths
  import opened PersonDiff

  ghost predicate IndependentSlots(slots: seq<Slot>) {
    forall i, j :: 0 <= i < j < |slots| ==> !Overlaps(slots[i].path, slots[j].path)
  }

  /** Every path leads below `name`, to a field of it. */
  ghost predicate FieldsOf(slots: seq<Slot>, name: string) {
    forall i :: 0 <= i < |slots| ==> |slots[i].path| == 2 && slots[i].path[0] == name
  }

  ghost predicate ApartSlots(a: seq<Slot>, b: seq<Slot>) {
    forall i, j :: 0 <= i < |a| && 0 <= j < |b| ==> !Overlaps(a[i].path, b[j].path)
  }

  lemma {:induction false} IndependentConcat(a: seq<Slot>, b: seq<Slot>)
    requires IndependentSlots(a) && IndependentSlots(b) && ApartSlots(a, b)
    ensures IndependentSlots(a + b)
  {
  }

  lemma {:induction false} ApartConcat(a: seq<Slot>, b: seq<Slot>, c: seq<Slot>)
    requires ApartSlots(a, c) && ApartSlots(b, c)
    ensures ApartSlots(a + b, c)
  {
  }

  lemma {:induction false} FieldsApart(a: seq<Slot>, m: string, b: seq<Slot>, n: string)
    requires FieldsOf(a, m) && FieldsOf(b, n) && m != n
    ensures ApartSlots(a, b)
  {
  }

  lemma {:induction false} DifferAt(p: Path, q: Path, k: nat)
    requires k < |p| && k < |q| && p[k] != q[k]
    ensures !Overlaps(p, q)
  {
  }

  /** The fields of one block, by distinct names. */
  lemma {:induction false} NamedFields(slots: seq<Slot>, block: string, names: seq<string>)
    requires |slots| == |names| && Distinct(names)
    requires forall i :: 0 <= i < |names| ==> slots[i].path == [block, names[i]]
    ensures FieldsOf(slots, block) && IndependentSlots(slots)
  {
    forall i, j | 0 <= i < j < |slots| ensures !Overlaps(slots[i].path, slots[j].path) {
      DifferAt(slots[i].path, slots[j].path, 1);
    }
  }

  lemma {:induction false} NameSlotsApart(rt: Runtime, row: SourceRow)
    ensures FieldsOf(NameSlots(rt, row), "personal") && IndependentSlots(NameSlots(rt, row))
    ensures forall i :: 0 <= i < |NameSlots(rt, row)| ==>
              NameSlots(rt, row)[i].path[1] in ["fullNameAr", "fullNameEn", "searchName"]
  {
    hide SearchName, Column;
    var s := NameSlots(rt, row);
    assert s[0].path[1] == "fullNameAr" && s[1].path[1] == "fullNameEn" && s[2].path[1] == "searchName";
  }

  const FACTS: seq<string> :=
    ["maritalStatus", "religion", "nationalIdExpiry", "currentAddress", "military", "education", "drivingLicenses"]

  lemma {:induction false} FactNames(rt: Runtime, row: SourceRow)
    ensures |FactSlots(rt, row)| == |FACTS|
    ensures forall i :: 0 <= i < |FACTS| ==> FactSlots(rt, row)[i].path == ["personal", FACTS[i]]
  {
    hide Column, Inner;
  }

  lemma {:induction false} FactSlotsApart(rt: Runtime, row: SourceRow)
    ensures FieldsOf(FactSlots(rt, row), "personal") && IndependentSlots(FactSlots(rt, row))
  {
    hide FactSlots;
    FactNames(rt, row);
    assert Distinct(FACTS);
    NamedFields(FactSlots(rt, row), "personal", FACTS);
  }

  /** The phones lie one level deeper, beside everything else. */
  lemma {:induction false} PersonalApart(rt: Runtime, row: SourceRow)
    ensures IndependentSlots(PersonalSlots(rt, row))
    ensures forall i :: 0 <= i < |PersonalSlots(rt, row)| ==> IsPersonal(PersonalSlots(rt, row)[i].path)
  {
    hide Column, NameSlots, FactSlots;
    var names, phones, facts := NameSlots(rt, row), ContactSlots(row), FactSlots(rt, row);
    NameSlotsApart(rt, row);
    FactNames(rt, row);
    FactSlotsApart(rt, row);
    assert ApartSlots(names, phones);
    assert IndependentSlots(phones) by {
      DifferAt(phones[0].path, phones[1].path, 2);
    }
    IndependentConcat(names, phones);
    assert ApartSlots(names, facts);
    forall i, j | 0 <= i < |phones| && 0 <= j < |facts| ensures !Overlaps(phones[i].path, facts[j].path) {
      assert phones[i].path[1] == "contact" && facts[j].path[1] == FACTS[j];
      DifferAt(phones[i].path, facts[j].path, 1);
    }
    ApartConcat(names, phones, facts);
    IndependentConcat(names + phones, facts);
  }

  /** A field of the personal block or a phone, never the national ID. */
  predicate IsPersonal(path: Path) {
    && |path| >= 2 && path[0] == "personal" && path[1] != "nationalId"
    && (if path[1] == "contact" then |path| == 3 else |path| == 2)
  }

  lemma {:induction false} InsuranceApart(row: SourceRow)
    ensures FieldsOf(InsuranceSlots(row), "insurance") && IndependentSlots(InsuranceSlots(row))
    ensures forall i :: 0 <= i < |InsuranceSlots(row)| ==>
      InsuranceSlots(row)[i].path[1] in INSURANCE_FIELDS && InsuranceSlots(row)[i].value != Some(Null)
  {
    hide Column, Inner;
    assert Distinct(INSURANCE_FIELDS);
    NamedFields(InsuranceSlots(row), "insurance", INSURANCE_FIELDS);
  }

  lemma {:induction false} OfficerApart(row: SourceRow)
    ensures FieldsOf(OfficerSlots(row), "officer") && IndependentSlots(OfficerSlots(row))
    ensures forall i :: 0 <= i < |OfficerSlots(row)| ==>
      OfficerSlots(row)[i].path[1] in OFFICER_FIELDS && OfficerSlots(row)[i].value != Some(Null)
  {
    hide Column, Inner;
    var s := OfficerSlots(row);
    assert s[0].path[1] == OFFICER_FIELDS[1] && s[1].path[1] == OFFICER_FIELDS[4] && s[2].path[1] == OFFICER_FIELDS[0];
    assert s[3].path[1] == OFFICER_FIELDS[3] && s[4].path[1] == OFFICER_FIELDS[2];
  }

  lemma {:induction false} PlacementApart(p: Placement)
    ensures FieldsOf(PlacementSlots(p), "employment") && IndependentSlots(PlacementSlots(p))
    ensures IndependentSlots(MirrorSlots(p))
    ensures forall i :: 0 <= i < |MirrorSlots(p)| ==> IsMirror(MirrorSlots(p)[i].path)
  {
    var names := ["branchId", "departmentId", "sectionId", "jobTitleId"];
    assert Distinct(names);
    NamedFields(PlacementSlots(p), "employment", names);
    var s := MirrorSlots(p);
    forall i, j | 0 <= i < j < 3 ensures !Overlaps(s[i].path, s[j].path) {
      assert s[i].path[0] == names[i] && s[j].path[0] == names[j];
      DifferAt(s[i].path, s[j].path, 0);
    }
  }

  predicate IsMirror(path: Path) {
    |path| == 1 && (path[0] == "branchId" || path[0] == "departmentId" || path[0] == "sectionId")
  }

  /** The shapes of the entries that can be desired. */
  predicate Askable(e: Entry) {
    || IsPersonal(e.path)
    || (|e.path| == 2 && e.path[0] == "insurance" && e.path[1] in INSURANCE_FIELDS && !e.value.Null?)
    || (|e.path| == 2 && e.path[0] == "officer" && e.path[1] in OFFICER_FIELDS && !e.value.Null?)
    || (|e.path| == 2 && e.path[0] == "employment")
    || IsMirror(e.path)
    || e.path == NATIONAL_ID
  }

  ghost predicate AllAskable(entries: seq<Entry>) {
    forall i :: 0 <= i < |entries| ==> Askable(entries[i])
  }

  lemma {:induction false} ApartGroups(rt: Runtime, row: SourceRow, p: Placement)
    ensures ApartSlots(PersonalSlots(rt, row), InsuranceSlots(row))
    ensures ApartSlots(PersonalSlots(rt, row), OfficerSlots(row))
    ensures ApartSlots(PersonalSlots(rt, row), PlacementSlots(p))
    ensures ApartSlots(PersonalSlots(rt, row), MirrorSlots(p))
    ensures ApartSlots(InsuranceSlots(row), MirrorSlots(p)) && ApartSlots(OfficerSlots(row), MirrorSlots(p))
    ensures ApartSlots(PlacementSlots(p), MirrorSlots(p))
  {
    hide PersonalSlots, InsuranceSlots, OfficerSlots, PlacementSlots, MirrorSlots;
    PersonalApart(rt, row);
    InsuranceApart(row);
    OfficerApart(row);
    PlacementApart(p);
  }

  /** The slots never overlap. */
  lemma {:induction false} SlotsIndependent(rt: Runtime, row: SourceRow, p: Placement)
    ensures IndependentSlots(Slots(rt, row, p))
  {
    hide PersonalSlots, InsuranceSlots, OfficerSlots, PlacementSlots, MirrorSlots, ApartSlots, IndependentSlots,
      FieldsOf;
    var a, b, c, d, e := PersonalSlots(rt, row), InsuranceSlots(row), OfficerSlots(row), PlacementSlots(p),
      MirrorSlots(p);
    PersonalApart(rt, row);
    InsuranceApart(row);
    OfficerApart(row);
    PlacementApart(p);
    ApartGroups(rt, row, p);
    FieldsApart(b, "insurance", c, "officer");
    FieldsApart(b, "insurance", d, "employment");
    FieldsApart(c, "officer", d, "employment");
    IndependentConcat(a, b);
    ApartConcat(a, b, c);
    IndependentConcat(a + b, c);
    ApartConcat(a, b, d);
    ApartConcat(a + b, c, d);
    IndependentConcat(a + b + c, d);
    ApartConcat(a, b, e);
    ApartConcat(a + b, c, e);
    ApartConcat(a + b + c, d, e);
    IndependentConcat(a + b + c + d, e);
  }

  ghost predicate AskableSlots(slots: seq<Slot>) {
    forall i :: 0 <= i < |slots| ==> slots[i].value.Some? ==> Askable(Entry(slots[i].path, slots[i].value.value))
  }

  lemma {:induction false} AskableConcat(a: seq<Slot>, b: seq<Slot>)
    requires AskableSlots(a) && AskableSlots(b)
    ensures AskableSlots(a + b)
  {
  }

  lemma {:induction false} SlotsAskable(rt: Runtime, row: SourceRow, p: Placement)
    ensures AskableSlots(Slots(rt, row, p))
  {
    hide PersonalSlots, InsuranceSlots, OfficerSlots, PlacementSlots, MirrorSlots;
    var a, b, c, d, e := PersonalSlots(rt, row), InsuranceSlots(row), OfficerSlots(row), PlacementSlots(p),
      MirrorSlots(p);
    PersonalApart(rt, row);
    InsuranceApart(row);
    OfficerApart(row);
    PlacementApart(p);
    assert AskableSlots(a) && AskableSlots(b) && AskableSlots(c) && AskableSlots(d) && AskableSlots(e);
    AskableConcat(a, b);
    AskableConcat(a + b, c);
    AskableConcat(a + b + c, d);
    AskableConcat(a + b + c + d, e);
  }

  lemma {:induction false} FilledMember(slots: seq<Slot>, i: nat) returns (k: nat)
    requires i < |Filled(slots)|
    ensures k < |slots| && slots[k].value.Some? && Filled(slots)[i] == Entry(slots[k].path, slots[k].value.value)
  {
    var n := |slots| - 1;
    if i < |Filled(slots[..n])| {
      k := FilledMember(slots[..n], i);
    } else {
      k := n;
    }
  }

  lemma {:induction false} FilledIndependent(slots: seq<Slot>)
    requires IndependentSlots(slots)
    ensures Independent(Filled(slots))
  {
    if slots != [] {
      var n := |slots| - 1;
      FilledIndependent(slots[..n]);
      forall i | 0 <= i < |Filled(slots[..n])| ensures !Overlaps(Filled(slots[..n])[i].path, slots[n].path) {
        var k := FilledMember(slots[..n], i);
        assert slots[..n][k] == slots[k];
      }
    }
  }

  lemma {:induction false} FromAskable(rt: Runtime, row: SourceRow, p: Placement)
    ensures Independent(DesiredFrom(rt, row, p))
    ensures AllAskable(DesiredFrom(rt, row, p))
    ensures Clear(DesiredFrom(rt, row, p), NATIONAL_ID)
  {
    hide Slots, Askable, Overlaps, Filled;
    SlotsIndependent(rt, row, p);
    SlotsAskable(rt, row, p);
    FilledIndependent(Slots(rt, row, p));
    var entries := DesiredFrom(rt, row, p);
    forall i | 0 <= i < |entries| ensures Askable(entries[i]) && !Overlaps(entries[i].path, NATIONAL_ID) {
      var k := FilledMember(Slots(rt, row, p), i);
      SlotNotNationalId(rt, row, p, k);
    }
  }

  lemma {:induction false} SlotNotNationalId(rt: Runtime, row: SourceRow, p: Placement, k: nat)
    requires k < |Slots(rt, row, p)|
    ensures !Overlaps(Slots(rt, row, p)[k].path, NATIONAL_ID)
  {
    hide PersonalSlots, InsuranceSlots, OfficerSlots, PlacementSlots, MirrorSlots;
    PersonalApart(rt, row);
    InsuranceApart(row);
    OfficerApart(row);
    PlacementApart(p);
  }

  /** What is desired of an employee: paths of the known shapes, none leading through another. */
  lemma {:induction false} DesiredIndependent(rt: Runtime, doc: Cell, row: SourceRow, p: Placement)
    ensures Independent(Desired(rt, doc, row, p)) && AllAskable(Desired(rt, doc, row, p))
  {
    hide DesiredFrom, Overlaps, Held;
    FromAskable(rt, row, p);
  }
}

/** What applying a difference does (apps/api/src/workforce-import/sync.ts, lines 177-312). */
module PersonDiffTheorems {
  import opened Options
  import opened Sequences
  import opened WorkforceRows
  import opened DocumentPaths
  import opened PersonDiff
  import opened PersonPaths

  predicate RecordAt(doc: Cell, path: Path) {
    Read(doc, path).Some? && Read(doc, path).value.Record?
  }

  /** The shape `diffPerson` is typed to read. */
  predicate Employee(doc: Cell) {
    && doc.Record?
    && RecordAt(doc, ["personal"]) && RecordAt(doc, ["employment"])
    && (IsAbsent(doc, "insurance") || RecordAt(doc, ["insurance"]))
    && (IsAbsent(doc, "officer") || RecordAt(doc, ["officer"]))
    && NationalIdTyped(Read(doc, NATIONAL_ID))
  }

  predicate NationalIdTyped(v: Option<Cell>) {
    v.None? || v.value.Null? || v.value.Words?
  }

  // ---------------------------------------------------------------- the same fact

  /** What was written reads as what was asked for. */
  lemma {:induction false} WrittenIsSame(rt: Runtime, e: Entry)
    ensures SameFact(rt, Some(Cast(e).value), e.value)
  {
  }

  /** A stored id and its text are one fact; nothing stored and null are one fact. */
  lemma {:induction false} SameIdIff(rt: Runtime, stored: Option<Cell>, id: Option<string>)
    requires stored.None? || stored.value.Null? || stored.value.ObjectId?
    ensures SameFact(rt, stored, WordsOr(id)) <==>
      match id case Some(text) => stored == Some(ObjectId(text)) case None => stored.None? || stored.value.Null?
  {
  }

  // ---------------------------------------------------------------- what the changes are

  lemma {:induction false} DirectMember(rt: Runtime, doc: Cell, entries: seq<Entry>, e: Entry)
    ensures e in Direct(rt, doc, entries) <==> e in entries && IsDirect(rt, doc, e)
  {
    hide IsDirect;
    if entries != [] {
      var n := |entries| - 1;
      DirectMember(rt, doc, entries[..n], e);
      assert entries == entries[..n] + [entries[n]];
    }
  }

  lemma {:induction false} IndependentSnoc(entries: seq<Entry>, e: Entry)
    requires Independent(entries) && Clear(entries, e.path)
    ensures Independent(entries + [e])
  {
  }

  lemma {:induction false} ClearByMembers(entries: seq<Entry>, some: seq<Entry>, path: Path)
    requires Clear(entries, path) && forall e :: e in some ==> e in entries
    ensures Clear(some, path)
  {
    forall i | 0 <= i < |some| ensures !Overlaps(some[i].path, path) {
      assert some[i] in entries;
    }
  }

  lemma {:induction false} DirectIndependent(rt: Runtime, doc: Cell, entries: seq<Entry>)
    requires Independent(entries)
    ensures Independent(Direct(rt, doc, entries))
  {
    hide IsDirect, Overlaps;
    if entries != [] {
      var n := |entries| - 1;
      IndependentInit(entries);
      DirectIndependent(rt, doc, entries[..n]);
      forall e | e in Direct(rt, doc, entries[..n]) ensures e in entries[..n] {
        DirectMember(rt, doc, entries[..n], e);
      }
      ClearByMembers(entries[..n], Direct(rt, doc, entries[..n]), entries[n].path);
      IndependentSnoc(Direct(rt, doc, entries[..n]), entries[n]);
    }
  }

  lemma {:induction false} WholeMember(doc: Cell, entries: seq<Entry>, b: string)
    ensures b in WholeBlocks(doc, entries) <==>
              IsWhole(doc, b) && exists i :: 0 <= i < |entries| && BlockOf(entries[i].path) == b
    ensures Distinct(WholeBlocks(doc, entries))
  {
    hide IsWhole, BlockOf;
    if entries != [] {
      var n := |entries| - 1;
      WholeMember(doc, entries[..n], b);
      assert forall i :: 0 <= i < n ==> entries[i] == entries[..n][i];
    }
  }

  lemma {:induction false} LastBlock(entries: seq<Entry>, b: string, e: Entry)
    ensures var draft := Draft(entries, b);
            IsBlockChange(entries, b, e) <==> !Silent(b, draft) && e == Entry([b], BlockValue(b, draft))
  {
  }

  lemma {:induction false} BlockMember(entries: seq<Entry>, blocks: seq<string>, e: Entry)
    ensures e in BlockChanges(entries, blocks) <==>
      exists i :: 0 <= i < |blocks| && IsBlockChange(entries, blocks[i], e)
  {
    hide Silent, BlockValue, Draft, IsBlockChange;
    if blocks != [] {
      var n := |blocks| - 1;
      BlockMember(entries, blocks[..n], e);
      assert forall i :: 0 <= i < n ==> blocks[i] == blocks[..n][i];
      LastBlock(entries, blocks[n], e);
    }
  }

  predicate IsBlockChange(entries: seq<Entry>, block: string, e: Entry) {
    !Silent(block, Draft(entries, block)) && e == Entry([block], BlockValue(block, Draft(entries, block)))
  }

  lemma {:induction false} BlocksIndependent(entries: seq<Entry>, blocks: seq<string>)
    requires Distinct(blocks)
    ensures Independent(BlockChanges(entries, blocks))
  {
    hide Silent, BlockValue, Draft;
    if blocks != [] {
      var n := |blocks| - 1;
      BlocksIndependent(entries, blocks[..n]);
      var rest := BlockChanges(entries, blocks[..n]);
      forall i | 0 <= i < |rest| ensures !Overlaps(rest[i].path, [blocks[n]]) {
        assert rest[i] in rest;
        BlockMember(entries, blocks[..n], rest[i]);
        var j :| 0 <= j < n && IsBlockChange(entries, blocks[..n][j], rest[i]);
        DifferAt(rest[i].path, [blocks[n]], 0);
      }
      IndependentSnoc(rest, Entry([blocks[n]], BlockValue(blocks[n], Draft(entries, blocks[n]))));
    }
  }

  /** An askable path leads into a nullable block exactly when it is that block's. */
  lemma {:induction false} AskedBlock(e: Entry, b: string)
    requires Askable(e) && (b == "insurance" || b == "officer")
    ensures BlockOf(e.path) == b <==> Overlaps(e.path, [b])
    ensures BlockOf(e.path) == b ==> |e.path| == 2 && e.path[0] == b && e.path[1] in BlockFields(b) && !e.value.Null?
  {
    assert "insurance" != "officer";
  }

  lemma {:induction false} IndependentConcatEntries(a: seq<Entry>, b: seq<Entry>)
    requires Independent(a) && Independent(b)
    requires forall i, j :: 0 <= i < |a| && 0 <= j < |b| ==> !Overlaps(a[i].path, b[j].path)
    ensures Independent(a + b)
  {
  }

  /** What a change is: a desired path whose fact differs, or an absent block that the file fills. */
  ghost predicate IsChange(rt: Runtime, doc: Cell, entries: seq<Entry>, e: Entry) {
    || (e in entries && IsDirect(rt, doc, e))
    || (exists b :: b in WholeBlocks(doc, entries) && IsBlockChange(entries, b, e))
  }

  lemma {:induction false} ChangeMember(rt: Runtime, doc: Cell, entries: seq<Entry>, e: Entry)
    ensures e in ChangesOf(rt, doc, entries) <==> IsChange(rt, doc, entries, e)
  {
    hide IsDirect, IsBlockChange, WholeBlocks;
    DirectMember(rt, doc, entries, e);
    var blocks := WholeBlocks(doc, entries);
    BlockMember(entries, blocks, e);
    if b :| b in blocks && IsBlockChange(entries, b, e) {
      var i :| 0 <= i < |blocks| && blocks[i] == b;
    }
  }

  /** No two changes overlap. */
  lemma {:induction false} ChangesIndependent(rt: Runtime, doc: Cell, entries: seq<Entry>)
    requires Independent(entries) && AllAskable(entries)
    ensures Independent(ChangesOf(rt, doc, entries))
  {
    hide SameFact, WholeBlocks, BlockChanges, Askable, Overlaps, IsAbsent;
    var blocks := WholeBlocks(doc, entries);
    DirectIndependent(rt, doc, entries);
    WholeMember(doc, entries, "");
    BlocksIndependent(entries, blocks);
    var a, c := Direct(rt, doc, entries), BlockChanges(entries, blocks);
    forall i, j | 0 <= i < |a| && 0 <= j < |c| ensures !Overlaps(a[i].path, c[j].path) {
      assert a[i] in a && c[j] in c;
      DirectMember(rt, doc, entries, a[i]);
      BlockMember(entries, blocks, c[j]);
      var k :| 0 <= k < |blocks| && IsBlockChange(entries, blocks[k], c[j]);
      WholeMember(doc, entries, blocks[k]);
      AskedBlock(a[i], blocks[k]);
    }
    IndependentConcatEntries(a, c);
  }

  /** None of them writes inside an insurance or officer block that is null. */
  lemma {:induction false} NothingInsideAbsent(rt: Runtime, doc: Cell, entries: seq<Entry>, e: Entry, b: string)
    requires AllAskable(entries) && e in ChangesOf(rt, doc, entries) && IsWhole(doc, b)
    ensures !([b] < e.path)
  {
    hide SameFact, WholeBlocks, Askable, Overlaps, IsAbsent, ChangesOf;
    ChangeMember(rt, doc, entries, e);
    if e in entries && IsDirect(rt, doc, e) {
      AskedBlock(e, b);
    }
  }

  // ---------------------------------------------------------------- when the write succeeds

  lemma {:induction false} CastKeeps(changes: seq<Entry>, path: Path)
    ensures Independent(changes) <==> Independent(Mapped(changes, Cast))
    ensures Clear(changes, path) <==> Clear(Mapped(changes, Cast), path)
  {
    hide Overlaps;
    assert forall i :: 0 <= i < |changes| ==> Mapped(changes, Cast)[i].path == changes[i].path;
  }

  lemma {:induction false} WritableField(doc: Cell, path: Path)
    requires doc.Record? && |path| == 2
    ensures Writable(doc, path) <==> path[0] !in doc.fields || doc.fields[path[0]].Record?
  {
    assert path[1..][1..] == [];
    var child := Child(doc, path[0], path[1..]);
    assert Writable(doc, path) <==> Writable(child, path[1..]);
    if child.Record? {
      assert Writable(Child(child, path[1..][0], []), []);
    }
  }

  lemma {:induction false} ReadField(doc: Cell, name: string)
    requires doc.Record?
    ensures Read(doc, [name]) == if name in doc.fields then Some(doc.fields[name]) else None
  {
    if name in doc.fields {
      assert Read(doc.fields[name], [name][1..]) == Some(doc.fields[name]);
    }
  }

  /** The phones stand in a record or in nothing. */
  predicate ContactOpen(doc: Cell) {
    Read(doc, ["personal", "contact"]).None? || RecordAt(doc, ["personal", "contact"])
  }

  predicate IsPhone(path: Path) {
    |path| == 3 && path[0] == "personal" && path[1] == "contact"
  }

  lemma {:induction false} WritablePhone(doc: Cell, path: Path)
    requires doc.Record? && RecordAt(doc, ["personal"]) && IsPhone(path)
    ensures Writable(doc, path) <==> ContactOpen(doc)
  {
    ReadField(doc, "personal");
    var personal := doc.fields["personal"];
    ReadField(personal, "contact");
    assert ["personal", "contact"][1..] == ["contact"];
    assert Read(doc, ["personal", "contact"]) == Read(personal, ["contact"]);
    WritableField(personal, path[1..]);
    assert Writable(doc, path) <==> Writable(personal, path[1..]);
  }

  lemma {:induction false} WritableTop(doc: Cell, path: Path)
    requires doc.Record? && |path| == 1
    ensures Writable(doc, path)
  {
    assert path[1..] == [];
  }

  lemma {:induction false} ChangeWritable(rt: Runtime, doc: Cell, entries: seq<Entry>, e: Entry)
    requires Employee(doc) && AllAskable(entries) && IsChange(rt, doc, entries, e)
    ensures Writable(doc, e.path) <==> !IsPhone(e.path) || ContactOpen(doc)
  {
    hide SameFact, WholeBlocks, ContactOpen, Writable, Read;
    if |e.path| == 1 {
      WritableTop(doc, e.path);
    } else if IsPhone(e.path) {
      WritablePhone(doc, e.path);
    } else {
      assert e in entries && IsDirect(rt, doc, e);
      assert |e.path| == 2;
      WritableField(doc, e.path);
      ReadField(doc, e.path[0]);
      BlockOpen(doc, e);
    }
  }

  /** A field to be set one by one stands in a record. */
  lemma {:induction false} BlockOpen(doc: Cell, e: Entry)
    requires Employee(doc) && Askable(e) && |e.path| == 2 && !IsWhole(doc, BlockOf(e.path))
    ensures RecordAt(doc, [e.path[0]])
  {
    hide Read;
    assert IsAbsent(doc, "insurance") ==> IsWhole(doc, "insurance");
    assert IsAbsent(doc, "officer") ==> IsWhole(doc, "officer");
  }

  lemma {:induction false} ChangesSucceedIff(rt: Runtime, doc: Cell, row: SourceRow, p: Placement)
    requires Employee(doc)
    ensures var changes := DiffOf(rt, doc, row, p).changes;
            Apply(doc, changes).Some? <==> ContactOpen(doc) || forall e :: e in changes ==> !IsPhone(e.path)
  {
    hide Desired, ChangesOf, IsChange, Employee, ContactOpen, Writable, AllAskable, Read;
    var entries := Desired(rt, doc, row, p);
    var changes := ChangesOf(rt, doc, entries);
    DesiredIndependent(rt, doc, row, p);
    ChangesIndependent(rt, doc, entries);
    CastKeeps(changes, []);
    var casts := Mapped(changes, Cast);
    WriteAllSucceedsIff(doc, casts);
    forall i | 0 <= i < |changes|
      ensures Writable(doc, casts[i].path) <==> !IsPhone(changes[i].path) || ContactOpen(doc)
    {
      assert changes[i] in changes;
      ChangeMember(rt, doc, entries, changes[i]);
      ChangeWritable(rt, doc, entries, changes[i]);
    }
    if AllWritable(doc, casts) && !ContactOpen(doc) {
      forall e | e in changes ensures !IsPhone(e.path) {
        var i :| 0 <= i < |changes| && changes[i] == e;
        assert Writable(doc, casts[i].path);
      }
    }
    if forall e :: e in changes ==> !IsPhone(e.path) {
      forall i | 0 <= i < |casts| ensures Writable(doc, casts[i].path) {
        assert changes[i] in changes;
      }
    }
  }

  /** The row fills a phone column. */
  predicate PhoneGiven(row: SourceRow) {
    !Column(row, "primaryPhone").Null? || !Column(row, "emergencyPhone").Null?
  }

  lemma {:induction false} PhoneSlotIs(rt: Runtime, row: SourceRow, p: Placement, k: nat)
    requires k < |Slots(rt, row, p)| && IsPhone(Slots(rt, row, p)[k].path)
    ensures Slots(rt, row, p)[k] in ContactSlots(row)
  {
    hide InsuranceSlots, OfficerSlots, PlacementSlots, MirrorSlots, FactSlots;
    InsuranceApart(row);
    OfficerApart(row);
    PlacementApart(p);
    FactNames(rt, row);
    var slots := Slots(rt, row, p);
    var personal := PersonalSlots(rt, row);
    assert k < |personal| ==> slots[k] == personal[k];
  }

  /** What is desired has a phone in it exactly when the row gives one. */
  lemma {:induction false} PhoneDesired(rt: Runtime, doc: Cell, row: SourceRow, p: Placement)
    ensures (exists e :: e in Desired(rt, doc, row, p) && IsPhone(e.path)) <==> PhoneGiven(row)
    ensures forall e :: e in Desired(rt, doc, row, p) && IsPhone(e.path) ==> !e.value.Null?
  {
    hide Slots, Filled, Held;
    var slots, desired := Slots(rt, row, p), Desired(rt, doc, row, p);
    forall e | e in desired && IsPhone(e.path) ensures !e.value.Null? && PhoneGiven(row) {
      assert e in DesiredFrom(rt, row, p);
      var i :| 0 <= i < |Filled(slots)| && Filled(slots)[i] == e;
      var k := FilledMember(slots, i);
      PhoneSlotIs(rt, row, p, k);
    }
    if PhoneGiven(row) {
      var k := PhoneSlotAt(rt, row, p);
      FilledHas(slots, k);
      assert Entry(slots[k].path, slots[k].value.value) in desired;
    }
  }

  lemma {:induction false} PhoneSlotAt(rt: Runtime, row: SourceRow, p: Placement) returns (k: nat)
    requires PhoneGiven(row)
    ensures k < |Slots(rt, row, p)| && Slots(rt, row, p)[k].value.Some? && IsPhone(Slots(rt, row, p)[k].path)
  {
    hide InsuranceSlots, OfficerSlots, PlacementSlots, MirrorSlots, FactSlots;
    var contact, personal := ContactSlots(row), PersonalSlots(rt, row);
    k := if !Column(row, "primaryPhone").Null? then 3 else 4;
    assert personal[3] == contact[0] && personal[4] == contact[1];
    assert Slots(rt, row, p)[k] == personal[k];
  }

  /** A phone under a contact that is no record reads as nothing, so it is always a change. */
  lemma {:induction false} ShutContactReads(doc: Cell, path: Path)
    requires doc.Record? && RecordAt(doc, ["personal"]) && IsPhone(path) && !ContactOpen(doc)
    ensures Read(doc, path) == None
  {
    ReadField(doc, "personal");
    var personal := doc.fields["personal"];
    ReadField(personal, "contact");
    assert ["personal", "contact"][1..] == ["contact"];
    assert Read(doc, ["personal", "contact"]) == Read(personal, ["contact"]);
    assert Read(doc, path) == Read(personal, path[1..]);
    assert Read(personal, path[1..]) == Read(personal.fields["contact"], path[1..][1..]);
  }

  /** The update fails exactly when `personal.contact` is there but is no record and the row fills a phone column. */
  lemma {:induction false} UpdateSucceedsIff(rt: Runtime, doc: Cell, row: SourceRow, p: Placement)
    requires Employee(doc)
    ensures Apply(doc, DiffOf(rt, doc, row, p).changes).Some? <==> ContactOpen(doc) || !PhoneGiven(row)
  {
    hide Desired, ChangesOf, ContactOpen, Apply, AllAskable, Read, PhoneGiven;
    var entries := Desired(rt, doc, row, p);
    var changes := ChangesOf(rt, doc, entries);
    ChangesSucceedIff(rt, doc, row, p);
    PhoneDesired(rt, doc, row, p);
    if !ContactOpen(doc) {
      forall e: Entry | IsPhone(e.path) ensures e in changes <==> e in entries {
        ChangeMember(rt, doc, entries, e);
        ShutContactReads(doc, e.path);
      }
    }
  }

  /** The contact is a required sub-document of the schema (employee.model.ts, lines 294 to 305). */
  predicate Admitted(doc: Cell) {
    Employee(doc) && RecordAt(doc, ["personal", "contact"])
  }

  /** So every employee the schema admits can be updated, whatever the row says. */
  lemma {:induction false} AdmittedUpdates(rt: Runtime, doc: Cell, row: SourceRow, p: Placement)
    requires Admitted(doc)
    ensures Apply(doc, DiffOf(rt, doc, row, p).changes).Some?
  {
    hide DiffOf, Apply, Employee, Read;
    UpdateSucceedsIff(rt, doc, row, p);
  }

  // ---------------------------------------------------------------- what the write leaves

  /** `after` is what applying the changes to `doc` left. */
  ghost predicate Applied(rt: Runtime, doc: Cell, entries: seq<Entry>, after: Cell) {
    && Independent(entries) && AllAskable(entries) && Employee(doc)
    && Apply(doc, ChangesOf(rt, doc, entries)) == Some(after)
  }

  lemma {:induction false} ChangeIsRead(rt: Runtime, doc: Cell, entries: seq<Entry>, after: Cell, e: Entry)
    requires Applied(rt, doc, entries, after) && IsChange(rt, doc, entries, e)
    ensures Read(after, e.path) == Some(Cast(e).value)
  {
    hide ChangesOf, IsChange, Employee, Read, Cast, AllAskable;
    var changes := ChangesOf(rt, doc, entries);
    ChangesIndependent(rt, doc, entries);
    CastKeeps(changes, []);
    ChangeMember(rt, doc, entries, e);
    var k :| 0 <= k < |changes| && changes[k] == e;
    WriteAllThenRead(doc, Mapped(changes, Cast), k);
    assert Mapped(changes, Cast)[k] == Cast(e);
    CastPath(e);
  }

  lemma {:induction false} CastPath(e: Entry)
    ensures Cast(e).path == e.path
  {
  }

  /** A path no change overlaps is untouched. */
  lemma {:induction false} Untouched(rt: Runtime, doc: Cell, entries: seq<Entry>, after: Cell, path: Path)
    requires Applied(rt, doc, entries, after)
    requires forall e :: IsChange(rt, doc, entries, e) ==> !Overlaps(e.path, path)
    ensures Read(after, path) == Read(doc, path)
  {
    hide ChangesOf, IsChange, Employee, Read, Cast, AllAskable, Overlaps;
    var changes := ChangesOf(rt, doc, entries);
    forall i | 0 <= i < |changes| ensures !Overlaps(changes[i].path, path) {
      assert changes[i] in changes;
      ChangeMember(rt, doc, entries, changes[i]);
    }
    CastKeeps(changes, path);
    WriteAllFrame(doc, Mapped(changes, Cast), path);
  }

  lemma {:induction false} NotOverlapping(entries: seq<Entry>, e: Entry, f: Entry)
    requires Independent(entries) && e in entries && f in entries && Overlaps(e.path, f.path)
    ensures e == f
  {
    var i :| 0 <= i < |entries| && entries[i] == e;
    var j :| 0 <= j < |entries| && entries[j] == f;
    OverlapsEitherWay(e.path, f.path);
  }

  lemma {:induction false} DraftOf(entries: seq<Entry>, b: string, e: Entry)
    requires Independent(entries) && e in entries && |e.path| > 1 && e.path[0] == b
    ensures e.path[1..] in Draft(entries, b) && Draft(entries, b)[e.path[1..]] == e.value
  {
    hide Overlaps;
    var n := |entries| - 1;
    IndependentInit(entries);
    var last := entries[n];
    if e == last {
      return;
    }
    assert e in entries[..n] by {
      assert entries == entries[..n] + [last];
    }
    DraftOf(entries[..n], b, e);
    var i :| 0 <= i < n && entries[..n][i] == e;
    SamePathOverlaps(e.path);
    assert e.path == [b] + e.path[1..];
    assert |last.path| > 1 && last.path[0] == b ==> last.path == [b] + last.path[1..];
  }

  lemma {:induction false} SamePathOverlaps(p: Path)
    ensures Overlaps(p, p)
  {
  }

  /** A block that was absent and is spoken of in earnest is there afterwards, with every field the file gave. */
  lemma {:induction false} BlockAfter(rt: Runtime, doc: Cell, entries: seq<Entry>, after: Cell, b: string)
    requires Applied(rt, doc, entries, after) && b in WholeBlocks(doc, entries) && !Silent(b, Draft(entries, b))
    ensures Read(after, [b]) == Some(BlockValue(b, Draft(entries, b)))
  {
    hide Applied, Read, Draft, Silent, BlockValue, WholeBlocks;
    var e := Entry([b], BlockValue(b, Draft(entries, b)));
    assert IsBlockChange(entries, b, e);
    ChangeIsRead(rt, doc, entries, after, e);
    BlockIsNoText(b, Draft(entries, b));
  }

  lemma {:induction false} BlockIsNoText(b: string, draft: map<Path, Cell>)
    ensures BlockValue(b, draft).Record?
  {
  }

  lemma {:induction false} ReadBelow(doc: Cell, b: string, f: string)
    requires RecordAt(doc, [b])
    ensures Read(doc, [b, f]) == Read(Read(doc, [b]).value, [f])
  {
    ReadField(doc, b);
    assert [b, f][1..] == [f];
  }

  /** Everything the file asks for is settled: an absent block it says nothing about, or the same fact. */
  ghost predicate Settled(rt: Runtime, doc: Cell, entries: seq<Entry>, after: Cell, e: Entry) {
    if IsWhole(doc, BlockOf(e.path)) && Silent(BlockOf(e.path), Draft(entries, BlockOf(e.path)))
    then Read(after, [BlockOf(e.path)]) == Read(doc, [BlockOf(e.path)])
    else SameFact(rt, Read(after, e.path), e.value)
  }

  lemma {:induction false} EntrySettled(rt: Runtime, doc: Cell, entries: seq<Entry>, after: Cell, e: Entry)
    requires Applied(rt, doc, entries, after) && e in entries
    ensures Settled(rt, doc, entries, after, e)
  {
    hide SameFact, Read, Draft, Silent, WholeBlocks, Applied;
    var b := BlockOf(e.path);
    assert Askable(e) by {
      EntryAskable(rt, doc, entries, after, e);
    }
    if IsWhole(doc, b) {
      AskedBlock(e, b);
      if Silent(b, Draft(entries, b)) {
        SilentBlockStays(rt, doc, entries, after, b);
      } else {
        FilledBlockReads(rt, doc, entries, after, e);
      }
    } else if IsDirect(rt, doc, e) {
      ChangeIsRead(rt, doc, entries, after, e);
      WrittenIsSame(rt, e);
    } else {
      UnchangedEntry(rt, doc, entries, after, e);
    }
  }

  lemma {:induction false} EntryAskable(rt: Runtime, doc: Cell, entries: seq<Entry>, after: Cell, e: Entry)
    requires Applied(rt, doc, entries, after) && e in entries
    ensures Askable(e) && Independent(entries)
  {
    hide Askable, Independent;
  }

  lemma {:induction false} SilentBlockStays(rt: Runtime, doc: Cell, entries: seq<Entry>, after: Cell, b: string)
    requires Applied(rt, doc, entries, after) && IsWhole(doc, b) && Silent(b, Draft(entries, b))
    ensures Read(after, [b]) == Read(doc, [b])
  {
    hide SameFact, Read, Draft, Silent, WholeBlocks, Askable, Overlaps, Applied;
    forall e | IsChange(rt, doc, entries, e) ensures !Overlaps(e.path, [b]) {
      if e in entries && IsDirect(rt, doc, e) {
        EntryAskable(rt, doc, entries, after, e);
        AskedBlock(e, b);
      } else {
        var c :| c in WholeBlocks(doc, entries) && IsBlockChange(entries, c, e);
        DifferAt(e.path, [b], 0);
      }
    }
    Untouched(rt, doc, entries, after, [b]);
  }

  lemma {:induction false} FilledBlockReads(rt: Runtime, doc: Cell, entries: seq<Entry>, after: Cell, e: Entry)
    requires Applied(rt, doc, entries, after) && e in entries
    requires |e.path| == 2 && IsWhole(doc, e.path[0]) && e.path[1] in BlockFields(e.path[0])
    requires !Silent(e.path[0], Draft(entries, e.path[0]))
    ensures SameFact(rt, Read(after, e.path), e.value)
  {
    hide Read, Draft, Silent, WholeBlocks, Applied, SameFact, BlockFields;
    var b, f := e.path[0], e.path[1];
    EntryAskable(rt, doc, entries, after, e);
    var i :| 0 <= i < |entries| && entries[i] == e;
    assert BlockOf(entries[i].path) == b;
    WholeMember(doc, entries, b);
    BlockAfter(rt, doc, entries, after, b);
    BlockIsNoText(b, Draft(entries, b));
    ReadBelow(after, b, f);
    assert e.path == [b, f] && e.path[1..] == [f];
    DraftOf(entries, b, e);
    ReadField(BlockValue(b, Draft(entries, b)), f);
    SameAsItself(rt, e.value);
  }

  lemma {:induction false} SameAsItself(rt: Runtime, v: Cell)
    ensures SameFact(rt, Some(v), v)
  {
  }

  lemma {:induction false} UnchangedEntry(rt: Runtime, doc: Cell, entries: seq<Entry>, after: Cell, e: Entry)
    requires Applied(rt, doc, entries, after) && e in entries
    requires !IsWhole(doc, BlockOf(e.path)) && !IsDirect(rt, doc, e)
    ensures SameFact(rt, Read(after, e.path), e.value)
  {
    hide SameFact, Read, Draft, Silent, WholeBlocks, Applied, Askable, IsAbsent, Overlaps;
    EntryAskable(rt, doc, entries, after, e);
    forall c | IsChange(rt, doc, entries, c) ensures !Overlaps(c.path, e.path) {
      if c in entries && IsDirect(rt, doc, c) {
        if Overlaps(c.path, e.path) {
          NotOverlapping(entries, c, e);
        }
      } else {
        var b :| b in WholeBlocks(doc, entries) && IsBlockChange(entries, b, c);
        WholeMember(doc, entries, b);
        AskedBlock(e, b);
        OverlapsEitherWay(e.path, [b]);
      }
    }
    Untouched(rt, doc, entries, after, e.path);
  }

  // ---------------------------------------------------------------- diffing again

  /** Writes go past or beside a block that was there, so it still is. */
  lemma {:induction false} BlockStays(rt: Runtime, doc: Cell, entries: seq<Entry>, after: Cell, b: string)
    requires Applied(rt, doc, entries, after) && IsWhole(after, b)
    ensures IsWhole(doc, b)
  {
    hide SameFact, Read, WholeBlocks, Askable, Overlaps, Cast;
    if !IsAbsent(doc, b) {
      var changes := ChangesOf(rt, doc, entries);
      var casts := Mapped(changes, Cast);
      forall i | 0 <= i < |casts| ensures [b] < casts[i].path || !Overlaps(casts[i].path, [b]) {
        assert changes[i] in changes;
        CastPath(changes[i]);
        ChangeMember(rt, doc, entries, changes[i]);
        PastOrBeside(rt, doc, entries, after, changes[i], b);
      }
      WriteAllKeepsRecord(doc, casts, [b]);
      assert false;
    }
  }

  lemma {:induction false} PastOrBeside(rt: Runtime, doc: Cell, entries: seq<Entry>, after: Cell, e: Entry, b: string)
    requires Applied(rt, doc, entries, after) && IsChange(rt, doc, entries, e)
    requires (b == "insurance" || b == "officer") && !IsWhole(doc, b)
    ensures [b] < e.path || !Overlaps(e.path, [b])
  {
    hide SameFact, Read, WholeBlocks, Askable, Overlaps, Applied, IsAbsent;
    if e in entries && IsDirect(rt, doc, e) {
      EntryAskable(rt, doc, entries, after, e);
      AskedBlock(e, b);
      assert BlockOf(e.path) == b ==> [b] < e.path;
    } else {
      var c :| c in WholeBlocks(doc, entries) && IsBlockChange(entries, c, e);
      WholeMember(doc, entries, c);
      DifferAt(e.path, [b], 0);
    }
  }

  lemma {:induction false} NothingDirect(rt: Runtime, doc: Cell, entries: seq<Entry>, after: Cell, some: seq<Entry>)
    requires Applied(rt, doc, entries, after) && forall e :: e in some ==> e in entries
    ensures Direct(rt, after, some) == []
  {
    hide SameFact, Read, Applied, Draft, Silent;
    if some != [] {
      var n := |some| - 1;
      NothingDirect(rt, doc, entries, after, some[..n]);
      var e := some[n];
      assert e in entries;
      EntrySettled(rt, doc, entries, after, e);
    }
  }

  /** The drafts of `some` are those of `entries`: what was left out is not about a block. */
  ghost predicate SameDrafts(entries: seq<Entry>, some: seq<Entry>) {
    forall b :: b == "insurance" || b == "officer" ==> Draft(some, b) == Draft(entries, b)
  }

  lemma {:induction false} NoBlockChange(
    rt: Runtime, doc: Cell, entries: seq<Entry>, after: Cell, some: seq<Entry>, b: string)
    requires Applied(rt, doc, entries, after) && (forall e :: e in some ==> e in entries) && SameDrafts(entries, some)
    requires b in WholeBlocks(after, some)
    ensures Silent(b, Draft(some, b))
  {
    hide SameFact, Read, Applied, Draft, Silent, WholeBlocks;
    WholeMember(after, some, b);
    BlockStays(rt, doc, entries, after, b);
    if !Silent(b, Draft(entries, b)) {
      var i :| 0 <= i < |some| && BlockOf(some[i].path) == b;
      assert some[i] in entries;
      var j :| 0 <= j < |entries| && entries[j] == some[i];
      WholeMember(doc, entries, b);
      BlockAfter(rt, doc, entries, after, b);
    }
  }

  lemma {:induction false} NoBlockChanges(
    rt: Runtime, doc: Cell, entries: seq<Entry>, after: Cell, some: seq<Entry>, blocks: seq<string>)
    requires Applied(rt, doc, entries, after) && (forall e :: e in some ==> e in entries) && SameDrafts(entries, some)
    requires forall b :: b in blocks ==> b in WholeBlocks(after, some)
    ensures BlockChanges(some, blocks) == []
  {
    hide Applied, Draft, Silent, WholeBlocks, SameDrafts;
    if blocks != [] {
      var n := |blocks| - 1;
      NoBlockChanges(rt, doc, entries, after, some, blocks[..n]);
      NoBlockChange(rt, doc, entries, after, some, blocks[n]);
    }
  }

  /** Nothing more is asked of the updated document: all that was, or all but the national ID it now holds. */
  lemma {:induction false} AskedAgain(rt: Runtime, doc: Cell, row: SourceRow, p: Placement, after: Cell)
    requires Applied(rt, doc, Desired(rt, doc, row, p), after)
    ensures forall e :: e in Desired(rt, after, row, p) ==> e in Desired(rt, doc, row, p)
    ensures SameDrafts(Desired(rt, doc, row, p), Desired(rt, after, row, p))
    ensures RefusalsOf(after, row) == RefusalsOf(doc, row)
    ensures Held(doc).Some? ==> Read(after, NATIONAL_ID) == Read(doc, NATIONAL_ID)
  {
    hide DesiredFrom, Read, Draft, Overlaps, Applied;
    NationalIdAfter(rt, doc, row, p, after);
    var base := DesiredFrom(rt, row, p);
    var nid := Entry(NATIONAL_ID, Words(if row.nationalId.Some? then row.nationalId.value else ""));
    assert base + [] == base;
    forall b | b == "insurance" || b == "officer" ensures Draft(base + [nid], b) == Draft(base, b) {
      NotAboutBlock(base, nid, b);
    }
  }

  lemma {:induction false} NotAboutBlock(base: seq<Entry>, e: Entry, b: string)
    requires e.path == NATIONAL_ID && (b == "insurance" || b == "officer")
    ensures Draft(base + [e], b) == Draft(base, b)
  {
    assert (base + [e])[..|base|] == base;
    assert NATIONAL_ID[0] == "personal";
  }

  lemma {:induction false} NationalIdAfter(rt: Runtime, doc: Cell, row: SourceRow, p: Placement, after: Cell)
    requires Applied(rt, doc, Desired(rt, doc, row, p), after)
    ensures Held(doc).Some? || row.nationalId.None? ==> Read(after, NATIONAL_ID) == Read(doc, NATIONAL_ID)
    ensures Held(doc).None? && row.nationalId.Some? ==> Held(after) == row.nationalId
  {
    hide DesiredFrom, Read, Draft, Overlaps, WholeBlocks, AllAskable, ChangesOf;
    var entries := Desired(rt, doc, row, p);
    FromAskable(rt, row, p);
    if Held(doc).None? && row.nationalId.Some? {
      var e := Entry(NATIONAL_ID, Words(row.nationalId.value));
      assert e in entries;
      assert !IsWhole(doc, BlockOf(e.path));
      assert IsDirect(rt, doc, e);
      ChangeIsRead(rt, doc, entries, after, e);
    } else {
      forall c | IsChange(rt, doc, entries, c) ensures !Overlaps(c.path, NATIONAL_ID) {
        if c in entries {
          var i :| 0 <= i < |DesiredFrom(rt, row, p)| && DesiredFrom(rt, row, p)[i] == c;
        } else {
          var b :| b in WholeBlocks(doc, entries) && IsBlockChange(entries, b, c);
          WholeMember(doc, entries, b);
          DifferAt(c.path, NATIONAL_ID, 0);
        }
      }
      Untouched(rt, doc, entries, after, NATIONAL_ID);
    }
  }

  lemma {:induction false} AppliedDiff(rt: Runtime, doc: Cell, row: SourceRow, p: Placement, after: Cell)
    requires Employee(doc) && Apply(doc, DiffOf(rt, doc, row, p).changes) == Some(after)
    ensures Applied(rt, doc, Desired(rt, doc, row, p), after)
  {
    hide Desired, Apply, ChangesOf, Employee;
    DesiredIndependent(rt, doc, row, p);
  }

  /** Applying the changes and diffing again gives no changes and the same refusals. */
  lemma {:induction false} DiffConverges(rt: Runtime, doc: Cell, row: SourceRow, p: Placement, after: Cell)
    requires Employee(doc) && Apply(doc, DiffOf(rt, doc, row, p).changes) == Some(after)
    ensures DiffOf(rt, after, row, p) == Diff([], DiffOf(rt, doc, row, p).refused)
  {
    hide Desired, Apply, Direct, WholeBlocks, BlockChanges, Employee, Applied, RefusalsOf;
    AppliedDiff(rt, doc, row, p, after);
    AskedAgain(rt, doc, row, p, after);
    var entries, again := Desired(rt, doc, row, p), Desired(rt, after, row, p);
    NothingDirect(rt, doc, entries, after, again);
    NoBlockChanges(rt, doc, entries, after, again, WholeBlocks(after, again));
  }

  /** A held national ID is never replaced. */
  lemma {:induction false} HeldIdStays(rt: Runtime, doc: Cell, row: SourceRow, p: Placement, after: Cell)
    requires Employee(doc) && Apply(doc, DiffOf(rt, doc, row, p).changes) == Some(after) && Held(doc).Some?
    ensures Held(after) == Held(doc)
  {
    hide Desired, Apply, ChangesOf, Employee, Applied, Read;
    AppliedDiff(rt, doc, row, p, after);
    AskedAgain(rt, doc, row, p, after);
  }

  // ---------------------------------------------------------------- the placement and the rest

  lemma {:induction false} FilledHas(slots: seq<Slot>, k: nat)
    requires k < |slots| && slots[k].value.Some?
    ensures Entry(slots[k].path, slots[k].value.value) in Filled(slots)
  {
    var n := |slots| - 1;
    if k < n {
      FilledHas(slots[..n], k);
    }
  }

  /** The seven placement fields, and the id each must hold. */
  predicate IsPlacement(p: Placement, path: Path, id: Option<string>) {
    Slot(path, Some(WordsOr(id))) in PlacementSlots(p) + MirrorSlots(p)
  }

  lemma {:induction false} PlacementDesired(
    rt: Runtime, doc: Cell, row: SourceRow, p: Placement, path: Path, id: Option<string>)
    requires IsPlacement(p, path, id)
    ensures Entry(path, WordsOr(id)) in Desired(rt, doc, row, p)
    ensures !IsWhole(doc, BlockOf(path))
  {
    hide PersonalSlots, InsuranceSlots, OfficerSlots, Filled, IsAbsent, Held;
    var slots := Slots(rt, row, p);
    var slot := Slot(path, Some(WordsOr(id)));
    assert slot in slots;
    var k :| 0 <= k < |slots| && slots[k] == slot;
    FilledHas(slots, k);
  }

  /** Both copies of the placement name the resolved units afterwards; a department without a section clears it. */
  lemma {:induction false} PlacementHolds(
    rt: Runtime, doc: Cell, row: SourceRow, p: Placement, after: Cell, path: Path, id: Option<string>)
    requires Employee(doc) && Apply(doc, DiffOf(rt, doc, row, p).changes) == Some(after)
    requires IsPlacement(p, path, id)
    ensures SameFact(rt, Read(after, path), WordsOr(id))
  {
    hide Desired, Apply, ChangesOf, Employee, Applied, Read, IsPlacement, SameFact, IsAbsent;
    AppliedDiff(rt, doc, row, p, after);
    PlacementDesired(rt, doc, row, p, path, id);
    EntrySettled(rt, doc, Desired(rt, doc, row, p), after, Entry(path, WordsOr(id)));
  }

  /** The path is below a nullable block that did not exist. */
  ghost predicate BelowAbsent(doc: Cell, path: Path) {
    path != [] && IsWhole(doc, path[0]) && |path| > 1
  }

  lemma {:induction false} ReadBelowAbsent(doc: Cell, path: Path)
    requires doc.Record? && BelowAbsent(doc, path)
    ensures Read(doc, path) == None
  {
    ReadField(doc, path[0]);
  }

  /** Whatever the file does not ask about stays as it is; below a block just made it is null or still missing. */
  lemma {:induction false} OutsideStays(rt: Runtime, doc: Cell, row: SourceRow, p: Placement, after: Cell, path: Path)
    requires Employee(doc) && Apply(doc, DiffOf(rt, doc, row, p).changes) == Some(after)
    requires Clear(Desired(rt, doc, row, p), path) && path != []
    ensures Read(after, path) == Read(doc, path)
         || (BelowAbsent(doc, path) && Read(doc, path) == None && Read(after, path) == Some(Null))
  {
    hide Desired, Apply, ChangesOf, Applied, Read, SameFact, Overlaps, WholeBlocks;
    AppliedDiff(rt, doc, row, p, after);
    var entries := Desired(rt, doc, row, p);
    if b :| b in WholeBlocks(doc, entries) && b == path[0] {
      WholeMember(doc, entries, b);
      NotTheBlockItself(rt, doc, entries, after, path, b);
      ReadBelowAbsent(doc, path);
      if Silent(b, Draft(entries, b)) {
        SilentBlockStays(rt, doc, entries, after, b);
        AbsentAfter(rt, doc, entries, after, path, b);
      } else {
        BlockAfter(rt, doc, entries, after, b);
        UnsaidField(rt, doc, entries, after, path, b);
      }
    } else {
      forall e | IsChange(rt, doc, entries, e) ensures !Overlaps(e.path, path) {
        if e in entries {
          var i :| 0 <= i < |entries| && entries[i] == e;
        } else {
          var b :| b in WholeBlocks(doc, entries) && IsBlockChange(entries, b, e);
          DifferAt(e.path, path, 0);
        }
      }
      Untouched(rt, doc, entries, after, path);
    }
  }

  lemma {:induction false} NotTheBlockItself(
    rt: Runtime, doc: Cell, entries: seq<Entry>, after: Cell, path: Path, b: string)
    requires Applied(rt, doc, entries, after) && Clear(entries, path) && path != [] && path[0] == b
    requires IsWhole(doc, b) && exists i :: 0 <= i < |entries| && BlockOf(entries[i].path) == b
    ensures |path| > 1
  {
    hide Applied, Askable, IsAbsent;
    var i :| 0 <= i < |entries| && BlockOf(entries[i].path) == b;
    var e := entries[i];
    assert !Overlaps(e.path, path);
  }

  lemma {:induction false} AbsentAfter(rt: Runtime, doc: Cell, entries: seq<Entry>, after: Cell, path: Path, b: string)
    requires Applied(rt, doc, entries, after) && Read(after, [b]) == Read(doc, [b]) && |path| > 1 && path[0] == b
    requires IsWhole(doc, b)
    ensures Read(after, path) == None
  {
    if after.Record? {
      ReadField(after, b);
    }
  }

  lemma {:induction false} UnsaidField(rt: Runtime, doc: Cell, entries: seq<Entry>, after: Cell, path: Path, b: string)
    requires Applied(rt, doc, entries, after) && Clear(entries, path) && |path| > 1 && path[0] == b
    requires Read(after, [b]) == Some(BlockValue(b, Draft(entries, b)))
    ensures Read(after, path) == None || Read(after, path) == Some(Null)
  {
    hide Applied, Draft, Overlaps;
    ReadField(after, b);
    var block := BlockValue(b, Draft(entries, b));
    var rest := path[1..];
    assert Read(after, path) == Read(block, rest);
    if rest[0] in block.fields && [rest[0]] in Draft(entries, b) {
      DraftSource(entries, b, rest[0]);
      var i :| 0 <= i < |entries| && entries[i].path == [b, rest[0]];
      assert entries[i].path <= path by {
        assert path == [b] + rest && rest == [rest[0]] + rest[1..];
      }
      PrefixOverlaps(entries[i].path, path);
      assert false;
    }
    if rest[0] in block.fields {
      assert block.fields[rest[0]] == Null;
      assert Read(block, rest) == Read(Null, rest[1..]);
    }
  }

  lemma {:induction false} PrefixOverlaps(p: Path, q: Path)
    requires p <= q
    ensures Overlaps(p, q)
  {
  }

  lemma {:induction false} DraftSource(entries: seq<Entry>, b: string, f: string)
    requires [f] in Draft(entries, b)
    ensures exists i :: 0 <= i < |entries| && entries[i].path == [b, f]
  {
    var n := |entries| - 1;
    if [f] in Draft(entries[..n], b) {
      DraftSource(entries[..n], b, f);
      var i :| 0 <= i < n && entries[..n][i].path == [b, f];
      assert entries[i].path == [b, f];
    } else {
      assert entries[n].path[1..] == [f];
      assert entries[n].path == [b, f];
    }
  }
}
