/** The contractor-management dialog: the edit form and its building
    list, the save guard, and the two upsert loops (import from a JSON file
    and sync of the browser's stored contractors). The loops run against
    the local contractor table of ContractorDatabase. */
module ContractorManager {
  import opened Text
  import opened Wrappers
  import opened Statement
  import DB = ContractorDatabase

  /** `Partial<Contractor>`: the form's fields, each possibly absent. */
  type FormData = DB.ContractorUpdate

  const DefaultForm: FormData := DB.ContractorUpdate(
    None, Some(""), Some(Address(Some(""), "", "WA", "")), Some(PaymentInfo("Direct Deposit", "")),
    Some([]), Some(true), None, Some(Some("")), None)

  datatype Manager = Manager(
    contractors: seq<Contractor>,
    editing: Option<Contractor>,
    showAddForm: bool,
    form: FormData)

  /** `resetForm`. */
  function ResetForm(m: Manager): (r: Manager)
    ensures r.form.address == Some(Address(Some(""), "", "WA", ""))
    ensures r.form.paymentInfo == Some(PaymentInfo("Direct Deposit", ""))
    ensures r.form.name == Some("") && r.form.buildings == Some([]) && r.form.isActive == Some(true)
    ensures r.editing.None? && !r.showAddForm && r.contractors == m.contractors
  {
    m.(form := DefaultForm, editing := None, showAddForm := false)
  }

  /** The form holding every field of a record. */
  function FormOf(c: Contractor): FormData
  {
    DB.ContractorUpdate(Some(c.id), Some(c.name), Some(c.address), Some(c.paymentInfo), Some(c.buildings),
                        Some(c.isActive), Some(c.dateAdded), Some(c.notes), Some(c.googleDriveFolderId))
  }

  /** `handleEdit`. */
  function HandleEdit(m: Manager, c: Contractor): (r: Manager)
    ensures r.editing == Some(c) && r.form == FormOf(c) && r.showAddForm && r.contractors == m.contractors
  {
    m.(editing := Some(c), form := FormOf(c), showAddForm := true)
  }

  /** Saving an edit form nobody changed writes the record back as it was. */
  lemma EditUnchangedWritesSame(c: Contractor, row: Contractor)
    ensures DB.Merge(row, FormOf(c)) == c
  {
  }

  /** The call `handleSave` makes on the data client. */
  datatype SaveCall = UpdateCall(id: string, updates: FormData) | AddCall(fields: FormData)

  /** `handleSave`'s request: none when the name is missing or empty (the
      alert path); an update of the edited record, else an add. */
  function SaveRequest(m: Manager): (r: Option<SaveCall>)
    ensures r.None? <==> m.form.name.None? || m.form.name.value == ""
    ensures r.Some? && m.editing.Some? ==> r.value == UpdateCall(m.editing.value.id, m.form)
    ensures r.Some? && m.editing.None? ==> r.value == AddCall(m.form)
  {
    if m.form.name.None? || m.form.name.value == "" then None
    else if m.editing.Some? then Some(UpdateCall(m.editing.value.id, m.form))
    else Some(AddCall(m.form))
  }

  /** A successful save: the refreshed active list, then a reset form. */
  function AfterSave(m: Manager, active: seq<Contractor>): (r: Manager)
    ensures r == ResetForm(m).(contractors := active)
  {
    m.(contractors := active, form := DefaultForm, editing := None, showAddForm := false)
  }

  // ---------------------------------------------------------------------
  // Building list

  function BuildingsOf(f: FormData): seq<BuildingAssignment>
  {
    if f.buildings.Some? then f.buildings.value else []
  }

  const NewBuilding: BuildingAssignment := BuildingAssignment("", Some(PerVisit), 0.0, true, Some(0.0))

  /** `addBuilding`. */
  function AddBuilding(f: FormData): (r: FormData)
    ensures BuildingsOf(r) == BuildingsOf(f) + [NewBuilding]
    ensures r == f.(buildings := r.buildings)
  {
    f.(buildings := Some(BuildingsOf(f) + [NewBuilding]))
  }

  /** `updateBuilding` at an index of the rendered list. */
  function UpdateBuilding(f: FormData, index: nat, b: BuildingAssignment): (r: FormData)
    requires index < |BuildingsOf(f)|
    ensures |BuildingsOf(r)| == |BuildingsOf(f)| && BuildingsOf(r)[index] == b
    ensures forall j :: 0 <= j < |BuildingsOf(f)| && j != index ==> BuildingsOf(r)[j] == BuildingsOf(f)[j]
    ensures r == f.(buildings := r.buildings)
  {
    f.(buildings := Some(BuildingsOf(f)[index := b]))
  }

  /** The start position `splice(index, 1)` uses: a negative index counts
      from the end. */
  function SpliceStart(len: nat, index: int): nat
  {
    if index < 0 then (if len + index < 0 then 0 else len + index) else index
  }

  /** `buildings.splice(index, 1)` on a copy. */
  function SpliceOut(bs: seq<BuildingAssignment>, index: int): (r: seq<BuildingAssignment>)
    ensures var k := SpliceStart(|bs|, index);
            && (k < |bs| ==> r == bs[..k] + bs[k + 1..])
            && (k >= |bs| ==> r == bs)
  {
    var k := SpliceStart(|bs|, index);
    if k < |bs| then bs[..k] + bs[k + 1..] else bs
  }

  /** `removeBuilding`. */
  function RemoveBuilding(f: FormData, index: int): (r: FormData)
    ensures BuildingsOf(r) == SpliceOut(BuildingsOf(f), index)
    ensures r == f.(buildings := r.buildings)
  {
    f.(buildings := Some(SpliceOut(BuildingsOf(f), index)))
  }

  /** Removing index i of the list drops exactly that building: one fewer,
      those before keep their places and those after move up by one. */
  lemma RemoveBuildingSpec(f: FormData, i: nat)
    requires i < |BuildingsOf(f)|
    ensures var bs := BuildingsOf(f);
            var r := BuildingsOf(RemoveBuilding(f, i));
            && |r| == |bs| - 1
            && (forall j :: 0 <= j < i ==> r[j] == bs[j])
            && (forall j :: i <= j < |r| ==> r[j] == bs[j + 1])
  {
  }

  /** Adding a building and then removing it gives the list back. */
  lemma AddThenRemove(f: FormData)
    ensures BuildingsOf(RemoveBuilding(AddBuilding(f), |BuildingsOf(f)|)) == BuildingsOf(f)
  {
    var bs := BuildingsOf(f) + [NewBuilding];
    assert bs[..|BuildingsOf(f)|] == BuildingsOf(f);
  }

  // ---------------------------------------------------------------------
  // Upsert by name

  /** The name key: trimmed, then lowercased. */
  function NameKey(name: string): string
  {
    LowerStr(Trim(name))
  }

  /** The name keys of the records, in order. */
  function Keys(all: seq<Contractor>): (ks: seq<string>)
    ensures |ks| == |all|
    ensures forall j :: 0 <= j < |all| ==> ks[j] == NameKey(all[j].name)
  {
    seq(|all|, j requires 0 <= j < |all| => NameKey(all[j].name))
  }

  /** The position of the first occurrence of `k` in `keys`, or `|keys|`
      when there is none. */
  function FirstIndex(keys: seq<string>, k: string): (i: nat)
    ensures i <= |keys|
    ensures i < |keys| ==> keys[i] == k
    ensures forall j :: 0 <= j < i ==> keys[j] != k
  {
    if keys == [] then 0
    else if keys[0] == k then 0
    else
      var i := FirstIndex(keys[1..], k);
      assert forall j :: 0 < j <= i ==> keys[j] == keys[1..][j - 1];
      1 + i
  }

  /** `all.find(x => key(x.name) === key(c.name))`: the first record whose
      name has the same key. */
  function FindByName(all: seq<Contractor>, name: string): (r: Option<Contractor>)
    ensures r.Some? ==> r.value in all && NameKey(r.value.name) == NameKey(name)
    ensures r.Some? ==> exists i :: 0 <= i < |all| && all[i] == r.value
                          && forall j :: 0 <= j < i ==> NameKey(all[j].name) != NameKey(name)
    ensures r.None? ==> forall x :: x in all ==> NameKey(x.name) != NameKey(name)
  {
    var keys := Keys(all);
    var i := FirstIndex(keys, NameKey(name));
    if i < |all| then Some(all[i]) else None
  }

  /** The whole-record update a parsed entry makes. */
  function UpdateAll(c: Contractor): DB.ContractorUpdate
  {
    FormOf(c)
  }

  /** One upsert on the table `rows`, matching against `all`: unnamed
      entries are skipped; a match is updated through its id; otherwise the
      entry is added with a fresh id. */
  function UpsertAgainst(all: seq<Contractor>, rows: seq<Contractor>, c: Contractor, nowMs: int, today: string): seq<Contractor>
  {
    if c.name == "" then rows
    else
      var existing := FindByName(all, c.name);
      if existing.Some? then
        var i := DB.IndexOfId(rows, existing.value.id);
        if i.Some? then rows[i.value := DB.Merge(rows[i.value], UpdateAll(c))] else rows
      else rows + [DB.NewRecord(c, nowMs, today)]
  }

  /** The import loop: every entry matches against the table as it is at
      that moment. `clock[k]` is the time the k-th add would read. */
  function ImportAll(rows: seq<Contractor>, parsed: seq<Contractor>, clock: seq<int>, today: string): seq<Contractor>
    requires |clock| >= |parsed|
    decreases |parsed|
  {
    if parsed == [] then rows
    else
      var n := |parsed| - 1;
      var before := ImportAll(rows, parsed[..n], clock, today);
      UpsertAgainst(before, before, parsed[n], clock[n], today)
  }

  /** An upsert of a named entry found in the table replaces the record
      carrying the found record's id with the entry; one not found is
      appended with a clock id and today's date. */
  lemma UpsertSpec(rows: seq<Contractor>, c: Contractor, nowMs: int, today: string)
    requires c.name != ""
    ensures var e := FindByName(rows, c.name);
            && (e.None? ==> UpsertAgainst(rows, rows, c, nowMs, today) == rows + [DB.NewRecord(c, nowMs, today)])
            && (e.Some? ==> var i := DB.IndexOfId(rows, e.value.id);
                             i.Some? && UpsertAgainst(rows, rows, c, nowMs, today) == rows[i.value := c])
  {
    var e := FindByName(rows, c.name);
    if e.Some? {
      var k :| 0 <= k < |rows| && rows[k] == e.value;
      assert rows[k].id == e.value.id;
    }
  }

  /** Entries without a name change nothing. */
  lemma UnnamedSkipped(all: seq<Contractor>, rows: seq<Contractor>, c: Contractor, nowMs: int, today: string)
    requires c.name == ""
    ensures UpsertAgainst(all, rows, c, nowMs, today) == rows
  {
  }

  /** After the upsert of a named entry the table holds a record of that
      name, and it is one longer exactly when no name matched. */
  lemma UpsertPresent(rows: seq<Contractor>, c: Contractor, nowMs: int, today: string)
    requires c.name != ""
    ensures exists x :: x in UpsertAgainst(rows, rows, c, nowMs, today) && x.name == c.name
    ensures |UpsertAgainst(rows, rows, c, nowMs, today)| == |rows| + (if FindByName(rows, c.name).None? then 1 else 0)
  {
    UpsertSpec(rows, c, nowMs, today);
    var after := UpsertAgainst(rows, rows, c, nowMs, today);
    if FindByName(rows, c.name).None? {
      assert after[|rows|] == DB.NewRecord(c, nowMs, today);
    } else {
      var i := DB.IndexOfId(rows, FindByName(rows, c.name).value.id).value;
      assert after[i] == c;
    }
  }

  /** The same loop against a list fetched once before it, as a backend
      that returns a copy would see it. */
  function SnapshotAll(all: seq<Contractor>, rows: seq<Contractor>, parsed: seq<Contractor>, clock: seq<int>, today: string): seq<Contractor>
    requires |clock| >= |parsed|
    decreases |parsed|
  {
    if parsed == [] then rows
    else
      var n := |parsed| - 1;
      UpsertAgainst(all, SnapshotAll(all, rows, parsed[..n], clock, today), parsed[n], clock[n], today)
  }

  /** A file naming the same new contractor twice: matching against the
      current table adds it once and then updates it, matching against a
      snapshot adds it twice. */
  lemma SnapshotDiffers(c: Contractor, clock: seq<int>, today: string)
    requires c.name != "" && |clock| >= 2
    ensures |ImportAll([], [c, c], clock, today)| == 1
    ensures |SnapshotAll([], [], [c, c], clock, today)| == 2
  {
    assert [c, c][..1] == [c];
    assert [c][..0] == [];
    assert ImportAll([], [], clock, today) == [];
    assert UpsertAgainst([], [], c, clock[0], today) == [DB.NewRecord(c, clock[0], today)];
    var one := ImportAll([], [c], clock, today);
    assert one == [DB.NewRecord(c, clock[0], today)];
    assert FindByName(one, c.name) == Some(one[0]);
    UpsertPresent(one, c, clock[1], today);
    assert SnapshotAll([], [], [c], clock, today) == [DB.NewRecord(c, clock[0], today)];
  }

  /** Some entry has a name, so the loop writes to storage. */
  predicate AnyNamed(parsed: seq<Contractor>)
  {
    exists k :: 0 <= k < |parsed| && parsed[k].name != ""
  }

  /** Reads the table as the loop does: `listAllContractors` on the local
      client returns the table array itself. */
  method Upsert(db: DB.ContractorDb, all: DB.ContractorList, c: Contractor, nowMs: int, today: string)
    requires all == db.table && c.name != ""
    modifies db.table, db.store
    ensures db.table.items == UpsertAgainst(old(db.table.items), old(db.table.items), c, nowMs, today)
    ensures db.store.stored == if db.store.hasWindow then Some(db.table.items) else old(db.store.stored)
  {
    var existing := FindByName(all.items, c.name);
    if existing.Some? {
      ghost var k :| 0 <= k < |db.table.items| && db.table.items[k] == existing.value;
      var _ := db.UpdateContractor(existing.value.id, UpdateAll(c));
    } else {
      var _ := db.AddContractor(c, nowMs, today);
    }
  }

  /** The "Import JSON" handler for a parsed file (None for a file that is
      not a JSON array): each named entry is upserted against the table as
      re-read just before it. */
  method ImportFile(db: DB.ContractorDb, parsed: Option<seq<Contractor>>, clock: seq<int>, today: string)
    requires parsed.Some? ==> |clock| >= |parsed.value|
    modifies db.table, db.store
    ensures parsed.None? ==> db.table.items == old(db.table.items) && db.store.stored == old(db.store.stored)
    ensures parsed.Some? ==> db.table.items == ImportAll(old(db.table.items), parsed.value, clock, today)
    ensures parsed.Some? && AnyNamed(parsed.value) && db.store.hasWindow ==> db.store.stored == Some(db.table.items)
    ensures parsed.Some? && !AnyNamed(parsed.value) ==> db.store.stored == old(db.store.stored)
  {
    if parsed.None? {
      return;
    }
    var ps := parsed.value;
    var i := 0;
    while i < |ps|
      invariant 0 <= i <= |ps|
      invariant db.table.items == ImportAll(old(db.table.items), ps[..i], clock, today)
      invariant AnyNamed(ps[..i]) && db.store.hasWindow ==> db.store.stored == Some(db.table.items)
      invariant !AnyNamed(ps[..i]) ==> db.store.stored == old(db.store.stored)
    {
      ghost var before := db.table.items;
      ImportAllStep(old(db.table.items), ps, i, clock, today);
      AnyNamedStep(ps, i);
      if ps[i].name != "" {
        var all := db.table;
        Upsert(db, all, ps[i], clock[i], today);
        assert db.table.items == UpsertAgainst(before, before, ps[i], clock[i], today);
      }
      assert db.table.items == ImportAll(old(db.table.items), ps[..i + 1], clock, today);
      i := i + 1;
    }
    assert ps[..|ps|] == ps;
  }

  /** One more entry of the import loop. */
  lemma ImportAllStep(rows: seq<Contractor>, ps: seq<Contractor>, i: nat, clock: seq<int>, today: string)
    requires i < |ps| && |clock| >= |ps|
    ensures var before := ImportAll(rows, ps[..i], clock, today);
            ImportAll(rows, ps[..i + 1], clock, today)
            == if ps[i].name == "" then before else UpsertAgainst(before, before, ps[i], clock[i], today)
  {
    assert ps[..i + 1][..i] == ps[..i];
    assert ps[..i + 1][i] == ps[i];
  }

  lemma AnyNamedStep(ps: seq<Contractor>, i: nat)
    requires i < |ps|
    ensures AnyNamed(ps[..i + 1]) <==> AnyNamed(ps[..i]) || ps[i].name != ""
  {
    assert ps[..i + 1][i] == ps[i];
    if AnyNamed(ps[..i + 1]) && ps[i].name == "" {
      var k :| 0 <= k < i + 1 && ps[..i + 1][k].name != "";
      assert k < i && ps[..i][k] == ps[..i + 1][k];
    }
    if AnyNamed(ps[..i]) {
      var k :| 0 <= k < i && ps[..i][k].name != "";
      assert ps[..i + 1][k] == ps[..i][k];
    }
  }

  /** The "Sync Local to Supabase" handler on the local client: with no
      window or nothing stored under the contractor key it does nothing;
      otherwise it fetches the list once, upserts every named stored entry
      and then removes the key. The fetched list is the table array itself,
      so each entry still sees the effect of the ones before it. */
  method SyncLocal(db: DB.ContractorDb, clock: seq<int>, today: string) returns (synced: bool)
    requires db.store.stored.Some? ==> |clock| >= |db.store.stored.value|
    modifies db.table, db.store
    ensures synced <==> db.store.hasWindow && old(db.store.stored).Some?
    ensures !synced ==> db.table.items == old(db.table.items) && db.store.stored == old(db.store.stored)
    ensures synced ==> db.table.items == ImportAll(old(db.table.items), old(db.store.stored).value, clock, today)
    ensures synced ==> db.store.stored.None?
  {
    if !db.store.hasWindow || db.store.stored.None? {
      return false;
    }
    var ps := db.store.stored.value;
    var all := db.table;
    var i := 0;
    while i < |ps|
      invariant 0 <= i <= |ps|
      invariant db.table.items == ImportAll(old(db.table.items), ps[..i], clock, today)
    {
      ImportAllStep(old(db.table.items), ps, i, clock, today);
      if ps[i].name != "" {
        Upsert(db, all, ps[i], clock[i], today);
      }
      i := i + 1;
    }
    assert ps[..|ps|] == ps;
    db.store.stored := None;
    return true;
  }
}
