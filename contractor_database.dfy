/** The in-memory contractor table and its persistence under the key
    "element-cleaning-contractors". The table is one array object that the
    operations change in place; when storage holds no usable list at start-up
    that object is the default-data array itself, and the model keeps that
    sharing visible. JSON encoding is not modelled: storage holds the parsed
    list, or nothing when the key is missing or unreadable. */
module ContractorDatabase {
  import opened Text
  import opened Wrappers
  import opened Statement

  const StorageKey: string := "element-cleaning-contractors"

  function Building(name: string, payPerVisit: real): BuildingAssignment
  {
    BuildingAssignment(name, None, payPerVisit, true, None)
  }

  function Record(id: string, name: string, street: string, city: string, zip: string,
                  lastFour: string, buildings: seq<BuildingAssignment>, added: string): Contractor
  {
    Contractor(id, name, Address(Some(street), city, "WA", zip), PaymentInfo("Direct Deposit", lastFour),
               buildings, true, added, None, None)
  }

  /** The six default contractors. */
  const DefaultContractors: seq<Contractor> := [
    Record("contractor-001", "Asphodel Vallejo Rangel", "6037 41st Ave SW", "Seattle", "98136", "1067",
           [Building("Building A", 85.0), Building("Building B", 90.0)], "2024-01-15"),
    Record("contractor-002", "Lisaura Brito Martinez", "3030 NE 10th St, Apt 209", "Renton", "98056", "3759",
           [Building("Office Complex Downtown", 95.0)], "2024-02-01"),
    Record("contractor-003", "Janet Ramirez Ruiz", "12239 16th Ave S", "Burien", "98168", "9449",
           [Building("Medical Center West", 110.0), Building("Retail Plaza", 75.0)], "2024-01-20"),
    Record("contractor-004", "Sheymy Ramirez", "12239 16th Ave S", "Burien", "98168", "9303",
           [Building("Tech Campus North", 100.0)], "2024-03-01"),
    Record("contractor-005", "Mar\U{ed}a Garc\U{ed}a", "2302 O St NE, Apt A", "Auburn", "98002", "2752",
           [Building("Corporate Center", 120.0), Building("Warehouse District", 80.0)], "2024-02-15"),
    Record("contractor-006", "Luis Lopez", "3030 NE 10th St, Apt 209", "Renton", "98056", "0000",
           [Building("Shopping Center East", 85.0)], "2024-03-10")
  ]

  /** A JavaScript array of contractors. */
  class ContractorList {
    var items: seq<Contractor>

    constructor (xs: seq<Contractor>)
      ensures items == xs
    {
      items := xs;
    }
  }

  /** The browser storage slot for the contractor list. */
  class ContractorStore {
    /** `typeof window !== "undefined"`. */
    const hasWindow: bool
    var stored: Option<seq<Contractor>>

    constructor (hasWindow: bool, stored: Option<seq<Contractor>>)
      ensures this.hasWindow == hasWindow && this.stored == stored
    {
      this.hasWindow := hasWindow;
      this.stored := stored;
    }
  }

  /** A stored list is used when there is a window and it is non-empty. */
  predicate Usable(hasWindow: bool, stored: Option<seq<Contractor>>)
  {
    hasWindow && stored.Some? && |stored.value| > 0
  }

  /** saveContractors: writes the list, or nothing on the server. */
  method SaveContractors(store: ContractorStore, contractors: seq<Contractor>)
    modifies store
    ensures store.stored == if store.hasWindow then Some(contractors) else old(store.stored)
  {
    if store.hasWindow {
      store.stored := Some(contractors);
    }
  }

  /** loadContractors: a new array holding the usable stored list, or else
      the defaults array itself, written to storage when there is a window. */
  method LoadContractors(store: ContractorStore, defaults: ContractorList) returns (list: ContractorList)
    modifies store
    ensures Usable(store.hasWindow, old(store.stored)) ==>
              fresh(list) && list.items == old(store.stored).value && store.stored == old(store.stored)
    ensures !Usable(store.hasWindow, old(store.stored)) ==> list == defaults
    ensures !Usable(store.hasWindow, old(store.stored)) && store.hasWindow ==> store.stored == Some(defaults.items)
    ensures !store.hasWindow ==> store.stored == old(store.stored)
  {
    if store.hasWindow && store.stored.Some? && |store.stored.value| > 0 {
      list := new ContractorList(store.stored.value);
      return;
    }
    if store.hasWindow {
      SaveContractors(store, defaults.items);
    }
    list := defaults;
  }

  /** The field-by-field `{ ...record, ...updates }` of a partial update. */
  datatype ContractorUpdate = ContractorUpdate(
    id: Option<string>,
    name: Option<string>,
    address: Option<Address>,
    paymentInfo: Option<PaymentInfo>,
    buildings: Option<seq<BuildingAssignment>>,
    isActive: Option<bool>,
    dateAdded: Option<string>,
    notes: Option<Option<string>>,
    googleDriveFolderId: Option<Option<string>>)

  function Pick<T>(u: Option<T>, x: T): T
  {
    if u.Some? then u.value else x
  }

  function Merge(c: Contractor, u: ContractorUpdate): Contractor
  {
    Contractor(Pick(u.id, c.id), Pick(u.name, c.name), Pick(u.address, c.address),
               Pick(u.paymentInfo, c.paymentInfo), Pick(u.buildings, c.buildings),
               Pick(u.isActive, c.isActive), Pick(u.dateAdded, c.dateAdded),
               Pick(u.notes, c.notes), Pick(u.googleDriveFolderId, c.googleDriveFolderId))
  }

  const Deactivation: ContractorUpdate :=
    ContractorUpdate(None, None, None, None, None, Some(false), None, None, None)

  /** The active records in stored order. */
  function ActiveOf(cs: seq<Contractor>): (r: seq<Contractor>)
    ensures |r| <= |cs|
    ensures forall c :: c in r <==> c in cs && c.isActive
  {
    if cs == [] then []
    else if cs[0].isActive then [cs[0]] + ActiveOf(cs[1..])
    else ActiveOf(cs[1..])
  }

  /** The filter distributes over concatenation, so the active records keep
      their stored order and appear once per stored occurrence. */
  lemma {:induction false} ActiveOfAppend(a: seq<Contractor>, b: seq<Contractor>)
    ensures ActiveOf(a + b) == ActiveOf(a) + ActiveOf(b)
    decreases |a|
  {
    if a == [] {
      assert a + b == b;
    } else {
      assert (a + b)[0] == a[0];
      assert (a + b)[1..] == a[1..] + b;
      ActiveOfAppend(a[1..], b);
    }
  }

  /** `findIndex` by id. */
  function IndexOfId(cs: seq<Contractor>, id: string): (r: Option<nat>)
    ensures r.Some? ==> r.value < |cs| && cs[r.value].id == id && forall j :: 0 <= j < r.value ==> cs[j].id != id
    ensures r.None? ==> forall j :: 0 <= j < |cs| ==> cs[j].id != id
  {
    if cs == [] then None
    else if cs[0].id == id then Some(0)
    else
      var r := IndexOfId(cs[1..], id);
      if r.Some? then Some(r.value + 1) else None
  }

  /** The lowercased name contains the lowercased query. */
  predicate NameMatches(c: Contractor, query: string)
  {
    Contains(LowerStr(c.name), LowerStr(query))
  }

  function FirstByName(cs: seq<Contractor>, query: string): (r: Option<Contractor>)
    ensures r.Some? ==> exists i :: 0 <= i < |cs| && cs[i] == r.value && NameMatches(cs[i], query)
                          && forall j :: 0 <= j < i ==> !NameMatches(cs[j], query)
    ensures r.None? ==> forall j :: 0 <= j < |cs| ==> !NameMatches(cs[j], query)
  {
    if cs == [] then None
    else if NameMatches(cs[0], query) then
      assert cs[0] == cs[0];
      Some(cs[0])
    else
      var r := FirstByName(cs[1..], query);
      assert forall j :: 0 < j < |cs| ==> cs[j] == cs[1..][j - 1];
      r
  }

  /** The empty query matches every name, so it finds the first record. */
  lemma EmptyQueryFirst(cs: seq<Contractor>)
    requires cs != []
    ensures FirstByName(cs, "") == Some(cs[0])
  {
    assert LowerStr("") == "";
    assert StartsWith(LowerStr(cs[0].name), "");
  }

  /** The new record: the supplied fields with a fresh id from the clock and
      today's date (`toISOString().split("T")[0]`, passed in). */
  function NewRecord(fields: Contractor, nowMs: int, today: string): Contractor
  {
    fields.(id := "contractor-" + IntToString(nowMs), dateAdded := today)
  }

  class ContractorDb {
    const store: ContractorStore
    /** The array `defaultContractorData`. */
    const defaults: ContractorList
    /** The array `contractorDatabase`; it may be `defaults` itself. */
    const table: ContractorList

    /** Module initialisation: `contractorDatabase = loadContractors()`. */
    constructor (store: ContractorStore)
      modifies store
      ensures this.store == store && fresh(defaults)
      ensures Usable(store.hasWindow, old(store.stored)) ==>
                fresh(table) && table.items == old(store.stored).value && store.stored == old(store.stored)
      ensures !Usable(store.hasWindow, old(store.stored)) ==> table == defaults && table.items == DefaultContractors
      ensures !Usable(store.hasWindow, old(store.stored)) && store.hasWindow ==> store.stored == Some(DefaultContractors)
      ensures !store.hasWindow ==> store.stored == old(store.stored)
    {
      var d := new ContractorList(DefaultContractors);
      var t := LoadContractors(store, d);
      this.store := store;
      defaults := d;
      table := t;
    }

    function GetActiveContractors(): (r: seq<Contractor>)
      reads table
      ensures r == ActiveOf(table.items)
      ensures forall c :: c in r <==> c in table.items && c.isActive
    {
      ActiveOf(table.items)
    }

    function GetContractorById(id: string): (r: Option<Contractor>)
      reads table
      ensures r.Some? <==> exists i :: 0 <= i < |table.items| && table.items[i].id == id
      ensures r.Some? ==> r.value.id == id && r.value in table.items
    {
      var i := IndexOfId(table.items, id);
      if i.Some? then Some(table.items[i.value]) else None
    }

    function GetContractorByName(query: string): Option<Contractor>
      reads table
    {
      FirstByName(table.items, query)
    }

    /** addContractor: appends the new record and saves the table. */
    method AddContractor(fields: Contractor, nowMs: int, today: string) returns (c: Contractor)
      modifies table, store
      ensures c == NewRecord(fields, nowMs, today)
      ensures table.items == old(table.items) + [c]
      ensures store.stored == if store.hasWindow then Some(table.items) else old(store.stored)
    {
      c := NewRecord(fields, nowMs, today);
      table.items := table.items + [c];
      SaveContractors(store, table.items);
    }

    /** updateContractor: merges into the first record with that id and
        saves; with no such record nothing changes and the answer is false. */
    method UpdateContractor(id: string, updates: ContractorUpdate) returns (ok: bool)
      modifies table, store
      ensures var i := IndexOfId(old(table.items), id);
              && ok == i.Some?
              && (ok ==> table.items == old(table.items)[i.value := Merge(old(table.items)[i.value], updates)])
              && (ok ==> store.stored == if store.hasWindow then Some(table.items) else old(store.stored))
              && (!ok ==> table.items == old(table.items) && store.stored == old(store.stored))
    {
      var i := IndexOfId(table.items, id);
      if i.Some? {
        table.items := table.items[i.value := Merge(table.items[i.value], updates)];
        SaveContractors(store, table.items);
        return true;
      }
      return false;
    }

    /** deactivateContractor: an update setting isActive to false. */
    method DeactivateContractor(id: string) returns (ok: bool)
      modifies table, store
      ensures var i := IndexOfId(old(table.items), id);
              && ok == i.Some?
              && (ok ==> table.items == old(table.items)[i.value := old(table.items)[i.value].(isActive := false)])
              && (ok ==> store.stored == if store.hasWindow then Some(table.items) else old(store.stored))
              && (!ok ==> table.items == old(table.items) && store.stored == old(store.stored))
    {
      ok := UpdateContractor(id, Deactivation);
    }

    /** refreshContractorDatabase: empties the table, then appends what
        loading returns. When the table is the defaults array, emptying it
        empties the defaults too. */
    method Refresh()
      modifies table, store
      ensures Usable(store.hasWindow, old(store.stored)) ==> table.items == old(store.stored).value
      ensures !Usable(store.hasWindow, old(store.stored)) ==>
                table.items == (if table == defaults then [] else old(defaults.items))
      ensures Usable(store.hasWindow, old(store.stored)) || !store.hasWindow ==> store.stored == old(store.stored)
      ensures !Usable(store.hasWindow, old(store.stored)) && store.hasWindow ==>
                store.stored == Some(if table == defaults then [] else old(defaults.items))
    {
      table.items := [];
      var loaded := LoadContractors(store, defaults);
      table.items := table.items + loaded.items;
    }

    /** saveCurrentContractors. */
    method SaveCurrent()
      modifies store
      ensures store.stored == if store.hasWindow then Some(table.items) else old(store.stored)
    {
      SaveContractors(store, table.items);
    }

    /** resetContractorDatabase as written: removes the stored key, empties
        the table and appends the defaults array's contents. When the table
        is the defaults array, that array is already empty by then. */
    method Reset()
      modifies table, store
      ensures table.items == (if table == defaults then [] else old(defaults.items))
      ensures store.stored == if store.hasWindow then Some(table.items) else old(store.stored)
    {
      if store.hasWindow {
        store.stored := None;
      }
      table.items := [];
      table.items := table.items + defaults.items;
      SaveContractors(store, table.items);
    }

    /** The reset the code evidently intends: the table holds the default
        records again. */
    method ResetToDefaults()
      modifies table, store
      ensures table.items == DefaultContractors
      ensures store.stored == if store.hasWindow then Some(DefaultContractors) else old(store.stored)
    {
      if store.hasWindow {
        store.stored := None;
      }
      table.items := DefaultContractors;
      SaveContractors(store, table.items);
    }
  }

  /** A first visit (a window, nothing stored) followed by a reset leaves
      the written reset with an empty table, and stores the empty list. */
  method FirstVisitReset() returns (items: seq<Contractor>, stored: Option<seq<Contractor>>)
    ensures items == [] && stored == Some([])
  {
    var store := new ContractorStore(true, None);
    var db := new ContractorDb(store);
    db.Reset();
    items := db.table.items;
    stored := store.stored;
  }

  /** The same visit with the intended reset gets the six defaults back. */
  method FirstVisitResetToDefaults() returns (items: seq<Contractor>)
    ensures items == DefaultContractors && |items| == 6
  {
    var store := new ContractorStore(true, None);
    var db := new ContractorDb(store);
    db.ResetToDefaults();
    items := db.table.items;
  }

  /** Every default record is active, so all six are offered. */
  lemma DefaultsAllActive()
    ensures ActiveOf(DefaultContractors) == DefaultContractors
  {
    var d := DefaultContractors;
    assert |d| == 6;
    assert d[0].isActive && d[1].isActive && d[2].isActive;
    assert d[3].isActive && d[4].isActive && d[5].isActive;
    ActiveAll(d);
  }

  lemma {:induction false} ActiveAll(cs: seq<Contractor>)
    requires forall i :: 0 <= i < |cs| ==> cs[i].isActive
    ensures ActiveOf(cs) == cs
  {
    if cs != [] {
      ActiveAll(cs[1..]);
    }
  }

  /** Deactivating removes exactly that record from the active list: it
      leaves, the other active records stay, and nothing else joins. */
  lemma DeactivateRemovesFromActive(cs: seq<Contractor>, i: nat)
    requires i < |cs| && cs[i].isActive
    requires forall j :: 0 <= j < |cs| && j != i ==> cs[j] != cs[i]
    ensures cs[i] !in ActiveOf(cs[i := cs[i].(isActive := false)])
    ensures forall c :: c in ActiveOf(cs) && c != cs[i] ==> c in ActiveOf(cs[i := cs[i].(isActive := false)])
    ensures forall c :: c in ActiveOf(cs[i := cs[i].(isActive := false)]) ==> c in ActiveOf(cs) && c != cs[i]
  {
    var cs' := cs[i := cs[i].(isActive := false)];
    forall c | c in ActiveOf(cs') ensures c in ActiveOf(cs) && c != cs[i] {
      var j :| 0 <= j < |cs'| && cs'[j] == c;
      assert j != i;
      assert cs[j] == c;
    }
    forall c | c in ActiveOf(cs) && c != cs[i] ensures c in ActiveOf(cs') {
      var j :| 0 <= j < |cs| && cs[j] == c;
      assert cs'[j] == c;
    }
  }
}
