/** The contractor picker: a search box over the active contractors, the
    filtered drop-down list, and the selection handler. */
module ContractorSelector {
  import opened Text
  import opened Wrappers
  import opened Statement
  import ContractorDatabase

  /** The lowercased name contains the lowercased term, or the account's
      last four digits contain the term as typed. */
  predicate Matches(c: Contractor, term: string)
  {
    Contains(LowerStr(c.name), LowerStr(term)) || Contains(c.paymentInfo.accountLastFour, term)
  }

  /** `filteredContractors`. */
  function Filtered(cs: seq<Contractor>, term: string): (r: seq<Contractor>)
    ensures |r| <= |cs|
    ensures forall c :: c in r <==> c in cs && Matches(c, term)
  {
    if cs == [] then []
    else if Matches(cs[0], term) then [cs[0]] + Filtered(cs[1..], term)
    else Filtered(cs[1..], term)
  }

  /** The filter keeps the list's order: filtering a concatenation is the
      concatenation of the filtered parts. */
  lemma {:induction false} FilteredAppend(a: seq<Contractor>, b: seq<Contractor>, term: string)
    ensures Filtered(a + b, term) == Filtered(a, term) + Filtered(b, term)
  {
    if a == [] {
      assert a + b == b;
    } else {
      assert (a + b)[1..] == a[1..] + b;
      FilteredAppend(a[1..], b, term);
    }
  }

  lemma ContainsEmpty(s: string)
    ensures Contains(s, "")
  {
    assert StartsWith(s, "");
  }

  lemma ContainsSelf(s: string)
    ensures Contains(s, s)
  {
    assert s[..|s|] == s;
  }

  /** An empty search lists every contractor. */
  lemma {:induction false} EmptyTermAll(cs: seq<Contractor>)
    ensures Filtered(cs, "") == cs
  {
    if cs != [] {
      assert LowerStr("") == "";
      ContainsEmpty(LowerStr(cs[0].name));
      EmptyTermAll(cs[1..]);
    }
  }

  /** The picker's state. */
  datatype Selector = Selector(contractors: seq<Contractor>, searchTerm: string, showDropdown: bool)

  /** The list loaded on mount: the active contractors. */
  function Mounted(rows: seq<Contractor>): (s: Selector)
    ensures s.contractors == ContractorDatabase.ActiveOf(rows)
    ensures forall c :: c in s.contractors <==> c in rows && c.isActive
    ensures s.searchTerm == "" && !s.showDropdown
  {
    Selector(ContractorDatabase.ActiveOf(rows), "", false)
  }

  /** Typing: the term changes and the drop-down opens. */
  function Type(s: Selector, text: string): (r: Selector)
    ensures r.contractors == s.contractors && r.searchTerm == text && r.showDropdown
  {
    s.(searchTerm := text, showDropdown := true)
  }

  /** `handleContractorSelect`: reports the contractor, writes its name into
      the search box and closes the drop-down. */
  function Select(s: Selector, c: Contractor): (r: (Selector, Contractor))
    ensures r.1 == c && r.0.contractors == s.contractors
    ensures r.0.searchTerm == c.name && !r.0.showDropdown
  {
    (s.(searchTerm := c.name, showDropdown := false), c)
  }

  /** After selecting a listed contractor, it is still in the filtered list. */
  lemma SelectedStaysListed(s: Selector, c: Contractor)
    requires c in s.contractors
    ensures c in Filtered(Select(s, c).0.contractors, Select(s, c).0.searchTerm)
  {
    ContainsSelf(LowerStr(c.name));
  }

  /** Whatever the term, the drop-down only offers active contractors of
      the table. */
  lemma OnlyActiveOffered(rows: seq<Contractor>, term: string)
    ensures forall c :: c in Filtered(Mounted(rows).contractors, term) ==> c in rows && c.isActive
  {
  }

  /** The contractor whose last four digits are typed exactly is offered. */
  lemma AccountFound(s: Selector, c: Contractor)
    requires c in s.contractors
    ensures c in Filtered(s.contractors, c.paymentInfo.accountLastFour)
  {
    ContainsSelf(c.paymentInfo.accountLastFour);
  }

  /** The selected contractor's panel lists its active buildings only. */
  function PanelBuildings(c: Contractor): (r: seq<BuildingAssignment>)
    ensures forall b :: b in r <==> b in c.buildings && b.isActive
  {
    ActiveBuildings(c.buildings)
  }
}
