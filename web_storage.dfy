/** Saved pay statements in the browser's key-value storage, one entry per
    statement under the key "payStatement_<name>_<timestamp>". Stored
    values are modelled after parsing: the statement a key holds, or an
    entry that does not read back as one. */
module WebStorage {
  import opened Text
  import opened Wrappers
  import opened Statement

  const SavePrefix: string := "payStatement_"

  /** The key a statement saved at `nowMs` is stored under. */
  function SaveKey(name: string, nowMs: int): (k: string)
    ensures StartsWith(k, SavePrefix)
  {
    assert (SavePrefix + (name + "_" + IntToString(nowMs)))[..|SavePrefix|] == SavePrefix;
    SavePrefix + name + "_" + IntToString(nowMs)
  }

  /** What an entry holds: a saved statement, or a value that is empty or
      does not parse. */
  datatype Item = Saved(data: PayStatementData) | Unreadable

  /** `window.localStorage`; `hasWindow` is `typeof window !== "undefined"`. */
  class Storage {
    const hasWindow: bool
    /** `Object.keys(localStorage)`: each stored key once. */
    var keys: seq<string>
    var items: map<string, Item>

    ghost predicate Valid()
      reads this
    {
      (forall k :: k in items <==> k in keys) &&
      Distinct(keys)
    }

    constructor (hasWindow: bool)
      ensures Valid() && this.hasWindow == hasWindow && keys == [] && items == map[]
    {
      this.hasWindow := hasWindow;
      keys := [];
      items := map[];
    }

    /** `setItem`: a new key is added to the key list, an existing one is
        overwritten in place. */
    method SetItem(key: string, item: Item)
      requires Valid()
      modifies this
      ensures Valid() && items == old(items)[key := item]
      ensures keys == if key in old(items) then old(keys) else old(keys) + [key]
    {
      if key !in items {
        keys := keys + [key];
      }
      items := items[key := item];
    }

    /** `savePayStatement`: without a window nothing is stored and the
        answer is null. */
    method Save(name: string, data: PayStatementData, nowMs: int) returns (key: Option<string>)
      requires Valid()
      modifies this
      ensures Valid()
      ensures !hasWindow ==> key.None? && items == old(items) && keys == old(keys)
      ensures hasWindow ==> key == Some(SaveKey(name, nowMs)) && items == old(items)[key.value := Saved(data)]
      ensures hasWindow ==> Load(key.value) == Some(data)
      ensures forall k :: k != SaveKey(name, nowMs) ==> Load(k) == old(Load(k))
    {
      if !hasWindow {
        return None;
      }
      var k := SaveKey(name, nowMs);
      SetItem(k, Saved(data));
      return Some(k);
    }

    /** `loadPayStatement`: the statement under the key, or null. */
    function Load(key: string): (r: Option<PayStatementData>)
      reads this
      ensures r.Some? <==> hasWindow && key in items && items[key].Saved?
      ensures r.Some? ==> items[key] == Saved(r.value)
    {
      if hasWindow && key in items && items[key].Saved? then Some(items[key].data) else None
    }

    /** `getAllSavedStatements`: the stored keys with the save prefix, or
        none without a window. */
    function AllSaved(): (r: seq<string>)
      reads this
      ensures !hasWindow ==> r == []
      ensures hasWindow ==> forall k :: k in r <==> k in keys && StartsWith(k, SavePrefix)
    {
      if hasWindow then PrefixedKeys(keys) else []
    }

    /** `deletePayStatement`, and `clearLocalStorage`, which does the same:
        only that key goes. */
    method Remove(key: string)
      requires Valid()
      modifies this
      ensures Valid()
      ensures hasWindow ==> items == old(items) - {key} && keys == Without(old(keys), key)
      ensures !hasWindow ==> items == old(items) && keys == old(keys)
      ensures hasWindow ==> Load(key).None?
      ensures forall k :: k != key ==> Load(k) == old(Load(k))
    {
      if hasWindow {
        WithoutSpec(keys, key);
        keys := Without(keys, key);
        items := items - {key};
      }
    }
  }

  function PrefixedKeys(ks: seq<string>): (r: seq<string>)
    ensures forall k :: k in r <==> k in ks && StartsWith(k, SavePrefix)
  {
    if ks == [] then []
    else if StartsWith(ks[0], SavePrefix) then [ks[0]] + PrefixedKeys(ks[1..])
    else PrefixedKeys(ks[1..])
  }

  /** The list with one key taken out. */
  function Without(ks: seq<string>, key: string): (r: seq<string>)
    ensures forall k :: k in r <==> k in ks && k != key
  {
    if ks == [] then []
    else if ks[0] == key then Without(ks[1..], key)
    else [ks[0]] + Without(ks[1..], key)
  }

  predicate Distinct(ks: seq<string>)
  {
    forall i, j :: 0 <= i < j < |ks| ==> ks[i] != ks[j]
  }

  /** Removing a key keeps the rest distinct. */
  lemma {:induction false} WithoutSpec(ks: seq<string>, key: string)
    requires Distinct(ks)
    ensures Distinct(Without(ks, key))
  {
    if ks != [] {
      assert Distinct(ks[1..]) by {
        forall i, j | 0 <= i < j < |ks[1..]| ensures ks[1..][i] != ks[1..][j] {
          assert ks[1..][i] == ks[i + 1] && ks[1..][j] == ks[j + 1];
        }
      }
      WithoutSpec(ks[1..], key);
      var rest := Without(ks[1..], key);
      if ks[0] != key {
        var r := [ks[0]] + rest;
        assert ks[0] !in ks[1..] by {
          forall m | 0 <= m < |ks[1..]| ensures ks[1..][m] != ks[0] {
            assert ks[1..][m] == ks[m + 1];
          }
        }
        forall i, j | 0 <= i < j < |r| ensures r[i] != r[j] {
          if i == 0 {
            assert r[j] == rest[j - 1];
          } else {
            assert r[i] == rest[i - 1] && r[j] == rest[j - 1];
          }
        }
      }
    }
  }

  /** The name and the timestamp of a saved key can be told apart from the
      key: the timestamp has no underscore. */
  lemma TimestampHasNoSeparator(nowMs: int)
    ensures '_' !in IntToString(nowMs)
  {
    var n: nat := if nowMs < 0 then -nowMs else nowMs;
    NatToStringSpec(n);
    var digits := NatToString(n);
    assert forall i :: 0 <= i < |digits| ==> digits[i] != '_';
    if nowMs < 0 {
      assert IntToString(nowMs) == "-" + digits;
      assert forall i :: 0 <= i < |"-" + digits| ==> ("-" + digits)[i] != '_' by {
        assert forall i :: 1 <= i < |"-" + digits| ==> ("-" + digits)[i] == digits[i - 1];
      }
    }
  }
}
