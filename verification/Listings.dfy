/** Every table has a JSON listing. */
module Listings {
  import opened Orders
  import opened Clock
  import opened Kernel

  lemma {:induction false} SeqOf<T>(all: set<T>) returns (s: seq<T>)
    ensures Elems(s) == all && Distinct(s)
  {
    if all == {} {
      s := [];
    } else {
      var x :| x in all;
      var rest := SeqOf(all - {x});
      forall i | 0 <= i < |rest| ensures rest[i] != x {
        assert rest[i] in Elems(rest);
      }
      s := [x] + rest;
      assert Elems(s) == {x} + Elems(rest);
    }
  }

  ghost function ListingOf(s: NftSet, at: Time): (elem: seq<Element>)
    ensures ListsSet(elem, s, at)
  {
    assert exists e :: ListsSet(e, s, at) by {
      var e := SeqOf(set a | a in LiveElements(s, at) :: Listed(s, a, at));
      assert ListsSet(e, s, at);
    }
    var e :| ListsSet(e, s, at);
    e
  }

  /** Every table can be listed. */
  lemma ListingExists(table: Table, at: Time) returns (entries: seq<Entry>)
    ensures IsListing(entries, SHIELD, table, at)
  {
    var names := SeqOf(table.sets.Keys);
    assert forall i :: 0 <= i < |names| ==> names[i] in Elems(names);
    entries := seq(|names|, i requires 0 <= i < |names| && names[i] in table.sets =>
      SetEntry(SHIELD.family, SHIELD.name, names[i], ListingOf(table.sets[names[i]], at)));
    forall s | s in table.sets ensures exists i :: 0 <= i < |entries| && entries[i].SetEntry? && entries[i].name == s {
      assert s in Elems(names);
      var i :| 0 <= i < |names| && names[i] == s;
      assert entries[i].name == s;
    }
  }
}
