/** Records read back by the moment an event is stamped with, and by arrival within one moment. */
module Stamps {
  datatype Stamped<+E> = Entry(event: E, at: int)

  ghost predicate Sorted<E>(record: seq<Stamped<E>>) {
    forall i, j :: 0 <= i < j < |record| ==> record[i].at <= record[j].at
  }

  /** Where an event stamped `at` is read: after everything stamped no later. */
  function Place<E>(record: seq<Stamped<E>>, at: int): (place: nat)
    ensures place <= |record|
  {
    if record == [] || record[|record| - 1].at <= at then |record|
    else Place(record[..|record| - 1], at)
  }

  function Insert<E>(record: seq<Stamped<E>>, entry: Stamped<E>): seq<Stamped<E>> {
    var place := Place(record, entry.at);
    record[..place] + [entry] + record[place..]
  }

  lemma {:induction false} PlaceSplits<E>(record: seq<Stamped<E>>, at: int)
    requires Sorted(record)
    ensures forall i :: 0 <= i < Place(record, at) ==> record[i].at <= at
    ensures forall i :: Place(record, at) <= i < |record| ==> at < record[i].at
  {
    if record != [] && record[|record| - 1].at > at {
      PlaceSplits(record[..|record| - 1], at);
    }
  }

  lemma InsertKeepsOrder<E>(record: seq<Stamped<E>>, entry: Stamped<E>)
    requires Sorted(record)
    ensures Sorted(Insert(record, entry))
  {
    PlaceSplits(record, entry.at);
  }

  lemma InsertAtEnd<E>(record: seq<Stamped<E>>, entry: Stamped<E>)
    requires forall i :: 0 <= i < |record| ==> record[i].at <= entry.at
    ensures Place(record, entry.at) == |record| && Insert(record, entry) == record + [entry]
  {
    if record != [] {
      assert record[|record| - 1].at <= entry.at;
    }
    assert record[..|record|] == record && record[|record|..] == [];
  }

  function InsertAll<E>(record: seq<Stamped<E>>, entries: seq<Stamped<E>>): seq<Stamped<E>> {
    if entries == [] then record
    else Insert(InsertAll(record, entries[..|entries| - 1]), entries[|entries| - 1])
  }

  // ----- the record of what has committed -----

  /** What is read back of a list of inserts: those that have committed, each at the place of its stamp. */
  function ReadBack<E>(inserts: seq<Stamped<E>>, committed: set<nat>): (record: seq<Stamped<E>>) {
    if inserts == [] then []
    else
      var n := |inserts| - 1;
      var before := ReadBack(inserts[..n], committed);
      if n in committed then Insert(before, inserts[n]) else before
  }

  /** The order of reading: by stamp, and within one moment by arrival. */
  predicate ReadsBefore<E>(inserts: seq<Stamped<E>>, i: nat, j: nat)
    requires i < |inserts| && j < |inserts|
  {
    inserts[i].at < inserts[j].at || (inserts[i].at == inserts[j].at && i < j)
  }

  /** Where the i-th insert is read. */
  function PlaceOf<E>(inserts: seq<Stamped<E>>, committed: set<nat>, i: nat): nat
    requires i < |inserts| && i in committed
  {
    var n := |inserts| - 1;
    var lastAt := Place(ReadBack(inserts[..n], committed), inserts[n].at);
    if i == n then lastAt
    else
      var p := PlaceOf(inserts[..n], committed, i);
      if n in committed && lastAt <= p then p + 1 else p
  }

  lemma {:induction false} ReadBackIsSorted<E>(inserts: seq<Stamped<E>>, committed: set<nat>)
    ensures Sorted(ReadBack(inserts, committed))
  {
    if inserts != [] {
      var n := |inserts| - 1;
      ReadBackIsSorted(inserts[..n], committed);
      InsertKeepsOrder(ReadBack(inserts[..n], committed), inserts[n]);
    }
  }

  /** Every committed insert is read at its place. */
  lemma {:induction false} IsReadAtItsPlace<E>(inserts: seq<Stamped<E>>, committed: set<nat>, i: nat)
    requires i < |inserts| && i in committed
    ensures var p := PlaceOf(inserts, committed, i);
            p < |ReadBack(inserts, committed)| && ReadBack(inserts, committed)[p] == inserts[i]
  {
    if i < |inserts| - 1 {
      IsReadAtItsPlace(inserts[..|inserts| - 1], committed, i);
    }
  }

  /** And there is nothing else in the record. */
  lemma {:induction false} EveryPlaceIsTaken<E>(inserts: seq<Stamped<E>>, committed: set<nat>, p: nat) returns (i: nat)
    requires p < |ReadBack(inserts, committed)|
    ensures i < |inserts| && i in committed && PlaceOf(inserts, committed, i) == p
  {
    var n := |inserts| - 1;
    var before := ReadBack(inserts[..n], committed);
    var lastAt := Place(before, inserts[n].at);
    if n !in committed || p < lastAt {
      i := EveryPlaceIsTaken(inserts[..n], committed, p);
    } else if p == lastAt {
      i := n;
    } else {
      i := EveryPlaceIsTaken(inserts[..n], committed, p - 1);
    }
  }

  /** Places are in the order of reading. */
  lemma {:induction false} PlacesAreInOrder<E>(inserts: seq<Stamped<E>>, committed: set<nat>, i: nat, j: nat)
    requires i < |inserts| && j < |inserts| && i in committed && j in committed
    requires ReadsBefore(inserts, i, j)
    ensures PlaceOf(inserts, committed, i) < PlaceOf(inserts, committed, j)
  {
    var n := |inserts| - 1;
    if i < n && j < n {
      PlacesAreInOrder(inserts[..n], committed, i, j);
    } else {
      var k := if j == n then i else j;
      var before, q := ReadBack(inserts[..n], committed), PlaceOf(inserts[..n], committed, k);
      ReadBackIsSorted(inserts[..n], committed);
      PlaceSplits(before, inserts[n].at);
      IsReadAtItsPlace(inserts[..n], committed, k);
      assert before[q].at == inserts[k].at;
    }
  }

  /** Two places of the record hold two inserts, in the order of reading. */
  lemma ReadInOrder<E>(inserts: seq<Stamped<E>>, committed: set<nat>, a: nat, b: nat) returns (i: nat, j: nat)
    requires a < b < |ReadBack(inserts, committed)|
    ensures i < |inserts| && j < |inserts| && i in committed && j in committed && i != j
    ensures inserts[i] == ReadBack(inserts, committed)[a] && inserts[j] == ReadBack(inserts, committed)[b]
    ensures ReadsBefore(inserts, i, j)
  {
    i := EveryPlaceIsTaken(inserts, committed, a);
    j := EveryPlaceIsTaken(inserts, committed, b);
    IsReadAtItsPlace(inserts, committed, i);
    IsReadAtItsPlace(inserts, committed, j);
    if !ReadsBefore(inserts, i, j) {
      PlacesAreInOrder(inserts, committed, j, i);
    }
  }
}
