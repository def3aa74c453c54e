/**
 * Content text: the same content always prints the same, and different content never does
 * (packages/core/src/content.ts).
 */
module Content {
  import opened Json
  import opened Results

  /**
   * A value of any kind. A number is its printed text; an object is its own enumerable members, in the order they
   * were put in, without two of one key.
   */
  datatype Value =
    | Null | Bool(value: bool) | Number(text: NumberText) | NotFinite | BigInt | String(chars: Text)
    | Array(items: seq<Value>) | Object(members: seq<Keyed<Value>>)
    | Undefined | Other

  // ----- the order of keys -----

  /** JavaScript's `<` on strings: unit by unit, a prefix first. */
  predicate KeyLess(a: Text, b: Text) {
    if b == [] then false
    else if a == [] then true
    else if a[0] != b[0] then a[0] < b[0]
    else KeyLess(a[1..], b[1..])
  }

  lemma {:induction false} KeyOrderIsTotal(a: Text, b: Text)
    ensures KeyLess(a, b) || KeyLess(b, a) || a == b
    ensures !(KeyLess(a, b) && KeyLess(b, a))
    ensures !KeyLess(a, a)
    decreases |a|
  {
    if a != [] {
      KeyOrderIsTotal(a[1..], if b != [] then b[1..] else []);
      if b != [] && a[0] == b[0] {
        assert a == [a[0]] + a[1..] && b == [b[0]] + b[1..];
      }
    }
  }

  lemma {:induction false} KeyOrderIsTransitive(a: Text, b: Text, c: Text)
    requires KeyLess(a, b) && KeyLess(b, c)
    ensures KeyLess(a, c)
    decreases |a|
  {
    if a != [] && a[0] == b[0] == c[0] {
      KeyOrderIsTransitive(a[1..], b[1..], c[1..]);
    }
  }

  /** `k` is where the keys first differ: there the first one ends, or has the smaller unit. */
  predicate SmallerAt(a: Text, b: Text, k: nat) {
    && k <= |a| && k < |b| && a[..k] == b[..k]
    && (k == |a| || a[k] < b[k])
  }

  lemma HeadIsShared(a: Text, b: Text, k: nat)
    requires SmallerAt(a, b, k)
    ensures k > 0 ==> a != [] && b != [] && a[0] == b[0]
  {
    if k > 0 {
      assert a[..k][0] == b[..k][0];
    }
  }

  /** One key comes before another exactly when it is smaller where they first differ. */
  lemma {:induction false} KeyLessExactlyWhen(a: Text, b: Text)
    ensures KeyLess(a, b) <==> exists k: nat :: SmallerAt(a, b, k)
    decreases |a|
  {
    if a == [] || b == [] || a[0] != b[0] {
      if b != [] && (a == [] || a[0] < b[0]) {
        assert SmallerAt(a, b, 0);
      }
      forall k: nat | SmallerAt(a, b, k)
        ensures k == 0
      {
        HeadIsShared(a, b, k);
      }
    } else {
      KeyLessExactlyWhen(a[1..], b[1..]);
      if k: nat :| SmallerAt(a[1..], b[1..], k) {
        assert a[..k + 1] == [a[0]] + a[1..][..k] && b[..k + 1] == [b[0]] + b[1..][..k];
        assert SmallerAt(a, b, k + 1);
      }
      if k: nat :| SmallerAt(a, b, k) {
        assert a[1..][..k - 1] == a[..k][1..] && b[1..][..k - 1] == b[..k][1..];
        assert SmallerAt(a[1..], b[1..], k - 1);
      }
    }
  }

  function Insert<T>(e: Keyed<T>, sorted: seq<Keyed<T>>): seq<Keyed<T>> {
    if sorted == [] || !KeyLess(sorted[0].key, e.key) then [e] + sorted else [sorted[0]] + Insert(e, sorted[1..])
  }

  function Sort<T>(entries: seq<Keyed<T>>): seq<Keyed<T>> {
    if entries == [] then [] else Insert(entries[0], Sort(entries[1..]))
  }

  // ----- the text -----

  function CanonicalJson(value: Value): Result<Text>
    decreases value
  {
    match value
    case Null => Success(NULL)
    case Bool(b) => Success(if b then TRUE else FALSE)
    case Number(text) => Success(text)
    case NotFinite => Failure(InvalidInput)
    case String(chars) => Success(Quote(chars))
    case BigInt => Failure(InvalidInput)
    case Array(items) =>
      var texts :- CanonicalItems(items);
      Success([91] + Join(texts) + [93])
    case Object(members) =>
      var entries :- CanonicalMembers(members);
      Success([123] + Join(Parts(Sort(entries))) + [125])
    case Undefined => Failure(InvalidInput)
    case Other => Failure(InvalidInput)
  }

  function CanonicalItems(items: seq<Value>): Result<seq<Text>>
    decreases items
  {
    if items == [] then Success([])
    else
      var first :- CanonicalJson(items[0]);
      var more :- CanonicalItems(items[1..]);
      Success([first] + more)
  }

  /**
   * The members that are not undefined, printed. They are sorted after that, which comes to the same: PrintThenSort.
   */
  function CanonicalMembers(members: seq<Keyed<Value>>): Result<seq<Keyed<Text>>>
    decreases members
  {
    if members == [] then Success([])
    else if members[0].item.Undefined? then CanonicalMembers(members[1..])
    else
      var first :- CanonicalJson(members[0].item);
      var more :- CanonicalMembers(members[1..]);
      Success([Keyed(members[0].key, first)] + more)
  }

  // ----- what can be stored -----

  predicate Storable(value: Value)
    decreases value
  {
    match value
    case Null => true
    case Bool(_) => true
    case Number(_) => true
    case String(_) => true
    case Array(items) => forall i :: 0 <= i < |items| ==> Storable(items[i])
    case Object(members) => forall i :: 0 <= i < |members| ==> members[i].item.Undefined? || Storable(members[i].item)
    case _ => false
  }

  /** No object anywhere in the value has two members of one key. */
  predicate KeysDiffer(value: Value)
    decreases value
  {
    match value
    case Array(items) => forall i :: 0 <= i < |items| ==> KeysDiffer(items[i])
    case Object(members) =>
      && (forall i :: 0 <= i < |members| ==> KeysDiffer(members[i].item))
      && forall i, j :: 0 <= i < j < |members| ==> members[i].key != members[j].key
    case _ => true
  }

  /** A member that is there to be printed. */
  predicate Kept(members: seq<Keyed<Value>>, i: int) {
    0 <= i < |members| && !members[i].item.Undefined?
  }

  /** Equal content: the same but for the order of members and members that are undefined. */
  ghost predicate Same(v: Value, w: Value)
    decreases v
  {
    match v
    case Array(items) =>
      w.Array? && |items| == |w.items| && forall i :: 0 <= i < |items| ==> Same(items[i], w.items[i])
    case Object(members) =>
      && w.Object?
      && (forall i | Kept(members, i) :: exists j :: SameMember(members, i, w.members, j))
      && (forall j | Kept(w.members, j) :: exists i :: SameMember(members, i, w.members, j))
    case _ => v == w
  }

  ghost predicate SameMember(v: seq<Keyed<Value>>, i: int, w: seq<Keyed<Value>>, j: int)
    decreases v
  {
    Kept(v, i) && Kept(w, j) && v[i].key == w[j].key && Same(v[i].item, w[j].item)
  }

  // ----- a value and the JSON it stands for -----

  function Normal(value: Value): Json
    requires Storable(value)
    decreases value
  {
    match value
    case Null => JNull
    case Bool(b) => JBool(b)
    case Number(text) => JNumber(text)
    case String(chars) => JString(chars)
    case Array(items) => JArray(NormalItems(items))
    case Object(members) => JObject(Sort(NormalMembers(members)))
  }

  function NormalItems(items: seq<Value>): (normal: seq<Json>)
    requires forall i :: 0 <= i < |items| ==> Storable(items[i])
    ensures |normal| == |items| && forall i :: 0 <= i < |items| ==> normal[i] == Normal(items[i])
    decreases items
  {
    if items == [] then [] else [Normal(items[0])] + NormalItems(items[1..])
  }

  function NormalMembers(members: seq<Keyed<Value>>): seq<Keyed<Json>>
    requires forall i :: 0 <= i < |members| ==> members[i].item.Undefined? || Storable(members[i].item)
    decreases members
  {
    if members == [] then []
    else if members[0].item.Undefined? then NormalMembers(members[1..])
    else [Keyed(members[0].key, Normal(members[0].item))] + NormalMembers(members[1..])
  }

  lemma {:induction false} PrintInserted(e: Keyed<Json>, sorted: seq<Keyed<Json>>)
    ensures PrintEntries(Insert(e, sorted)) == Insert(Keyed(e.key, Print(e.item)), PrintEntries(sorted))
  {
    if sorted != [] {
      assert PrintEntries([e] + sorted) == [Keyed(e.key, Print(e.item))] + PrintEntries(sorted) by {
        assert ([e] + sorted)[1..] == sorted;
      }
      PrintInserted(e, sorted[1..]);
      var more := Insert(e, sorted[1..]);
      assert ([sorted[0]] + more)[1..] == more;
    }
  }

  /** Sorting members and then printing them is printing them and then sorting. */
  lemma {:induction false} PrintThenSort(members: seq<Keyed<Json>>)
    ensures PrintEntries(Sort(members)) == Sort(PrintEntries(members))
  {
    if members != [] {
      PrintThenSort(members[1..]);
      PrintInserted(members[0], Sort(members[1..]));
    }
  }

  /** Exactly the storable values are accepted, and each prints as the JSON it stands for. */
  lemma {:induction false} AcceptedExactlyWhenStorable(value: Value)
    ensures CanonicalJson(value) == if Storable(value) then Success(Print(Normal(value))) else Failure(InvalidInput)
    decreases value, 0
  {
    match value
    case Array(items) =>
      ItemsAccepted(items);
    case Object(members) =>
      MembersAccepted(members);
      if Storable(value) {
        PrintThenSort(NormalMembers(members));
      }
    case _ =>
  }

  lemma AllStorable(items: seq<Value>, rest: seq<Value>)
    requires items != [] && rest == items[1..]
    ensures (forall i :: 0 <= i < |items| ==> Storable(items[i]))
       <==> Storable(items[0]) && forall i :: 0 <= i < |rest| ==> Storable(rest[i])
  {
    assert forall i :: 1 <= i < |items| ==> items[i] == rest[i - 1];
  }

  lemma {:induction false} ItemsAccepted(items: seq<Value>)
    ensures CanonicalItems(items)
         == if forall i :: 0 <= i < |items| ==> Storable(items[i]) then Success(PrintAll(NormalItems(items)))
            else Failure(InvalidInput)
    decreases items, 1
  {
    if items != [] {
      AcceptedExactlyWhenStorable(items[0]);
      ItemsAccepted(items[1..]);
      AllStorable(items, items[1..]);
    }
  }

  lemma {:induction false} MembersAccepted(members: seq<Keyed<Value>>)
    ensures CanonicalMembers(members)
         == if forall i :: 0 <= i < |members| ==> members[i].item.Undefined? || Storable(members[i].item) then
              Success(PrintEntries(NormalMembers(members)))
            else Failure(InvalidInput)
    decreases members, 1
  {
    if members != [] {
      AcceptedExactlyWhenStorable(members[0].item);
      MembersAccepted(members[1..]);
      assert members == [members[0]] + members[1..];
    }
  }

  // ----- the order members were put in does not show -----

  predicate InKeyOrder<T>(entries: seq<Keyed<T>>) {
    forall i, j :: 0 <= i < j < |entries| ==> KeyLess(entries[i].key, entries[j].key)
  }

  predicate DistinctKeys<T>(entries: seq<Keyed<T>>) {
    forall i, j :: 0 <= i < j < |entries| ==> entries[i].key != entries[j].key
  }

  lemma {:induction false} InsertAdds<T>(e: Keyed<T>, sorted: seq<Keyed<T>>, x: Keyed<T>)
    ensures x in Insert(e, sorted) <==> x == e || x in sorted
  {
    if sorted != [] {
      InsertAdds(e, sorted[1..], x);
      assert sorted == [sorted[0]] + sorted[1..];
    }
  }

  lemma LeastInFront<T>(e: Keyed<T>, sorted: seq<Keyed<T>>)
    requires InKeyOrder(sorted) && forall i :: 0 <= i < |sorted| ==> KeyLess(e.key, sorted[i].key)
    ensures InKeyOrder([e] + sorted)
  {
  }

  lemma {:induction false} InsertKeepsOrder<T>(e: Keyed<T>, sorted: seq<Keyed<T>>)
    requires InKeyOrder(sorted) && forall i :: 0 <= i < |sorted| ==> sorted[i].key != e.key
    ensures InKeyOrder(Insert(e, sorted))
  {
    if sorted != [] {
      KeyOrderIsTotal(e.key, sorted[0].key);
      if KeyLess(sorted[0].key, e.key) {
        var more := Insert(e, sorted[1..]);
        InsertKeepsOrder(e, sorted[1..]);
        forall i | 0 <= i < |more|
          ensures KeyLess(sorted[0].key, more[i].key)
        {
          InsertAdds(e, sorted[1..], more[i]);
        }
        LeastInFront(sorted[0], more);
      } else {
        forall i | 0 <= i < |sorted|
          ensures KeyLess(e.key, sorted[i].key)
        {
          if i > 0 { KeyOrderIsTransitive(e.key, sorted[0].key, sorted[i].key); }
        }
        LeastInFront(e, sorted);
      }
    }
  }

  lemma {:induction false} SortKeeps<T>(entries: seq<Keyed<T>>, x: Keyed<T>)
    ensures x in Sort(entries) <==> x in entries
  {
    if entries != [] {
      SortKeeps(entries[1..], x);
      InsertAdds(entries[0], Sort(entries[1..]), x);
      assert entries == [entries[0]] + entries[1..];
    }
  }

  /** Sorting gives the same entries in the order of their keys' UTF-16 units (section 3.2.3 of RFC 8785). */
  lemma {:induction false} SortSorts<T>(entries: seq<Keyed<T>>)
    requires DistinctKeys(entries)
    ensures InKeyOrder(Sort(entries))
    ensures forall x :: x in Sort(entries) <==> x in entries
  {
    forall x
      ensures x in Sort(entries) <==> x in entries
    {
      SortKeeps(entries, x);
    }
    if entries != [] {
      var rest := entries[1..];
      SortSorts(rest);
      forall i | 0 <= i < |Sort(rest)|
        ensures Sort(rest)[i].key != entries[0].key
      {
        SortKeeps(rest, Sort(rest)[i]);
      }
      InsertKeepsOrder(entries[0], Sort(rest));
    }
  }

  lemma HeadsAgree<T>(a: seq<Keyed<T>>, b: seq<Keyed<T>>)
    requires a != [] && b != [] && InKeyOrder(a) && InKeyOrder(b)
    requires forall x :: x in a <==> x in b
    ensures a[0] == b[0]
  {
    assert a[0] in b && b[0] in a;
    var i :| 0 <= i < |b| && b[i] == a[0];
    var j :| 0 <= j < |a| && a[j] == b[0];
    KeyOrderIsTotal(a[0].key, b[0].key);
  }

  lemma TailOf<T>(a: seq<Keyed<T>>, x: Keyed<T>)
    requires a != [] && InKeyOrder(a)
    ensures x in a[1..] <==> x in a && x != a[0]
  {
    assert a == [a[0]] + a[1..];
    KeyOrderIsTotal(a[0].key, a[0].key);
  }

  lemma TailsAgree<T>(a: seq<Keyed<T>>, b: seq<Keyed<T>>, restOfA: seq<Keyed<T>>, restOfB: seq<Keyed<T>>)
    requires a != [] && b != [] && InKeyOrder(a) && InKeyOrder(b) && a[0] == b[0]
    requires restOfA == a[1..] && restOfB == b[1..]
    requires forall x :: x in a <==> x in b
    ensures forall x :: x in restOfA <==> x in restOfB
  {
    forall x
      ensures x in restOfA <==> x in restOfB
    {
      TailOf(a, x);
      TailOf(b, x);
    }
  }

  /** There is only one way to put entries in order. */
  lemma {:induction false} OrderIsUnique<T>(a: seq<Keyed<T>>, b: seq<Keyed<T>>)
    requires InKeyOrder(a) && InKeyOrder(b)
    requires forall x :: x in a <==> x in b
    ensures a == b
  {
    assert a != [] ==> a[0] in a && a[0] in b;
    assert b != [] ==> b[0] in b && b[0] in a;
    if a == [] {
    } else {
      HeadsAgree(a, b);
      TailsAgree(a, b, a[1..], b[1..]);
      OrderIsUnique(a[1..], b[1..]);
      assert a == [a[0]] + a[1..] && b == [b[0]] + b[1..];
    }
  }

  /** Two lists of entries sort alike exactly when they hold the same entries. */
  lemma SortsAlikeExactlyWhenSameEntries<T>(a: seq<Keyed<T>>, b: seq<Keyed<T>>)
    requires DistinctKeys(a) && DistinctKeys(b)
    ensures Sort(a) == Sort(b) <==> forall x :: x in a <==> x in b
  {
    SortSorts(a);
    SortSorts(b);
    if forall x :: x in a <==> x in b {
      OrderIsUnique(Sort(a), Sort(b));
    }
  }

  // ----- the same text exactly for the same content -----

  predicate MembersStorable(members: seq<Keyed<Value>>) {
    forall i :: 0 <= i < |members| ==> members[i].item.Undefined? || Storable(members[i].item)
  }

  ghost predicate Stands(members: seq<Keyed<Value>>, i: int, e: Keyed<Json>)
    requires MembersStorable(members)
  {
    0 <= i < |members| && !members[i].item.Undefined? && e == Keyed(members[i].key, Normal(members[i].item))
  }

  lemma {:induction false} NormalMembersAre(members: seq<Keyed<Value>>, e: Keyed<Json>)
    requires MembersStorable(members)
    ensures e in NormalMembers(members) <==> exists i :: Stands(members, i, e)
  {
    if members != [] {
      var rest := members[1..];
      NormalMembersAre(rest, e);
      assert forall i :: Stands(rest, i, e) ==> Stands(members, i + 1, e);
      assert forall i | i > 0 :: Stands(members, i, e) ==> Stands(rest, i - 1, e);
      assert Stands(members, 0, e)
          <==> !members[0].item.Undefined? && e == Keyed(members[0].key, Normal(members[0].item));
    }
  }

  lemma {:induction false} NormalKeysDiffer(members: seq<Keyed<Value>>)
    requires MembersStorable(members)
    requires forall i, j :: 0 <= i < j < |members| ==> members[i].key != members[j].key
    ensures DistinctKeys(NormalMembers(members))
  {
    if members != [] {
      var rest := members[1..];
      NormalKeysDiffer(rest);
      if !members[0].item.Undefined? {
        forall k | 0 <= k < |NormalMembers(rest)|
          ensures NormalMembers(rest)[k].key != members[0].key
        {
          NormalMembersAre(rest, NormalMembers(rest)[k]);
        }
      }
    }
  }

  ghost predicate Alike(v: seq<Keyed<Value>>, i: int, w: seq<Keyed<Value>>, j: int)
    requires MembersStorable(v) && MembersStorable(w)
  {
    Kept(v, i) && Kept(w, j) && v[i].key == w[j].key && Normal(v[i].item) == Normal(w[j].item)
  }

  /** Each member of `v` has its like in `w`. */
  ghost predicate AllAlike(v: seq<Keyed<Value>>, w: seq<Keyed<Value>>)
    requires MembersStorable(v) && MembersStorable(w)
  {
    forall i | Kept(v, i) :: exists j :: Alike(v, i, w, j)
  }

  ghost predicate Among(a: seq<Keyed<Json>>, b: seq<Keyed<Json>>) {
    forall e :: e in a ==> e in b
  }

  lemma AlikeMeansAmong(v: seq<Keyed<Value>>, w: seq<Keyed<Value>>)
    requires MembersStorable(v) && MembersStorable(w) && AllAlike(v, w)
    ensures Among(NormalMembers(v), NormalMembers(w))
  {
    forall e | e in NormalMembers(v)
      ensures e in NormalMembers(w)
    {
      NormalMembersAre(v, e);
      var i :| Stands(v, i, e);
      assert Kept(v, i);
      var j :| Alike(v, i, w, j);
      assert Stands(w, j, e);
      NormalMembersAre(w, e);
    }
  }

  lemma AmongMeansAlike(v: seq<Keyed<Value>>, w: seq<Keyed<Value>>)
    requires MembersStorable(v) && MembersStorable(w) && Among(NormalMembers(v), NormalMembers(w))
    ensures AllAlike(v, w)
  {
    forall i | Kept(v, i)
      ensures exists j :: Alike(v, i, w, j)
    {
      var e := Keyed(v[i].key, Normal(v[i].item));
      assert Stands(v, i, e);
      NormalMembersAre(v, e);
      NormalMembersAre(w, e);
      var j :| Stands(w, j, e);
      assert Alike(v, i, w, j);
    }
  }

  /**
   * A member's like is the same member, given that their values stand for the same JSON exactly when they are the same.
   */
  lemma LikeIsSame(v: seq<Keyed<Value>>, i: int, w: seq<Keyed<Value>>, j: int)
    requires MembersStorable(v) && MembersStorable(w)
    requires Kept(v, i) && Kept(w, j) ==> (Normal(v[i].item) == Normal(w[j].item) <==> Same(v[i].item, w[j].item))
    ensures SameMember(v, i, w, j) <==> Alike(v, i, w, j)
    ensures Alike(v, i, w, j) <==> Alike(w, j, v, i)
  {
  }

  lemma SameIsAllAlike(v: seq<Keyed<Value>>, w: seq<Keyed<Value>>)
    requires MembersStorable(v) && MembersStorable(w)
    requires forall i, j :: SameMember(v, i, w, j) <==> Alike(v, i, w, j)
    requires forall i, j :: Alike(v, i, w, j) <==> Alike(w, j, v, i)
    ensures Same(Object(v), Object(w)) <==> AllAlike(v, w) && AllAlike(w, v)
  {
  }

  /** Two objects stand for the same JSON exactly when they hold the same content, given as much of their members. */
  lemma SameObjects(v: seq<Keyed<Value>>, w: seq<Keyed<Value>>)
    requires MembersStorable(v) && MembersStorable(w) && KeysDiffer(Object(v)) && KeysDiffer(Object(w))
    ensures Sort(NormalMembers(v)) == Sort(NormalMembers(w)) <==> AllAlike(v, w) && AllAlike(w, v)
  {
    NormalKeysDiffer(v);
    NormalKeysDiffer(w);
    SortsAlikeExactlyWhenSameEntries(NormalMembers(v), NormalMembers(w));
    if AllAlike(v, w) && AllAlike(w, v) {
      AlikeMeansAmong(v, w);
      AlikeMeansAmong(w, v);
    }
    if Sort(NormalMembers(v)) == Sort(NormalMembers(w)) {
      AmongMeansAlike(v, w);
      AmongMeansAlike(w, v);
    }
  }

  lemma {:induction false} NormalIsTheContent(v: Value, w: Value)
    requires Storable(v) && Storable(w) && KeysDiffer(v) && KeysDiffer(w)
    ensures Normal(v) == Normal(w) <==> Same(v, w)
    decreases v
  {
    match (v, w)
    case (Array(items), Array(others)) =>
      if |items| == |others| {
        forall i | 0 <= i < |items|
          ensures Normal(items[i]) == Normal(others[i]) <==> Same(items[i], others[i])
        {
          NormalIsTheContent(items[i], others[i]);
        }
        assert NormalItems(items) == NormalItems(others)
          <==> forall i :: 0 <= i < |items| ==> NormalItems(items)[i] == NormalItems(others)[i];
      }
    case (Object(members), Object(others)) =>
      forall i, j
        ensures SameMember(members, i, others, j) <==> Alike(members, i, others, j)
        ensures Alike(members, i, others, j) <==> Alike(others, j, members, i)
      {
        if Kept(members, i) && Kept(others, j) {
          NormalIsTheContent(members[i].item, others[j].item);
        }
        LikeIsSame(members, i, others, j);
      }
      SameIsAllAlike(members, others);
      SameObjects(members, others);
    case _ =>
  }

  /** Two accepted values print the same text exactly when their contents are the same. */
  lemma SameTextExactlyWhenSameContent(v: Value, w: Value)
    requires KeysDiffer(v) && KeysDiffer(w)
    requires CanonicalJson(v).Success? && CanonicalJson(w).Success?
    ensures CanonicalJson(v) == CanonicalJson(w) <==> Same(v, w)
  {
    AcceptedExactlyWhenStorable(v);
    AcceptedExactlyWhenStorable(w);
    PrintIsUniquelyDecodable(Normal(v), Normal(w));
    NormalIsTheContent(v, w);
  }

  /** The text of an accepted value is read back as the JSON the value stands for, to its end. */
  lemma TextReadsBack(v: Value)
    requires CanonicalJson(v).Success?
    ensures Storable(v) && ReadValue(CanonicalJson(v).value) == Got(Normal(v), [])
  {
    AcceptedExactlyWhenStorable(v);
    PrintIsUniquelyDecodable(Normal(v), Normal(v));
  }

  lemma SameMembersStandAlike(a: seq<Keyed<Value>>, b: seq<Keyed<Value>>)
    requires MembersStorable(a) && MembersStorable(b)
    requires forall m :: m in a ==> m in b
    ensures forall e :: e in NormalMembers(a) ==> e in NormalMembers(b)
  {
    forall e | e in NormalMembers(a)
      ensures e in NormalMembers(b)
    {
      NormalMembersAre(a, e);
      var i :| Stands(a, i, e);
      assert a[i] in b;
      var j :| 0 <= j < |b| && b[j] == a[i];
      assert Stands(b, j, e);
      NormalMembersAre(b, e);
    }
  }

  /** The same members put in in any order print the same, or are refused the same. */
  lemma InsertionOrderDoesNotShow(a: seq<Keyed<Value>>, b: seq<Keyed<Value>>)
    requires KeysDiffer(Object(a)) && KeysDiffer(Object(b))
    requires forall m :: m in a <==> m in b
    ensures CanonicalJson(Object(a)) == CanonicalJson(Object(b))
  {
    AcceptedExactlyWhenStorable(Object(a));
    AcceptedExactlyWhenStorable(Object(b));
    assert forall i | 0 <= i < |a| :: a[i] in b;
    assert forall j | 0 <= j < |b| :: b[j] in a;
    if MembersStorable(a) && MembersStorable(b) {
      SameMembersStandAlike(a, b);
      SameMembersStandAlike(b, a);
      NormalKeysDiffer(a);
      NormalKeysDiffer(b);
      SortsAlikeExactlyWhenSameEntries(NormalMembers(a), NormalMembers(b));
    }
  }

  // ----- one text, letter by letter -----

  const A: Text := [97]
  const B: Text := [98]
  const ONE: NumberText := [49]
  const PAIR: seq<Value> := [Bool(true), Null]

  /** `[true,null]` */
  const PAIR_TEXT: Text := [91] + [116, 114, 117, 101] + [44] + [110, 117, 108, 108] + [93]

  lemma OneMoreItem(first: Value, rest: seq<Value>, text: Text, texts: seq<Text>)
    requires CanonicalJson(first) == Success(text) && CanonicalItems(rest) == Success(texts)
    ensures CanonicalItems([first] + rest) == Success([text] + texts)
  {
    assert ([first] + rest)[1..] == rest;
  }

  lemma OneMoreMember(first: Keyed<Value>, rest: seq<Keyed<Value>>, text: Text, entries: seq<Keyed<Text>>)
    requires CanonicalJson(first.item) == Success(text) && CanonicalMembers(rest) == Success(entries)
    ensures CanonicalMembers([first] + rest) == Success([Keyed(first.key, text)] + entries)
  {
    assert ([first] + rest)[1..] == rest;
    assert !first.item.Undefined?;
  }

  lemma PairPrints()
    ensures CanonicalJson(Array(PAIR)) == Success(PAIR_TEXT)
  {
    OneMoreItem(Null, [], NULL, []);
    assert [Null] + [] == [Null] && [NULL] + [] == [NULL];
    OneMoreItem(Bool(true), [Null], TRUE, [NULL]);
    assert [Bool(true)] + [Null] == PAIR;
    var texts := [TRUE] + [NULL];
    assert texts[1..] == [NULL];
    assert Join(texts) == TRUE + [44] + NULL;
    assert CanonicalJson(Array(PAIR)) == Success([91] + Join(texts) + [93]);
    assert [91] + (TRUE + [44] + NULL) + [93] == PAIR_TEXT;
  }

  lemma KeysQuoted()
    ensures Quote(A) == [34, 97, 34] && Quote(B) == [34, 98, 34]
  {
    assert A[1..] == [] && B[1..] == [];
    assert Escape(97) == [97] && Escape(98) == [98];
  }

  lemma MembersSorted(pair: Keyed<Text>, one: Keyed<Text>)
    requires pair.key == A && one.key == B
    ensures Sort([one, pair]) == [pair, one]
  {
    assert [one, pair][1..] == [pair] && [pair][1..] == [];
    assert Sort([pair]) == [pair];
    assert KeyLess(A, B);
    assert Insert(one, [pair]) == [pair, one];
  }

  const MEMBERS: seq<Keyed<Value>> := [Keyed(B, Number(ONE)), Keyed(A, Array(PAIR))]

  lemma MembersPrint(pair: Keyed<Text>, one: Keyed<Text>)
    requires pair == Keyed(A, PAIR_TEXT) && one.key == B && one.item == ONE
    ensures CanonicalMembers(MEMBERS) == Success([one, pair])
  {
    PairPrints();
    OneMoreMember(MEMBERS[1], [], PAIR_TEXT, []);
    assert [MEMBERS[1]] + [] == [MEMBERS[1]] && [pair] + [] == [pair];
    OneMoreMember(MEMBERS[0], [MEMBERS[1]], ONE, [pair]);
    assert [MEMBERS[0]] + [MEMBERS[1]] == MEMBERS && [one] + [pair] == [one, pair];
  }

  lemma PartsJoined(pair: Keyed<Text>, one: Keyed<Text>)
    ensures Join(Parts([pair, one])) == Part(pair) + [44] + Part(one)
  {
    assert [pair, one][1..] == [one] && [one][1..] == [];
    assert Parts([one]) == [Part(one)];
    assert Parts([pair, one]) == [Part(pair), Part(one)];
    assert [Part(pair), Part(one)][1..] == [Part(one)];
  }

  /** An object with its members b and a prints a first: `{"a":[true,null],"b":1}`. */
  lemma ObjectPrints()
    ensures CanonicalJson(Object(MEMBERS))
         == Success([123] + [34, 97, 34] + [58] + PAIR_TEXT + [44] + [34, 98, 34] + [58] + [49] + [125])
  {
    var pair: Keyed<Text>, one: Keyed<Text> := Keyed(A, PAIR_TEXT), Keyed(B, ONE);
    MembersPrint(pair, one);
    MembersSorted(pair, one);
    PartsJoined(pair, one);
    KeysQuoted();
    assert Part(pair) == [34, 97, 34] + [58] + PAIR_TEXT && Part(one) == [34, 98, 34] + [58] + [49];
    assert [123] + (Part(pair) + [44] + Part(one)) + [125]
        == [123] + [34, 97, 34] + [58] + PAIR_TEXT + [44] + [34, 98, 34] + [58] + [49] + [125];
  }
}
