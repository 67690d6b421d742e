/**
 * The URI index of a friend list: `linphone_friend_list_invalidate_friends_maps`, `import_friend`,
 * `_linphone_friend_list_remove_friend`, `find_friend(s)_by_uri` and the traversal of
 * `create_resource_list_xml` in coreapi/friendlist.c, with `add_friend_to_list_map_if_not_in_it_yet` and
 * `linphone_friend_add_addresses_and_numbers_into_maps` of coreapi/friend.c. The multimap is a sequence of
 * pairs kept sorted by key; a find returns the first pair of its key, an insertion goes after the last.
 */
module FriendIndex {
  import opened Bytes

  type FriendId = nat

  datatype Friend = Friend(id: FriendId, phones: seq<string>, addresses: seq<string>)

  datatype Pair = Pair(uri: string, id: FriendId)

  type Index = seq<Pair>

  // ---- The order of keys ----------------------------------------------------------------------------

  /** `strcmp(a, b) < 0`. */
  predicate Less(a: string, b: string)
    decreases |a|
  {
    b != [] && (a == [] || a[0] < b[0] || (a[0] == b[0] && Less(a[1..], b[1..])))
  }

  lemma {:induction false} LessTotal(a: string, b: string)
    ensures Less(a, b) || a == b || Less(b, a)
    ensures !(Less(a, b) && Less(b, a)) && !Less(a, a)
    decreases |a|
  {
    if a != [] && b != [] && a[0] == b[0] {
      LessTotal(a[1..], b[1..]);
      assert a[1..] == b[1..] ==> a == b by { assert a == [a[0]] + a[1..] && b == [b[0]] + b[1..]; }
    }
    if a != [] { LessTotal(a[1..], a[1..]); }
  }

  lemma {:induction false} LessTransitive(a: string, b: string, c: string)
    requires Less(a, b) && Less(b, c)
    ensures Less(a, c)
    decreases |a|
  {
    if a != [] && a[0] == b[0] && b[0] == c[0] { LessTransitive(a[1..], b[1..], c[1..]); }
  }

  predicate LessEq(a: string, b: string) { a == b || Less(a, b) }

  lemma LessEqTransitive(a: string, b: string, c: string)
    requires LessEq(a, b) && LessEq(b, c)
    ensures LessEq(a, c) && (Less(a, b) || Less(b, c) ==> Less(a, c))
  {
    if Less(a, b) && Less(b, c) { LessTransitive(a, b, c); }
  }

  predicate Sorted(m: Index) { forall i, j | 0 <= i < j < |m| :: LessEq(m[i].uri, m[j].uri) }

  // ---- What the index says ----------------------------------------------------------------------------

  /** The friends filed under a URI, in the order of the map. */
  function Entries(m: Index, uri: string): seq<FriendId> {
    if m == [] then []
    else
      var n := |m| - 1;
      Entries(m[..n], uri) + if m[n].uri == uri then [m[n].id] else []
  }

  lemma {:induction false} EntriesConcat(a: Index, b: Index, uri: string)
    ensures Entries(a + b, uri) == Entries(a, uri) + Entries(b, uri)
    decreases |b|
  {
    if b == [] {
      assert a + b == a;
    } else {
      var n := |b| - 1;
      assert (a + b)[..|a + b| - 1] == a + b[..n];
      EntriesConcat(a, b[..n], uri);
    }
  }

  lemma {:induction false} EntriesNone(m: Index, uri: string)
    requires forall p <- m :: p.uri != uri
    ensures Entries(m, uri) == []
  {
    if m != [] { EntriesNone(m[..|m| - 1], uri); }
  }

  lemma EntriesOne(p: Pair, uri: string)
    ensures Entries([p], uri) == if p.uri == uri then [p.id] else []
  {
    assert [p][..0] == [];
  }

  // ---- Map operations -----------------------------------------------------------------------------

  /** Where a new pair of this key goes: before the first larger key. */
  function UpperBound(m: Index, uri: string): (p: nat)
    ensures p <= |m| && (forall i | 0 <= i < p :: !Less(uri, m[i].uri)) && (p < |m| ==> Less(uri, m[p].uri))
  {
    if m == [] || Less(uri, m[0].uri) then 0
    else
      var q := UpperBound(m[1..], uri);
      assert forall i | 1 <= i < q + 1 :: m[i] == m[1..][i - 1];
      1 + q
  }

  function Insert(m: Index, uri: string, id: FriendId): Index {
    var p := UpperBound(m, uri);
    m[..p] + [Pair(uri, id)] + m[p..]
  }

  /** The first pair of a key. */
  function FindKey(m: Index, uri: string): (r: Option<nat>)
    ensures r.Some? ==> r.value < |m| && m[r.value].uri == uri && forall j | 0 <= j < r.value :: m[j].uri != uri
    ensures r.None? ==> forall j | 0 <= j < |m| :: m[j].uri != uri
  {
    if m == [] then None
    else if m[0].uri == uri then Some(0)
    else
      var r := FindKey(m[1..], uri);
      assert forall j | 1 <= j < |m| :: m[j] == m[1..][j - 1];
      if r.Some? then Some(r.value + 1) else None
  }

  function EraseFirst(m: Index, uri: string): Index {
    var i := FindKey(m, uri);
    if i.None? then m else m[..i.value] + m[i.value + 1..]
  }

  lemma AboveBound(m: Index, uri: string, i: nat)
    requires Sorted(m) && UpperBound(m, uri) <= i < |m|
    ensures Less(uri, m[i].uri) && m[i].uri != uri
  {
    var p := UpperBound(m, uri);
    if p < i { LessEqTransitive(uri, m[p].uri, m[i].uri); }
    LessTotal(uri, uri);
  }

  lemma BelowBound(m: Index, uri: string, i: nat)
    requires i < UpperBound(m, uri)
    ensures LessEq(m[i].uri, uri)
  {
    LessTotal(m[i].uri, uri);
  }

  lemma InsertSorted(m: Index, uri: string, id: FriendId)
    requires Sorted(m)
    ensures Sorted(Insert(m, uri, id))
  {
    var p, m' := UpperBound(m, uri), Insert(m, uri, id);
    forall i, j | 0 <= i < j < |m'| ensures LessEq(m'[i].uri, m'[j].uri) {
      if i < p && j == p { BelowBound(m, uri, i); }
      if i == p { AboveBound(m, uri, j - 1); }
    }
  }

  /** An insertion adds one friend at the end of its key and touches no other key. */
  lemma InsertEntries(m: Index, uri: string, id: FriendId, key: string)
    requires Sorted(m)
    ensures Entries(Insert(m, uri, id), key) == Entries(m, key) + if key == uri then [id] else []
  {
    hide UpperBound, Entries, Sorted, Less;
    var p := UpperBound(m, uri);
    EntriesConcat(m[..p] + [Pair(uri, id)], m[p..], key);
    EntriesConcat(m[..p], [Pair(uri, id)], key);
    EntriesOne(Pair(uri, id), key);
    EntriesConcat(m[..p], m[p..], key);
    assert m == m[..p] + m[p..];
    if key == uri {
      forall q <- m[p..] ensures q.uri != uri {
        var i :| 0 <= i < |m[p..]| && m[p..][i] == q;
        AboveBound(m, uri, p + i);
      }
      EntriesNone(m[p..], uri);
    }
  }

  lemma EraseSorted(m: Index, uri: string)
    requires Sorted(m)
    ensures Sorted(EraseFirst(m, uri))
  {
    hide Less, FindKey;
    var i := FindKey(m, uri);
    if i.Some? {
      var m' := EraseFirst(m, uri);
      assert forall k | 0 <= k < |m'| :: m'[k] == m[if k < i.value then k else k + 1];
    }
  }

  /** An erasure takes the first friend of its key and touches no other key. */
  lemma EraseEntries(m: Index, uri: string, key: string)
    ensures Entries(EraseFirst(m, uri), key)
            == if key == uri && Entries(m, key) != [] then Entries(m, key)[1..] else Entries(m, key)
    ensures FindKey(m, uri).Some? <==> Entries(m, uri) != []
  {
    hide FindKey, Entries;
    var f := FindKey(m, uri);
    if f.None? {
      EntriesNone(m, uri);
    } else {
      var i := f.value;
      EntriesConcat(m[..i], m[i + 1..], key);
      EntriesConcat(m[..i], [m[i]] + m[i + 1..], key);
      EntriesConcat([m[i]], m[i + 1..], key);
      EntriesOne(m[i], key);
      assert m == m[..i] + ([m[i]] + m[i + 1..]);
      EntriesNone(m[..i], uri);
      EntriesConcat(m[..i], [m[i]] + m[i + 1..], uri);
      EntriesConcat([m[i]], m[i + 1..], uri);
      EntriesOne(m[i], uri);
    }
  }

  /** The pairs of a key are adjacent: from the first on, they end where another key starts. */
  lemma BlockEnds(m: Index, uri: string, start: nat, stop: nat)
    requires Sorted(m) && start < stop < |m| && m[start].uri == uri && m[stop].uri != uri
    ensures Entries(m, uri) == Entries(m[..stop], uri)
  {
    forall p <- m[stop..] ensures p.uri != uri {
      var i :| 0 <= i < |m[stop..]| && m[stop..][i] == p;
      if i > 0 { LessEqTransitive(uri, m[stop].uri, m[stop + i].uri); }
      LessTotal(uri, uri);
    }
    EntriesNone(m[stop..], uri);
    EntriesConcat(m[..stop], m[stop..], uri);
    assert m == m[..stop] + m[stop..];
  }

  // ---- Friends ------------------------------------------------------------------------------------

  /** The URIs of the phone numbers that have one, in order. */
  function PhoneUris(phones: seq<string>, tel: string -> Option<string>): seq<string> {
    if phones == [] then []
    else
      var n := |phones| - 1;
      PhoneUris(phones[..n], tel) + match tel(phones[n]) case None => [] case Some(u) => [u]
  }

  /** Every URI of a friend, in the order both loops visit them. */
  function Uris(f: Friend, tel: string -> Option<string>): seq<string> {
    PhoneUris(f.phones, tel) + f.addresses
  }

  predicate Owns(f: Friend, uri: string, tel: string -> Option<string>) { uri != [] && uri in Uris(f, tel) }

  function AddUri(m: Index, id: FriendId, uri: string): Index {
    if uri == [] || id in Entries(m, uri) then m else Insert(m, uri, id)
  }

  function AddUris(m: Index, id: FriendId, uris: seq<string>): Index {
    if uris == [] then m else AddUri(AddUris(m, id, uris[..|uris| - 1]), id, uris[|uris| - 1])
  }

  function AddFriends(m: Index, fs: seq<Friend>, tel: string -> Option<string>): Index {
    if fs == [] then m
    else var n := |fs| - 1; AddUris(AddFriends(m, fs[..n], tel), fs[n].id, Uris(fs[n], tel))
  }

  function EraseUris(m: Index, uris: seq<string>): Index {
    if uris == [] then m else EraseFirst(EraseUris(m, uris[..|uris| - 1]), uris[|uris| - 1])
  }

  /** A friend of the list with this identity owns the URI. */
  ghost predicate ListedOwner(list: seq<Friend>, id: FriendId, uri: string, tel: string -> Option<string>) {
    exists f <- list :: f.id == id && Owns(f, uri, tel)
  }

  /** A lookup gives exactly the listed friends that own the URI, each once. */
  ghost predicate AgreesOn(m: Index, list: seq<Friend>, tel: string -> Option<string>, uri: string) {
    && NoDup(Entries(m, uri))
    && forall id: FriendId :: id in Entries(m, uri) <==> ListedOwner(list, id, uri, tel)
  }

  ghost predicate Agrees(m: Index, list: seq<Friend>, tel: string -> Option<string>) {
    Sorted(m) && forall uri: string :: AgreesOn(m, list, tel, uri)
  }

  predicate DistinctIds(list: seq<Friend>) { forall i, j | 0 <= i < j < |list| :: list[i].id != list[j].id }

  /** Adding the URIs of one friend files it once under each of them and leaves the rest alone. */
  lemma {:induction false} AddUrisEffect(m: Index, id: FriendId, uris: seq<string>, key: string)
    requires Sorted(m) && NoDup(Entries(m, key))
    ensures var m' := AddUris(m, id, uris);
            && Sorted(m')
            && NoDup(Entries(m', key))
            && forall x :: x in Entries(m', key) <==> x in Entries(m, key) || (x == id && key != [] && key in uris)
    decreases |uris|
  {
    hide Entries, Insert;
    if uris != [] {
      var n := |uris| - 1;
      AddUrisEffect(m, id, uris[..n], key);
      var m1, u := AddUris(m, id, uris[..n]), uris[n];
      assert uris == uris[..n] + [u];
      if u != [] && id !in Entries(m1, u) {
        InsertSorted(m1, u, id);
        InsertEntries(m1, u, id, key);
      }
    }
  }

  /** Importing a friend not yet listed keeps the index in agreement with the list. */
  lemma ImportAgrees(m: Index, list: seq<Friend>, f: Friend, tel: string -> Option<string>)
    requires Agrees(m, list, tel) && forall g <- list :: g.id != f.id
    ensures Agrees(AddUris(m, f.id, Uris(f, tel)), [f] + list, tel)
    ensures Agrees(AddUris(m, f.id, Uris(f, tel)), list + [f], tel)
  {
    hide Entries, Uris, AddUris;
    var m' := AddUris(m, f.id, Uris(f, tel));
    assert AgreesOn(m, list, tel, []);
    AddUrisEffect(m, f.id, Uris(f, tel), []);
    forall uri: string ensures AgreesOn(m', [f] + list, tel, uri) && AgreesOn(m', list + [f], tel, uri) {
      assert AgreesOn(m, list, tel, uri);
      AddUrisEffect(m, f.id, Uris(f, tel), uri);
      forall id: FriendId
        ensures id in Entries(m', uri) <==> ListedOwner([f] + list, id, uri, tel)
        ensures id in Entries(m', uri) <==> ListedOwner(list + [f], id, uri, tel)
      {
        OwnerOfExtended(list, f, id, uri, tel);
      }
    }
  }

  lemma OwnerOfExtended(list: seq<Friend>, f: Friend, id: FriendId, uri: string, tel: string -> Option<string>)
    ensures ListedOwner([f] + list, id, uri, tel)
            <==> ListedOwner(list, id, uri, tel) || (f.id == id && Owns(f, uri, tel))
    ensures ListedOwner(list + [f], id, uri, tel)
            <==> ListedOwner(list, id, uri, tel) || (f.id == id && Owns(f, uri, tel))
  {
    hide Owns;
    assert f in [f] + list && f in list + [f];
    forall g <- list ensures g in [f] + list && g in list + [f] { }
  }

  lemma EmptyAgrees(tel: string -> Option<string>)
    ensures Agrees([], [], tel)
  {
    forall uri: string ensures AgreesOn([], [], tel, uri) {
      assert Entries([], uri) == [];
    }
  }

  /** Rebuilding the index from a list of distinct friends makes it agree with the list. */
  lemma {:induction false} RebuildAgrees(list: seq<Friend>, tel: string -> Option<string>)
    requires DistinctIds(list)
    ensures Agrees(AddFriends([], list, tel), list, tel)
  {
    hide Agrees, AddUris, Uris;
    if list == [] {
      EmptyAgrees(tel);
    } else {
      var n := |list| - 1;
      RebuildAgrees(list[..n], tel);
      assert forall g <- list[..n] :: g.id != list[n].id;
      ImportAgrees(AddFriends([], list[..n], tel), list[..n], list[n], tel);
      assert list == list[..n] + [list[n]];
    }
  }

  // ---- Removal --------------------------------------------------------------------------------------

  function Count(uris: seq<string>, key: string): nat {
    if uris == [] then 0 else Count(uris[..|uris| - 1], key) + if uris[|uris| - 1] == key then 1 else 0
  }

  lemma {:induction false} CountPositive(uris: seq<string>, key: string)
    ensures Count(uris, key) > 0 <==> key in uris
  {
    if uris != [] {
      CountPositive(uris[..|uris| - 1], key);
      assert uris == uris[..|uris| - 1] + [uris[|uris| - 1]];
    }
  }

  function DropFront(xs: seq<FriendId>, n: nat): seq<FriendId> { if n <= |xs| then xs[n..] else [] }

  /** Erasing a friend's URIs one by one takes, under each, as many first entries as it occurs. */
  lemma {:induction false} EraseUrisEffect(m: Index, uris: seq<string>, key: string)
    requires Sorted(m)
    ensures Sorted(EraseUris(m, uris))
    ensures Entries(EraseUris(m, uris), key) == DropFront(Entries(m, key), Count(uris, key))
    decreases |uris|
  {
    hide Entries, EraseFirst;
    if uris != [] {
      var n := |uris| - 1;
      EraseUrisEffect(m, uris[..n], key);
      EraseSorted(EraseUris(m, uris[..n]), uris[n]);
      EraseEntries(EraseUris(m, uris[..n]), uris[n], key);
    }
  }

  function Without(list: seq<Friend>, i: nat): seq<Friend>
    requires i < |list|
  {
    list[..i] + list[i + 1..]
  }

  /** Under each of its URIs the friend comes first, and is alone there if it has the URI more than once. */
  predicate SafeRemoval(m: Index, f: Friend, tel: string -> Option<string>) {
    forall uri <- Uris(f, tel) | uri != [] ::
      var es := Entries(m, uri);
      es != [] && es[0] == f.id && (Count(Uris(f, tel), uri) == 1 || |es| == 1)
  }

  lemma WithoutMembers(list: seq<Friend>, i: nat, g: Friend)
    requires DistinctIds(list) && i < |list|
    ensures g in Without(list, i) <==> g in list && g.id != list[i].id
  {
    var rest := Without(list, i);
    assert |rest| == |list| - 1;
    if g in rest {
      var k :| 0 <= k < |rest| && rest[k] == g;
      var j := if k < i then k else k + 1;
      assert list[j] == g;
    }
    if g in list && g.id != list[i].id {
      var j :| 0 <= j < |list| && list[j] == g;
      assert rest[if j < i then j else j - 1] == g;
    }
  }

  lemma OwnerAfterRemoval(list: seq<Friend>, i: nat, id: FriendId, uri: string, tel: string -> Option<string>)
    requires DistinctIds(list) && i < |list|
    ensures ListedOwner(Without(list, i), id, uri, tel) <==> ListedOwner(list, id, uri, tel) && id != list[i].id
  {
    hide Owns, Without;
    forall g: Friend ensures g in Without(list, i) <==> g in list && g.id != list[i].id {
      WithoutMembers(list, i, g);
    }
  }

  /** Removing the front entries leaves exactly the others if and only if the front is the friend alone. */
  lemma DropFrontIsRemoval(es: seq<FriendId>, n: nat, id: FriendId)
    requires NoDup(es) && id in es && n > 0
    ensures (NoDup(DropFront(es, n)) && forall x :: x in DropFront(es, n) <==> x in es && x != id)
            <==> es[0] == id && (n == 1 || |es| == 1)
  {
    var rest := DropFront(es, n);
    assert es[0] in es;
    if es[0] == id && (n == 1 || |es| == 1) {
      assert es == [id] + es[1..];
      if n > 1 { assert es[1..] == []; }
    } else if es[0] != id {
      assert es[0] !in rest && es[0] in es;
    } else {
      assert es[1] !in rest && es[1] in es && es[1] != id;
    }
  }

  /** What removal does under one URI. */
  lemma RemovalOn(m: Index, list: seq<Friend>, i: nat, tel: string -> Option<string>, uri: string)
    requires Agrees(m, list, tel) && DistinctIds(list) && i < |list|
    ensures var f := list[i];
            AgreesOn(EraseUris(m, Uris(f, tel)), Without(list, i), tel, uri)
            <==> (uri !in Uris(f, tel) || uri == []
                  || (var es := Entries(m, uri);
                      es != [] && es[0] == f.id && (Count(Uris(f, tel), uri) == 1 || |es| == 1)))
  {
    hide Entries, EraseUris, Uris, Without;
    var f := list[i];
    var us := Uris(f, tel);
    var m', es := EraseUris(m, us), Entries(m, uri);
    assert AgreesOn(m, list, tel, uri);
    EraseUrisEffect(m, us, uri);
    CountPositive(us, uri);
    forall id: FriendId
      ensures ListedOwner(Without(list, i), id, uri, tel) <==> id in es && id != f.id
    {
      OwnerAfterRemoval(list, i, id, uri, tel);
    }
    if uri == [] || uri !in us {
      if uri == [] { NoEmptyUri(m, list, tel); }
      assert Entries(m', uri) == es;
      assert f.id !in es by { NotOwner(list, i, uri, tel); }
    } else {
      assert ListedOwner(list, f.id, uri, tel) by { assert f in list && Owns(f, uri, tel); }
      DropFrontIsRemoval(es, Count(us, uri), f.id);
    }
  }

  lemma NotOwner(list: seq<Friend>, i: nat, uri: string, tel: string -> Option<string>)
    requires DistinctIds(list) && i < |list| && !Owns(list[i], uri, tel)
    ensures !ListedOwner(list, list[i].id, uri, tel)
  {
    hide Owns;
    if ListedOwner(list, list[i].id, uri, tel) {
      var g :| g in list && g.id == list[i].id && Owns(g, uri, tel);
      var k :| 0 <= k < |list| && list[k] == g;
    }
  }

  lemma NoEmptyUri(m: Index, list: seq<Friend>, tel: string -> Option<string>)
    requires Agrees(m, list, tel)
    ensures Entries(m, []) == []
  {
    hide Entries;
    assert AgreesOn(m, list, tel, []);
    var es := Entries(m, []);
    if es != [] { SomeMember(es); }
  }

  lemma SomeMember(es: seq<FriendId>)
    requires es != []
    ensures exists id :: id in es
  {
    assert es[0] in es;
  }

  lemma TwoDiffer(es: seq<FriendId>, id: FriendId)
    requires NoDup(es) && |es| > 1
    ensures exists x :: x in es && x != id
  {
    assert es[0] in es && es[1] in es && es[0] != es[1];
  }

  /**
   * Removing a friend keeps the index in agreement with the list if and only if, under each of its URIs,
   * the friend is the first entry, and the only one where it has the URI more than once.
   */
  lemma RemovalAgreesIff(m: Index, list: seq<Friend>, i: nat, tel: string -> Option<string>)
    requires Agrees(m, list, tel) && DistinctIds(list) && i < |list|
    ensures Agrees(EraseUris(m, Uris(list[i], tel)), Without(list, i), tel) <==> SafeRemoval(m, list[i], tel)
  {
    hide Entries, EraseUris, Uris, Without, AgreesOn;
    var f := list[i];
    var m' := EraseUris(m, Uris(f, tel));
    EraseUrisEffect(m, Uris(f, tel), []);
    forall uri: string
      ensures AgreesOn(m', Without(list, i), tel, uri)
              <==> (uri !in Uris(f, tel) || uri == []
                    || (var es := Entries(m, uri);
                        es != [] && es[0] == f.id && (Count(Uris(f, tel), uri) == 1 || |es| == 1)))
    {
      RemovalOn(m, list, i, tel, uri);
    }
    if Agrees(m', Without(list, i), tel) {
      forall uri <- Uris(f, tel) | uri != []
        ensures var es := Entries(m, uri); es != [] && es[0] == f.id && (Count(Uris(f, tel), uri) == 1 || |es| == 1)
      {
        assert AgreesOn(m', Without(list, i), tel, uri);
      }
    }
  }

  /** In particular when none of its URIs belongs to another listed friend. */
  lemma UnsharedRemovalAgrees(m: Index, list: seq<Friend>, i: nat, tel: string -> Option<string>)
    requires Agrees(m, list, tel) && DistinctIds(list) && i < |list|
    requires forall g <- list, uri <- Uris(list[i], tel) | g.id != list[i].id :: !Owns(g, uri, tel)
    ensures Agrees(EraseUris(m, Uris(list[i], tel)), Without(list, i), tel)
  {
    hide Entries, EraseUris, Uris, Without;
    var f := list[i];
    forall uri <- Uris(f, tel) | uri != []
      ensures var es := Entries(m, uri); es != [] && es[0] == f.id && |es| == 1
    {
      assert AgreesOn(m, list, tel, uri);
      var es := Entries(m, uri);
      assert ListedOwner(list, f.id, uri, tel) by { assert f in list && Owns(f, uri, tel); }
      forall x <- es ensures x == f.id { SoleOwner(list, f.id, x, uri, tel); }
      assert es != [] && es[0] in es;
      if |es| > 1 { TwoDiffer(es, f.id); }
    }
    RemovalAgreesIff(m, list, i, tel);
  }

  lemma SoleOwner(list: seq<Friend>, id: FriendId, other: FriendId, uri: string, tel: string -> Option<string>)
    requires forall g <- list | g.id != id :: !Owns(g, uri, tel)
    ensures ListedOwner(list, other, uri, tel) ==> other == id
  {
    hide Owns;
  }

  /**
   * The failing removal: of two friends with the same one URI (say the address "sip:a"), removing the later one
   * erases the entry of the earlier one, and the lookup goes on returning the friend removed.
   */
  lemma SharedRemovalDisagrees(f: Friend, g: Friend, uri: string, tel: string -> Option<string>)
    requires f.id != g.id && uri != [] && Uris(f, tel) == [uri] && Uris(g, tel) == [uri]
    ensures var m := AddFriends(AddFriends([], [f], tel), [g], tel);
            && Agrees(m, [f, g], tel) && Entries(EraseUris(m, [uri]), uri) == [g.id]
            && !Agrees(EraseUris(m, [uri]), [f], tel)
  {
    hide Agrees, Insert, Entries, EraseUris, SafeRemoval, Uris, AddUri;
    var m1 := AddUri([], f.id, uri);
    var m := AddUri(m1, g.id, uri);
    AddOneFriend([], f, uri, tel);
    AddOneFriend(m1, g, uri, tel);
    EmptyAgrees(tel);
    ImportAgrees([], [], f, tel);
    AddOne([], f.id, uri);
    AddOne(m1, g.id, uri);
    assert [] + [f] == [f] && [f] + [g] == [f, g];
    ImportAgrees(m1, [f], g, tel);
    AgreesSorted(m1, [f], tel);
    EntriesNone([], uri);
    AddedLast([], f.id, uri);
    AddedLast(m1, g.id, uri);
    assert Entries(m, uri) == [f.id, g.id];
    assert [f, g][1] == g && Without([f, g], 1) == [f];
    RemovalAgreesIff(m, [f, g], 1, tel);
    UnsafeWitness(m, g, tel, uri);
    AgreesSorted(m, [f, g], tel);
    EraseUrisEffect(m, [uri], uri);
    assert Count([uri], uri) == 1 by { assert [uri][..0] == []; }
  }

  lemma AgreesSorted(m: Index, list: seq<Friend>, tel: string -> Option<string>)
    requires Agrees(m, list, tel)
    ensures Sorted(m)
  {
  }

  lemma AddOneFriend(m: Index, f: Friend, uri: string, tel: string -> Option<string>)
    requires Uris(f, tel) == [uri]
    ensures AddFriends(m, [f], tel) == AddUri(m, f.id, uri)
  {
    hide Uris, AddUri;
    assert [f][..0] == [];
    AddOne(m, f.id, uri);
  }

  lemma AddedLast(m: Index, id: FriendId, uri: string)
    requires Sorted(m) && uri != [] && id !in Entries(m, uri)
    ensures Entries(AddUri(m, id, uri), uri) == Entries(m, uri) + [id]
  {
    hide Entries, Insert;
    InsertEntries(m, uri, id, uri);
  }

  lemma AddOne(m: Index, id: FriendId, uri: string)
    ensures AddUris(m, id, [uri]) == AddUri(m, id, uri)
  {
    assert [uri][..0] == [];
  }

  lemma UnsafeWitness(m: Index, f: Friend, tel: string -> Option<string>, uri: string)
    requires uri in Uris(f, tel) && uri != [] && (Entries(m, uri) == [] || Entries(m, uri)[0] != f.id)
    ensures !SafeRemoval(m, f, tel)
  {
  }

  // ---- Editing the numbers of a listed friend -----------------------------------------------------------

  /** The pair of this key and this friend. */
  function FindPair(m: Index, uri: string, id: FriendId): (r: Option<nat>)
    ensures r.Some? ==> r.value < |m| && m[r.value] == Pair(uri, id)
    ensures r.Some? ==> forall j | 0 <= j < r.value :: m[j] != Pair(uri, id)
    ensures r.None? ==> forall j | 0 <= j < |m| :: m[j] != Pair(uri, id)
  {
    if m == [] then None
    else if m[0] == Pair(uri, id) then Some(0)
    else
      var r := FindPair(m[1..], uri, id);
      assert forall j | 1 <= j < |m| :: m[j] == m[1..][j - 1];
      if r.Some? then Some(r.value + 1) else None
  }

  /** Unlike the removal of a friend, this erases the friend's own pair. */
  function EraseOwn(m: Index, uri: string, id: FriendId): Index {
    var i := FindPair(m, uri, id);
    if uri == [] || i.None? then m else m[..i.value] + m[i.value + 1..]
  }

  lemma EntryHasPair(m: Index, uri: string, id: FriendId)
    ensures id in Entries(m, uri) <==> FindPair(m, uri, id).Some?
  {
    hide FindPair, Entries;
    var r := FindPair(m, uri, id);
    if r.Some? { PairIsEntry(m, r.value); }
    EntriesArePairs(m, uri, id);
  }

  lemma {:induction false} PairIsEntry(m: Index, i: nat)
    requires i < |m|
    ensures m[i].id in Entries(m, m[i].uri)
  {
    if i < |m| - 1 { PairIsEntry(m[..|m| - 1], i); }
  }

  lemma {:induction false} EntriesArePairs(m: Index, uri: string, id: FriendId)
    ensures id in Entries(m, uri) ==> Pair(uri, id) in m
  {
    if m != [] {
      EntriesArePairs(m[..|m| - 1], uri, id);
    }
  }

  /** Under its key the friend goes and the others stay in order; other keys are untouched. */
  lemma EraseOwnEffect(m: Index, uri: string, id: FriendId, key: string)
    requires uri != [] && Sorted(m) && NoDup(Entries(m, key))
    ensures var m' := EraseOwn(m, uri, id);
            && Sorted(m') && NoDup(Entries(m', key))
            && forall x :: x in Entries(m', key) <==> x in Entries(m, key) && !(key == uri && x == id)
  {
    hide Entries, FindPair, Less;
    EntryHasPair(m, uri, id);
    var r := FindPair(m, uri, id);
    if r.Some? {
      var i := r.value;
      var m' := EraseOwn(m, uri, id);
      assert forall k | 0 <= k < |m'| :: m'[k] == m[if k < i then k else k + 1];
      EntriesConcat(m[..i], m[i + 1..], key);
      EntriesConcat(m[..i], [m[i]] + m[i + 1..], key);
      EntriesConcat([m[i]], m[i + 1..], key);
      EntriesOne(m[i], key);
      assert m == m[..i] + ([m[i]] + m[i + 1..]);
      NoDupWithout(Entries(m[..i], key), if key == uri then [id] else [], Entries(m[i + 1..], key));
    }
  }

  lemma NoDupWithout(a: seq<FriendId>, b: seq<FriendId>, c: seq<FriendId>)
    requires NoDup(a + (b + c)) && |b| <= 1
    ensures NoDup(a + c) && forall x :: x in a + c <==> x in a + (b + c) && x !in b
  {
    var abc := a + (b + c);
    assert forall k | 0 <= k < |a| :: abc[k] == a[k];
    assert forall k | 0 <= k < |c| :: abc[|a| + |b| + k] == c[k];
    if |b| == 1 { assert abc[|a|] == b[0]; }
  }

  /** A friend with one more number; a friend without the first occurrence of a number. */
  function WithPhone(f: Friend, phone: string): Friend { f.(phones := f.phones + [phone]) }

  function DropPhone(phones: seq<string>, phone: string): seq<string> {
    if phones == [] then [] else if phones[0] == phone then phones[1..] else [phones[0]] + DropPhone(phones[1..], phone)
  }

  function WithoutPhone(f: Friend, phone: string): Friend { f.(phones := DropPhone(f.phones, phone)) }

  function PhoneAdded(m: Index, f: Friend, phone: string, tel: string -> Option<string>): Index {
    match tel(phone) case None => m case Some(uri) => AddUri(m, f.id, uri)
  }

  function PhoneRemoved(m: Index, f: Friend, phone: string, tel: string -> Option<string>): Index {
    match tel(phone) case None => m case Some(uri) => EraseOwn(m, uri, f.id)
  }

  /** After replacing friend `i` by an edited one of the same identity. */
  lemma OwnerAfterEdit(list: seq<Friend>, i: nat, g: Friend, id: FriendId, uri: string, tel: string -> Option<string>)
    requires DistinctIds(list) && i < |list| && g.id == list[i].id
    ensures ListedOwner(list[i := g], id, uri, tel)
            <==> if id == g.id then Owns(g, uri, tel) else ListedOwner(list, id, uri, tel)
  {
    hide Owns;
    var edited := list[i := g];
    assert edited[i] == g && g in edited;
    if id != g.id {
      if ListedOwner(list, id, uri, tel) {
        var h :| h in list && h.id == id && Owns(h, uri, tel);
        var k :| 0 <= k < |list| && list[k] == h;
        assert edited[k] == h && h in edited;
      }
    } else if ListedOwner(edited, id, uri, tel) {
      var h :| h in edited && h.id == id && Owns(h, uri, tel);
      var k :| 0 <= k < |edited| && edited[k] == h;
      assert k == i;
    }
  }

  lemma OwnItself(list: seq<Friend>, i: nat, uri: string, tel: string -> Option<string>)
    requires DistinctIds(list) && i < |list|
    ensures ListedOwner(list, list[i].id, uri, tel) <==> Owns(list[i], uri, tel)
  {
    hide Owns;
    assert list[i := list[i]] == list;
    OwnerAfterEdit(list, i, list[i], list[i].id, uri, tel);
  }

  lemma {:induction false} PhoneUrisAt(phones: seq<string>, tel: string -> Option<string>, uri: string)
    ensures uri in PhoneUris(phones, tel) <==> exists p <- phones :: tel(p) == Some(uri)
  {
    if phones != [] {
      var n := |phones| - 1;
      PhoneUrisAt(phones[..n], tel, uri);
      assert phones == phones[..n] + [phones[n]];
      if tel(phones[n]) == Some(uri) { assert phones[n] in phones; }
    }
  }

  lemma {:induction false} DropPhoneMembers(phones: seq<string>, phone: string, p: string)
    ensures p in DropPhone(phones, phone) ==> p in phones
    ensures p in phones && p != phone ==> p in DropPhone(phones, phone)
  {
    if phones != [] && phones[0] != phone { DropPhoneMembers(phones[1..], phone, p); }
  }

  /** One more number adds its URI and nothing else. */
  lemma OwnsWithPhone(f: Friend, phone: string, uri: string, tel: string -> Option<string>)
    ensures Owns(WithPhone(f, phone), uri, tel) <==> Owns(f, uri, tel) || (uri != [] && tel(phone) == Some(uri))
  {
    assert (f.phones + [phone])[..|f.phones|] == f.phones;
  }

  /** One number less can only lose its URI. */
  lemma OwnsWithoutPhone(f: Friend, phone: string, uri: string, tel: string -> Option<string>)
    ensures tel(phone) != Some(uri) ==> (Owns(WithoutPhone(f, phone), uri, tel) <==> Owns(f, uri, tel))
    ensures Owns(WithoutPhone(f, phone), uri, tel) ==> Owns(f, uri, tel)
  {
    hide PhoneUris, DropPhone;
    var g := WithoutPhone(f, phone);
    PhoneUrisAt(f.phones, tel, uri);
    PhoneUrisAt(g.phones, tel, uri);
    forall p ensures (p in g.phones ==> p in f.phones) && (p in f.phones && p != phone ==> p in g.phones) {
      DropPhoneMembers(f.phones, phone, p);
    }
  }

  /** Adding a number to a listed friend keeps the agreement. */
  lemma AddPhoneAgrees(m: Index, list: seq<Friend>, i: nat, phone: string, tel: string -> Option<string>)
    requires Agrees(m, list, tel) && DistinctIds(list) && i < |list|
    ensures Agrees(PhoneAdded(m, list[i], phone, tel), list[i := WithPhone(list[i], phone)], tel)
  {
    hide Entries, Insert, Owns, WithPhone, Less;
    var f, g, m' := list[i], WithPhone(list[i], phone), PhoneAdded(m, list[i], phone, tel);
    assert g.id == f.id by { WithPhoneId(f, phone); }
    if tel(phone).Some? { InsertSorted(m, tel(phone).value, f.id); }
    var list' := list[i := g];
    forall uri: string ensures AgreesOn(m', list', tel, uri) {
      assert AgreesOn(m, list, tel, uri);
      if tel(phone).Some? { InsertEntries(m, tel(phone).value, f.id, uri); }
      forall id: FriendId ensures id in Entries(m', uri) <==> ListedOwner(list', id, uri, tel) {
        OwnerAfterEdit(list, i, g, id, uri, tel);
        OwnItself(list, i, uri, tel);
        OwnsWithPhone(f, phone, uri, tel);
      }
    }
  }

  lemma WithPhoneId(f: Friend, phone: string)
    ensures WithPhone(f, phone).id == f.id && WithoutPhone(f, phone).id == f.id
  {
  }

  /** No other number or address of the friend gives the URI the number gave. */
  predicate SafePhoneRemoval(f: Friend, phone: string, tel: string -> Option<string>) {
    tel(phone).Some? ==> !Owns(WithoutPhone(f, phone), tel(phone).value, tel)
  }

  /** What removing a number does under one URI. */
  lemma PhoneRemovalOn(m: Index, list: seq<Friend>, i: nat, phone: string, tel: string -> Option<string>, uri: string)
    requires Agrees(m, list, tel) && DistinctIds(list) && i < |list|
    ensures AgreesOn(PhoneRemoved(m, list[i], phone, tel), list[i := WithoutPhone(list[i], phone)], tel, uri)
            <==> !(tel(phone) == Some(uri) && Owns(WithoutPhone(list[i], phone), uri, tel))
  {
    hide Entries, EraseOwn, Owns, WithoutPhone, ListedOwner, Sorted;
    var f, g := list[i], WithoutPhone(list[i], phone);
    WithPhoneId(f, phone);
    assert AgreesOn(m, list, tel, uri);
    OwnItself(list, i, uri, tel);
    OwnsWithoutPhone(f, phone, uri, tel);
    forall id: FriendId
      ensures ListedOwner(list[i := g], id, uri, tel)
              <==> if id == f.id then Owns(g, uri, tel) else ListedOwner(list, id, uri, tel)
    {
      OwnerAfterEdit(list, i, g, id, uri, tel);
    }
    if tel(phone).Some? {
      if tel(phone).value == [] {
        NothingAtEmpty(m, f, g, phone, tel);
      } else {
        EraseOwnEffect(m, tel(phone).value, f.id, uri);
      }
    }
  }

  lemma NothingAtEmpty(m: Index, f: Friend, g: Friend, phone: string, tel: string -> Option<string>)
    requires tel(phone) == Some([])
    ensures PhoneRemoved(m, f, phone, tel) == m && !Owns(g, [], tel) && !Owns(f, [], tel)
  {
  }

  /** Removing a number keeps the agreement if and only if the friend does not still own the URI otherwise. */
  lemma RemovePhoneAgreesIff(m: Index, list: seq<Friend>, i: nat, phone: string, tel: string -> Option<string>)
    requires Agrees(m, list, tel) && DistinctIds(list) && i < |list|
    ensures Agrees(PhoneRemoved(m, list[i], phone, tel), list[i := WithoutPhone(list[i], phone)], tel)
            <==> SafePhoneRemoval(list[i], phone, tel)
  {
    hide Entries, EraseOwn, Owns, WithoutPhone, AgreesOn;
    var m', list' := PhoneRemoved(m, list[i], phone, tel), list[i := WithoutPhone(list[i], phone)];
    forall uri: string
      ensures AgreesOn(m', list', tel, uri)
              <==> !(tel(phone) == Some(uri) && Owns(WithoutPhone(list[i], phone), uri, tel))
    {
      PhoneRemovalOn(m, list, i, phone, tel, uri);
    }
    assert Sorted(m') by {
      if tel(phone).Some? { EraseOwnSorted(m, tel(phone).value, list[i].id); }
    }
    if tel(phone).Some? && Agrees(m', list', tel) { assert AgreesOn(m', list', tel, tel(phone).value); }
  }

  /** The failing edit: a number whose URI is also an address of the friend. */
  lemma SharedNumberDisagrees()
    ensures var tel := (p: string) => Some(p);
            var f := Friend(0, ["a"], ["a"]);
            var m := AddFriends([], [f], tel);
            && Agrees(m, [f], tel)
            && !Agrees(PhoneRemoved(m, f, "a", tel), [f][0 := WithoutPhone(f, "a")], tel)
  {
    hide Agrees, AddFriends;
    var tel := (p: string) => Some(p);
    var f := Friend(0, ["a"], ["a"]);
    RebuildAgrees([f], tel);
    RemovePhoneAgreesIff(AddFriends([], [f], tel), [f], 0, "a", tel);
    var g := WithoutPhone(f, "a");
    assert g.phones == [] && Uris(g, tel) == ["a"];
    assert Owns(g, "a", tel);
  }

  lemma EraseOwnSorted(m: Index, uri: string, id: FriendId)
    requires Sorted(m)
    ensures Sorted(EraseOwn(m, uri, id))
  {
    hide Less;
    var r := FindPair(m, uri, id);
    if r.Some? && uri != [] {
      var m' := EraseOwn(m, uri, id);
      assert forall k | 0 <= k < |m'| :: m'[k] == m[if k < r.value then k else k + 1];
    }
  }

  // ---- Runs ---------------------------------------------------------------------------------------

  datatype Op =
    | Import(f: Friend)
    | RemoveAt(i: nat)
    | AddPhone(i: nat, phone: string)
    | RemovePhone(i: nat, phone: string)
    | Invalidate

  datatype Book = Book(list: seq<Friend>, m: Index)

  ghost predicate Allowed(b: Book, op: Op, tel: string -> Option<string>) {
    match op
    case Import(f) => forall g <- b.list :: g.id != f.id
    case RemoveAt(i) => i < |b.list| && SafeRemoval(b.m, b.list[i], tel)
    case AddPhone(i, _) => i < |b.list|
    case RemovePhone(i, phone) => i < |b.list| && SafePhoneRemoval(b.list[i], phone, tel)
    case Invalidate => true
  }

  ghost function Apply(b: Book, op: Op, tel: string -> Option<string>): Book
    requires Allowed(b, op, tel)
  {
    match op
    case Import(f) => Book([f] + b.list, AddUris(b.m, f.id, Uris(f, tel)))
    case RemoveAt(i) => Book(Without(b.list, i), EraseUris(b.m, Uris(b.list[i], tel)))
    case AddPhone(i, phone) =>
      Book(b.list[i := WithPhone(b.list[i], phone)], PhoneAdded(b.m, b.list[i], phone, tel))
    case RemovePhone(i, phone) =>
      Book(b.list[i := WithoutPhone(b.list[i], phone)], PhoneRemoved(b.m, b.list[i], phone, tel))
    case Invalidate => Book(b.list, AddFriends([], b.list, tel))
  }

  ghost predicate AllAllowed(b: Book, ops: seq<Op>, tel: string -> Option<string>)
    decreases |ops|
  {
    ops == [] || (Allowed(b, ops[0], tel) && AllAllowed(Apply(b, ops[0], tel), ops[1..], tel))
  }

  ghost function Run(b: Book, ops: seq<Op>, tel: string -> Option<string>): Book
    requires AllAllowed(b, ops, tel)
    decreases |ops|
  {
    if ops == [] then b else Run(Apply(b, ops[0], tel), ops[1..], tel)
  }

  lemma ApplyAgrees(b: Book, op: Op, tel: string -> Option<string>)
    requires Agrees(b.m, b.list, tel) && DistinctIds(b.list) && Allowed(b, op, tel)
    ensures var c := Apply(b, op, tel); Agrees(c.m, c.list, tel) && DistinctIds(c.list)
  {
    hide Agrees, SafeRemoval, SafePhoneRemoval, PhoneAdded, PhoneRemoved;
    match op
    case Import(f) => ImportAgrees(b.m, b.list, f, tel);
    case RemoveAt(i) => RemovalAgreesIff(b.m, b.list, i, tel);
    case AddPhone(i, phone) => AddPhoneAgrees(b.m, b.list, i, phone, tel);
    case RemovePhone(i, phone) => RemovePhoneAgreesIff(b.m, b.list, i, phone, tel);
    case Invalidate => RebuildAgrees(b.list, tel);
  }

  /** Over any run of imports, rebuilds, edits of numbers and safe removals, the index agrees with a scan. */
  lemma {:induction false} IndexAgreesWithScan(b: Book, ops: seq<Op>, tel: string -> Option<string>)
    requires Agrees(b.m, b.list, tel) && DistinctIds(b.list) && AllAllowed(b, ops, tel)
    ensures var c := Run(b, ops, tel); Agrees(c.m, c.list, tel) && DistinctIds(c.list)
    decreases |ops|
  {
    hide Agrees, Allowed, Apply;
    if ops != [] {
      ApplyAgrees(b, ops[0], tel);
      IndexAgreesWithScan(Apply(b, ops[0], tel), ops[1..], tel);
    }
  }

  // ---- The resource list ----------------------------------------------------------------------------

  /** The URIs emitted: each key that differs from the one before it. */
  function Emitted(m: Index): seq<string> {
    if m == [] then []
    else
      var n := |m| - 1;
      Emitted(m[..n]) + if n == 0 || m[n - 1].uri != m[n].uri then [m[n].uri] else []
  }

  /** The keys emitted are the keys of the map, whatever their order. */
  lemma {:induction false} EmittedKeys(m: Index, u: string)
    ensures u in Emitted(m) <==> exists p <- m :: p.uri == u
    decreases |m|
  {
    if m != [] {
      var n := |m| - 1;
      EmittedKeys(m[..n], u);
      assert m == m[..n] + [m[n]];
      if n > 0 { assert m[..n][n - 1] == m[n - 1] && m[n - 1] in m[..n]; }
      if m[n].uri == u { assert m[n] in m; }
    }
  }

  lemma {:induction false} EmittedLast(m: Index)
    requires m != []
    ensures Emitted(m) != [] && Emitted(m)[|Emitted(m)| - 1] == m[|m| - 1].uri
    decreases |m|
  {
    if |m| > 1 { EmittedLast(m[..|m| - 1]); }
  }

  lemma {:induction false} EmittedIncreasing(m: Index)
    requires Sorted(m)
    ensures forall i, j | 0 <= i < j < |Emitted(m)| :: Less(Emitted(m)[i], Emitted(m)[j])
    decreases |m|
  {
    hide Less;
    if |m| > 1 {
      var n := |m| - 1;
      EmittedIncreasing(m[..n]);
      EmittedLast(m[..n]);
      var before := Emitted(m[..n]);
      if m[n - 1].uri != m[n].uri {
        assert LessEq(m[n - 1].uri, m[n].uri);
        forall i | 0 <= i < |before| ensures Less(before[i], m[n].uri) {
          if i < |before| - 1 { LessTransitive(before[i], before[|before| - 1], m[n].uri); }
        }
      }
    } else if |m| == 1 {
      assert m[..0] == [] && Emitted(m) == [m[0].uri];
    }
  }

  /** Of a sorted map, the traversal emits every key exactly once, in increasing order. */
  lemma EmitsEachUriOnce(m: Index)
    requires Sorted(m)
    ensures forall u :: u in Emitted(m) <==> exists p <- m :: p.uri == u
    ensures forall i, j | 0 <= i < j < |Emitted(m)| ::
              Less(Emitted(m)[i], Emitted(m)[j]) && Emitted(m)[i] != Emitted(m)[j]
  {
    hide Less, Emitted;
    forall u ensures u in Emitted(m) <==> exists p <- m :: p.uri == u { EmittedKeys(m, u); }
    EmittedIncreasing(m);
    forall i, j | 0 <= i < j < |Emitted(m)| ensures Emitted(m)[i] != Emitted(m)[j] {
      LessTotal(Emitted(m)[i], Emitted(m)[j]);
    }
  }
}
