/** A friend list and its URI map, updated in place: coreapi/friendlist.c and coreapi/friend.c. */
module FriendListClass {
  import opened Bytes
  import opened FriendIndex

  datatype ListStatus = ListOk | InvalidFriend | NonExistentFriend

  function Reversed(xs: seq<FriendId>): seq<FriendId> {
    if xs == [] then [] else [xs[|xs| - 1]] + Reversed(xs[..|xs| - 1])
  }

  class FriendList {
    var friends: seq<Friend>
    var mapUri: Index
    const tel: string -> Option<string>

    ghost predicate Valid() reads this { DistinctIds(friends) && Agrees(mapUri, friends, tel) }

    constructor (tel: string -> Option<string>)
      ensures this.tel == tel && friends == [] && mapUri == [] && Valid()
    {
      this.tel := tel;
      friends, mapUri := [], [];
      new;
      EmptyAgrees(tel);
    }

    /** Walks the pairs of the key; inserts only if the friend is not among them. */
    method AddToMapIfNotInItYet(id: FriendId, uri: string)
      requires Sorted(mapUri)
      modifies this`mapUri
      ensures mapUri == AddUri(old(mapUri), id, uri) && Sorted(mapUri)
    {
      hide Insert, Less;
      if uri == [] { return; }
      var es := CollectKey(uri);
      if id in es { return; }
      InsertSorted(mapUri, uri, id);
      mapUri := Insert(mapUri, uri, id);
    }

    /** From the first pair of the key until the key changes. */
    method CollectKey(uri: string) returns (es: seq<FriendId>)
      requires Sorted(mapUri)
      ensures es == Entries(mapUri, uri)
    {
      hide Sorted, FindKey;
      es := [];
      var found := FindKey(mapUri, uri);
      if found.None? {
        EntriesNone(mapUri, uri);
        return;
      }
      var it := found.value;
      EntriesNone(mapUri[..it], uri);
      while it < |mapUri| && mapUri[it].uri == uri
        invariant found.value <= it <= |mapUri| && es == Entries(mapUri[..it], uri)
      {
        assert mapUri[..it + 1][..it] == mapUri[..it];
        es := es + [mapUri[it].id];
        it := it + 1;
      }
      if it < |mapUri| {
        BlockEnds(mapUri, uri, found.value, it);
      } else {
        assert mapUri[..it] == mapUri;
      }
    }

    method AddNumbers(id: FriendId, phones: seq<string>)
      requires Sorted(mapUri)
      modifies this`mapUri
      ensures mapUri == AddUris(old(mapUri), id, PhoneUris(phones, tel)) && Sorted(mapUri)
    {
      hide AddUri, AddUris, PhoneUris, Sorted;
      AddNone(mapUri, id, tel);
      for i := 0 to |phones|
        invariant mapUri == AddUris(old(mapUri), id, PhoneUris(phones[..i], tel)) && Sorted(mapUri)
      {
        AddNextNumber(old(mapUri), id, phones, i, tel);
        var uri := tel(phones[i]);
        if uri.Some? { AddToMapIfNotInItYet(id, uri.value); }
      }
      assert phones[..|phones|] == phones;
    }

    /** Phone numbers first, then addresses. */
    method AddAddressesAndNumbersIntoMaps(f: Friend)
      requires Sorted(mapUri)
      modifies this`mapUri
      ensures mapUri == AddUris(old(mapUri), f.id, Uris(f, tel)) && Sorted(mapUri)
    {
      hide AddUri, AddUris, PhoneUris, Sorted;
      AddNumbers(f.id, f.phones);
      ghost var uris := PhoneUris(f.phones, tel);
      assert uris + f.addresses[..0] == uris;
      for i := 0 to |f.addresses|
        invariant mapUri == AddUris(old(mapUri), f.id, uris + f.addresses[..i]) && Sorted(mapUri)
      {
        assert uris + f.addresses[..i + 1] == (uris + f.addresses[..i]) + [f.addresses[i]];
        AddUrisSnoc(old(mapUri), f.id, uris + f.addresses[..i], f.addresses[i]);
        AddToMapIfNotInItYet(f.id, f.addresses[i]);
      }
      assert f.addresses[..|f.addresses|] == f.addresses;
    }

    method InvalidateFriendsMaps()
      requires DistinctIds(friends)
      modifies this`mapUri
      ensures Valid() && mapUri == AddFriends([], friends, tel)
    {
      hide Agrees, AddUris, Uris;
      mapUri := [];
      for i := 0 to |friends|
        invariant mapUri == AddFriends([], friends[..i], tel) && Sorted(mapUri)
      {
        assert friends[..i + 1][..i] == friends[..i];
        AddAddressesAndNumbersIntoMaps(friends[i]);
      }
      assert friends[..|friends|] == friends;
      RebuildAgrees(friends, tel);
    }

    /** `listed` is whether the friend already belongs to some list. */
    method ImportFriend(f: Friend, listed: bool) returns (status: ListStatus)
      requires Valid() && (!listed ==> forall g <- friends :: g.id != f.id)
      modifies this
      ensures Valid()
      ensures if listed then status == InvalidFriend && friends == old(friends) && mapUri == old(mapUri)
              else status == ListOk && friends == [f] + old(friends)
                   && mapUri == AddUris(old(mapUri), f.id, Uris(f, tel))
    {
      hide AddUris, Uris, AgreesOn;
      if listed { return InvalidFriend; }
      ImportAgrees(mapUri, friends, f, tel);
      friends := [f] + friends;
      AddAddressesAndNumbersIntoMaps(f);
      return ListOk;
    }

    /** Erases the first pair of a key, whoever it belongs to. */
    method EraseKey(uri: string)
      modifies this`mapUri
      ensures mapUri == EraseFirst(old(mapUri), uri)
    {
      var it := FindKey(mapUri, uri);
      if it.Some? { mapUri := mapUri[..it.value] + mapUri[it.value + 1..]; }
    }

    /** Agreement survives exactly when the removal is safe. */
    method RemoveFriend(id: FriendId) returns (status: ListStatus)
      requires Valid()
      modifies this
      ensures status == NonExistentFriend || status == ListOk
      ensures status == NonExistentFriend ==>
                friends == old(friends) && mapUri == old(mapUri) && forall g <- friends :: g.id != id
      ensures status == ListOk ==>
                exists i :: 0 <= i < |old(friends)| && old(friends)[i].id == id
                            && friends == FriendIndex.Without(old(friends), i)
                            && mapUri == EraseUris(old(mapUri), Uris(old(friends)[i], tel))
                            && (Agrees(mapUri, friends, tel) <==> SafeRemoval(old(mapUri), old(friends)[i], tel))
    {
      hide Agrees, EraseFirst, SafeRemoval;
      var i := 0;
      while i < |friends| && friends[i].id != id
        invariant i <= |friends| && forall j | 0 <= j < i :: friends[j].id != id
      {
        i := i + 1;
      }
      if i == |friends| { return NonExistentFriend; }
      var f := friends[i];
      ghost var m0, list0 := mapUri, friends;
      RemovalAgreesIff(mapUri, friends, i, tel);
      friends := friends[..i] + friends[i + 1..];
      EraseAll(f);
      assert friends == FriendIndex.Without(list0, i);
      return ListOk;
    }

    /** The first loop of the removal. */
    method EraseNumbers(phones: seq<string>)
      modifies this`mapUri
      ensures mapUri == EraseUris(old(mapUri), PhoneUris(phones, tel))
    {
      hide EraseFirst, EraseUris, PhoneUris;
      EraseNone(mapUri, tel);
      for i := 0 to |phones|
        invariant mapUri == EraseUris(old(mapUri), PhoneUris(phones[..i], tel))
      {
        EraseNextNumber(old(mapUri), phones, i, tel);
        var uri := tel(phones[i]);
        if uri.Some? { EraseKey(uri.value); }
      }
      assert phones[..|phones|] == phones;
    }

    method EraseAll(f: Friend)
      modifies this`mapUri
      ensures mapUri == EraseUris(old(mapUri), Uris(f, tel))
    {
      hide EraseFirst, EraseUris, PhoneUris;
      EraseNumbers(f.phones);
      ghost var uris := PhoneUris(f.phones, tel);
      assert uris + f.addresses[..0] == uris;
      for i := 0 to |f.addresses|
        invariant mapUri == EraseUris(old(mapUri), uris + f.addresses[..i])
      {
        assert uris + f.addresses[..i + 1] == (uris + f.addresses[..i]) + [f.addresses[i]];
        EraseUrisSnoc(old(mapUri), uris + f.addresses[..i], f.addresses[i]);
        EraseKey(f.addresses[i]);
      }
      assert f.addresses[..|f.addresses|] == f.addresses;
    }

    /** Walks the pairs of the key and erases the friend's own, if it is among them. */
    method RemoveFromMapIfAlreadyInIt(id: FriendId, uri: string)
      requires Sorted(mapUri)
      modifies this`mapUri
      ensures mapUri == EraseOwn(old(mapUri), uri, id)
    {
      hide Sorted, FindKey, FindPair;
      if uri == [] { return; }
      var found := FindKey(mapUri, uri);
      if found.None? { return; }
      var it := found.value;
      while it < |mapUri| && mapUri[it].uri == uri
        invariant found.value <= it <= |mapUri| && forall j | 0 <= j < it :: mapUri[j] != Pair(uri, id)
        invariant mapUri == old(mapUri)
      {
        if mapUri[it].id == id {
          assert FindPair(mapUri, uri, id) == Some(it);
          mapUri := mapUri[..it] + mapUri[it + 1..];
          return;
        }
        it := it + 1;
      }
      if it < |mapUri| { NoPairAfterBlock(mapUri, uri, id, found.value, it); }
    }

    method AddPhoneNumber(i: nat, phone: string)
      requires Valid() && i < |friends|
      modifies this
      ensures Valid() && friends == old(friends)[i := WithPhone(old(friends)[i], phone)]
      ensures mapUri == PhoneAdded(old(mapUri), old(friends)[i], phone, tel)
    {
      hide AddUri, AgreesOn;
      AddPhoneAgrees(mapUri, friends, i, phone, tel);
      var uri := tel(phone);
      if uri.Some? { AddToMapIfNotInItYet(friends[i].id, uri.value); }
      friends := friends[i := WithPhone(friends[i], phone)];
    }

    /** Agreement survives exactly when the friend does not own the number's URI otherwise. */
    method RemovePhoneNumber(i: nat, phone: string)
      requires Valid() && i < |friends|
      modifies this
      ensures friends == old(friends)[i := WithoutPhone(old(friends)[i], phone)]
      ensures mapUri == PhoneRemoved(old(mapUri), old(friends)[i], phone, tel)
      ensures Valid() <==> SafePhoneRemoval(old(friends)[i], phone, tel)
    {
      hide EraseOwn, AgreesOn, SafePhoneRemoval, DropPhone;
      RemovePhoneAgreesIff(mapUri, friends, i, phone, tel);
      var uri := tel(phone);
      if uri.Some? { RemoveFromMapIfAlreadyInIt(friends[i].id, uri.value); }
      friends := friends[i := WithoutPhone(friends[i], phone)];
    }

    /** Exactly the listed friends owning the URI, each once, newest pair first. */
    method FindFriendsByUri(uri: string) returns (result: seq<FriendId>)
      requires Valid()
      ensures result == Reversed(Entries(mapUri, uri))
      ensures NoDup(result) && forall id :: id in result <==> ListedOwner(friends, id, uri, tel)
    {
      assert AgreesOn(mapUri, friends, tel, uri);
      var es := CollectKey(uri);
      result := [];
      for i := 0 to |es|
        invariant result == Reversed(es[..i])
      {
        assert es[..i + 1][..i] == es[..i];
        result := [es[i]] + result;
      }
      assert es[..|es|] == es;
      ReversedMembers(es);
    }

    /** Some owner of the URI, if there is one. */
    method FindFriendByUri(uri: string) returns (result: Option<FriendId>)
      requires Valid()
      ensures result.Some? ==> ListedOwner(friends, result.value, uri, tel)
      ensures result.None? ==> forall id :: !ListedOwner(friends, id, uri, tel)
    {
      hide FindKey, ListedOwner;
      assert AgreesOn(mapUri, friends, tel, uri);
      var it := FindKey(mapUri, uri);
      if it.Some? {
        PairIsEntry(mapUri, it.value);
        return Some(mapUri[it.value].id);
      }
      EntriesNone(mapUri, uri);
      return None;
    }

    /** The URIs written to the resource list, an entry for each distinct one. */
    method ResourceList() returns (uris: seq<string>)
      requires Valid()
      ensures forall i, j | 0 <= i < j < |uris| :: uris[i] != uris[j]
      ensures forall u :: u in uris <==> exists p <- mapUri :: p.uri == u
    {
      hide Less;
      uris := [];
      var prev: Option<string> := None;
      for it := 0 to |mapUri|
        invariant uris == Emitted(mapUri[..it])
        invariant prev == if it == 0 then None else Some(mapUri[it - 1].uri)
      {
        assert mapUri[..it + 1][..it] == mapUri[..it];
        var uri := mapUri[it].uri;
        if prev.None? || prev.value != uri { uris := uris + [uri]; }
        prev := Some(uri);
      }
      assert mapUri[..|mapUri|] == mapUri;
      EmitsEachUriOnce(mapUri);
    }
  }

  lemma {:induction false} ReversedMembers(xs: seq<FriendId>)
    ensures |Reversed(xs)| == |xs|
    ensures forall x :: x in Reversed(xs) <==> x in xs
    ensures NoDup(xs) ==> NoDup(Reversed(xs))
  {
    if xs != [] {
      var n := |xs| - 1;
      ReversedMembers(xs[..n]);
      assert xs == xs[..n] + [xs[n]];
      if NoDup(xs) { assert xs[n] !in xs[..n]; }
    }
  }

  lemma AddUrisSnoc(m: Index, id: FriendId, uris: seq<string>, uri: string)
    ensures AddUris(m, id, uris + [uri]) == AddUri(AddUris(m, id, uris), id, uri)
  {
    hide AddUri;
    assert (uris + [uri])[..|uris|] == uris;
  }

  lemma AddNone(m: Index, id: FriendId, tel: string -> Option<string>)
    ensures AddUris(m, id, PhoneUris([], tel)) == m
  {
  }

  lemma AddNextNumber(m: Index, id: FriendId, phones: seq<string>, i: nat, tel: string -> Option<string>)
    requires i < |phones|
    ensures AddUris(m, id, PhoneUris(phones[..i + 1], tel))
            == match tel(phones[i])
               case None => AddUris(m, id, PhoneUris(phones[..i], tel))
               case Some(uri) => AddUri(AddUris(m, id, PhoneUris(phones[..i], tel)), id, uri)
  {
    hide AddUri, AddUris;
    assert phones[..i + 1][..i] == phones[..i];
    var before := PhoneUris(phones[..i], tel);
    assert before + [] == before;
    if tel(phones[i]).Some? { AddUrisSnoc(m, id, before, tel(phones[i]).value); }
  }

  lemma EraseUrisSnoc(m: Index, uris: seq<string>, uri: string)
    ensures EraseUris(m, uris + [uri]) == EraseFirst(EraseUris(m, uris), uri)
  {
    hide EraseFirst;
    assert (uris + [uri])[..|uris|] == uris;
  }

  lemma EraseNone(m: Index, tel: string -> Option<string>)
    ensures EraseUris(m, PhoneUris([], tel)) == m
  {
  }

  lemma EraseNextNumber(m: Index, phones: seq<string>, i: nat, tel: string -> Option<string>)
    requires i < |phones|
    ensures EraseUris(m, PhoneUris(phones[..i + 1], tel))
            == match tel(phones[i])
               case None => EraseUris(m, PhoneUris(phones[..i], tel))
               case Some(uri) => EraseFirst(EraseUris(m, PhoneUris(phones[..i], tel)), uri)
  {
    hide EraseFirst, EraseUris;
    assert phones[..i + 1][..i] == phones[..i];
    var before := PhoneUris(phones[..i], tel);
    assert before + [] == before;
    if tel(phones[i]).Some? { EraseUrisSnoc(m, before, tel(phones[i]).value); }
  }

  /** Past the block of a key there is no pair of it. */
  lemma NoPairAfterBlock(m: Index, uri: string, id: FriendId, start: nat, stop: nat)
    requires Sorted(m) && start < stop < |m| && m[start].uri == uri && m[stop].uri != uri
    requires forall j | 0 <= j < stop :: m[j] != Pair(uri, id)
    ensures FindPair(m, uri, id) == None
  {
    hide Less;
    forall j | stop <= j < |m| ensures m[j].uri != uri {
      if j > stop { LessEqTransitive(uri, m[stop].uri, m[j].uri); }
      LessTotal(uri, uri);
    }
  }
}
