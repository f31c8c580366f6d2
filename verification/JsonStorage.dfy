/** What a JSONB column gives back for a stored detail, and when the canonical text survives the trip. */
module JsonStorage {
  import opened CodeUnits
  import opened JsonPrinter
  import opened JsonDecoding
  import opened Sequences

  /** JSON serialisation: undefined object members vanish; undefined items and non-finite numbers become null. */
  function Stored(v: JsValue): JsValue
    decreases v
  {
    match v
    case Undefined => Null
    case NonFinite => Null
    case Array(items) => Array(StoredItems(items))
    case Object(members) => Object(StoredMembers(members))
    case _ => v
  }

  function StoredItems(items: seq<JsValue>): (r: seq<JsValue>)
    ensures |r| == |items|
    ensures forall i :: 0 <= i < |r| ==> r[i] == Stored(items[i])
    decreases items
  {
    if items == [] then [] else [Stored(items[0])] + StoredItems(items[1..])
  }

  function StoredMembers(members: seq<Member>): (r: seq<Member>)
    ensures forall m :: m in r ==> exists i :: 0 <= i < |members| && !members[i].value.Undefined?
                                               && m == Member(members[i].key, Stored(members[i].value))
    decreases members
  {
    if members == [] then []
    else if members[0].value.Undefined? then StoredMembers(members[1..])
    else [Member(members[0].key, Stored(members[0].value))] + StoredMembers(members[1..])
  }

  /** Some object in the value, at any depth, has a member whose value is undefined. */
  predicate HasUndefinedMember(v: JsValue) {
    match v
    case Array(items) => exists i :: 0 <= i < |items| && HasUndefinedMember(items[i])
    case Object(members) =>
      exists i :: 0 <= i < |members| && (members[i].value.Undefined? || HasUndefinedMember(members[i].value))
    case _ => false
  }

  /** What has been stored once is stored unchanged from then on. */
  lemma {:induction false} StoredIsSettled(v: JsValue)
    ensures Stored(Stored(v)) == Stored(v)
    decreases v
  {
    match v
    case Array(items) => StoredItemsSettled(items);
    case Object(members) => StoredMembersSettled(members);
    case _ =>
  }

  lemma {:induction false} StoredItemsSettled(items: seq<JsValue>)
    ensures StoredItems(StoredItems(items)) == StoredItems(items)
    decreases items
  {
    if items == [] {
    } else {
      StoredIsSettled(items[0]);
      StoredItemsSettled(items[1..]);
    }
  }

  lemma {:induction false} StoredMembersSettled(members: seq<Member>)
    ensures StoredMembers(StoredMembers(members)) == StoredMembers(members)
    decreases members
  {
    if members == [] {
    } else {
      StoredMembersSettled(members[1..]);
      if !members[0].value.Undefined? {
        StoredIsSettled(members[0].value);
        assert StoredMembers(members)[1..] == StoredMembers(members[1..]);
      }
    }
  }

  lemma {:induction false} StoredMemberKeys(members: seq<Member>, key: Text)
    requires WellFormed(Object(members))
    ensures key in Keys(StoredMembers(members)) <==> key in Keys(members) && !Lookup(members, key).Undefined?
    ensures key in Keys(StoredMembers(members)) ==>
              Lookup(StoredMembers(members), key) == Stored(Lookup(members, key))
    decreases members
  {
    if members == [] {
    } else {
      StoredMemberKeys(members[1..], key);
      assert Keys(members) == [members[0].key] + Keys(members[1..]);
      if key == members[0].key {
        assert key !in Keys(members[1..]);
      }
      if !members[0].value.Undefined? {
        var head := Member(members[0].key, Stored(members[0].value));
        assert Keys(StoredMembers(members)) == [head.key] + Keys(StoredMembers(members[1..]));
        assert StoredMembers(members)[1..] == StoredMembers(members[1..]);
      }
    }
  }

  lemma {:induction false} StoredDistinct(members: seq<Member>)
    requires WellFormed(Object(members))
    ensures Distinct(Keys(StoredMembers(members)))
    decreases members
  {
    if members == [] {
    } else {
      StoredDistinct(members[1..]);
      StoredMemberKeys(members[1..], members[0].key);
      assert members[0].key !in Keys(members[1..]);
    }
  }

  lemma {:induction false} StoredWellFormed(v: JsValue)
    requires WellFormed(v)
    ensures WellFormed(Stored(v))
    decreases v
  {
    match v
    case Array(items) =>
      forall i | 0 <= i < |items| {
        StoredWellFormed(items[i]);
      }
    case Object(members) =>
      var stored := StoredMembers(members);
      StoredDistinct(members);
      assert forall i, j :: 0 <= i < j < |stored| ==> Keys(stored)[i] != Keys(stored)[j];
      forall i | 0 <= i < |stored|
        ensures WellFormed(stored[i].value)
      {
        assert stored[i] in stored;
        var j :| 0 <= j < |members| && stored[i] == Member(members[j].key, Stored(members[j].value));
        StoredWellFormed(members[j].value);
      }
    case _ =>
  }

  lemma {:induction false} ItemsMeaningAt(items: seq<JsValue>, i: nat)
    requires i < |items|
    ensures MeaningOfItems(items)[i] == Meaning(items[i])
    decreases i
  {
    if i == 0 {
    } else {
      ItemsMeaningAt(items[1..], i - 1);
    }
  }

  /** Storage keeps the meaning of a value exactly when no object member in it is undefined. */
  lemma {:induction false} StoredMeaning(v: JsValue)
    requires WellFormed(v)
    ensures Meaning(Stored(v)) == Meaning(v) <==> !HasUndefinedMember(v)
    decreases v
  {
    match v
    case Array(items) => StoredArrayMeaning(items);
    case Object(members) => StoredObjectMeaning(members);
    case _ =>
  }

  lemma {:induction false} StoredArrayMeaning(items: seq<JsValue>)
    requires WellFormed(Array(items))
    ensures Meaning(Stored(Array(items))) == Meaning(Array(items)) <==> !HasUndefinedMember(Array(items))
    decreases items
  {
    var before, after := MeaningOfItems(items), MeaningOfItems(StoredItems(items));
    forall i | 0 <= i < |items|
      ensures after[i] == before[i] <==> !HasUndefinedMember(items[i])
    {
      ItemsMeaningAt(items, i);
      ItemsMeaningAt(StoredItems(items), i);
      StoredMeaning(items[i]);
    }
    if !HasUndefinedMember(Array(items)) {
      assert after == before;
    }
  }

  /** Storage loses nothing at the key of member `i`. */
  predicate KeptAt(members: seq<Member>, i: nat)
    requires i < |members|
  {
    !members[i].value.Undefined? && Meaning(Stored(members[i].value)) == Meaning(members[i].value)
  }

  lemma StoredMemberAt(members: seq<Member>, i: nat)
    requires WellFormed(Object(members)) && i < |members|
    ensures var before, after := Meaning(Object(members)).members, Meaning(Object(StoredMembers(members))).members;
            var key := members[i].key;
            && key in before
            && (key in after && after[key] == before[key] <==> KeptAt(members, i))
  {
    MemberAt(members, i);
    StoredMemberKeys(members, members[i].key);
  }

  lemma StoredKeysShrink(members: seq<Member>, key: Text)
    requires WellFormed(Object(members))
    requires key in Meaning(Object(StoredMembers(members))).members
    ensures key in Meaning(Object(members)).members
  {
    StoredMemberKeys(members, key);
  }

  lemma KeyIndex(members: seq<Member>, key: Text) returns (i: nat)
    requires key in Meaning(Object(members)).members
    ensures i < |members| && members[i].key == key
  {
    i :| 0 <= i < |members| && Keys(members)[i] == key;
  }

  lemma SameMaps<K, V>(a: map<K, V>, b: map<K, V>)
    requires forall k :: k in a ==> k in b && b[k] == a[k]
    requires forall k :: k in b ==> k in a
    ensures a == b
  {
  }

  lemma AllKept(members: seq<Member>)
    requires WellFormed(Object(members))
    requires forall i :: 0 <= i < |members| ==> KeptAt(members, i)
    ensures Meaning(Object(StoredMembers(members))) == Meaning(Object(members))
  {
    var before, after := Meaning(Object(members)), Meaning(Object(StoredMembers(members)));
    forall k | k in before.members
      ensures k in after.members && after.members[k] == before.members[k]
    {
      var i := KeyIndex(members, k);
      StoredMemberAt(members, i);
    }
    forall k | k in after.members
      ensures k in before.members
    {
      StoredKeysShrink(members, k);
    }
    SameMaps(before.members, after.members);
  }

  lemma {:induction false} StoredObjectMeaning(members: seq<Member>)
    requires WellFormed(Object(members))
    ensures Meaning(Stored(Object(members))) == Meaning(Object(members)) <==> !HasUndefinedMember(Object(members))
    decreases members
  {
    forall i | 0 <= i < |members|
      ensures KeptAt(members, i) <==> !(members[i].value.Undefined? || HasUndefinedMember(members[i].value))
    {
      StoredMeaning(members[i].value);
    }
    if forall i :: 0 <= i < |members| ==> KeptAt(members, i) {
      AllKept(members);
    } else {
      var i :| 0 <= i < |members| && !KeptAt(members, i);
      StoredMemberAt(members, i);
    }
  }

  lemma MemberAt(members: seq<Member>, i: nat)
    requires WellFormed(Object(members)) && i < |members|
    ensures members[i].key in Keys(members) && Lookup(members, members[i].key) == members[i].value
  {
    assert Keys(members)[i] == members[i].key;
    var j :| 0 <= j < |members| && members[j] == Member(members[i].key, Lookup(members, members[i].key));
    assert i == j;
  }

  /** A detail read back from storage, in whatever key order, prints the text that was hashed exactly when the
      detail that was logged had no undefined member. */
  lemma RehashAfterStorage(logged: JsValue, read: JsValue)
    requires WellFormed(logged) && WellFormed(read)
    requires Meaning(read) == Meaning(Stored(logged))
    ensures CanonicalJson(read) == CanonicalJson(logged) <==> !HasUndefinedMember(logged)
  {
    StoredWellFormed(logged);
    StoredMeaning(logged);
    TextDeterminesMeaning(read, logged);
  }

  /** A detail `{"a": undefined}` is hashed as `{"a":null}` but stored, and re-hashed, as `{}`. */
  lemma UndefinedMemberBreaksRehash()
    ensures var logged := Object([Member([97], Undefined)]);
            && WellFormed(logged)
            && CanonicalJson(Stored(logged)) != CanonicalJson(logged)
  {
    var logged := Object([Member([97], Undefined)]);
    assert HasUndefinedMember(logged) by {
      assert logged.members[0].value.Undefined?;
    }
    StoredWellFormed(logged);
    RehashAfterStorage(logged, Stored(logged));
  }
}
