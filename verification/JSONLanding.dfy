/**
  When a document with the key that stands for the user is stored as the overlay with the user's id for
  that key: exactly when each such member lands at the user's id, wherever it is nested.
 */
module JSONLanding {
  import opened JSONValues
  import opened JSONPathParser
  import opened JSONOverlay

  /** No object has a key twice. */
  predicate KeysOnce(d: Document)
    decreases d
  {
    match d
    case Leaf(_) => true
    case Str(_) => true
    case Arr(items) => ItemKeysOnce(items)
    case Obj(members) => MemberKeysOnce(members)
  }

  predicate MemberKeysOnce(ms: Members)
    decreases ms
  {
    match ms
    case NoMembers => true
    case Members(name, value, rest) => !Mentions(rest, name) && KeysOnce(value) && MemberKeysOnce(rest)
  }

  predicate ItemKeysOnce(ds: Documents)
    decreases ds
  {
    match ds
    case NoDocuments => true
    case Documents(first, rest) => KeysOnce(first) && ItemKeysOnce(rest)
  }

  /** Each member whose key stands for the user lands, given what is there before. */
  predicate AllLand(was: Value, d: Document, userId: Name)
    decreases d
  {
    match d
    case Leaf(_) => true
    case Str(_) => true
    case Arr(items) => ItemsLand(AsArray(was), items, 0, userId)
    case Obj(members) => MembersLand(AsObject(was), members, userId)
  }

  predicate MembersLand(o: Value, ms: Members, userId: Name)
    requires o.Object?
    decreases ms
  {
    match ms
    case NoMembers => true
    case Members(name, value, rest) =>
      && (name == "my" ==> Lands(o, value, userId))
      && AllLand(Child(o, Key(Meant(name, userId))), value, userId)
      && MembersLand(o, rest, userId)
  }

  predicate ItemsLand(a: Value, ds: Documents, n: nat, userId: Name)
    decreases ds
  {
    match ds
    case NoDocuments => true
    case Documents(first, rest) => AllLand(Child(a, At(n + 1)), first, userId) && ItemsLand(a, rest, n + 1, userId)
  }

  // ----- arrays

  /** What is laid over an array at an index. */
  lemma {:induction false} LaidItemAt(a: Value, ds: Documents, n: nat, i: nat, userId: Name)
    requires a.Array? && 1 <= i
    ensures var r := LaidItems(a, ds, n, userId);
            && r.Array? && (ds.Documents? ==> |r.items| >= n + Length(ds)) && |r.items| >= |a.items|
            && Child(r, At(i)) == (if n < i <= n + Length(ds) then Laid(Child(a, At(i)), Nth(ds, i - n - 1), userId) else Child(a, At(i)))
    decreases ds
  {
    if ds.Documents? {
      var next := ItemLaid(a, n, ds.first, userId);
      LaidItemAt(next, ds.rest, n + 1, i, userId);
      if n + 1 == i {
        ChildWithChild(a, At(i), Laid(Child(a, At(i)), ds.first, userId));
      } else {
        OtherItem(a, n + 1, i, Laid(Child(a, At(n + 1)), ds.first, userId));
      }
    }
  }

  /** Whether the elements land depends on those from the next index on. */
  lemma {:induction false} ItemsLandSame(a: Value, a': Value, ds: Documents, n: nat, userId: Name)
    requires forall i: nat :: i > n ==> Child(a', At(i)) == Child(a, At(i))
    ensures ItemsLand(a', ds, n, userId) <==> ItemsLand(a, ds, n, userId)
    decreases ds
  {
    if ds.Documents? {
      ItemsLandSame(a, a', ds.rest, n + 1, userId);
    }
  }

  /** The array with one element overlaid. */
  function ItemOverlaid(a: Value, n: nat, d: Document, userId: Name): Value {
    WithChild(a, At(n + 1), Overlay(Child(a, At(n + 1)), Renamed(d, userId)))
  }

  lemma RestItemsSame(a: Value, ds: Documents, n: nat, userId: Name)
    requires a.Array? && ds.Documents?
    ensures ItemsLand(ItemOverlaid(a, n, ds.first, userId), ds.rest, n + 1, userId) <==> ItemsLand(a, ds.rest, n + 1, userId)
  {
    var a' := ItemOverlaid(a, n, ds.first, userId);
    forall i: nat | i > n + 1
      ensures Child(a', At(i)) == Child(a, At(i))
    {
      OtherItem(a, n + 1, i, Overlay(Child(a, At(n + 1)), Renamed(ds.first, userId)));
    }
    ItemsLandSame(a, a', ds.rest, n + 1, userId);
  }

  /** Cutting an array to its first elements keeps them. */
  lemma TruncatedChild(a: Value, n: nat, i: nat)
    requires a.Array? && 1 <= i <= n
    ensures Child(Truncated(a, n), At(i)) == Child(a, At(i))
  {
  }

  // ----- objects

  /** A key that no member is laid at keeps its value. */
  lemma {:induction false} LaidElsewhere(o: Value, ms: Members, k: Name, userId: Name)
    requires o.Object? && !Mentions(RenamedMembers(ms, userId), k) && (k == "my" ==> !Mentions(ms, k))
    ensures LaidMembers(o, ms, userId).Object? && Child(LaidMembers(o, ms, userId), Key(k)) == Child(o, Key(k))
    decreases ms
  {
    if ms.Members? {
      LaidElsewhere(MemberLaid(o, ms.name, ms.value, userId), ms.rest, k, userId);
    }
  }

  lemma {:induction false} MyMeansUser(ms: Members, userId: Name)
    ensures Mentions(ms, "my") ==> Mentions(RenamedMembers(ms, userId), userId)
    decreases ms
  {
    if ms.Members? {
      MyMeansUser(ms.rest, userId);
    }
  }

  /** Whether the members land depends on the keys they mean, and on the key itself. */
  lemma {:induction false} MembersLandSame(o: Value, o': Value, ms: Members, userId: Name)
    requires o.Object? && o'.Object?
    requires forall k :: Mentions(RenamedMembers(ms, userId), k) ==> Child(o', Key(k)) == Child(o, Key(k))
    requires Mentions(ms, "my") ==> Child(o', Key("my")) == Child(o, Key("my"))
    ensures MembersLand(o', ms, userId) <==> MembersLand(o, ms, userId)
    decreases ms
  {
    if ms.Members? {
      assert Mentions(RenamedMembers(ms, userId), Meant(ms.name, userId));
      MembersLandSame(o, o', ms.rest, userId);
    }
  }

  /** The object with one member overlaid at the key it means. */
  function MemberOverlaid(o: Value, name: Name, d: Document, userId: Name): Value {
    var k := Key(Meant(name, userId));
    WithChild(o, k, Overlay(Child(o, k), Renamed(d, userId)))
  }

  /** A member that lands, and so do all inside it, is overlaid where it belongs. */
  lemma MemberLandsWell(o: Value, name: Name, d: Document, userId: Name)
    requires o.Object? && userId != "my" && (name == "my" ==> Lands(o, d, userId))
    requires Laid(Child(o, Key(Meant(name, userId))), d, userId) == Overlay(Child(o, Key(Meant(name, userId))), Renamed(d, userId))
    ensures MemberLaid(o, name, d, userId) == MemberOverlaid(o, name, d, userId)
  {
    var inside := Laid(Child(o, Key(Meant(name, userId))), d, userId);
    LaidKinds(Child(o, Key(Meant(name, userId))), d, userId);
    if name == "my" {
      LandsExactly(o, d, inside, userId);
    } else {
      MemberMeant(o, name, d, userId);
    }
  }

  /** Where one does not, the object differs there, or at the key that stands for the user. */
  lemma MemberMisses(o: Value, name: Name, d: Document, userId: Name)
    requires o.Object? && userId != "my"
    requires
      || (name == "my" && !Lands(o, d, userId))
      || Laid(Child(o, Key(Meant(name, userId))), d, userId) != Overlay(Child(o, Key(Meant(name, userId))), Renamed(d, userId))
    ensures var l, r, k := MemberLaid(o, name, d, userId), MemberOverlaid(o, name, d, userId), Meant(name, userId);
            Child(l, Key(k)) != Child(r, Key(k)) || (name == "my" && Child(l, Key("my")) != Child(r, Key("my")))
  {
    LaidKinds(Child(o, Key(Meant(name, userId))), d, userId);
  }

  /** The two objects that the rest of the members make differ where the first member made them differ. */
  lemma MissesStay(o: Value, ms: Members, userId: Name)
    requires o.Object? && userId != "my" && ms.Members? && MemberKeysOnce(RenamedMembers(ms, userId))
    requires var l, r, k := MemberLaid(o, ms.name, ms.value, userId), MemberOverlaid(o, ms.name, ms.value, userId), Meant(ms.name, userId);
             Child(l, Key(k)) != Child(r, Key(k)) || (ms.name == "my" && Child(l, Key("my")) != Child(r, Key("my")))
    ensures LaidMembers(o, ms, userId) != OverlayMembers(o, RenamedMembers(ms, userId))
  {
    var l, r, k := MemberLaid(o, ms.name, ms.value, userId), MemberOverlaid(o, ms.name, ms.value, userId), Meant(ms.name, userId);
    MyMeansUser(ms.rest, userId);
    NoMyMentioned(ms.rest, userId);
    LaidElsewhere(l, ms.rest, k, userId);
    ObjectsMerge(r, RenamedMembers(ms.rest, userId), k);
    if ms.name == "my" {
      LaidElsewhere(l, ms.rest, "my", userId);
      ObjectsMerge(r, RenamedMembers(ms.rest, userId), "my");
    }
  }

  lemma {:induction false} NoMyMentioned(ms: Members, userId: Name)
    requires userId != "my"
    ensures !Mentions(RenamedMembers(ms, userId), "my")
    decreases ms
  {
    if ms.Members? {
      NoMyMentioned(ms.rest, userId);
    }
  }

  /** What the first member is laid at does not matter to the others. */
  lemma RestLandsSame(o: Value, ms: Members, userId: Name)
    requires o.Object? && userId != "my" && ms.Members? && MemberKeysOnce(RenamedMembers(ms, userId))
    ensures MembersLand(MemberOverlaid(o, ms.name, ms.value, userId), ms.rest, userId) <==> MembersLand(o, ms.rest, userId)
  {
    var o', k := MemberOverlaid(o, ms.name, ms.value, userId), Meant(ms.name, userId);
    MyMeansUser(ms.rest, userId);
    forall j | j != k
      ensures Child(o', Key(j)) == Child(o, Key(j))
    {
      ChildWithOther(o, Key(k), Key(j), Overlay(Child(o, Key(k)), Renamed(ms.value, userId)));
    }
    MembersLandSame(o, o', ms.rest, userId);
  }

  // ----- documents

  /** A document whose objects have no key twice, the user's id read for the key that stands for the user, is
      stored as its overlay exactly when each member with that key lands. */
  lemma {:induction false} LaidExactly(was: Value, d: Document, userId: Name)
    requires KeysOnce(Renamed(d, userId))
    ensures Laid(was, d, userId) == Overlay(was, Renamed(d, userId)) <==> AllLand(was, d, userId)
    decreases d
  {
    if userId == "my" {
      LaidIsOverlay(was, d, userId);
      AllLandAtMy(was, d);
    } else if d.Arr? {
      var a := AsArray(was);
      var i := ItemsExactly(a, d.items, 0, userId);
      RenamedLength(d.items, userId);
      if !ItemsLand(a, d.items, 0, userId) {
        LaidItemAt(a, d.items, 0, i, userId);
        ItemsOverlaid(a, RenamedItems(d.items, userId), 0, i);
        TruncatedChild(LaidItems(a, d.items, 0, userId), Length(d.items), i);
        TruncatedChild(OverlayItems(a, RenamedItems(d.items, userId), 0), Length(d.items), i);
      }
    } else if d.Obj? {
      MembersExactly(AsObject(was), d.members, userId);
    }
  }

  lemma {:induction false} MembersExactly(o: Value, ms: Members, userId: Name)
    requires o.Object? && userId != "my" && MemberKeysOnce(RenamedMembers(ms, userId))
    ensures LaidMembers(o, ms, userId) == OverlayMembers(o, RenamedMembers(ms, userId)) <==> MembersLand(o, ms, userId)
    decreases ms
  {
    if ms.Members? {
      var k := Key(Meant(ms.name, userId));
      LaidExactly(Child(o, k), ms.value, userId);
      if (ms.name == "my" ==> Lands(o, ms.value, userId)) && AllLand(Child(o, k), ms.value, userId) {
        MemberLandsWell(o, ms.name, ms.value, userId);
        RestLandsSame(o, ms, userId);
        MembersExactly(MemberOverlaid(o, ms.name, ms.value, userId), ms.rest, userId);
      } else {
        MemberMisses(o, ms.name, ms.value, userId);
        MissesStay(o, ms, userId);
      }
    }
  }

  /** Either all elements land and the arrays agree, or they differ at some new element. */
  lemma {:induction false} ItemsExactly(a: Value, ds: Documents, n: nat, userId: Name) returns (i: nat)
    requires a.Array? && userId != "my" && ItemKeysOnce(RenamedItems(ds, userId))
    ensures var l, r := LaidItems(a, ds, n, userId), OverlayItems(a, RenamedItems(ds, userId), n);
            if ItemsLand(a, ds, n, userId) then l == r
            else n < i <= n + Length(ds) && Child(l, At(i)) != Child(r, At(i))
    decreases ds
  {
    i := n + 1;
    if ds.Documents? {
      var was := Child(a, At(n + 1));
      LaidExactly(was, ds.first, userId);
      if AllLand(was, ds.first, userId) {
        RestItemsSame(a, ds, n, userId);
        i := ItemsExactly(ItemOverlaid(a, n, ds.first, userId), ds.rest, n + 1, userId);
      } else {
        LaidItemAt(a, ds, n, i, userId);
        ItemsOverlaid(a, RenamedItems(ds, userId), n, i);
        RenamedLength(ds, userId);
      }
    }
  }

  /** When the user's id is that key, everything lands. */
  lemma {:induction false} AllLandAtMy(was: Value, d: Document)
    ensures AllLand(was, d, "my")
    decreases d
  {
    match d
    case Leaf(_) =>
    case Str(_) =>
    case Arr(items) => ItemsLandAtMy(AsArray(was), items, 0);
    case Obj(members) => MembersLandAtMy(AsObject(was), members);
  }

  lemma {:induction false} MembersLandAtMy(o: Value, ms: Members)
    requires o.Object?
    ensures MembersLand(o, ms, "my")
    decreases ms
  {
    if ms.Members? {
      AllLandAtMy(Child(o, Key(Meant(ms.name, "my"))), ms.value);
      MembersLandAtMy(o, ms.rest);
    }
  }

  lemma {:induction false} ItemsLandAtMy(a: Value, ds: Documents, n: nat)
    ensures ItemsLand(a, ds, n, "my")
    decreases ds
  {
    if ds.Documents? {
      AllLandAtMy(Child(a, At(n + 1)), ds.first);
      ItemsLandAtMy(a, ds.rest, n + 1);
    }
  }
}
