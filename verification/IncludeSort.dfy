/** Arranging the units of the include region: by group, and inside a group by
    the lower-cased directive, with list.sort()'s stability. */
module IncludeSort {
  import opened Basics
  import opened Sorting

  /** What moves as one: an include, or a whole conditional. */
  datatype Unit = Unit(group: nat, key: string, lines: seq<string>)

  const NUM_GROUPS := 5

  function Lower(s: string): (r: string)
    ensures |r| == |s|
  {
    seq(|s|, i requires 0 <= i < |s| => ToLower(s[i]))
  }

  predicate KeyLe(u: Unit, v: Unit) { LexLe(Lower(u.key), Lower(v.key)) }

  ghost predicate KeySorted(us: seq<Unit>) { Sorted(us, KeyLe) }

  // ---- list.sort(key=...) -----------------------------------------------------------------

  function SortUnits(us: seq<Unit>): seq<Unit> { Sort(us, KeyLe) }

  lemma KeyTotal(u: Unit, v: Unit)
    ensures KeyLe(u, v) || KeyLe(v, u)
  {
    LexTotal(Lower(u.key), Lower(v.key));
  }

  lemma KeyTransitive(u: Unit, v: Unit, w: Unit)
    requires KeyLe(u, v) && KeyLe(v, w)
    ensures KeyLe(u, w)
  {
    LexTransitive(Lower(u.key), Lower(v.key), Lower(w.key));
  }

  /** The units with one group and one key, in order. */
  function Alike(us: seq<Unit>, g: nat, key: string): seq<Unit> {
    if us == [] then []
    else
      var u := us[|us| - 1];
      Alike(us[..|us| - 1], g, key) + if u.group == g && Lower(u.key) == key then [u] else []
  }

  lemma {:induction false} AlikeConcat(a: seq<Unit>, b: seq<Unit>, g: nat, key: string)
    ensures Alike(a + b, g, key) == Alike(a, g, key) + Alike(b, g, key)
  {
    if b == [] {
      assert a + b == a;
    } else {
      assert (a + b)[..|a + b| - 1] == a + b[..|b| - 1];
      AlikeConcat(a, b[..|b| - 1], g, key);
    }
  }

  lemma AlikeSnoc(us: seq<Unit>, u: Unit, g: nat, key: string)
    ensures Alike(us + [u], g, key) ==
            Alike(us, g, key) + if u.group == g && Lower(u.key) == key then [u] else []
  {
    hide Lower;
    assert (us + [u])[..|us|] == us;
  }

  lemma SameKeyLe(u: Unit, v: Unit)
    requires !KeyLe(u, v)
    ensures Lower(u.key) != Lower(v.key)
  {
    LexReflexive(Lower(v.key));
  }

  lemma {:induction false} InsertAlike(us: seq<Unit>, u: Unit, g: nat, key: string)
    ensures Alike(Insert(us, u, KeyLe), g, key) ==
            Alike(us, g, key) + if u.group == g && Lower(u.key) == key then [u] else []
  {
    hide Lower, KeyLe, Alike;
    if us == [] || KeyLe(us[|us| - 1], u) {
      AlikeSnoc(us, u, g, key);
    } else {
      var n := |us| - 1;
      InsertAlike(us[..n], u, g, key);
      SameKeyLe(us[n], u);
      AlikeSnoc(Insert(us[..n], u, KeyLe), us[n], g, key);
      AlikeSnoc(us[..n], us[n], g, key);
      Snoc(us);
    }
  }

  lemma KeysOrdered()
    ensures TotalOrder(KeyLe)
  {
    hide KeyLe;
    forall u, v ensures KeyLe(u, v) || KeyLe(v, u) { KeyTotal(u, v); }
    forall u, v, w | KeyLe(u, v) && KeyLe(v, w) ensures KeyLe(u, w) { KeyTransitive(u, v, w); }
  }

  lemma {:induction false} SortAlike(us: seq<Unit>, g: nat, key: string)
    ensures Alike(SortUnits(us), g, key) == Alike(us, g, key)
  {
    hide Insert, Lower, KeyLe;
    if us != [] {
      var n := |us| - 1;
      SortAlike(us[..n], g, key);
      InsertAlike(Sort(us[..n], KeyLe), us[n], g, key);
    }
  }

  /** Sorting permutes, orders by key, and leaves equal keys in place. */
  lemma SortSpec(us: seq<Unit>, g: nat, key: string)
    ensures multiset(SortUnits(us)) == multiset(us) && KeySorted(SortUnits(us))
    ensures Alike(SortUnits(us), g, key) == Alike(us, g, key)
  {
    hide Sort, Alike, TotalOrder, Sorted;
    KeysOrdered();
    SortBag(us, KeyLe);
    SortSorted(us, KeyLe);
    SortAlike(us, g, key);
  }

  // ---- Groups -----------------------------------------------------------------------------

  function InGroup(us: seq<Unit>, g: nat): seq<Unit> {
    if us == [] then []
    else InGroup(us[..|us| - 1], g) + if us[|us| - 1].group == g then [us[|us| - 1]] else []
  }

  function FromGroup(us: seq<Unit>, g: nat): seq<Unit> {
    if us == [] then []
    else FromGroup(us[..|us| - 1], g) + if us[|us| - 1].group >= g then [us[|us| - 1]] else []
  }

  /** The sorted groups g, g + 1, ..., NUM_GROUPS. */
  function Arrange(us: seq<Unit>, g: nat): seq<Unit>
    decreases NUM_GROUPS + 1 - g
  {
    if g > NUM_GROUPS then [] else SortUnits(InGroup(us, g)) + Arrange(us, g + 1)
  }

  predicate GroupsOk(us: seq<Unit>) {
    forall i :: 0 <= i < |us| ==> 1 <= us[i].group <= NUM_GROUPS
  }

  predicate Before(u: Unit, v: Unit) { u.group < v.group || (u.group == v.group && KeyLe(u, v)) }

  ghost predicate Ordered(us: seq<Unit>) {
    forall i, j :: 0 <= i < j < |us| ==> Before(us[i], us[j])
  }

  lemma {:induction false} GroupBag(us: seq<Unit>, g: nat)
    ensures multiset(FromGroup(us, g)) == multiset(InGroup(us, g)) + multiset(FromGroup(us, g + 1))
    ensures forall u :: u in InGroup(us, g) ==> u.group == g
  {
    if us != [] { GroupBag(us[..|us| - 1], g); }
  }

  lemma {:induction false} GroupAlike(us: seq<Unit>, g: nat, h: nat, key: string)
    ensures Alike(InGroup(us, h), g, key) == if g == h then Alike(us, g, key) else []
  {
    hide Lower, Alike;
    if us == [] {
      assert Alike([], g, key) == [] by { NoneAlike(g, key); }
    } else {
      var n := |us| - 1;
      GroupAlike(us[..n], g, h, key);
      assert us[n].group != h ==> InGroup(us, h) == InGroup(us[..n], h);
      AlikeSnoc(InGroup(us[..n], h), us[n], g, key);
      AlikeSnoc(us[..n], us[n], g, key);
      Snoc(us);
    }
  }

  lemma NoneAlike(g: nat, key: string)
    ensures Alike([], g, key) == []
  {
  }

  lemma {:induction false} FromGroupEnds(us: seq<Unit>)
    requires GroupsOk(us)
    ensures FromGroup(us, 1) == us && FromGroup(us, NUM_GROUPS + 1) == []
  {
    if us != [] {
      FromGroupEnds(us[..|us| - 1]);
      Snoc(us);
    }
  }

  lemma {:induction false} ArrangeBag(us: seq<Unit>, h: nat)
    requires GroupsOk(us) && 1 <= h <= NUM_GROUPS + 1
    ensures multiset(Arrange(us, h)) == multiset(FromGroup(us, h))
    decreases NUM_GROUPS + 1 - h
  {
    hide SortUnits, InGroup, FromGroup, KeySorted, Alike;
    if h > NUM_GROUPS {
      FromGroupEnds(us);
    } else {
      ArrangeBag(us, h + 1);
      SortSpec(InGroup(us, h), 0, "");
      GroupBag(us, h);
    }
  }

  lemma {:induction false} ArrangeOrder(us: seq<Unit>, h: nat)
    requires 1 <= h <= NUM_GROUPS + 1
    ensures Ordered(Arrange(us, h)) && forall u :: u in Arrange(us, h) ==> u.group >= h
    decreases NUM_GROUPS + 1 - h
  {
    hide SortUnits, InGroup, FromGroup, Ordered, KeySorted;
    if h > NUM_GROUPS {
      NothingOrdered();
    } else {
      var first := SortUnits(InGroup(us, h));
      ArrangeOrder(us, h + 1);
      SortSpec(InGroup(us, h), 0, "");
      GroupBag(us, h);
      SameGroup(InGroup(us, h), first, h);
      OrderedConcat(first, Arrange(us, h + 1), h);
    }
  }

  lemma NothingOrdered()
    ensures Ordered([])
  {
  }

  lemma {:induction false} ArrangeAlike(us: seq<Unit>, h: nat, g: nat, key: string)
    requires 1 <= h <= NUM_GROUPS + 1
    ensures Alike(Arrange(us, h), g, key) == if h <= g <= NUM_GROUPS then Alike(us, g, key) else []
    decreases NUM_GROUPS + 1 - h
  {
    hide SortUnits, InGroup, Alike, Ordered, KeySorted;
    if h > NUM_GROUPS {
      NoneAlike(g, key);
    } else {
      ArrangeAlike(us, h + 1, g, key);
      SortSpec(InGroup(us, h), g, key);
      GroupAlike(us, g, h, key);
      AlikeConcat(SortUnits(InGroup(us, h)), Arrange(us, h + 1), g, key);
    }
  }

  lemma SameGroup(us: seq<Unit>, vs: seq<Unit>, h: nat)
    requires multiset(us) == multiset(vs) && forall u :: u in us ==> u.group == h
    ensures forall v :: v in vs ==> v.group == h
  {
    forall v | v in vs ensures v.group == h {
      assert v in multiset(vs);
      assert v in multiset(us);
    }
  }

  lemma OrderedConcat(a: seq<Unit>, b: seq<Unit>, h: nat)
    requires KeySorted(a) && Ordered(b)
    requires (forall u :: u in a ==> u.group == h) && forall u :: u in b ==> u.group >= h + 1
    ensures Ordered(a + b)
  {
    hide KeyLe;
    var r := a + b;
    forall i, j | 0 <= i < j < |r| ensures Before(r[i], r[j]) {
      if j < |a| { assert a[i].group == h && a[j].group == h; }
      else if i < |a| { assert a[i].group == h && b[j - |a|] in b; }
      else { assert Before(b[i - |a|], b[j - |a|]); }
    }
  }

  /** The arranged units are the given ones, ordered by group and key, and units
      with the same group and key keep their order. */
  lemma Arranged(us: seq<Unit>, g: nat, key: string)
    requires GroupsOk(us)
    ensures multiset(Arrange(us, 1)) == multiset(us) && Ordered(Arrange(us, 1))
    ensures Alike(Arrange(us, 1), g, key) == Alike(us, g, key)
  {
    hide Arrange, Ordered, Lower;
    ArrangeBag(us, 1);
    ArrangeOrder(us, 1);
    ArrangeAlike(us, 1, g, key);
    FromGroupEnds(us);
    OutOfRange(us, g, key);
  }

  lemma {:induction false} OutOfRange(us: seq<Unit>, g: nat, key: string)
    requires GroupsOk(us)
    ensures !(1 <= g <= NUM_GROUPS) ==> Alike(us, g, key) == []
  {
    hide Lower;
    if us != [] { OutOfRange(us[..|us| - 1], g, key); }
  }
}
