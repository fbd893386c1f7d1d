/** _IdentPlan: the file-scope identifiers of one generated .gen.{h,c} pair.

    Convention names (tags, functions, enumerators) are claimed first; every
    helper derived by suffix is then assigned the first free root. */
module IdentPlan {
  import opened Naming

  datatype Namespace = Ordinary | Tag | Macro

  /** What the generated code finds already declared. */
  datatype Foreign = Foreign(jsonTags: set<string>, jsonOrdinary: set<string>, jsonMacros: set<string>,
                             keywords: set<string>, tagReserved: set<string>)
  {
    /** The names _foreign() refuses in a namespace. */
    function Names(ns: Namespace): set<string> {
      jsonMacros +
      (if ns == Tag then jsonTags + tagReserved else jsonOrdinary + keywords)
    }
  }

  /** A convention name with its owner, or a struct member. */
  datatype Item = Convention(ns: Namespace, name: string, owner: string) | Member(name: string)

  /** One name of a helper group: its namespace, and its suffix under the root. */
  datatype Shape = Shape(ns: Namespace, suffix: string)

  /** The groups the generator asks for: distinct suffixes without a leading '_'. */
  predicate ShapesOk(shapes: seq<Shape>) {
    && (forall i :: 0 <= i < |shapes| ==> shapes[i].suffix == "" || shapes[i].suffix[0] != '_')
    && (forall i, j :: 0 <= i < j < |shapes| ==> shapes[i].suffix != shapes[j].suffix)
  }

  datatype LookupKind = Switch | Bsearch | Gperf

  /** The helpers a key lookup derives from its root. */
  function LookupHelpers(kind: LookupKind): (shapes: seq<Shape>)
    ensures ShapesOk(shapes)
  {
    match kind
    case Switch => []
    case Bsearch => [Shape(Ordinary, "keys_"), Shape(Ordinary, "entry_"), Shape(Ordinary, "cmp_")]
    case Gperf => [Shape(Ordinary, "hash"), Shape(Ordinary, "kv_lookup_"), Shape(Ordinary, "stringpool_contents"),
                   Shape(Tag, "kv"), Shape(Tag, "stringpool_t"), Shape(Macro, "stringpool")]
  }

  /** The helper groups a scope asks for. */
  datatype Helpers = KeyEnum(base: string) | Lookup(base: string, kind: LookupKind) | MarshalImpl(base: string)

  function ShapesOf(h: Helpers): (shapes: seq<Shape>)
    ensures ShapesOk(shapes)
  {
    match h
    case KeyEnum(_) => [Shape(Tag, "")]
    case Lookup(_, kind) => LookupHelpers(kind)
    case MarshalImpl(_) => [Shape(Ordinary, "")]
  }

  /** An identifier the plan has handed out. */
  datatype Planned = Claimed(ns: Namespace, name: string, owner: string)
                   | Helper(ns: Namespace, name: string)

  /** Two identifiers the C compiler would confuse: the same name in one
      namespace, or a macro with the name of anything. */
  predicate Clash(a: Planned, b: Planned) {
    a.name == b.name && (a.ns == b.ns || a.ns == Macro || b.ns == Macro)
  }

  /** No two planned identifiers clash, unless one owner claimed a name twice. */
  predicate NoClash(log: seq<Planned>) {
    forall i, j :: 0 <= i < j < |log| ==>
      (Clash(log[i], log[j]) ==> log[i].Claimed? && log[i] == log[j])
  }

  /** What the plan promises about its output. */
  predicate Sound(log: seq<Planned>, members: set<string>, guard: string, foreign: Foreign) {
    && NoClash(log)
    && (forall i :: 0 <= i < |log| ==>
          && log[i].name !in foreign.Names(log[i].ns)
          && log[i].name != guard
          && (log[i].ns == Macro ==> log[i].name !in members))
    && guard !in members
  }

  function GroupLog(root: string, shapes: seq<Shape>): (log: seq<Planned>)
    ensures |log| == |shapes|
  {
    seq(|shapes|, i requires 0 <= i < |shapes| => Helper(shapes[i].ns, Name(root, shapes[i].suffix)))
  }

  function SuffixesOf(shapes: seq<Shape>): (ss: seq<string>)
    ensures |ss| == |shapes| && forall i :: 0 <= i < |ss| ==> ss[i] == shapes[i].suffix
  {
    seq(|shapes|, i requires 0 <= i < |shapes| => shapes[i].suffix)
  }

  /** What a new identifier has to satisfy to join the ones handed out. */
  lemma SoundSnoc(log: seq<Planned>, p: Planned, members: set<string>, guard: string, foreign: Foreign)
    requires Sound(log, members, guard, foreign)
    requires p.name !in foreign.Names(p.ns) && p.name != guard
    requires p.ns == Macro ==> p.name !in members
    requires forall i :: 0 <= i < |log| && Clash(log[i], p) ==> log[i].Claimed? && log[i] == p
    ensures Sound(log + [p], members, guard, foreign)
  {
    hide Foreign.Names, Clash;
  }

  const GUARD_OWNER := "the header guard"

  class Plan {
    const foreign: Foreign
    const guard: string
    var ordinary: map<string, string>
    var tag: map<string, string>
    var macro: map<string, string>
    var members: set<string>
    ghost var log: seq<Planned>

    constructor (foreign: Foreign, guard: string)
      ensures this.foreign == foreign && this.guard == guard
      ensures Valid() && log == [] && members == {}
      ensures macro == map[guard := GUARD_OWNER] && ordinary == map[] && tag == map[]
    {
      this.foreign, this.guard := foreign, guard;
      ordinary, tag, members, log := map[], map[], {}, [];
      macro := map[guard := GUARD_OWNER];
    }

    function Table(ns: Namespace): map<string, string>
      reads this
    {
      match ns
      case Ordinary => ordinary
      case Tag => tag
      case Macro => macro
    }

    /** The names _free() refuses. */
    function Taken(ns: Namespace): set<string>
      reads this
    {
      foreign.Names(ns) + macro.Keys +
      (if ns == Macro then ordinary.Keys + tag.Keys + members else Table(ns).Keys)
    }

    /** The tables hold exactly what was handed out, and the guard. */
    ghost predicate Recorded()
      reads this
    {
      && (forall i :: 0 <= i < |log| ==> log[i].name in Table(log[i].ns))
      && (forall i :: 0 <= i < |log| && log[i].Claimed? ==> Table(log[i].ns)[log[i].name] == log[i].owner)
      && guard in macro
      && macro.Keys !! ordinary.Keys && macro.Keys !! tag.Keys && macro.Keys !! members
    }

    ghost predicate Valid()
      reads this
    {
      Recorded() && Sound(log, members, guard, foreign)
    }

    /** No helper has been assigned yet. */
    ghost predicate Claiming()
      reads this
    {
      && macro == map[guard := GUARD_OWNER]
      && forall i :: 0 <= i < |log| ==> log[i].Claimed? && log[i].ns != Macro
    }

    /** claim() succeeds on a name nobody else has. */
    predicate Claimable(ns: Namespace, name: string, owner: string)
      reads this
    {
      && name !in foreign.Names(ns)
      && name !in macro
      && (name in Table(ns) ==> Table(ns)[name] == owner)
    }

    /** claim() */
    method Claim(ns: Namespace, name: string, owner: string) returns (ok: bool)
      requires Valid() && Claiming() && ns != Macro && owner != GUARD_OWNER
      modifies this`ordinary, this`tag, this`log
      ensures Valid() && Claiming()
      ensures ok <==> old(Claimable(ns, name, owner))
      ensures ok ==> log == old(log) + [Claimed(ns, name, owner)] &&
                     Table(ns) == old(Table(ns))[name := owner]
      ensures !ok ==> log == old(log) && Table(ns) == old(Table(ns))
      ensures forall other :: other != ns ==> Table(other) == old(Table(other))
    {
      hide Foreign.Names, Sound;
      if name in foreign.Names(ns) { return false; }
      if name in macro {
        return false;
      }
      if name in Table(ns) && Table(ns)[name] != owner { return false; }
      ok := true;
      forall i | 0 <= i < |log| && Clash(log[i], Claimed(ns, name, owner))
        ensures log[i] == Claimed(ns, name, owner)
      {
        assert log[i].name in Table(log[i].ns);
      }
      SoundSnoc(log, Claimed(ns, name, owner), members, guard, foreign);
      log := log + [Claimed(ns, name, owner)];
      if ns == Ordinary { ordinary := ordinary[name := owner]; } else { tag := tag[name := owner]; }
    }

    /** A struct member may not be the guard. */
    method AddMember(name: string) returns (ok: bool)
      requires Valid() && Claiming()
      modifies this`members
      ensures Valid() && Claiming()
      ensures ok <==> name != guard
      ensures members == if ok then old(members) + {name} else old(members)
    {
      hide Foreign.Names, NoClash;
      ok := name !in macro;
      if ok { members := members + {name}; }
    }

    /** What _free() checks of a whole group. */
    function TakenBy(shapes: seq<Shape>): (taken: seq<set<string>>)
      reads this
      ensures |taken| == |shapes| && forall i :: 0 <= i < |taken| ==> taken[i] == Taken(shapes[i].ns)
    {
      seq(|shapes|, i requires 0 <= i < |shapes| reads this => Taken(shapes[i].ns))
    }

    /** Enter one helper name that is free. */
    method Enter(ns: Namespace, name: string, owner: string)
      requires Valid() && name !in Taken(ns)
      modifies this`ordinary, this`tag, this`macro, this`log
      ensures Valid()
      ensures log == old(log) + [Helper(ns, name)]
      ensures forall other, x :: x != name ==> (x in Taken(other) <==> x in old(Taken(other)))
    {
      hide Foreign.Names, Sound;
      forall i | 0 <= i < |log| ensures !Clash(log[i], Helper(ns, name)) {
        assert log[i].name in Table(log[i].ns);
      }
      SoundSnoc(log, Helper(ns, name), members, guard, foreign);
      log := log + [Helper(ns, name)];
      match ns
      case Ordinary => ordinary := ordinary[name := owner];
      case Tag => tag := tag[name := owner];
      case Macro => macro := macro[name := owner];
    }

    /** assign(): the first of base, base_2, ... whose whole group is free. */
    method Assign(base: string, shapes: seq<Shape>) returns (root: string)
      requires Valid() && ShapesOk(shapes)
      modifies this`ordinary, this`tag, this`macro, this`log
      ensures Valid()
      ensures log == old(log) + GroupLog(root, shapes)
      ensures exists n :: n >= 1 && root == Candidate(base, n) &&
                forall m :: 1 <= m < n ==> !Free(Candidate(base, m), SuffixesOf(shapes), old(TakenBy(shapes)))
    {
      hide Sound, Foreign.Names, Free, Candidate, Name, Taken;
      var taken := TakenBy(shapes);
      root := FirstFree(base, SuffixesOf(shapes), taken);
      GroupFree(root, shapes, taken);
      for k := 0 to |shapes|
        invariant Valid()
        invariant log == old(log) + GroupLog(root, shapes)[..k]
        invariant forall i :: k <= i < |shapes| ==> Name(root, shapes[i].suffix) !in Taken(shapes[i].ns)
      {
        forall i | k < i < |shapes|
          ensures Name(root, shapes[i].suffix) != Name(root, shapes[k].suffix)
        {
          SuffixInjective(root, shapes[i].suffix, shapes[k].suffix);
        }
        Enter(shapes[k].ns, Name(root, shapes[k].suffix), "a helper of " + root);
      }
    }
  }

  // ---- The whole plan ---------------------------------------------------------------

  /** The convention names can all be had: none is foreign or the guard, and one
      name belongs to one owner. */
  ghost predicate Consistent(items: seq<Item>, guard: string, foreign: Foreign) {
    && (forall i :: 0 <= i < |items| ==> items[i].name != guard)
    && (forall i :: 0 <= i < |items| && items[i].Convention? ==> items[i].name !in foreign.Names(items[i].ns))
    && (forall i, j :: 0 <= i < j < |items| ==> Agree(items[i], items[j]))
  }

  predicate Agree(a: Item, b: Item) {
    a.Convention? && b.Convention? && a.ns == b.ns && a.name == b.name ==> a.owner == b.owner
  }

  function ClaimLog(items: seq<Item>): seq<Planned> {
    if items == [] then []
    else
      var k := |items| - 1;
      ClaimLog(items[..k]) +
      if items[k].Convention? then [Claimed(items[k].ns, items[k].name, items[k].owner)] else []
  }

  function MemberNames(items: seq<Item>): set<string> {
    set i | 0 <= i < |items| && items[i].Member? :: items[i].name
  }

  function HelperLog(roots: seq<string>, helpers: seq<Helpers>): seq<Planned>
    requires |roots| <= |helpers|
  {
    if roots == [] then []
    else
      var k := |roots| - 1;
      HelperLog(roots[..k], helpers) + GroupLog(roots[k], ShapesOf(helpers[k]))
  }

  predicate ItemOk(item: Item) {
    item.Convention? ==> item.ns != Macro && item.owner != GUARD_OWNER
  }

  /** A table holds the convention names claimed so far and nothing else. */
  ghost predicate HoldsIn(table: map<string, string>, ns: Namespace, items: seq<Item>) {
    && (forall i :: 0 <= i < |items| && items[i].Convention? && items[i].ns == ns ==>
          items[i].name in table && table[items[i].name] == items[i].owner)
    && (forall name :: name in table ==> Convention(ns, name, table[name]) in items)
  }

  lemma HoldsSnoc(table: map<string, string>, ns: Namespace, items: seq<Item>, item: Item)
    requires HoldsIn(table, ns, items)
    ensures item.Member? || item.ns != ns ==> HoldsIn(table, ns, items + [item])
    ensures item.Convention? && item.ns == ns && (item.name in table ==> table[item.name] == item.owner) ==>
            HoldsIn(table[item.name := item.owner], ns, items + [item])
  {
    var all := items + [item];
    assert all[|items|] == item && forall i :: 0 <= i < |items| ==> all[i] == items[i];
    assert item in all && forall x :: x in items ==> x in all;
  }

  ghost predicate Holds(plan: Plan, items: seq<Item>)
    reads plan
  {
    HoldsIn(plan.ordinary, Ordinary, items) && HoldsIn(plan.tag, Tag, items)
  }

  /** Why a refused name makes the convention names inconsistent, and an accepted
      one does not. */
  lemma ConsistentSnoc(table: map<string, string>, items: seq<Item>, item: Item, guard: string, foreign: Foreign)
    requires Consistent(items, guard, foreign)
    requires item.Convention? ==> HoldsIn(table, item.ns, items)
    ensures Consistent(items + [item], guard, foreign) <==>
            && item.name != guard
            && (item.Convention? ==> item.name !in foreign.Names(item.ns))
            && (item.Convention? && item.name in table ==> table[item.name] == item.owner)
  {
    hide Foreign.Names;
    var all := items + [item];
    var k := |items|;
    assert all[k] == item && forall i :: 0 <= i < k ==> all[i] == items[i];
    if item.Convention? && item.name in table && table[item.name] != item.owner {
      var other := Convention(item.ns, item.name, table[item.name]);
      var i :| 0 <= i < k && items[i] == other;
      assert !Agree(all[i], all[k]);
    }
  }

  method TakeItem(plan: Plan, ghost items: seq<Item>, item: Item) returns (ok: bool)
    requires plan.Valid() && plan.Claiming() && Holds(plan, items) && ItemOk(item)
    requires Consistent(items, plan.guard, plan.foreign)
    modifies plan`ordinary, plan`tag, plan`log, plan`members
    ensures plan.Valid() && plan.Claiming()
    ensures ok <==> Consistent(items + [item], plan.guard, plan.foreign)
    ensures ok ==> Holds(plan, items + [item])
    ensures ok && item.Convention? ==> plan.members == old(plan.members)
    ensures ok && item.Convention? ==> plan.log == old(plan.log) + [Claimed(item.ns, item.name, item.owner)]
    ensures ok && item.Member? ==> plan.log == old(plan.log) && plan.members == old(plan.members) + {item.name}
  {
    hide Sound, Foreign.Names, Consistent, HoldsIn;
    HoldsSnoc(plan.ordinary, Ordinary, items, item);
    HoldsSnoc(plan.tag, Tag, items, item);
    if item.Member? {
      ConsistentSnoc(map[], items, item, plan.guard, plan.foreign);
      ok := plan.AddMember(item.name);
    } else {
      ConsistentSnoc(plan.Table(item.ns), items, item, plan.guard, plan.foreign);
      ok := plan.Claim(item.ns, item.name, item.owner);
      assert plan.Table(Ordinary) == plan.ordinary && plan.Table(Tag) == plan.tag;
    }
  }

  lemma {:induction false} ConsistentPrefix(items: seq<Item>, k: nat, guard: string, foreign: Foreign)
    requires k <= |items| && Consistent(items, guard, foreign)
    ensures Consistent(items[..k], guard, foreign)
  {
    hide Foreign.Names, Agree;
  }

  /** The first loop of _plan_identifiers(): every convention name. */
  method ClaimAll(plan: Plan, items: seq<Item>) returns (ok: bool)
    requires plan.Valid() && plan.Claiming() && Holds(plan, []) && plan.log == [] && plan.members == {}
    requires forall i :: 0 <= i < |items| ==> ItemOk(items[i])
    modifies plan`ordinary, plan`tag, plan`log, plan`members
    ensures plan.Valid()
    ensures ok <==> Consistent(items, plan.guard, plan.foreign)
    ensures ok ==> plan.log == ClaimLog(items) && plan.members == MemberNames(items)
  {
    hide Sound, Foreign.Names, Consistent, Holds, ItemOk, MemberNames;
    NothingConsistent(plan.guard, plan.foreign);
    for k := 0 to |items|
      invariant plan.Valid() && plan.Claiming()
      invariant Consistent(items[..k], plan.guard, plan.foreign) && Holds(plan, items[..k])
      invariant plan.log == ClaimLog(items[..k]) && plan.members == MemberNames(items[..k])
    {
      ok := TakeItem(plan, items[..k], items[k]);
      assert items[..k + 1] == items[..k] + [items[k]];
      assert items[..k + 1][..k] == items[..k];
      if !ok {
        if Consistent(items, plan.guard, plan.foreign) {
          ConsistentPrefix(items, k + 1, plan.guard, plan.foreign);
        }
        return;
      }
      MemberNamesSnoc(items[..k], items[k]);
    }
    assert items[..|items|] == items;
    ok := true;
  }

  lemma NothingConsistent(guard: string, foreign: Foreign)
    ensures Consistent([], guard, foreign) && MemberNames([]) == {}
  {
  }

  /** The second loop: every helper group. */
  method AssignAll(plan: Plan, helpers: seq<Helpers>) returns (roots: seq<string>)
    requires plan.Valid()
    modifies plan`ordinary, plan`tag, plan`macro, plan`log
    ensures plan.Valid() && |roots| == |helpers|
    ensures plan.log == old(plan.log) + HelperLog(roots, helpers)
  {
    hide Sound, Foreign.Names, ShapesOf, GroupLog;
    roots := [];
    for k := 0 to |helpers|
      invariant plan.Valid()
      invariant |roots| == k && plan.log == old(plan.log) + HelperLog(roots, helpers)
    {
      var root := plan.Assign(helpers[k].base, ShapesOf(helpers[k]));
      ghost var was := roots;
      roots := roots + [root];
      assert roots[..k] == was;
    }
  }

  /** _plan_identifiers(): it succeeds exactly on consistent convention names,
      and then no two identifiers of the output clash, however the helper
      suffixes and the property names overlap. */
  method PlanIdentifiers(foreign: Foreign, guard: string, items: seq<Item>, helpers: seq<Helpers>)
    returns (plan: Plan, ok: bool, roots: seq<string>)
    requires forall i :: 0 <= i < |items| ==> ItemOk(items[i])
    ensures ok <==> Consistent(items, guard, foreign)
    ensures ok ==> |roots| == |helpers| && plan.log == ClaimLog(items) + HelperLog(roots, helpers)
    ensures ok ==> Sound(plan.log, MemberNames(items), guard, foreign)
  {
    hide Sound, Foreign.Names, Consistent, Holds, ItemOk, ClaimLog, HelperLog, MemberNames, NoClash;
    plan := new Plan(foreign, guard);
    roots := [];
    NothingYet(plan);
    ok := ClaimAll(plan, items);
    if ok { roots := AssignAll(plan, helpers); }
  }

  lemma NothingYet(plan: Plan)
    requires plan.ordinary == map[] && plan.tag == map[]
    ensures Holds(plan, [])
  {
  }

  lemma MemberNamesSnoc(items: seq<Item>, item: Item)
    ensures MemberNames(items + [item]) == MemberNames(items) + if item.Member? then {item.name} else {}
  {
    var all := items + [item];
    assert all[|items|] == item && forall i :: 0 <= i < |items| ==> all[i] == items[i];
  }

  lemma GroupFree(root: string, shapes: seq<Shape>, taken: seq<set<string>>)
    requires |taken| == |shapes| && Free(root, SuffixesOf(shapes), taken)
    ensures forall i :: 0 <= i < |shapes| ==> Name(root, shapes[i].suffix) !in taken[i]
  {
    hide Name;
    forall i | 0 <= i < |shapes| ensures Name(root, shapes[i].suffix) !in taken[i] {
      assert SuffixesOf(shapes)[i] == shapes[i].suffix;
    }
  }
}
