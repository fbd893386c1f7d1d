/** _reorder_includes(): the include region regrouped and sorted, with no line
    lost and every conditional kept whole. */
module IncludeOrder {
  import opened Basics
  import opened IncludeLines
  import opened IncludeSort

  // ---- Items ------------------------------------------------------------------------------

  datatype Kind = Incl | Empty | Pp | Comment

  /** One line of the region; group 0 is none. */
  datatype Item = Item(kind: Kind, group: nat, key: string, text: string)

  function ItemAt(src: Source, j: nat, classify: string -> nat): Item
    requires src.Valid() && j < |src.lines|
  {
    var text, s := src.lines[j], Strip(src.lines[j]);
    if src.masked[j] then Item(Comment, 0, "", text)
    else if IncludeMatch(s).Some? then
      Item(Incl, classify(IncludeMatch(s).value.target), IncludeMatch(s).value.text, text)
    else if s == "" then Item(Empty, 0, "", text)
    else if s[0] == '#' then Item(Pp, 0, "", text)
    else Item(Comment, 0, "", text)
  }

  function Items(src: Source, i: nat, end: nat, classify: string -> nat): (items: seq<Item>)
    requires src.Valid() && i <= end <= |src.lines|
    ensures |items| == end - i && forall k :: 0 <= k < |items| ==> items[k] == ItemAt(src, i + k, classify)
  {
    seq(end - i, k requires 0 <= k < end - i => ItemAt(src, i + k, classify))
  }

  lemma ItemsCons(src: Source, i: nat, end: nat, classify: string -> nat)
    requires src.Valid() && i < end <= |src.lines|
    ensures Items(src, i, end, classify) == [ItemAt(src, i, classify)] + Items(src, i + 1, end, classify)
  {
    hide ItemAt;
  }

  /** _parse_include_items() */
  method ParseItems(src: Source, start: nat, end: nat, classify: string -> nat) returns (items: seq<Item>)
    requires src.Valid() && start <= end <= |src.lines|
    ensures items == Items(src, start, end, classify)
  {
    hide IncludeMatch, Strip;
    items := [];
    for i := start to end
      invariant |items| == i - start
      invariant forall k :: 0 <= k < |items| ==> items[k] == ItemAt(src, start + k, classify)
    {
      var text := src.lines[i];
      if src.masked[i] {
        items := items + [Item(Comment, 0, "", text)];
        continue;
      }
      var s := Strip(text);
      var m := IncludeMatch(s);
      if m.Some? {
        items := items + [Item(Incl, classify(m.value.target), m.value.text, text)];
      } else if s == "" {
        items := items + [Item(Empty, 0, "", text)];
      } else if s[0] == '#' {
        items := items + [Item(Pp, 0, "", text)];
      } else {
        items := items + [Item(Comment, 0, "", text)];
      }
    }
  }

  // ---- Merging conditionals with a stack ----------------------------------------------------

  datatype Merged = Single(item: Item) | Block(group: nat, key: string, children: seq<Item>)

  /** The group and key of a conditional are those of its first include. */
  function MakeBlock(children: seq<Item>): Merged {
    var k := FirstIncl(children);
    if k < |children| then Block(children[k].group, children[k].key, children)
    else Block(NUM_GROUPS, "", children)
  }

  function FirstIncl(items: seq<Item>): (k: nat)
    ensures k <= |items|
    ensures k < |items| ==> items[k].kind == Incl
    ensures forall i :: 0 <= i < k ==> items[i].kind != Incl
  {
    if items == [] || items[0].kind == Incl then 0 else 1 + FirstIncl(items[1..])
  }

  datatype State = State(stack: seq<seq<Item>>, result: seq<Merged>)

  function Append(st: State, item: Item): State {
    if st.stack == [] then st.(result := st.result + [Single(item)])
    else
      var top := |st.stack| - 1;
      st.(stack := st.stack[top := st.stack[top] + [item]])
  }

  function ItemCond(item: Item): Cond {
    if item.kind == Pp then CondKind(Strip(item.text)) else NoCond
  }

  /** One round of the loop of _merge_conditional_blocks(). */
  function Step(st: State, item: Item): State {
    var kind := ItemCond(item);
    var top := |st.stack| - 1;
    if kind == Open then st.(stack := st.stack + [[item]])
    else if kind == Endif && st.stack != [] then
      var children := st.stack[top] + [item];
      if top > 0 then State(st.stack[..top][top - 1 := st.stack[top - 1] + children], st.result)
      else State([], st.result + [MakeBlock(children)])
    else Append(st, item)
  }

  function Fold(st: State, items: seq<Item>): State
    decreases |items|
  {
    if items == [] then st else Fold(Step(st, items[0]), items[1..])
  }

  function Singles(items: seq<Item>): seq<Merged> {
    seq(|items|, i requires 0 <= i < |items| => Single(items[i]))
  }

  /** What is still open at the end is put back, innermost first. */
  function Flush(st: State): seq<Merged>
    decreases |st.stack|
  {
    if st.stack == [] then st.result
    else
      var top := |st.stack| - 1;
      Flush(State(st.stack[..top], st.result + Singles(st.stack[top])))
  }

  /** _merge_conditional_blocks() */
  method MergeBlocks(items: seq<Item>) returns (merged: seq<Merged>)
    ensures merged == Flush(Fold(State([], []), items))
  {
    hide ItemCond, MakeBlock;
    var stack: seq<seq<Item>>, result: seq<Merged> := [], [];
    assert items[0..] == items;
    for k := 0 to |items|
      invariant Fold(State([], []), items) == Fold(State(stack, result), items[k..])
    {
      var item := items[k];
      assert items[k..][0] == item && items[k..][1..] == items[k + 1..];
      ghost var st := State(stack, result);
      var top := |stack| - 1;
      var kind := ItemCond(item);
      if kind == Open {
        stack := stack + [[item]];
      } else if kind == Endif && stack != [] {
        var children := stack[top] + [item];
        stack := stack[..top];
        if stack != [] {
          stack := stack[top - 1 := stack[top - 1] + children];
        } else {
          result := result + [MakeBlock(children)];
        }
      } else if stack != [] {
        stack := stack[top := stack[top] + [item]];
      } else {
        result := result + [Single(item)];
      }
      assert Step(st, item) == State(stack, result);
    }
    while stack != []
      invariant Flush(Fold(State([], []), items)) == Flush(State(stack, result))
      decreases |stack|
    {
      var top := |stack| - 1;
      result := result + Singles(stack[top]);
      stack := stack[..top];
    }
    merged := result;
  }

  // ---- The stack agrees with the depth counter ------------------------------------------------

  lemma ItemCondIs(src: Source, j: nat, classify: string -> nat)
    requires src.Valid() && j < |src.lines|
    ensures ItemCond(ItemAt(src, j, classify)) == CondAt(src, j)
  {
    hide CondKind, Strip, IncludeMatch;
    IncludeIsNoCond(Strip(src.lines[j]));
  }

  /** Everything on the stack, in file order. */
  function Flat(stack: seq<seq<Item>>): seq<Item> {
    if stack == [] then [] else Flat(stack[..|stack| - 1]) + stack[|stack| - 1]
  }

  lemma FlatTop(stack: seq<seq<Item>>, top: seq<Item>)
    ensures Flat(stack + [top]) == Flat(stack) + top
  {
    assert (stack + [top])[..|stack|] == stack;
  }

  /** A round inside a conditional adds the line to what the stack holds. */
  lemma StepFlat(st: State, item: Item)
    requires st.stack != []
    ensures var next, d := Step(st, item), |st.stack|;
            match ItemCond(item) {
              case Open => next.result == st.result && |next.stack| == d + 1 &&
                           Flat(next.stack) == Flat(st.stack) + [item]
              case Endif =>
                if d == 1 then next == State([], st.result + [MakeBlock(Flat(st.stack) + [item])])
                else next.result == st.result && |next.stack| == d - 1 && Flat(next.stack) == Flat(st.stack) + [item]
              case _ => next.result == st.result && |next.stack| == d && Flat(next.stack) == Flat(st.stack) + [item]
            }
  {
    hide ItemCond, MakeBlock, Flat;
    var top := |st.stack| - 1;
    var below, last := st.stack[..top], st.stack[top];
    assert st.stack == below + [last];
    FlatTop(below, last);
    if ItemCond(item) == Open {
      FlatTop(st.stack, [item]);
    } else if ItemCond(item) == Endif {
      if top == 0 {
        assert below == [];
        FlatNothing();
        assert Flat(st.stack) == last;
      } else {
        var under, next := below[..top - 1], below[top - 1];
        assert below == under + [next];
        FlatTop(under, next);
        FlatTop(under, next + (last + [item]));
        assert below[top - 1 := next + (last + [item])] == under + [next + (last + [item])];
        assert Flat(under) + (next + (last + [item])) == Flat(under) + next + last + [item];
      }
    } else {
      assert st.stack[top := last + [item]] == below + [last + [item]];
      FlatTop(below, last + [item]);
    }
  }

  lemma FlatNothing()
    ensures Flat([]) == []
  {
  }

  lemma FoldCons(src: Source, j: nat, end: nat, classify: string -> nat, st: State)
    requires src.Valid() && j < end <= |src.lines|
    ensures Fold(st, Items(src, j, end, classify)) ==
            Fold(Step(st, ItemAt(src, j, classify)), Items(src, j + 1, end, classify))
  {
    hide ItemAt, Step, Items;
    ItemsCons(src, j, end, classify);
    var items := Items(src, j, end, classify);
    assert items[1..] == Items(src, j + 1, end, classify);
  }

  /** Wherever the depth counter finds the matching #endif, the stack algorithm
      closes one block with exactly the lines up to it. */
  lemma {:induction false} BlockFold(src: Source, j: nat, end: nat, classify: string -> nat, st: State)
    requires src.Valid() && j <= end <= |src.lines| && st.stack != []
    requires CloseOf(src, j, |st.stack|).Some? && CloseOf(src, j, |st.stack|).value < end
    ensures var close := CloseOf(src, j, |st.stack|).value;
            var block := MakeBlock(Flat(st.stack) + Items(src, j, close + 1, classify));
            Fold(st, Items(src, j, end, classify)) ==
            Fold(State([], st.result + [block]), Items(src, close + 1, end, classify))
    decreases end - j
  {
    hide ItemAt, Step, Items, MakeBlock, ItemCond, CondAt, Flat, Fold;
    var close := CloseOf(src, j, |st.stack|).value;
    var item := ItemAt(src, j, classify);
    FoldCons(src, j, end, classify, st);
    StepFlat(st, item);
    ItemCondIs(src, j, classify);
    var next := Step(st, item);
    ItemsCons(src, j, close + 1, classify);
    if close == j && CondAt(src, j) == Endif && |st.stack| == 1 {
      assert Items(src, j + 1, j + 1, classify) == [];
      assert [item] + [] == [item];
    } else {
      BlockFold(src, j + 1, end, classify, next);
      var rest := Items(src, j + 1, close + 1, classify);
      assert Flat(next.stack) + rest == Flat(st.stack) + ([item] + rest);
    }
  }

  // ---- What the merge makes of the region ----------------------------------------------------

  /** The region's includes, blank lines and whole conditionals, in order. */
  ghost function Tops(src: Source, i: nat, end: nat, classify: string -> nat): seq<Merged>
    requires src.Valid() && i <= end <= |src.lines|
    decreases end - i
  {
    if i == end then []
    else
      var close := CloseOf(src, i, 0);
      if IncludeAt(src, i) || BlankAt(src, i) || close.None? || close.value >= end then
        [Single(ItemAt(src, i, classify))] + Tops(src, i + 1, end, classify)
      else
        [MakeBlock(Items(src, i, close.value + 1, classify))] + Tops(src, close.value + 1, end, classify)
  }

  /** The merge finds exactly the conditionals the range scan went over, and
      nothing of the region stays on the stack. */
  lemma {:induction false} RegionFold(src: Source, i: nat, end: nat, classify: string -> nat, result: seq<Merged>)
    requires src.Valid() && i <= end <= |src.lines| && Tiles(src, i, end)
    ensures Fold(State([], result), Items(src, i, end, classify)) ==
            State([], result + Tops(src, i, end, classify))
    decreases end - i
  {
    hide ItemAt, Items, MakeBlock, ItemCond, CondAt, Flat, IncludeAt, BlankAt, HasInclude, HasCode, CloseOf;
    var st := State([], result);
    if i == end {
      assert Items(src, i, end, classify) == [];
      assert result + [] == result;
    } else {
      var item := ItemAt(src, i, classify);
      FoldCons(src, i, end, classify, st);
      ItemCondIs(src, i, classify);
      OneKind(src, i);
      BlankIsNoCond(src, i);
      if IncludeAt(src, i) || BlankAt(src, i) {
        RegionFold(src, i + 1, end, classify, result + [Single(item)]);
        assert result + [Single(item)] + Tops(src, i + 1, end, classify) == result + Tops(src, i, end, classify);
      } else {
        var close := CloseOf(src, i, 0).value;
        OpenedFold(src, i, end, classify, result);
        var block := MakeBlock(Items(src, i, close + 1, classify));
        RegionFold(src, close + 1, end, classify, result + [block]);
        assert result + [block] + Tops(src, close + 1, end, classify) == result + Tops(src, i, end, classify);
      }
    }
  }

  lemma BlankIsNoCond(src: Source, i: nat)
    requires src.Valid() && i < |src.lines|
    ensures BlankAt(src, i) ==> CondAt(src, i) == NoCond
  {
    hide Strip, CondKind;
    IncludeIsNoCond(Strip(src.lines[i]));
  }

  lemma OpenedFold(src: Source, i: nat, end: nat, classify: string -> nat, result: seq<Merged>)
    requires src.Valid() && i < end <= |src.lines| && CondAt(src, i) == Open
    requires CloseOf(src, i, 0).Some? && CloseOf(src, i, 0).value < end
    ensures var close := CloseOf(src, i, 0).value;
            Fold(State([], result), Items(src, i, end, classify)) ==
            Fold(State([], result + [MakeBlock(Items(src, i, close + 1, classify))]),
                 Items(src, close + 1, end, classify))
  {
    hide ItemAt, Items, MakeBlock, ItemCond, CondAt, Fold;
    var item, close := ItemAt(src, i, classify), CloseOf(src, i, 0).value;
    FoldCons(src, i, end, classify, State([], result));
    ItemCondIs(src, i, classify);
    var st := State([[item]], result);
    assert Step(State([], result), item) == st;
    BlockFold(src, i + 1, end, classify, st);
    ItemsCons(src, i, close + 1, classify);
    assert Flat(st.stack) == [item] by {
      FlatTop([], [item]);
      assert [] + [[item]] == [[item]];
    }
  }
}
