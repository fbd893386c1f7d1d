/** Rebuilding the include region and putting it back into the file. */
module Reorder {
  import opened Basics
  import opened IncludeLines
  import opened IncludeSort
  import opened IncludeOrder

  // ---- Lines that matter --------------------------------------------------------------------

  function NonBlank(lines: seq<string>): seq<string> {
    if lines == [] then []
    else NonBlank(lines[..|lines| - 1]) + if IsBlank(lines[|lines| - 1]) then [] else [lines[|lines| - 1]]
  }

  lemma NonBlankSnoc(lines: seq<string>, line: string)
    ensures NonBlank(lines + [line]) == NonBlank(lines) + if IsBlank(line) then [] else [line]
  {
    hide IsBlank;
    assert (lines + [line])[..|lines|] == lines;
  }

  lemma {:induction false} NonBlankConcat(a: seq<string>, b: seq<string>)
    ensures NonBlank(a + b) == NonBlank(a) + NonBlank(b)
  {
    hide IsBlank;
    if b == [] {
      assert a + b == a;
    } else {
      var n := |b| - 1;
      NonBlankConcat(a, b[..n]);
      assert (a + b)[..|a + b| - 1] == a + b[..n];
    }
  }

  function EnsureEol(text: string): (r: string)
    ensures r != "" && r[|r| - 1] == '\n' && text <= r && |r| <= |text| + 1
    ensures text != "" && text[|text| - 1] == '\n' ==> r == text
  {
    if text != "" && text[|text| - 1] == '\n' then text else text + "\n"
  }

  lemma EolKeepsBlank(text: string)
    ensures IsBlank(EnsureEol(text)) <==> IsBlank(text)
  {
    hide Trim;
    TrimEmpty(text, IsSpace);
    TrimEmpty(text + "\n", IsSpace);
    assert (text + "\n")[|text|] == '\n';
    assert forall i :: 0 <= i < |text| ==> (text + "\n")[i] == text[i];
  }

  function Eols(lines: seq<string>): (r: seq<string>)
    ensures |r| == |lines| && forall i :: 0 <= i < |r| ==> r[i] == EnsureEol(lines[i])
  {
    seq(|lines|, i requires 0 <= i < |lines| => EnsureEol(lines[i]))
  }

  // ---- Units --------------------------------------------------------------------------------

  function Texts(items: seq<Item>): (r: seq<string>)
    ensures |r| == |items| && forall i :: 0 <= i < |r| ==> r[i] == items[i].text
  {
    seq(|items|, i requires 0 <= i < |items| => items[i].text)
  }

  function UnitOf(m: Merged): Unit {
    match m
    case Single(item) => Unit(item.group, item.key, [EnsureEol(item.text)])
    case Block(group, key, children) => Unit(group, key, Eols(Texts(children)))
  }

  /** The merged items that have a group; the others are dropped. */
  function UnitsOf(ms: seq<Merged>): (us: seq<Unit>)
    ensures GroupsOk(us)
  {
    if ms == [] then []
    else
      var u := UnitOf(ms[|ms| - 1]);
      UnitsOf(ms[..|ms| - 1]) + if 1 <= u.group <= NUM_GROUPS then [u] else []
  }

  lemma UnitsSnoc(ms: seq<Merged>, m: Merged)
    ensures UnitsOf(ms + [m]) == UnitsOf(ms) + UnitsOf([m])
  {
    hide UnitOf;
    assert (ms + [m])[..|ms|] == ms && [m][..0] == [];
  }

  lemma {:induction false} UnitsCons(m: Merged, ms: seq<Merged>)
    ensures UnitsOf([m] + ms) == UnitsOf([m]) + UnitsOf(ms)
  {
    hide UnitsOf;
    if ms == [] {
      assert [m] + ms == [m];
      NothingFlat();
    } else {
      var n := |ms| - 1;
      UnitsCons(m, ms[..n]);
      Snoc(ms);
      assert [m] + ms == [m] + ms[..n] + [ms[n]];
      UnitsSnoc([m] + ms[..n], ms[n]);
      UnitsSnoc(ms[..n], ms[n]);
    }
  }

  function FlatLines(us: seq<Unit>): seq<string> {
    if us == [] then [] else FlatLines(us[..|us| - 1]) + us[|us| - 1].lines
  }

  lemma FlatSnoc(us: seq<Unit>, u: Unit)
    ensures FlatLines(us + [u]) == FlatLines(us) + u.lines
  {
    assert (us + [u])[..|us|] == us;
  }

  lemma {:induction false} FlatLinesConcat(a: seq<Unit>, b: seq<Unit>)
    ensures FlatLines(a + b) == FlatLines(a) + FlatLines(b)
  {
    hide FlatLines;
    if b == [] {
      assert a + b == a;
      NothingFlat();
    } else {
      var n := |b| - 1;
      FlatLinesConcat(a, b[..n]);
      Snoc(b);
      assert a + b == a + b[..n] + [b[n]];
      FlatSnoc(a + b[..n], b[n]);
      FlatSnoc(b[..n], b[n]);
    }
  }

  // ---- Nothing is dropped from the region -----------------------------------------------------

  lemma OneUnit(m: Merged)
    requires 1 <= UnitOf(m).group <= NUM_GROUPS
    ensures FlatLines(UnitsOf([m])) == UnitOf(m).lines
  {
    hide UnitOf;
    assert [m][..0] == [];
    assert UnitsOf([m]) == [UnitOf(m)];
    assert [UnitOf(m)][..0] == [];
  }

  lemma NoUnit(m: Merged)
    requires UnitOf(m).group == 0
    ensures UnitsOf([m]) == []
  {
    hide UnitOf;
    assert [m][..0] == [];
  }

  /** `classify` answers with one of the groups. */
  ghost predicate Classifies(classify: string -> nat) {
    forall t :: 1 <= classify(t) <= NUM_GROUPS
  }

  /** What one include contributes. */
  lemma IncludeUnit(src: Source, i: nat, classify: string -> nat)
    requires src.Valid() && i < |src.lines| && IncludeAt(src, i) && Classifies(classify)
    ensures FlatLines(UnitsOf([Single(ItemAt(src, i, classify))])) == [EnsureEol(src.lines[i])]
  {
    hide IncludeMatch, Strip, EnsureEol;
    OneUnit(Single(ItemAt(src, i, classify)));
  }

  /** A blank line contributes nothing. */
  lemma BlankUnit(src: Source, i: nat, classify: string -> nat)
    requires src.Valid() && i < |src.lines| && BlankAt(src, i)
    ensures UnitsOf([Single(ItemAt(src, i, classify))]) == []
  {
    hide IncludeMatch, Strip, EnsureEol;
    IncludeIsNoCond(Strip(src.lines[i]));
    NoUnit(Single(ItemAt(src, i, classify)));
  }

  /** What a whole conditional contributes: all of its lines. */
  lemma BlockUnit(src: Source, i: nat, k: nat, classify: string -> nat)
    requires src.Valid() && i <= k <= |src.lines| && Classifies(classify)
    ensures FlatLines(UnitsOf([MakeBlock(Items(src, i, k, classify))])) == Eols(src.lines[i..k])
  {
    hide EnsureEol, ItemAt, FirstIncl;
    var items := Items(src, i, k, classify);
    forall j | 0 <= j < |items|
      ensures items[j].text == src.lines[i..k][j] && (items[j].kind == Incl ==> 1 <= items[j].group <= NUM_GROUPS)
    {
      TextAt(src, i + j, classify);
    }
    assert Texts(items) == src.lines[i..k];
    OneUnit(MakeBlock(items));
  }

  lemma TextAt(src: Source, j: nat, classify: string -> nat)
    requires src.Valid() && j < |src.lines| && Classifies(classify)
    ensures var item := ItemAt(src, j, classify);
            item.text == src.lines[j] && (item.kind == Incl ==> 1 <= item.group <= NUM_GROUPS)
  {
    hide IncludeMatch, Strip;
  }

  /** The region's units, in file order, are all of its lines that are not blank. */
  lemma {:induction false} RegionLines(src: Source, i: nat, end: nat, classify: string -> nat)
    requires src.Valid() && i <= end <= |src.lines| && Tiles(src, i, end) && Classifies(classify)
    ensures NonBlank(FlatLines(UnitsOf(Tops(src, i, end, classify)))) == NonBlank(Eols(src.lines[i..end]))
    decreases end - i
  {
    hide ItemAt, Items, MakeBlock, CondAt, IncludeAt, BlankAt, HasInclude, HasCode, CloseOf, Classifies,
      UnitsOf, FlatLines, NonBlank, EnsureEol;
    if i == end {
      assert Tops(src, i, end, classify) == [];
      NothingFlat();
      assert Eols(src.lines[i..end]) == [];
    } else {
      var close := CloseOf(src, i, 0);
      var plain := IncludeAt(src, i) || BlankAt(src, i);
      var k := if plain then i + 1 else close.value + 1;
      var top := if plain then Single(ItemAt(src, i, classify)) else MakeBlock(Items(src, i, k, classify));
      var rest := Tops(src, k, end, classify);
      RegionLines(src, k, end, classify);
      assert Tops(src, i, end, classify) == [top] + rest;
      UnitsCons(top, rest);
      FlatLinesConcat(UnitsOf([top]), UnitsOf(rest));
      NonBlankConcat(FlatLines(UnitsOf([top])), FlatLines(UnitsOf(rest)));
      TopLines(src, i, k, classify, plain);
      assert Eols(src.lines[i..end]) == Eols(src.lines[i..k]) + Eols(src.lines[k..end]);
      NonBlankConcat(Eols(src.lines[i..k]), Eols(src.lines[k..end]));
    }
  }

  lemma NothingFlat()
    ensures UnitsOf([]) == [] && FlatLines([]) == []
  {
  }

  lemma TopLines(src: Source, i: nat, k: nat, classify: string -> nat, plain: bool)
    requires src.Valid() && i < k <= |src.lines| && Classifies(classify)
    requires plain ==> k == i + 1 && (IncludeAt(src, i) || BlankAt(src, i))
    ensures var top := if plain then Single(ItemAt(src, i, classify)) else MakeBlock(Items(src, i, k, classify));
            NonBlank(FlatLines(UnitsOf([top]))) == NonBlank(Eols(src.lines[i..k]))
  {
    hide ItemAt, Items, MakeBlock, IncludeAt, BlankAt, Classifies, UnitsOf, FlatLines, EnsureEol;
    if !plain {
      BlockUnit(src, i, k, classify);
    } else {
      assert Eols(src.lines[i..k]) == [EnsureEol(src.lines[i])];
      if IncludeAt(src, i) {
        IncludeUnit(src, i, classify);
      } else {
        BlankUnit(src, i, classify);
        NothingFlat();
        BlankLine(src, i);
      }
    }
  }

  lemma BlankLine(src: Source, i: nat)
    requires src.Valid() && i < |src.lines| && BlankAt(src, i)
    ensures NonBlank([EnsureEol(src.lines[i])]) == [] && FlatLines([]) == []
    ensures UnitsOf([]) == [] && NonBlank([]) == []
  {
    hide Strip, EnsureEol;
    EolKeepsBlank(src.lines[i]);
    assert [EnsureEol(src.lines[i])][..0] == [];
  }

  // ---- What a unit is sorted by -----------------------------------------------------------------

  /** The first include among the lines [i, k). */
  ghost predicate IsLeader(src: Source, i: nat, k: nat, j: nat)
    requires src.Valid() && i <= k <= |src.lines|
  {
    i <= j < k && IncludeAt(src, j) && forall m :: i <= m < j ==> !IncludeAt(src, m)
  }

  /** The unit of the lines [i, k): theirs, grouped and keyed by the directive that
      the first include among them is. */
  ghost predicate UnitOfLines(src: Source, i: nat, k: nat, classify: string -> nat, u: Unit)
    requires src.Valid() && i <= k <= |src.lines|
  {
    u.lines == Eols(src.lines[i..k]) &&
    exists j: nat :: IsLeader(src, i, k, j) &&
                var m := IncludeMatch(Strip(src.lines[j])).value;
                u.group == classify(m.target) && u.key == m.text
  }

  /** The units of the region, one for each include and each conditional, in order. */
  ghost predicate UnitsOfLines(src: Source, i: nat, end: nat, classify: string -> nat, us: seq<Unit>)
    requires src.Valid() && i <= end <= |src.lines|
    decreases end - i
  {
    if i == end then us == []
    else if BlankAt(src, i) then UnitsOfLines(src, i + 1, end, classify, us)
    else
      var close := CloseOf(src, i, 0);
      var k := if IncludeAt(src, i) || close.None? then i + 1 else close.value + 1;
      k <= end && us != [] && UnitOfLines(src, i, k, classify, us[0]) &&
      UnitsOfLines(src, k, end, classify, us[1..])
  }

  lemma UnitOne(m: Merged)
    requires 1 <= UnitOf(m).group <= NUM_GROUPS
    ensures UnitsOf([m]) == [UnitOf(m)]
  {
    hide UnitOf;
    assert [m][..0] == [];
  }

  lemma ItemIsInclude(src: Source, j: nat, classify: string -> nat)
    requires src.Valid() && j < |src.lines|
    ensures var item := ItemAt(src, j, classify);
            && item.text == src.lines[j]
            && (item.kind == Incl <==> IncludeAt(src, j))
            && (item.kind == Incl ==>
                  var m := IncludeMatch(Strip(src.lines[j])).value;
                  item.group == classify(m.target) && item.key == m.text)
  {
    hide IncludeMatch, Strip;
  }

  lemma IncludeIsUnit(src: Source, i: nat, classify: string -> nat)
    requires src.Valid() && i < |src.lines| && IncludeAt(src, i) && Classifies(classify)
    ensures var u := UnitOf(Single(ItemAt(src, i, classify)));
            UnitsOf([Single(ItemAt(src, i, classify))]) == [u] && UnitOfLines(src, i, i + 1, classify, u)
  {
    hide IncludeMatch, Strip, EnsureEol, ItemAt, IncludeAt, UnitsOf;
    ItemIsInclude(src, i, classify);
    TextAt(src, i, classify);
    UnitOne(Single(ItemAt(src, i, classify)));
    assert IsLeader(src, i, i + 1, i);
  }

  lemma BlockIsUnit(src: Source, i: nat, k: nat, classify: string -> nat)
    requires src.Valid() && i < k <= |src.lines| && HasInclude(src, i, k) && Classifies(classify)
    ensures var m := MakeBlock(Items(src, i, k, classify));
            UnitsOf([m]) == [UnitOf(m)] && UnitOfLines(src, i, k, classify, UnitOf(m))
  {
    hide IncludeMatch, Strip, EnsureEol, ItemAt, IncludeAt, UnitsOf, FirstIncl;
    var items := Items(src, i, k, classify);
    forall j | 0 <= j < |items|
      ensures items[j].text == src.lines[i..k][j] && (items[j].kind == Incl <==> IncludeAt(src, i + j))
    {
      ItemIsInclude(src, i + j, classify);
    }
    assert Texts(items) == src.lines[i..k];
    var x :| i <= x < k && IncludeAt(src, x);
    assert items[x - i].kind == Incl;
    var n := FirstIncl(items);
    assert n < |items|;
    ItemIsInclude(src, i + n, classify);
    TextAt(src, i + n, classify);
    forall m: nat | i <= m < i + n ensures !IncludeAt(src, m) { assert items[m - i].kind != Incl; }
    assert IsLeader(src, i, k, i + n);
    UnitOne(MakeBlock(items));
  }

  lemma BlockHasInclude(src: Source, i: nat, k: nat)
    requires src.Valid() && i <= k < |src.lines| && HasInclude(src, i, k)
    ensures HasInclude(src, i, k + 1)
  {
  }

  /** The merged items are exactly these units. */
  lemma {:induction false} RegionUnits(src: Source, i: nat, end: nat, classify: string -> nat)
    requires src.Valid() && i <= end <= |src.lines| && Tiles(src, i, end) && Classifies(classify)
    ensures UnitsOfLines(src, i, end, classify, UnitsOf(Tops(src, i, end, classify)))
    decreases end - i
  {
    hide ItemAt, Items, MakeBlock, CondAt, IncludeAt, BlankAt, HasInclude, HasCode, CloseOf, Classifies, UnitsOf,
      EnsureEol, UnitOfLines, UnitOf;
    if i == end {
      NothingFlat();
    } else {
      var close := CloseOf(src, i, 0);
      var plain := IncludeAt(src, i) || BlankAt(src, i);
      var k := if plain then i + 1 else close.value + 1;
      var top := if plain then Single(ItemAt(src, i, classify)) else MakeBlock(Items(src, i, k, classify));
      var rest := Tops(src, k, end, classify);
      assert Tops(src, i, end, classify) == [top] + rest;
      UnitsCons(top, rest);
      RegionUnits(src, k, end, classify);
      if BlankAt(src, i) {
        BlankUnit(src, i, classify);
        assert [] + UnitsOf(rest) == UnitsOf(rest);
      } else {
        if plain {
          IncludeIsUnit(src, i, classify);
        } else {
          BlockHasInclude(src, i, close.value);
          BlockIsUnit(src, i, k, classify);
        }
        assert ([UnitOf(top)] + UnitsOf(rest))[1..] == UnitsOf(rest);
      }
    }
  }

  // ---- _rebuild_include_block -----------------------------------------------------------------

  /** The sorted groups from g on, with a blank line between two of them. */
  function Render(us: seq<Unit>, g: nat, first: bool): seq<string>
    decreases NUM_GROUPS + 1 - g
  {
    if g > NUM_GROUPS then []
    else if InGroup(us, g) == [] then Render(us, g + 1, first)
    else Separator(first) + FlatLines(SortUnits(InGroup(us, g))) + Render(us, g + 1, false)
  }

  lemma {:induction false} RenderLines(us: seq<Unit>, g: nat, first: bool)
    ensures NonBlank(Render(us, g, first)) == NonBlank(FlatLines(Arrange(us, g)))
    decreases NUM_GROUPS + 1 - g
  {
    hide NonBlank, FlatLines, InGroup, SortUnits, Separator;
    if g > NUM_GROUPS {
      NothingFlat();
    } else if InGroup(us, g) == [] {
      RenderLines(us, g + 1, first);
      EmptyGroup(us, g);
    } else {
      var mid, rest := FlatLines(SortUnits(InGroup(us, g))), Render(us, g + 1, false);
      RenderLines(us, g + 1, false);
      FlatLinesConcat(SortUnits(InGroup(us, g)), Arrange(us, g + 1));
      NonBlankConcat(mid, FlatLines(Arrange(us, g + 1)));
      var head := Separator(first);
      NonBlankConcat(head, mid);
      NonBlankConcat(head + mid, rest);
      SeparatorIsBlank(first);
      assert [] + NonBlank(mid) == NonBlank(mid);
    }
  }

  lemma EmptyGroup(us: seq<Unit>, g: nat)
    requires g <= NUM_GROUPS && InGroup(us, g) == []
    ensures Arrange(us, g) == Arrange(us, g + 1)
  {
    hide InGroup;
    assert SortUnits([]) == [];
  }

  lemma SeparatorIsBlank(first: bool)
    ensures NonBlank(Separator(first)) == []
  {
    hide Trim;
    TrimEmpty("\n", IsSpace);
    assert ["\n"][..0] == [];
  }

  /** A blank line after a blank line is dropped. */
  function Collapse(lines: seq<string>): seq<string> {
    if lines == [] then []
    else
      var n := |lines| - 1;
      if n > 0 && IsBlank(lines[n]) && IsBlank(lines[n - 1]) then Collapse(lines[..n])
      else Collapse(lines[..n]) + [lines[n]]
  }

  lemma {:induction false} CollapseLines(lines: seq<string>)
    ensures NonBlank(Collapse(lines)) == NonBlank(lines)
    ensures Collapse(lines) == [] <==> lines == []
    ensures lines != [] ==> (IsBlank(Collapse(lines)[|Collapse(lines)| - 1]) <==> IsBlank(lines[|lines| - 1]))
    ensures forall i :: 0 < i < |Collapse(lines)| ==> !IsBlank(Collapse(lines)[i - 1]) || !IsBlank(Collapse(lines)[i])
  {
    hide IsBlank;
    if lines != [] {
      var n := |lines| - 1;
      CollapseLines(lines[..n]);
      NonBlankSnoc(Collapse(lines[..n]), lines[n]);
    }
  }

  method CollapseBlanks(lines: seq<string>) returns (cleaned: seq<string>)
    ensures cleaned == Collapse(lines)
  {
    hide IsBlank;
    cleaned := [];
    var prevBlank := false;
    for i := 0 to |lines|
      invariant cleaned == Collapse(lines[..i])
      invariant prevBlank <==> i > 0 && IsBlank(lines[i - 1])
    {
      assert lines[..i + 1][..i] == lines[..i];
      var blank := IsBlank(lines[i]);
      if !(blank && prevBlank) { cleaned := cleaned + [lines[i]]; }
      prevBlank := blank;
    }
    assert lines[..|lines|] == lines;
  }

  function Separator(first: bool): seq<string> { if first then [] else ["\n"] }

  lemma RenderStep(us: seq<Unit>, g: nat, first: bool, out: seq<string>)
    requires g <= NUM_GROUPS
    ensures InGroup(us, g) == [] ==> Render(us, g, first) == Render(us, g + 1, first)
    ensures InGroup(us, g) != [] ==>
              out + Render(us, g, first) ==
              out + Separator(first) + FlatLines(SortUnits(InGroup(us, g))) + Render(us, g + 1, false)
  {
    hide InGroup, SortUnits, FlatLines;
    if InGroup(us, g) != [] {
      var head, mid, rest := Separator(first), FlatLines(SortUnits(InGroup(us, g))), Render(us, g + 1, false);
      assert Render(us, g, first) == head + mid + rest;
      assert out + (head + mid + rest) == out + head + mid + rest;
    }
  }

  lemma RenderEnd(us: seq<Unit>, first: bool, out: seq<string>)
    ensures out + Render(us, NUM_GROUPS + 1, first) == out
  {
  }

  /** The groups, one after the other. */
  method EmitGroups(us: seq<Unit>) returns (out: seq<string>)
    ensures out == Render(us, 1, true)
  {
    hide Render, InGroup, SortUnits, FlatLines, Separator;
    out := [];
    var first := true;
    var g: nat := 1;
    assert [] + Render(us, 1, true) == Render(us, 1, true);
    while g <= NUM_GROUPS
      invariant 1 <= g <= NUM_GROUPS + 1
      invariant out + Render(us, g, first) == Render(us, 1, true)
    {
      RenderStep(us, g, first, out);
      var members := InGroup(us, g);
      if members != [] {
        out := out + Separator(first);
        out := out + FlatLines(SortUnits(members));
        first := false;
      }
      g := g + 1;
    }
    RenderEnd(us, first, out);
  }

  /** _rebuild_include_block(), after the merge. */
  method Rebuild(merged: seq<Merged>) returns (cleaned: seq<string>)
    ensures cleaned == Collapse(Render(UnitsOf(merged), 1, true))
  {
    hide Render, UnitsOf, Collapse;
    var out := EmitGroups(UnitsOf(merged));
    cleaned := CollapseBlanks(out);
  }

  // ---- _reorder_includes ----------------------------------------------------------------------

  function DropTrailing(lines: seq<string>): seq<string> {
    if lines != [] && IsBlank(lines[|lines| - 1]) then DropTrailing(lines[..|lines| - 1]) else lines
  }

  lemma {:induction false} DropLines(lines: seq<string>)
    ensures NonBlank(DropTrailing(lines)) == NonBlank(lines)
    ensures DropTrailing(lines) <= lines
    ensures DropTrailing(lines) != [] ==> !IsBlank(DropTrailing(lines)[|DropTrailing(lines)| - 1])
  {
    hide IsBlank;
    if lines != [] && IsBlank(lines[|lines| - 1]) { DropLines(lines[..|lines| - 1]); }
  }

  lemma SplitBag<T>(s: seq<T>, k: nat)
    requires k < |s|
    ensures multiset(s) == multiset(s[..k] + s[k + 1..]) + multiset{s[k]}
  {
    assert s == s[..k] + [s[k]] + s[k + 1..];
  }

  lemma CancelBag<T>(a: multiset<T>, b: multiset<T>, x: T)
    requires a + multiset{x} == b + multiset{x}
    ensures a == b
  {
    forall y ensures a[y] == b[y] {
      assert (a + multiset{x})[y] == (b + multiset{x})[y];
    }
  }

  lemma TakeOut<T>(a: seq<T>, b: seq<T>) returns (k: nat)
    requires a != [] && multiset(a) == multiset(b)
    ensures k < |b| && b[k] == a[|a| - 1]
    ensures multiset(a[..|a| - 1]) == multiset(b[..k] + b[k + 1..])
  {
    var n := |a| - 1;
    assert a[n] in multiset(b);
    k :| 0 <= k < |b| && b[k] == a[n];
    SplitBag(a, n);
    SplitBag(b, k);
    assert a[..n] + a[n + 1..] == a[..n];
    CancelBag(multiset(a[..n]), multiset(b[..k] + b[k + 1..]), a[n]);
  }

  /** The units in any order hold the same lines. */
  lemma {:induction false} SameLines(a: seq<Unit>, b: seq<Unit>)
    requires multiset(a) == multiset(b)
    ensures multiset(NonBlank(FlatLines(a))) == multiset(NonBlank(FlatLines(b)))
    decreases |a|
  {
    hide NonBlank, FlatLines;
    if a == [] {
      assert multiset(b) == multiset{};
      assert |b| == |multiset(b)|;
    } else {
      var n := |a| - 1;
      var k := TakeOut(a, b);
      SameLines(a[..n], b[..k] + b[k + 1..]);
      Pieces(a[..n], a[n], []);
      Pieces(b[..k], b[k], b[k + 1..]);
      assert b == b[..k] + [b[k]] + b[k + 1..];
      assert a[..n] + [a[n]] + [] == a && a[..n] + [] == a[..n];
    }
  }

  lemma Pieces(a: seq<Unit>, u: Unit, b: seq<Unit>)
    ensures multiset(NonBlank(FlatLines(a + [u] + b))) ==
            multiset(NonBlank(FlatLines(a + b))) + multiset(NonBlank(u.lines))
  {
    hide NonBlank, FlatLines;
    FlatLinesConcat(a + [u], b);
    FlatLinesConcat(a, [u]);
    FlatLinesConcat(a, b);
    FlatOne(u);
    NonBlankConcat(FlatLines(a) + u.lines, FlatLines(b));
    NonBlankConcat(FlatLines(a), u.lines);
    NonBlankConcat(FlatLines(a), FlatLines(b));
  }

  lemma FlatOne(u: Unit)
    ensures FlatLines([u]) == u.lines
  {
    assert [u][..0] == [];
  }

  /** What the reordering does to a file whose region is [start, end): the lines
      before it and from `body` on are untouched, only blank lines lie between,
      and the new region holds the units of the old one, arranged. */
  ghost predicate Reordered(src: Source, classify: string -> nat, start: nat, end: nat, body: nat,
                            block: seq<string>, result: seq<string>)
    requires src.Valid() && start <= end <= body <= |src.lines|
  {
    && result == src.lines[..start] + block +
                 (if body < |src.lines| then ["\n"] + src.lines[body..] else [])
    && (forall j :: end <= j < body ==> IsBlank(src.lines[j]))
    && (body < |src.lines| ==> !IsBlank(src.lines[body]))
    && block == NewRegion(UnitsOf(Tops(src, start, end, classify)))
  }

  /** The text made of the units. */
  function NewRegion(us: seq<Unit>): seq<string> {
    DropTrailing(Collapse(Render(us, 1, true)))
  }

  /** No two blank lines in a row, and none at the end. */
  ghost predicate Tidy(lines: seq<string>) {
    && (forall i :: 0 < i < |lines| ==> !IsBlank(lines[i - 1]) || !IsBlank(lines[i]))
    && (lines != [] ==> !IsBlank(lines[|lines| - 1]))
  }

  lemma NewRegionLines(us: seq<Unit>)
    ensures NonBlank(NewRegion(us)) == NonBlank(FlatLines(Arrange(us, 1))) && Tidy(NewRegion(us))
  {
    hide Render, Collapse, IsBlank, NonBlank, FlatLines, Arrange, DropTrailing;
    var out := Collapse(Render(us, 1, true));
    DropLines(out);
    CollapseLines(Render(us, 1, true));
    RenderLines(us, 1, true);
  }

  /** _reorder_includes() */
  method ReorderIncludes(src: Source, classify: string -> nat)
    returns (result: seq<string>, start: nat, end: nat, body: nat, block: seq<string>)
    requires src.Valid()
    ensures start <= end <= body <= |src.lines|
    ensures start == end ==> result == src.lines && forall j :: 0 <= j < |src.lines| ==> !IncludeAt(src, j)
    ensures start < end ==>
              && IncludeAt(src, start) && (forall j :: 0 <= j < start ==> !IncludeAt(src, j))
              && end == RangeEnd(src, start, start)
              && Reordered(src, classify, start, end, body, block, result)
  {
    hide IncludeMatch, Strip, CloseOf, HasInclude, HasCode, CondKind;
    start, end, body, block := 0, 0, 0, [];
    var range := FindIncludeRange(src);
    if range.None? { return src.lines, 0, 0, 0, []; }
    var (from, to) := range.value;
    RangeTiles(src, from, from);
    RangeGrows(src, from);
    var items := ParseItems(src, from, to, classify);
    if items == [] { return src.lines, from, from, from, []; }
    start, end := from, to;
    result, body, block := Assemble(src, from, to, classify, items);
  }

  lemma RangeGrows(src: Source, i: nat)
    requires src.Valid() && i < |src.lines| && IncludeAt(src, i)
    ensures RangeEnd(src, i, i) > i
  {
    hide IncludeAt, BlankAt, BlockAt, CloseOf;
    RangeTiles(src, i + 1, i + 1);
  }

  /** The region's new text, and the file around it. */
  method Assemble(src: Source, start: nat, end: nat, classify: string -> nat, items: seq<Item>)
    returns (result: seq<string>, body: nat, block: seq<string>)
    requires src.Valid() && start <= end <= |src.lines| && Tiles(src, start, end)
    requires items == Items(src, start, end, classify)
    ensures end <= body <= |src.lines| && Reordered(src, classify, start, end, body, block, result)
  {
    hide Tiles, Items, Fold, Tops, UnitsOf, Render, Collapse, Arrange, NonBlank, FlatLines, IsBlank;
    var merged := MergeBlocks(items);
    RegionFold(src, start, end, classify, []);
    assert [] + Tops(src, start, end, classify) == Tops(src, start, end, classify);
    var cleaned := Rebuild(merged);
    block := cleaned;
    while block != [] && IsBlank(block[|block| - 1])
      invariant DropTrailing(block) == DropTrailing(cleaned)
      decreases |block|
    {
      block := block[..|block| - 1];
    }
    body := end;
    while body < |src.lines| && IsBlank(src.lines[body])
      invariant end <= body <= |src.lines|
      invariant forall j :: end <= j < body ==> IsBlank(src.lines[j])
    {
      body := body + 1;
    }
    result := src.lines[..start] + block;
    if body < |src.lines| { result := result + ["\n"]; }
    result := result + src.lines[body..];
  }

  /** Reordering loses nothing.  The region's units, in file order, are all of its
      lines that are not blank, a conditional with the group and key of its first
      include; the new region holds those units, each whole, ordered by group and
      key, equal ones in their old order; so every line that is not blank is there
      exactly once, up to a missing final newline. */
  lemma ReorderIsLossless(src: Source, classify: string -> nat, start: nat, end: nat, body: nat,
                          block: seq<string>, result: seq<string>, g: nat, key: string)
    requires src.Valid() && start < |src.lines| && IncludeAt(src, start) && Classifies(classify)
    requires start <= end <= body <= |src.lines| && end == RangeEnd(src, start, start)
    requires Reordered(src, classify, start, end, body, block, result)
    ensures var us := UnitsOf(Tops(src, start, end, classify));
            && UnitsOfLines(src, start, end, classify, us)
            && NonBlank(FlatLines(us)) == NonBlank(Eols(src.lines[start..end]))
            && NonBlank(block) == NonBlank(FlatLines(Arrange(us, 1))) && Tidy(block)
            && multiset(Arrange(us, 1)) == multiset(us)
            && Ordered(Arrange(us, 1))
            && Alike(Arrange(us, 1), g, key) == Alike(us, g, key)
    ensures multiset(NonBlank(block)) == multiset(NonBlank(Eols(src.lines[start..end])))
  {
    hide IncludeAt, Classifies, RangeEnd, Tops, UnitsOf, Tiles, NonBlank, FlatLines, Arrange, Ordered, Alike, IsBlank,
      GroupsOk, NewRegion, Tidy;
    RangeTiles(src, start, start);
    RegionUnits(src, start, end, classify);
    RegionLines(src, start, end, classify);
    var us := UnitsOf(Tops(src, start, end, classify));
    NewRegionLines(us);
    Arranged(us, g, key);
    SameLines(Arrange(us, 1), us);
  }
}
