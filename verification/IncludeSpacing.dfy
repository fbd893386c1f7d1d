/** The blank lines of the rebuilt region: one between two groups, and no other but
    those inside a conditional. */
module IncludeSpacing {
  import opened Basics
  import opened Sorting
  import opened IncludeLines
  import opened IncludeSort
  import opened IncludeOrder
  import opened Reorder
  import opened CommentMask

  /** The units one after the other, with a blank line where the group changes. */
  function GroupedText(vs: seq<Unit>): seq<string> {
    if vs == [] then []
    else
      var n := |vs| - 1;
      GroupedText(vs[..n]) + (if n > 0 && vs[n - 1].group != vs[n].group then ["\n"] else []) + vs[n].lines
  }

  lemma GroupedSnoc(vs: seq<Unit>, u: Unit)
    ensures GroupedText(vs + [u]) ==
            GroupedText(vs) + (if vs != [] && vs[|vs| - 1].group != u.group then ["\n"] else []) + u.lines
  {
    assert (vs + [u])[..|vs|] == vs;
  }

  predicate AllOf(us: seq<Unit>, g: nat) { forall i :: 0 <= i < |us| ==> us[i].group == g }

  predicate AllBelow(us: seq<Unit>, g: nat) { forall i :: 0 <= i < |us| ==> us[i].group < g }

  lemma Regroup(a: seq<string>, b: seq<string>, c: seq<string>, d: seq<string>)
    ensures a + b + c + d == a + b + (c + d) && a + b + c + [] + d == a + b + (c + d)
  {
  }

  /** A whole group behind others. */
  lemma {:induction false} GroupedConcat(a: seq<Unit>, b: seq<Unit>, g: nat)
    requires b != [] && AllOf(b, g) && (a != [] ==> a[|a| - 1].group != g)
    ensures GroupedText(a + b) == GroupedText(a) + Separator(a == []) + FlatLines(b)
    decreases |b|
  {
    hide GroupedText, FlatLines;
    var n := |b| - 1;
    var init, u := b[..n], b[n];
    Snoc(b);
    if n == 0 {
      assert b == [u];
      GroupedSnoc(a, u);
      FlatOne(u);
    } else {
      assert a + b == a + init + [u];
      GroupedSnoc(a + init, u);
      FlatSnoc(init, u);
      GroupedConcat(a, init, g);
      assert (a + init)[|a + init| - 1] == b[n - 1];
      Regroup(GroupedText(a), Separator(a == []), FlatLines(init), u.lines);
    }
  }

  lemma ArrangeStep(us: seq<Unit>, g: nat)
    requires g <= NUM_GROUPS
    ensures Arrange(us, g) == SortUnits(InGroup(us, g)) + Arrange(us, g + 1)
  {
    hide SortUnits, InGroup;
  }

  lemma MembersOf(us: seq<Unit>, g: nat)
    ensures AllOf(SortUnits(InGroup(us, g)), g) && (SortUnits(InGroup(us, g)) == [] <==> InGroup(us, g) == [])
  {
    hide SortUnits, InGroup, KeySorted, Alike;
    var given, sorted := InGroup(us, g), SortUnits(InGroup(us, g));
    SortSpec(given, 0, "");
    GroupBag(us, g);
    SameGroup(given, sorted, g);
    if given != [] { SomeMember(given, sorted); }
    if sorted != [] { SomeMember(sorted, given); }
  }

  lemma BelowMore(a: seq<Unit>, b: seq<Unit>, g: nat)
    requires AllBelow(a, g) && AllOf(b, g)
    ensures AllBelow(a + b, g + 1) && AllBelow(a, g + 1)
  {
  }

  lemma NoMoreGroups(us: seq<Unit>, first: bool)
    ensures Render(us, NUM_GROUPS + 1, first) == [] && Arrange(us, NUM_GROUPS + 1) == []
  {
  }

  lemma {:induction false} RenderGrouped(us: seq<Unit>, g: nat, before: seq<Unit>)
    requires 1 <= g <= NUM_GROUPS + 1 && AllBelow(before, g)
    ensures GroupedText(before) + Render(us, g, before == []) == GroupedText(before + Arrange(us, g))
    decreases NUM_GROUPS + 1 - g
  {
    hide GroupedText, FlatLines, InGroup, SortUnits, Separator, Render, Arrange, AllOf;
    if g > NUM_GROUPS {
      NoMoreGroups(us, before == []);
      assert before + [] == before && GroupedText(before) + [] == GroupedText(before);
    } else {
      var members := SortUnits(InGroup(us, g));
      MembersOf(us, g);
      BelowMore(before, members, g);
      RenderStep(us, g, before == [], GroupedText(before));
      if members == [] {
        EmptyGroup(us, g);
        RenderGrouped(us, g + 1, before);
      } else {
        ArrangeStep(us, g);
        GroupedConcat(before, members, g);
        RenderGrouped(us, g + 1, before + members);
        assert before + members + Arrange(us, g + 1) == before + (members + Arrange(us, g + 1));
      }
    }
  }

  lemma SomeMember(us: seq<Unit>, vs: seq<Unit>)
    requires us != [] && multiset(us) == multiset(vs)
    ensures vs != []
  {
    assert us[0] in multiset(vs);
  }

  /** The emitted groups are the arranged units so spaced. */
  lemma RenderIs(us: seq<Unit>)
    ensures Render(us, 1, true) == GroupedText(Arrange(us, 1))
  {
    hide Render, Arrange;
    RenderGrouped(us, 1, []);
    assert [] + Arrange(us, 1) == Arrange(us, 1);
    assert GroupedText([]) + Render(us, 1, true) == Render(us, 1, true);
  }

  // ---- Where a blank line stands ------------------------------------------------------------

  /** For each line that is not blank: whether a blank one stands before it. */
  function Gaps(lines: seq<string>): seq<bool> {
    if lines == [] then []
    else
      var n := |lines| - 1;
      Gaps(lines[..n]) + if IsBlank(lines[n]) then [] else [n > 0 && IsBlank(lines[n - 1])]
  }

  lemma GapsSnoc(lines: seq<string>, line: string)
    ensures Gaps(lines + [line]) ==
            Gaps(lines) + if IsBlank(line) then [] else [lines != [] && IsBlank(lines[|lines| - 1])]
  {
    hide IsBlank;
    assert (lines + [line])[..|lines|] == lines;
  }

  lemma {:induction false} CollapseGaps(lines: seq<string>)
    ensures Gaps(Collapse(lines)) == Gaps(lines)
  {
    hide IsBlank;
    if lines != [] {
      var n := |lines| - 1;
      CollapseGaps(lines[..n]);
      CollapseLines(lines[..n]);
      GapsSnoc(Collapse(lines[..n]), lines[n]);
    }
  }

  lemma {:induction false} DropGaps(lines: seq<string>)
    ensures Gaps(DropTrailing(lines)) == Gaps(lines)
  {
    hide IsBlank;
    if lines != [] && IsBlank(lines[|lines| - 1]) {
      DropGaps(lines[..|lines| - 1]);
      assert Gaps(lines) == Gaps(lines[..|lines| - 1]);
    }
  }

  lemma {:induction false} GapsConcat(a: seq<string>, b: seq<string>)
    requires b != [] && !IsBlank(b[0])
    ensures Gaps(b) != [] && !Gaps(b)[0]
    ensures Gaps(a + b) == Gaps(a) + [a != [] && IsBlank(a[|a| - 1])] + Gaps(b)[1..]
    decreases |b|
  {
    hide IsBlank;
    var n := |b| - 1;
    var init, x := b[..n], b[n];
    assert b == init + [x] && a + b == a + init + [x];
    GapsSnoc(a + init, x);
    GapsSnoc(init, x);
    if n == 0 {
      assert init == [] && a + init == a;
    } else {
      GapsConcat(a, init);
      assert (a + init)[|a + init| - 1] == init[n - 1];
      assert IsBlank(x) ==> Gaps(b) == Gaps(init);
      assert !IsBlank(x) ==> Gaps(b)[1..] == Gaps(init)[1..] + [IsBlank(init[n - 1])];
    }
  }

  /** A unit begins and ends with a line that is not blank. */
  predicate Bounded(u: Unit) {
    u.lines != [] && !IsBlank(u.lines[0]) && !IsBlank(u.lines[|u.lines| - 1])
  }

  /** A gap before each unit whose group is new, and the gaps inside the units. */
  function UnitGaps(vs: seq<Unit>): seq<bool>
    requires forall u :: u in vs ==> Bounded(u)
  {
    if vs == [] then []
    else
      var n := |vs| - 1;
      assert Bounded(vs[n]);
      GapsConcat([], vs[n].lines);
      UnitGaps(vs[..n]) + [n > 0 && vs[n - 1].group != vs[n].group] + Gaps(vs[n].lines)[1..]
  }

  lemma {:induction false} GroupedGaps(vs: seq<Unit>)
    requires forall u :: u in vs ==> Bounded(u)
    ensures Gaps(GroupedText(vs)) == UnitGaps(vs)
    ensures vs != [] ==> GroupedText(vs) != [] && !IsBlank(GroupedText(vs)[|GroupedText(vs)| - 1])
  {
    hide IsBlank, Gaps;
    if vs == [] {
      NoGaps();
    } else {
      var n := |vs| - 1;
      var before, u := GroupedText(vs[..n]), vs[n];
      GroupedGaps(vs[..n]);
      assert Bounded(u);
      var sep := if n > 0 && vs[n - 1].group != u.group then ["\n"] else [];
      SeparatorGaps(before);
      assert before + [] == before;
      GapsConcat(before + sep, u.lines);
      var text := before + sep + u.lines;
      assert text[|text| - 1] == u.lines[|u.lines| - 1];
    }
  }

  lemma NoGaps()
    ensures Gaps([]) == []
  {
  }

  lemma SeparatorGaps(lines: seq<string>)
    ensures Gaps(lines + ["\n"]) == Gaps(lines) && IsBlank("\n")
  {
    hide Trim;
    TrimEmpty("\n", IsSpace);
    GapsSnoc(lines, "\n");
  }

  lemma OneBounded(src: Source, i: nat, k: nat, classify: string -> nat, u: Unit)
    requires src.Valid() && i < k <= |src.lines| && UnitOfLines(src, i, k, classify, u)
    requires IncludeAt(src, i) || CondAt(src, i) != NoCond
    requires IncludeAt(src, k - 1) || CondAt(src, k - 1) != NoCond
    ensures Bounded(u)
  {
    hide CondAt, IncludeAt, EnsureEol, IsBlank, IncludeMatch, Strip;
    NotBlank(src, i);
    NotBlank(src, k - 1);
    assert u.lines[0] == EnsureEol(src.lines[i]) && u.lines[|u.lines| - 1] == EnsureEol(src.lines[k - 1]);
  }

  /** The units of the region are bounded so. */
  lemma {:induction false} UnitsBounded(src: Source, i: nat, end: nat, classify: string -> nat, us: seq<Unit>)
    requires src.Valid() && i <= end <= |src.lines| && Tiles(src, i, end) && UnitsOfLines(src, i, end, classify, us)
    ensures forall j :: 0 <= j < |us| ==> Bounded(us[j])
    decreases end - i
  {
    hide CondAt, IncludeAt, BlankAt, HasInclude, HasCode, CloseOf, UnitOfLines, Bounded;
    if i < end {
      if BlankAt(src, i) {
        UnitsBounded(src, i + 1, end, classify, us);
      } else {
        var k := if IncludeAt(src, i) then i + 1 else CloseOf(src, i, 0).value + 1;
        UnitsBounded(src, k, end, classify, us[1..]);
        OneBounded(src, i, k, classify, us[0]);
        forall j | 0 <= j < |us| ensures Bounded(us[j]) {
          if j > 0 { assert us[j] == us[1..][j - 1]; }
        }
      }
    }
  }

  lemma NotBlank(src: Source, j: nat)
    requires src.Valid() && j < |src.lines|
    ensures IncludeAt(src, j) || CondAt(src, j) != NoCond ==> !IsBlank(EnsureEol(src.lines[j]))
  {
    hide Strip, CondKind, IsInclude, EnsureEol;
    IncludeIsNoCond(Strip(src.lines[j]));
    EolKeepsBlank(src.lines[j]);
  }

  /** In the rebuilt region a blank line stands before a unit exactly where its group
      differs from that of the unit before it, and inside a unit where one stood. */
  lemma SpacedByGroup(src: Source, classify: string -> nat, start: nat, end: nat, body: nat,
                      block: seq<string>, result: seq<string>)
    requires src.Valid() && start < |src.lines| && IncludeAt(src, start) && Classifies(classify)
    requires start <= end <= body <= |src.lines| && end == RangeEnd(src, start, start)
    requires Reordered(src, classify, start, end, body, block, result)
    ensures var vs := Arrange(UnitsOf(Tops(src, start, end, classify)), 1);
            (forall u :: u in vs ==> Bounded(u)) && Gaps(block) == UnitGaps(vs)
  {
    hide IncludeAt, Classifies, RangeEnd, Tops, UnitsOf, Tiles, UnitsOfLines, Arrange, Ordered, Alike, GroupsOk, Render,
      Collapse, DropTrailing, Bounded, Gaps, UnitGaps, GroupedText, IsBlank;
    RangeTiles(src, start, start);
    var us := UnitsOf(Tops(src, start, end, classify));
    RegionUnits(src, start, end, classify);
    UnitsBounded(src, start, end, classify, us);
    Arranged(us, 0, "");
    var vs := Arrange(us, 1);
    forall u | u in vs ensures Bounded(u) { assert u in multiset(us); }
    RenderIs(us);
    CollapseGaps(Render(us, 1, true));
    DropGaps(Collapse(Render(us, 1, true)));
    GroupedGaps(vs);
  }
}
