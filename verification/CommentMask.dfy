/** Which lines begin inside a block comment, and when reordering the include
    region keeps every line on the side of the comment it was on. */
module CommentMask {
  import opened Basics
  import opened Sorting
  import opened IncludeLines
  import opened IncludeSort
  import opened IncludeOrder
  import opened Reorder

  // ---- The scan of one line -----------------------------------------------------------------

  datatype Mode = Code | Inside | Quoted(quote: char)

  /** Whether the line ends inside a comment; a literal ends with its line. */
  function Scan(s: string, mode: Mode): bool
    decreases |s|
  {
    if s == "" then mode == Inside
    else match mode
      case Inside =>
        if |s| >= 2 && s[0] == '*' && s[1] == '/' then Scan(s[2..], Code) else Scan(s[1..], Inside)
      case Quoted(quote) =>
        if s[0] == '\\' then (if |s| >= 2 then Scan(s[2..], mode) else false)
        else Scan(s[1..], if s[0] == quote then Code else mode)
      case Code =>
        if |s| >= 2 && s[0] == '/' && s[1] == '/' then false
        else if |s| >= 2 && s[0] == '/' && s[1] == '*' then Scan(s[2..], Inside)
        else Scan(s[1..], if s[0] == '"' || s[0] == '\'' then Quoted(s[0]) else Code)
  }

  function Leaves(line: string, inside: bool): bool {
    Scan(line, if inside then Inside else Code)
  }

  /** Whether a text ends inside a comment. */
  function After(lines: seq<string>, inside: bool): bool {
    if lines == [] then inside else Leaves(lines[|lines| - 1], After(lines[..|lines| - 1], inside))
  }

  lemma Suffix(s: string, j: nat)
    requires j < |s|
    ensures s[j..] != "" && s[j..][0] == s[j] && s[j..][1..] == s[j + 1..]
    ensures j + 1 < |s| ==> |s[j..]| >= 2 && s[j..][1] == s[j + 1] && s[j..][2..] == s[j + 2..]
    ensures j + 1 == |s| ==> |s[j..]| == 1
  {
  }

  /** Past a string or character literal. */
  method SkipLiteral(s: string, from: nat, quote: char) returns (j: nat)
    requires from <= |s|
    ensures from <= j <= |s| && Scan(s[from..], Quoted(quote)) == Scan(s[j..], Code)
  {
    j := from;
    while j < |s|
      invariant from <= j <= |s| && Scan(s[from..], Quoted(quote)) == Scan(s[j..], Quoted(quote))
      decreases |s| - j
    {
      Suffix(s, j);
      if s[j] == '\\' {
        j := if j + 2 <= |s| then j + 2 else |s|;
      } else if s[j] == quote {
        j := j + 1;
        return;
      } else {
        j := j + 1;
      }
    }
  }

  /** Past the end of the comment, if the line has one. */
  method SkipComment(s: string, from: nat) returns (j: nat, inside: bool)
    requires from <= |s|
    ensures from <= j <= |s| && Scan(s[from..], Inside) == Scan(s[j..], if inside then Inside else Code)
    ensures inside ==> j == |s|
  {
    j, inside := from, true;
    while j < |s|
      invariant from <= j <= |s| && inside && Scan(s[from..], Inside) == Scan(s[j..], Inside)
    {
      Suffix(s, j);
      if j + 1 < |s| && s[j] == '*' && s[j + 1] == '/' { return j + 2, false; }
      j := j + 1;
    }
  }

  /** The scan of one line by _block_comment_mask(). */
  method ScanLine(s: string, inComment: bool) returns (inside: bool)
    ensures inside == Leaves(s, inComment)
  {
    inside := inComment;
    var j: nat := 0;
    assert s[0..] == s;
    while j < |s|
      invariant j <= |s| && Scan(s[j..], if inside then Inside else Code) == Leaves(s, inComment)
      decreases |s| - j, inside
    {
      Suffix(s, j);
      if inside {
        var k, still := SkipComment(s, j);
        if still { return true; }
        j, inside := k, false;
      } else if j + 1 < |s| && s[j] == '/' && s[j + 1] == '/' {
        return false;
      } else if j + 1 < |s| && s[j] == '/' && s[j + 1] == '*' {
        j, inside := j + 2, true;
      } else if s[j] == '"' || s[j] == '\'' {
        j := SkipLiteral(s, j + 1, s[j]);
      } else {
        j := j + 1;
      }
    }
  }

  /** _block_comment_mask() */
  method BlockCommentMask(lines: seq<string>) returns (mask: seq<bool>)
    ensures |mask| == |lines| && forall i :: 0 <= i < |mask| ==> mask[i] == After(lines[..i], false)
  {
    mask := [];
    var inComment := false;
    for i := 0 to |lines|
      invariant |mask| == i && inComment == After(lines[..i], false)
      invariant forall k :: 0 <= k < i ==> mask[k] == After(lines[..k], false)
    {
      assert lines[..i + 1][..i] == lines[..i];
      mask := mask + [inComment];
      inComment := ScanLine(lines[i], inComment);
    }
  }

  // ---- What does not matter ----------------------------------------------------------------------

  lemma {:induction false} ScanEol(s: string, mode: Mode)
    ensures Scan(s + "\n", mode) == Scan(s, mode)
    decreases |s|
  {
    var t := s + "\n";
    if s == "" {
      assert t == "\n" && t[1..] == "";
    } else {
      assert t[0] == s[0] && t[1..] == s[1..] + "\n";
      if |s| >= 2 {
        assert t[1] == s[1] && t[2..] == s[2..] + "\n";
        forall m ensures Scan(s[2..] + "\n", m) == Scan(s[2..], m) { ScanEol(s[2..], m); }
      } else {
        assert t[1] == '\n' && t[2..] == "" && s[1..] == "";
      }
      forall m ensures Scan(s[1..] + "\n", m) == Scan(s[1..], m) { ScanEol(s[1..], m); }
    }
  }

  lemma EolLeaves(text: string, inside: bool)
    ensures Leaves(EnsureEol(text), inside) == Leaves(text, inside)
  {
    hide Scan;
    ScanEol(text, if inside then Inside else Code);
  }

  lemma {:induction false} SpaceKeeps(s: string, inside: bool)
    requires forall i :: 0 <= i < |s| ==> IsSpace(s[i])
    ensures Leaves(s, inside) == inside
    decreases |s|
  {
    if s != "" {
      assert IsSpace(s[0]);
      SpaceKeeps(s[1..], inside);
    }
  }

  lemma BlankKeeps(line: string, inside: bool)
    requires IsBlank(line)
    ensures Leaves(line, inside) == inside
  {
    hide Scan, Trim;
    TrimEmpty(line, IsSpace);
    SpaceKeeps(line, inside);
  }

  lemma AfterSnoc(lines: seq<string>, line: string, inside: bool)
    ensures After(lines + [line], inside) == Leaves(line, After(lines, inside))
  {
    hide Leaves;
    assert (lines + [line])[..|lines|] == lines;
  }

  lemma {:induction false} AfterConcat(a: seq<string>, b: seq<string>, inside: bool)
    ensures After(a + b, inside) == After(b, After(a, inside))
  {
    hide Leaves;
    if b == [] {
      assert a + b == a;
    } else {
      var n := |b| - 1;
      AfterConcat(a, b[..n], inside);
      assert (a + b)[..|a + b| - 1] == a + b[..n];
    }
  }

  /** Only the lines that are not blank matter. */
  lemma {:induction false} AfterNonBlank(lines: seq<string>, inside: bool)
    ensures After(lines, inside) == After(NonBlank(lines), inside)
  {
    hide Leaves, IsBlank;
    if lines != [] {
      var n := |lines| - 1;
      AfterNonBlank(lines[..n], inside);
      if IsBlank(lines[n]) {
        BlankKeeps(lines[n], After(lines[..n], inside));
        assert NonBlank(lines) == NonBlank(lines[..n]);
      } else {
        AfterSnoc(NonBlank(lines[..n]), lines[n], inside);
      }
    }
  }

  lemma {:induction false} AfterEols(lines: seq<string>, inside: bool)
    ensures After(Eols(lines), inside) == After(lines, inside)
  {
    hide Leaves, EnsureEol;
    if lines != [] {
      var n := |lines| - 1;
      AfterEols(lines[..n], inside);
      assert Eols(lines)[..n] == Eols(lines[..n]);
      EolLeaves(lines[n], After(lines[..n], inside));
    }
  }

  // ---- One answer for each line that is not blank ---------------------------------------------

  /** For each line that is not blank: whether it begins inside a comment. */
  function LineMasks(lines: seq<string>, inside: bool): seq<bool> {
    if lines == [] then []
    else
      var n := |lines| - 1;
      LineMasks(lines[..n], inside) + if IsBlank(lines[n]) then [] else [After(lines[..n], inside)]
  }

  /** What each unit says of its own lines. */
  function UnitMasks(us: seq<Unit>): seq<bool> {
    if us == [] then [] else UnitMasks(us[..|us| - 1]) + LineMasks(us[|us| - 1].lines, false)
  }

  lemma LineMasksSnoc(lines: seq<string>, line: string, inside: bool)
    ensures LineMasks(lines + [line], inside) ==
            LineMasks(lines, inside) + if IsBlank(line) then [] else [After(lines, inside)]
  {
    hide After, IsBlank;
    assert (lines + [line])[..|lines|] == lines;
  }

  lemma {:induction false} LineMasksConcat(a: seq<string>, b: seq<string>, inside: bool)
    ensures LineMasks(a + b, inside) == LineMasks(a, inside) + LineMasks(b, After(a, inside))
  {
    hide After, IsBlank;
    if b == [] {
      assert a + b == a;
    } else {
      var n := |b| - 1;
      LineMasksConcat(a, b[..n], inside);
      AfterConcat(a, b[..n], inside);
      assert (a + b)[..|a + b| - 1] == a + b[..n];
    }
  }

  lemma {:induction false} LineMasksNonBlank(lines: seq<string>, inside: bool)
    ensures LineMasks(lines, inside) == LineMasks(NonBlank(lines), inside)
  {
    hide After, IsBlank;
    if lines != [] {
      var n := |lines| - 1;
      LineMasksNonBlank(lines[..n], inside);
      if IsBlank(lines[n]) {
        assert NonBlank(lines) == NonBlank(lines[..n]);
      } else {
        AfterNonBlank(lines[..n], inside);
        LineMasksSnoc(NonBlank(lines[..n]), lines[n], inside);
      }
    }
  }

  lemma {:induction false} LineMasksSize(lines: seq<string>, inside: bool, other: bool)
    ensures |LineMasks(lines, inside)| == |LineMasks(lines, other)|
  {
    hide After, IsBlank;
    if lines != [] { LineMasksSize(lines[..|lines| - 1], inside, other); }
  }

  lemma {:induction false} FirstMask(lines: seq<string>, inside: bool)
    requires lines != [] && !IsBlank(lines[0])
    ensures LineMasks(lines, inside) != [] && LineMasks(lines, inside)[0] == inside
  {
    hide Leaves, IsBlank;
    var n := |lines| - 1;
    if n == 0 {
      assert lines[..0] == [];
    } else {
      FirstMask(lines[..n], inside);
    }
  }

  // ---- Units in a row ---------------------------------------------------------------------------

  predicate LeavesOpen(u: Unit) { After(u.lines, false) }

  predicate StartsPlain(u: Unit) { u.lines != [] && !IsBlank(u.lines[0]) }

  /** Every unit begins outside comments. */
  ghost predicate AllBeginOutside(us: seq<Unit>) {
    forall k :: 0 <= k < |us| ==> !After(FlatLines(us[..k]), false)
  }

  lemma OutsideSnoc(us: seq<Unit>)
    requires us != []
    ensures AllBeginOutside(us) <==>
            AllBeginOutside(us[..|us| - 1]) && !After(FlatLines(us[..|us| - 1]), false)
  {
    hide After, FlatLines;
    var n := |us| - 1;
    assert forall k :: 0 <= k <= n ==> us[..n][..k] == us[..k];
    assert !AllBeginOutside(us[..n]) ==> !AllBeginOutside(us) by {
      if !AllBeginOutside(us[..n]) {
        var k :| 0 <= k < n && After(FlatLines(us[..n][..k]), false);
        assert After(FlatLines(us[..k]), false);
      }
    }
  }

  /** The lines keep their masks just when every unit begins outside comments. */
  lemma {:induction false} MasksIff(us: seq<Unit>)
    requires forall u :: u in us ==> StartsPlain(u)
    ensures LineMasks(FlatLines(us), false) == UnitMasks(us) <==> AllBeginOutside(us)
  {
    hide After, IsBlank, AllBeginOutside, LineMasks;
    if us == [] {
      NoMasks();
    } else {
      var n := |us| - 1;
      var head, u := us[..n], us[n];
      var inside := After(FlatLines(head), false);
      MasksIff(head);
      OutsideSnoc(us);
      LineMasksConcat(FlatLines(head), u.lines, false);
      LineMasksSize(u.lines, inside, false);
      assert StartsPlain(u);
      FirstMask(u.lines, inside);
      FirstMask(u.lines, false);
      SplitMasks(LineMasks(FlatLines(head), false), LineMasks(u.lines, inside),
                 UnitMasks(head), LineMasks(u.lines, false));
    }
  }

  lemma NoMasks()
    ensures LineMasks(FlatLines([]), false) == UnitMasks([]) && AllBeginOutside([])
  {
  }

  lemma SplitMasks<T>(a: seq<T>, b: seq<T>, c: seq<T>, d: seq<T>)
    requires |b| == |d|
    ensures a + b == c + d <==> a == c && b == d
  {
    if a + b == c + d {
      assert |a| == |c|;
      assert a == (a + b)[..|a|] == (c + d)[..|c|] == c;
      assert b == (a + b)[|a|..] == (c + d)[|c|..] == d;
    }
  }

  /** Units that leave nothing open. */
  lemma {:induction false} ClosedUnits(us: seq<Unit>)
    requires forall u :: u in us ==> !LeavesOpen(u)
    ensures !After(FlatLines(us), false) && AllBeginOutside(us)
  {
    hide After, FlatLines, AllBeginOutside;
    if us == [] {
      NothingOpen();
    } else {
      var n := |us| - 1;
      ClosedUnits(us[..n]);
      FlatSnoc(us[..n], us[n]);
      Snoc(us);
      AfterConcat(FlatLines(us[..n]), us[n].lines, false);
      assert !LeavesOpen(us[n]);
      OutsideSnoc(us);
    }
  }

  lemma NothingOpen()
    ensures !After(FlatLines([]), false) && AllBeginOutside([])
  {
  }

  /** A unit that leaves a comment open must come last. */
  lemma {:induction false} OpenIsLast(us: seq<Unit>, k: nat)
    requires k < |us| - 1 && LeavesOpen(us[k])
    ensures !AllBeginOutside(us)
  {
    hide After, FlatLines;
    if AllBeginOutside(us) {
      assert !After(FlatLines(us[..k]), false) && !After(FlatLines(us[..k + 1]), false);
      assert us[..k + 1] == us[..k] + [us[k]];
      FlatSnoc(us[..k], us[k]);
      AfterConcat(FlatLines(us[..k]), us[k].lines, false);
    }
  }

  // ---- The units of the region --------------------------------------------------------------------

  /** The mask is the one _block_comment_mask() computes. */
  ghost predicate Masked(src: Source) {
    && src.Valid()
    && forall j :: 0 <= j < |src.lines| ==> src.masked[j] == After(src.lines[..j], false)
  }

  /** All units but the last are closed, and the last one leaves `open`. */
  ghost predicate OpenAtMostLast(us: seq<Unit>, open: bool) {
    && (forall u :: u in us ==> StartsPlain(u))
    && (forall k :: 0 <= k < |us| - 1 ==> !LeavesOpen(us[k]))
    && (if us == [] then !open else LeavesOpen(us[|us| - 1]) == open)
  }

  lemma OpenCons(u: Unit, us: seq<Unit>, open: bool)
    requires StartsPlain(u)
    requires us != [] ==> !LeavesOpen(u)
    requires OpenAtMostLast(us, open) || (us == [] && LeavesOpen(u) == open)
    requires us == [] ==> LeavesOpen(u) == open
    ensures OpenAtMostLast([u] + us, open)
  {
    hide LeavesOpen, StartsPlain;
    var all := [u] + us;
    assert forall k :: 0 < k < |all| ==> all[k] == us[k - 1];
  }

  lemma AfterTake(lines: seq<string>, i: nat, k: nat)
    requires i <= k <= |lines| && !After(lines[..i], false)
    ensures After(lines[..k], false) == After(lines[i..k], false)
    ensures After(lines[..k], false) == After(Eols(lines[i..k]), false)
  {
    hide After;
    assert lines[..k] == lines[..i] + lines[i..k];
    AfterConcat(lines[..i], lines[i..k], false);
    AfterEols(lines[i..k], false);
  }

  lemma PlainStart(line: string)
    requires Strip(line) != ""
    ensures !IsBlank(EnsureEol(line))
  {
    hide EnsureEol, Strip;
    EolKeepsBlank(line);
  }

  lemma IncludeStarts(src: Source, i: nat, classify: string -> nat)
    requires src.Valid() && i < |src.lines| && IncludeAt(src, i) && Classifies(classify)
    ensures var u := UnitOf(Single(ItemAt(src, i, classify)));
            UnitsOf([Single(ItemAt(src, i, classify))]) == [u] && u.lines == Eols(src.lines[i..i + 1]) && StartsPlain(u)
  {
    hide IncludeMatch, Strip, EnsureEol, IsBlank, UnitsOf;
    IncludeIsNoCond(Strip(src.lines[i]));
    PlainStart(src.lines[i]);
    UnitOne(Single(ItemAt(src, i, classify)));
  }

  lemma BlockLines(src: Source, i: nat, k: nat, classify: string -> nat)
    requires src.Valid() && i <= k <= |src.lines| && Classifies(classify)
    ensures var u := UnitOf(MakeBlock(Items(src, i, k, classify)));
            UnitsOf([MakeBlock(Items(src, i, k, classify))]) == [u] && u.lines == Eols(src.lines[i..k])
  {
    hide EnsureEol, ItemAt, FirstIncl, UnitsOf;
    var items := Items(src, i, k, classify);
    forall j | 0 <= j < |items|
      ensures items[j].text == src.lines[i..k][j] && (items[j].kind == Incl ==> 1 <= items[j].group <= NUM_GROUPS)
    {
      TextAt(src, i + j, classify);
    }
    assert Texts(items) == src.lines[i..k];
    UnitOne(MakeBlock(items));
  }

  lemma BlockStarts(src: Source, i: nat, k: nat, classify: string -> nat)
    requires src.Valid() && i < k <= |src.lines| && CondAt(src, i) != NoCond && Classifies(classify)
    ensures var u := UnitOf(MakeBlock(Items(src, i, k, classify)));
            && UnitsOf([MakeBlock(Items(src, i, k, classify))]) == [u]
            && u.lines == Eols(src.lines[i..k]) && StartsPlain(u)
  {
    hide EnsureEol, Items, MakeBlock, UnitOf, Strip, CondKind, IsBlank, UnitsOf, Classifies;
    BlockLines(src, i, k, classify);
    IncludeIsNoCond(Strip(src.lines[i]));
    PlainStart(src.lines[i]);
    assert Eols(src.lines[i..k])[0] == EnsureEol(src.lines[i]);
  }

  /** A comment can be open only at the very end of the region. */
  lemma {:induction false} RegionOpen(src: Source, i: nat, end: nat, classify: string -> nat)
    requires Masked(src) && i <= end <= |src.lines| && Tiles(src, i, end) && Classifies(classify)
    requires !After(src.lines[..i], false)
    ensures OpenAtMostLast(UnitsOf(Tops(src, i, end, classify)), After(src.lines[..end], false))
    decreases end - i
  {
    hide ItemAt, Items, MakeBlock, CondAt, IncludeAt, BlankAt, HasInclude, HasCode, CloseOf, Classifies,
      UnitsOf, EnsureEol, After, OpenAtMostLast, LeavesOpen, StartsPlain;
    var open := After(src.lines[..end], false);
    if i == end {
      NoUnits(open);
    } else if BlankAt(src, i) {
      BlankTop(src, i, end, classify);
      BlankAfter(src, i);
      RegionOpen(src, i + 1, end, classify);
    } else {
      var plain := IncludeAt(src, i);
      var k := if plain then i + 1 else CloseOf(src, i, 0).value + 1;
      var top := if plain then Single(ItemAt(src, i, classify)) else MakeBlock(Items(src, i, k, classify));
      var rest := Tops(src, k, end, classify);
      var u := UnitOf(top);
      if plain { IncludeStarts(src, i, classify); } else { BlockStarts(src, i, k, classify); }
      assert Tops(src, i, end, classify) == [top] + rest;
      UnitsCons(top, rest);
      AfterTake(src.lines, i, k);
      assert LeavesOpen(u) == After(src.lines[..k], false) by { OpenIs(u); }
      if k == end {
        NoUnits(false);
        OpenCons(u, [], open);
        assert UnitsOf(rest) == [];
      } else {
        TileBegins(src, k, end);
        RegionOpen(src, k, end, classify);
        if UnitsOf(rest) == [] { NoneOpen(open); }
        OpenCons(u, UnitsOf(rest), open);
      }
    }
  }

  lemma OpenIs(u: Unit)
    ensures LeavesOpen(u) == After(u.lines, false)
  {
  }

  lemma NoUnits(open: bool)
    ensures UnitsOf([]) == [] && (!open ==> OpenAtMostLast([], open))
  {
  }

  lemma NoneOpen(open: bool)
    requires OpenAtMostLast([], open)
    ensures !open
  {
  }

  /** A tile of the region begins outside comments. */
  lemma TileBegins(src: Source, i: nat, end: nat)
    requires Masked(src) && i < end <= |src.lines| && Tiles(src, i, end)
    ensures !src.masked[i] && !After(src.lines[..i], false)
  {
    hide After, IsBlank, IsInclude, CondKind, Strip, CloseOf, HasInclude, HasCode;
  }

  lemma BlankTop(src: Source, i: nat, end: nat, classify: string -> nat)
    requires src.Valid() && i < end <= |src.lines| && BlankAt(src, i)
    ensures UnitsOf(Tops(src, i, end, classify)) == UnitsOf(Tops(src, i + 1, end, classify))
  {
    hide ItemAt, Items, MakeBlock, BlankAt, IncludeAt, CloseOf, UnitsOf;
    var top, rest := Single(ItemAt(src, i, classify)), Tops(src, i + 1, end, classify);
    assert Tops(src, i, end, classify) == [top] + rest;
    UnitsCons(top, rest);
    BlankUnit(src, i, classify);
  }

  lemma BlankAfter(src: Source, i: nat)
    requires src.Valid() && i < |src.lines| && BlankAt(src, i)
    ensures After(src.lines[..i + 1], false) == After(src.lines[..i], false)
  {
    hide IsBlank, After, Leaves;
    assert src.lines[..i + 1] == src.lines[..i] + [src.lines[i]];
    AfterSnoc(src.lines[..i], src.lines[i], false);
    BlankKeeps(src.lines[i], After(src.lines[..i], false));
  }

  // ---- The last unit -------------------------------------------------------------------------------

  /** Every unit sorts before `u`, or with it. */
  predicate SortsLast(us: seq<Unit>, u: Unit) { forall i :: 0 <= i < |us| ==> Before(us[i], u) }

  lemma BeforeBoth(u: Unit, v: Unit)
    requires Before(u, v) && Before(v, u)
    ensures u.group == v.group && Lower(u.key) == Lower(v.key)
  {
    hide Lower, LexLe;
    LexAntisymmetric(Lower(u.key), Lower(v.key));
  }

  lemma BeforeItself(u: Unit)
    ensures Before(u, u)
  {
    hide Lower, LexLe;
    LexReflexive(Lower(u.key));
  }

  /** The last unit stays last just when nothing sorts after it. */
  lemma LastStays(us: seq<Unit>)
    requires us != [] && GroupsOk(us)
    ensures |Arrange(us, 1)| == |us|
    ensures Arrange(us, 1)[|us| - 1] == us[|us| - 1] <==> SortsLast(us, us[|us| - 1])
  {
    hide Arrange, Lower, Before, Alike, Ordered;
    var n := |us| - 1;
    var vs, last := Arrange(us, 1), us[n];
    Arranged(us, last.group, Lower(last.key));
    assert |vs| == |multiset(vs)| == |multiset(us)| == |us|;
    if vs[n] == last {
      forall i | 0 <= i < |us| ensures Before(us[i], last) {
        assert us[i] in multiset(vs);
        var j :| 0 <= j < |vs| && vs[j] == us[i];
        OrderedAt(vs, j);
      }
    }
    if SortsLast(us, last) {
      assert last in multiset(vs) && vs[n] in multiset(us);
      var j :| 0 <= j < |vs| && vs[j] == last;
      OrderedAt(vs, j);
      BeforeBoth(vs[n], last);
      LastAlike(us);
      LastAlike(vs);
    }
  }

  lemma OrderedAt(vs: seq<Unit>, j: nat)
    requires Ordered(vs) && j < |vs|
    ensures Before(vs[j], vs[|vs| - 1])
  {
    hide Before;
    BeforeItself(vs[j]);
  }

  lemma LastAlike(us: seq<Unit>)
    requires us != []
    ensures var last := us[|us| - 1];
            var alike := Alike(us, last.group, Lower(last.key));
            alike != [] && alike[|alike| - 1] == last
  {
    hide Lower;
  }

  // ---- When the masks survive ----------------------------------------------------------------------

  lemma NotBefore(us: seq<Unit>, open: bool)
    requires us != [] && OpenAtMostLast(us, open) && open
    ensures forall u :: u in us[..|us| - 1] ==> !LeavesOpen(u)
  {
    hide LeavesOpen, StartsPlain;
  }

  lemma {:induction false} OutsideIff(us: seq<Unit>, open: bool)
    requires GroupsOk(us) && OpenAtMostLast(us, open)
    ensures AllBeginOutside(Arrange(us, 1)) && After(FlatLines(Arrange(us, 1)), false) == open <==>
            !open || SortsLast(us, us[|us| - 1])
  {
    hide Arrange, AllBeginOutside, After, FlatLines, StartsPlain, LeavesOpen, SortsLast, Ordered, Alike;
    var vs := Arrange(us, 1);
    Arranged(us, 0, "");
    if !open {
      forall u | u in vs ensures !LeavesOpen(u) { assert u in multiset(us); }
      ClosedUnits(vs);
    } else {
      var n := |us| - 1;
      LastStays(us);
      NotBefore(us, open);
      if vs[n] == us[n] {
        LastOpen(us, vs);
      } else {
        assert us[n] in multiset(vs);
        var k :| 0 <= k < |vs| && vs[k] == us[n];
        OpenIsLast(vs, k);
      }
    }
  }

  lemma LastOpen(us: seq<Unit>, vs: seq<Unit>)
    requires us != [] && multiset(us) == multiset(vs) && |us| == |vs| && vs[|us| - 1] == us[|us| - 1]
    requires LeavesOpen(us[|us| - 1]) && forall u :: u in us[..|us| - 1] ==> !LeavesOpen(u)
    ensures AllBeginOutside(vs) && After(FlatLines(vs), false)
  {
    hide After, FlatLines, AllBeginOutside;
    var n := |us| - 1;
    SplitBag(us, n);
    SplitBag(vs, n);
    assert us[..n] + us[n + 1..] == us[..n] && vs[..n] + vs[n + 1..] == vs[..n];
    CancelBag(multiset(us[..n]), multiset(vs[..n]), us[n]);
    forall u | u in vs[..n] ensures !LeavesOpen(u) { assert u in multiset(us[..n]); }
    ClosedUnits(vs[..n]);
    OutsideSnoc(vs);
    Snoc(vs);
    FlatSnoc(vs[..n], vs[n]);
    AfterConcat(FlatLines(vs[..n]), vs[n].lines, false);
  }

  /** Every line of the new region is masked as it was in the old one, and so is
      the text that follows. */
  ghost predicate MasksKept(src: Source, us: seq<Unit>, start: nat, end: nat, block: seq<string>)
    requires start <= end <= |src.lines|
  {
    && LineMasks(block, false) == UnitMasks(Arrange(us, 1))
    && After(src.lines[..start] + block, false) == After(src.lines[..end], false)
  }

  lemma SameText(a: seq<string>, b: seq<string>)
    requires NonBlank(a) == NonBlank(b)
    ensures LineMasks(a, false) == LineMasks(b, false) && After(a, false) == After(b, false)
  {
    hide NonBlank, LineMasks, After;
    LineMasksNonBlank(a, false);
    LineMasksNonBlank(b, false);
    AfterNonBlank(a, false);
    AfterNonBlank(b, false);
  }

  lemma FirstUnit(src: Source, start: nat, end: nat, classify: string -> nat)
    requires src.Valid() && start < end <= |src.lines| && IncludeAt(src, start) && Classifies(classify)
    ensures UnitsOf(Tops(src, start, end, classify)) != []
  {
    hide IncludeAt, BlankAt, ItemAt, UnitsOf, UnitOf, CloseOf, Items, MakeBlock, Classifies;
    IncludeStarts(src, start, classify);
    UnitsCons(Single(ItemAt(src, start, classify)), Tops(src, start + 1, end, classify));
  }

  /** In the order of the file all units begin outside comments. */
  lemma FileOrder(us: seq<Unit>, open: bool)
    requires OpenAtMostLast(us, open)
    ensures LineMasks(FlatLines(us), false) == UnitMasks(us)
  {
    hide LineMasks, UnitMasks, FlatLines, After, AllBeginOutside, LeavesOpen, StartsPlain;
    if us != [] {
      var n := |us| - 1;
      ClosedUnits(us[..n]);
      OutsideSnoc(us);
      MasksIff(us);
    } else {
      NoMasks();
    }
  }

  lemma PlainArranged(us: seq<Unit>, open: bool)
    requires GroupsOk(us) && OpenAtMostLast(us, open)
    ensures forall u :: u in Arrange(us, 1) ==> StartsPlain(u)
  {
    hide Arrange, StartsPlain, LeavesOpen, Ordered, Alike;
    Arranged(us, 0, "");
    forall u | u in Arrange(us, 1) ensures StartsPlain(u) { assert u in multiset(us); }
  }

  /** Units in file order say of each line what the file says, and reordering keeps
      that, and the text that follows, exactly when the region ends outside a comment
      or its last unit sorts last. */
  lemma MasksSurviveIff(src: Source, classify: string -> nat, start: nat, end: nat, body: nat,
                        block: seq<string>, result: seq<string>)
    requires Masked(src) && start < |src.lines| && IncludeAt(src, start) && Classifies(classify)
    requires start <= end <= body <= |src.lines| && end == RangeEnd(src, start, start)
    requires Reordered(src, classify, start, end, body, block, result)
    ensures var us := UnitsOf(Tops(src, start, end, classify));
            && us != [] && LineMasks(Eols(src.lines[start..end]), false) == UnitMasks(us)
            && (MasksKept(src, us, start, end, block) <==>
                !After(src.lines[..end], false) || SortsLast(us, us[|us| - 1]))
  {
    hide IncludeAt, Classifies, RangeEnd, Tops, UnitsOf, Tiles, NonBlank, FlatLines, Arrange, IsBlank,
      GroupsOk, NewRegion, Tidy, After, LineMasks, UnitMasks, AllBeginOutside, SortsLast, OpenAtMostLast;
    RangeTiles(src, start, start);
    RangeGrows(src, start);
    TileBegins(src, start, end);
    var us, open := UnitsOf(Tops(src, start, end, classify)), After(src.lines[..end], false);
    var vs := Arrange(us, 1);
    FirstUnit(src, start, end, classify);
    RegionOpen(src, start, end, classify);
    RegionLines(src, start, end, classify);
    SameText(Eols(src.lines[start..end]), FlatLines(us));
    FileOrder(us, open);
    NewRegionLines(us);
    SameText(block, FlatLines(vs));
    AfterConcat(src.lines[..start], block, false);
    PlainArranged(us, open);
    MasksIff(vs);
    OutsideIff(us, open);
  }

  /** What follows the region is then masked as it was. */
  lemma {:induction false} TailMasks(src: Source, start: nat, end: nat, body: nat, block: seq<string>, k: nat)
    requires start <= end <= body <= k <= |src.lines|
    requires After(src.lines[..start] + block, false) == After(src.lines[..end], false)
    requires forall j :: end <= j < body ==> IsBlank(src.lines[j])
    ensures After(src.lines[..start] + block + ["\n"] + src.lines[body..k], false) == After(src.lines[..k], false)
  {
    hide After, NonBlank, IsBlank;
    var head := src.lines[..start] + block;
    AfterConcat(head + ["\n"], src.lines[body..k], false);
    AfterConcat(head, ["\n"], false);
    OneBlank(After(head, false));
    assert src.lines[..k] == src.lines[..end] + src.lines[end..body] + src.lines[body..k];
    AfterConcat(src.lines[..end] + src.lines[end..body], src.lines[body..k], false);
    AfterConcat(src.lines[..end], src.lines[end..body], false);
    BlanksKeep(src.lines[end..body], After(src.lines[..end], false));
  }

  lemma OneBlank(inside: bool)
    ensures After(["\n"], inside) == inside
  {
    hide Leaves;
    assert ["\n"][..0] == [];
    SpaceKeeps("\n", inside);
  }

  lemma {:induction false} BlanksKeep(lines: seq<string>, inside: bool)
    requires forall j :: 0 <= j < |lines| ==> IsBlank(lines[j])
    ensures After(lines, inside) == inside
  {
    hide Leaves, IsBlank;
    if lines != [] {
      var n := |lines| - 1;
      BlanksKeep(lines[..n], inside);
      BlankKeeps(lines[n], inside);
    }
  }

  /** _reorder_includes() from the lines alone. */
  method ReorderLines(lines: seq<string>, classify: string -> nat)
    returns (result: seq<string>, mask: seq<bool>, start: nat, end: nat, body: nat, block: seq<string>)
    requires Classifies(classify)
    ensures var src := Source(lines, mask);
            && Masked(src) && start <= end <= body <= |lines|
            && (start == end ==> result == lines && forall j :: 0 <= j < |lines| ==> !IncludeAt(src, j))
            && (start < end ==>
                  var us := UnitsOf(Tops(src, start, end, classify));
                  && us != [] && Reordered(src, classify, start, end, body, block, result)
                  && (MasksKept(src, us, start, end, block) <==>
                      !After(lines[..end], false) || SortsLast(us, us[|us| - 1])))
  {
    hide After, Classifies, IncludeAt, RangeEnd, Reordered, Tops, UnitsOf, MasksKept, SortsLast;
    mask := BlockCommentMask(lines);
    var src := Source(lines, mask);
    result, start, end, body, block := ReorderIncludes(src, classify);
    if start < end { MasksSurviveIff(src, classify, start, end, body, block, result); }
  }
}
