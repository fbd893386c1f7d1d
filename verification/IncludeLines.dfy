/** Recognising the lines of the include region: which lines are includes, which
    open or close a conditional, and how far the region reaches. */
module IncludeLines {
  import opened Basics

  // ---- Single lines ---------------------------------------------------------------------

  /** The ASCII part of what strip() and \s match. */
  predicate IsSpace(c: char) {
    c == ' ' || '\t' <= c <= '\r' || '\U{1C}' <= c <= '\U{1F}'
  }

  predicate IsWord(c: char) { IsAlnum(c) || c == '_' }

  function Strip(s: string): string { Trim(s, IsSpace) }

  predicate IsBlank(line: string) { Strip(line) == "" }

  /** What follows the '#' and the space after it. */
  function AfterHash(s: string): Option<string> {
    if s != "" && s[0] == '#' then Some(TrimStart(s[1..], IsSpace)) else None
  }

  function WordOf(s: string): (w: string)
    ensures |w| <= |s|
  {
    if s != "" && IsWord(s[0]) then [s[0]] + WordOf(s[1..]) else ""
  }

  datatype Cond = Open | Branch | Endif | NoCond

  /** _cond_kind() of a stripped line. */
  function CondKind(s: string): Cond {
    var r := AfterHash(s);
    if r.None? then NoCond
    else
      var w := WordOf(r.value);
      if w == "if" || w == "ifdef" || w == "ifndef" then Open
      else if w == "elif" || w == "else" then Branch
      else if w == "endif" then Endif
      else NoCond
  }

  /** The delimited header name at the start of `t`, if there is one. */
  function Delimited(t: string): (r: Option<string>)
    ensures r.Some? ==> |r.value| <= |t|
  {
    if t == "" || (t[0] != '<' && t[0] != '"') then None
    else
      var close := if t[0] == '<' then '>' else '"';
      var k := 1 + CharIndex(t[1..], close);
      if k == 1 || k >= |t| then None else Some(t[..k + 1])
  }

  /** The target and the whole matched text of an include directive. */
  datatype Include = Include(target: string, text: string)

  function IncludeMatch(s: string): Option<Include> {
    var r := AfterHash(s);
    if r.None? || WordOf(r.value) != "include" then None
    else
      var rest := r.value[|WordOf(r.value)|..];
      var t := TrimStart(rest, IsSpace);
      if |t| == |rest| || Delimited(t).None? then None
      else Some(Include(Delimited(t).value, s[..|s| - |t| + |Delimited(t).value|]))
  }

  predicate IsInclude(s: string) { IncludeMatch(s).Some? }

  /** An include is no conditional, and both start with '#'. */
  lemma IncludeIsNoCond(s: string)
    ensures IsInclude(s) ==> CondKind(s) == NoCond && s != ""
    ensures CondKind(s) != NoCond ==> s != "" && s[0] == '#'
  {
    hide WordOf, Delimited, TrimStart;
  }

  // ---- Positions in the file --------------------------------------------------------------

  /** The lines of a file; `masked` marks those that begin inside a comment. */
  datatype Source = Source(lines: seq<string>, masked: seq<bool>) {
    predicate Valid() { |masked| == |lines| }
  }

  function CondAt(src: Source, j: nat): Cond
    requires src.Valid() && j < |src.lines|
  {
    if src.masked[j] then NoCond else CondKind(Strip(src.lines[j]))
  }

  predicate IncludeAt(src: Source, j: nat)
    requires src.Valid() && j < |src.lines|
  {
    !src.masked[j] && IsInclude(Strip(src.lines[j]))
  }

  predicate BlankAt(src: Source, j: nat)
    requires src.Valid() && j < |src.lines|
  {
    !src.masked[j] && IsBlank(src.lines[j])
  }

  predicate Harmless(s: string) {
    s == "" || s[0] == '#' || s[0] == '*' || (|s| >= 2 && s[0] == '/' && (s[1] == '*' || s[1] == '/'))
  }

  /** A line of C code: no directive, comment or blank. */
  predicate CodeAt(src: Source, j: nat)
    requires src.Valid() && j < |src.lines|
  {
    !src.masked[j] && !Harmless(Strip(src.lines[j]))
  }

  lemma OneKind(src: Source, j: nat)
    requires src.Valid() && j < |src.lines|
    ensures IncludeAt(src, j) ==> CondAt(src, j) == NoCond && !BlankAt(src, j) && !CodeAt(src, j)
    ensures CondAt(src, j) != NoCond ==> !IncludeAt(src, j) && !BlankAt(src, j) && !CodeAt(src, j)
  {
    hide IncludeMatch, CondKind, Strip;
    IncludeIsNoCond(Strip(src.lines[j]));
    IncludeHash(Strip(src.lines[j]));
  }

  lemma IncludeHash(s: string)
    ensures IsInclude(s) ==> s != "" && s[0] == '#'
  {
    hide WordOf, Delimited, TrimStart;
  }

  /** Where the conditional around line `j`, `depth` levels up, is closed. */
  function CloseOf(src: Source, j: nat, depth: int): (r: Option<nat>)
    requires src.Valid() && j <= |src.lines|
    ensures r.Some? ==> j <= r.value < |src.lines| && CondAt(src, r.value) == Endif
    decreases |src.lines| - j
  {
    if j == |src.lines| then None
    else match CondAt(src, j)
      case Open => CloseOf(src, j + 1, depth + 1)
      case Endif => if depth == 1 then Some(j) else CloseOf(src, j + 1, depth - 1)
      case _ => CloseOf(src, j + 1, depth)
  }

  ghost predicate HasInclude(src: Source, i: nat, k: nat)
    requires src.Valid() && i <= k <= |src.lines|
  {
    exists j :: i <= j < k && IncludeAt(src, j)
  }

  ghost predicate HasCode(src: Source, i: nat, k: nat)
    requires src.Valid() && i <= k <= |src.lines|
  {
    exists j :: i <= j < k && CodeAt(src, j)
  }

  /** _scan_conditional() */
  method ScanConditional(src: Source, i: nat) returns (close: Option<nat>, hasInclude: bool, hasCode: bool)
    requires src.Valid() && i <= |src.lines|
    ensures close == CloseOf(src, i, 0)
    ensures var k := if close.Some? then close.value else |src.lines|;
            (hasInclude <==> HasInclude(src, i, k)) && (hasCode <==> HasCode(src, i, k))
  {
    hide CondKind, IncludeMatch, Strip, Harmless;
    var depth: int := 0;
    hasInclude, hasCode := false, false;
    for j := i to |src.lines|
      invariant CloseOf(src, i, 0) == CloseOf(src, j, depth)
      invariant (hasInclude <==> HasInclude(src, i, j)) && (hasCode <==> HasCode(src, i, j))
    {
      OneKind(src, j);
      HasMore(src, i, j);
      if src.masked[j] { continue; }
      var s := Strip(src.lines[j]);
      var kind := CondKind(s);
      if kind == Open {
        depth := depth + 1;
      } else if kind == Endif {
        depth := depth - 1;
        if depth == 0 { return Some(j), hasInclude, hasCode; }
      } else if IsInclude(s) {
        hasInclude := true;
      } else if !Harmless(s) {
        hasCode := true;
      }
    }
    close := None;
  }

  lemma HasMore(src: Source, i: nat, j: nat)
    requires src.Valid() && i <= j < |src.lines|
    ensures HasInclude(src, i, j + 1) <==> HasInclude(src, i, j) || IncludeAt(src, j)
    ensures HasCode(src, i, j + 1) <==> HasCode(src, i, j) || CodeAt(src, j)
  {
    hide IncludeAt, CodeAt;
  }

  // ---- The region -------------------------------------------------------------------------

  /** A conditional that only selects includes. */
  ghost predicate BlockAt(src: Source, i: nat)
    requires src.Valid() && i < |src.lines|
  {
    && CondAt(src, i) == Open
    && CloseOf(src, i, 0).Some?
    && HasInclude(src, i, CloseOf(src, i, 0).value)
    && !HasCode(src, i, CloseOf(src, i, 0).value)
  }

  /** Where the region that reaches `end` before line `i` finally ends. */
  ghost function RangeEnd(src: Source, i: nat, end: nat): nat
    requires src.Valid() && i <= |src.lines|
    decreases |src.lines| - i
  {
    if i == |src.lines| then end
    else if IncludeAt(src, i) then RangeEnd(src, i + 1, i + 1)
    else if BlankAt(src, i) then RangeEnd(src, i + 1, end)
    else if BlockAt(src, i) then
      var close := CloseOf(src, i, 0).value;
      RangeEnd(src, close + 1, close + 1)
    else end
  }

  /** _find_include_range() */
  method FindIncludeRange(src: Source) returns (range: Option<(nat, nat)>)
    requires src.Valid()
    ensures range.None? <==> forall j :: 0 <= j < |src.lines| ==> !IncludeAt(src, j)
    ensures range.Some? ==>
              var (start, end) := range.value;
              && start < |src.lines| && IncludeAt(src, start)
              && (forall j :: 0 <= j < start ==> !IncludeAt(src, j))
              && end == RangeEnd(src, start, start)
  {
    hide CondKind, IncludeMatch, Strip, CloseOf, HasInclude, HasCode;
    var start: nat := 0;
    while start < |src.lines| && !(!src.masked[start] && IsInclude(Strip(src.lines[start])))
      invariant start <= |src.lines| && forall j :: 0 <= j < start ==> !IncludeAt(src, j)
    {
      start := start + 1;
    }
    if start == |src.lines| { return None; }
    var i: nat, end: nat := start, start;
    while i < |src.lines|
      invariant i <= |src.lines| && RangeEnd(src, start, start) == RangeEnd(src, i, end)
      decreases |src.lines| - i
    {
      OneKind(src, i);
      if src.masked[i] { break; }
      var s := Strip(src.lines[i]);
      if IsInclude(s) {
        i := i + 1;
        end := i;
      } else if s == "" {
        i := i + 1;
      } else if CondKind(s) == Open {
        var close, hasInclude, hasCode := ScanConditional(src, i);
        if close.None? || !hasInclude || hasCode { break; }
        i := close.value + 1;
        end := i;
      } else {
        break;
      }
    }
    range := Some((start, end));
  }

  /** The region is made of includes, blank lines and such conditionals. */
  ghost predicate Tiles(src: Source, i: nat, end: nat)
    requires src.Valid() && i <= end <= |src.lines|
    decreases end - i
  {
    i == end ||
    if IncludeAt(src, i) || BlankAt(src, i) then Tiles(src, i + 1, end)
    else BlockAt(src, i) && CloseOf(src, i, 0).value < end && Tiles(src, CloseOf(src, i, 0).value + 1, end)
  }

  lemma {:induction false} BlanksTile(src: Source, i: nat, k: nat, end: nat)
    requires src.Valid() && i <= k <= end <= |src.lines| && Tiles(src, k, end)
    requires forall j :: i <= j < k ==> BlankAt(src, j)
    ensures Tiles(src, i, end)
    decreases k - i
  {
    hide BlankAt, IncludeAt, BlockAt, CloseOf;
    if i < k {
      BlanksTile(src, i + 1, k, end);
      assert BlankAt(src, i);
    }
  }

  lemma {:induction false} RangeTiles(src: Source, i: nat, end: nat)
    requires src.Valid() && end <= i <= |src.lines|
    requires forall j :: end <= j < i ==> BlankAt(src, j)
    ensures end <= RangeEnd(src, i, end) <= |src.lines|
    ensures Tiles(src, end, RangeEnd(src, i, end))
    decreases |src.lines| - i
  {
    hide BlankAt, IncludeAt, CondAt, HasInclude, HasCode, CloseOf;
    if i < |src.lines| {
      if IncludeAt(src, i) {
        RangeTiles(src, i + 1, i + 1);
        BlanksTile(src, end, i, RangeEnd(src, i, end));
      } else if BlankAt(src, i) {
        RangeTiles(src, i + 1, end);
      } else if BlockAt(src, i) {
        var close := CloseOf(src, i, 0).value;
        RangeTiles(src, close + 1, close + 1);
        BlanksTile(src, end, i, RangeEnd(src, i, end));
      }
    }
  }

  /** The region reaches as far as it can: past it and the blank lines after it
      there is no further include or conditional of includes. */
  lemma {:induction false} RangeIsMaximal(src: Source, i: nat, end: nat) returns (b: nat)
    requires src.Valid() && end <= i <= |src.lines|
    requires forall j :: end <= j < i ==> BlankAt(src, j)
    ensures RangeEnd(src, i, end) <= b <= |src.lines|
    ensures forall j :: RangeEnd(src, i, end) <= j < b ==> BlankAt(src, j)
    ensures b < |src.lines| ==> !IncludeAt(src, b) && !BlankAt(src, b) && !BlockAt(src, b)
    decreases |src.lines| - i
  {
    hide BlankAt, IncludeAt, CondAt, HasInclude, HasCode, CloseOf;
    b := i;
    if i < |src.lines| {
      if IncludeAt(src, i) {
        b := RangeIsMaximal(src, i + 1, i + 1);
      } else if BlankAt(src, i) {
        b := RangeIsMaximal(src, i + 1, end);
      } else if BlockAt(src, i) {
        var close := CloseOf(src, i, 0).value;
        b := RangeIsMaximal(src, close + 1, close + 1);
      }
    }
  }
}
