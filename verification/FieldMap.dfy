/** _make_field_map(): the C member names of one generated struct.

    Members are every field name together with the companion member an array
    (`_count`) or a dynamic field (`_json`) also occupies. */
module FieldMap {
  import opened Basics
  import opened Naming
  import opened Sorting

  // ---- Steps 1 and 2: sanitising a JSON key ---------------------------------------

  /** No '_' next to another, and only identifier characters. */
  predicate Clean(s: string) {
    && (forall i :: 0 <= i < |s| ==> IsAlnum(s[i]) || s[i] == '_')
    && (forall i :: 0 < i < |s| ==> s[i - 1] != '_' || s[i] != '_')
  }

  /** A C identifier that also keeps the house rules: it starts with a letter
      and never doubles an underscore. */
  predicate IsIdent(s: string) {
    s != "" && IsLetter(s[0]) && Clean(s)
  }

  /** Every maximal run of other characters becomes one '_'. */
  function Collapse(s: string): (r: string)
    ensures Clean(r) && |r| <= |s|
    ensures r == "" <==> s == ""
    ensures s != "" ==> (r[|r| - 1] == '_' <==> !IsAlnum(s[|s| - 1]))
  {
    if s == "" then ""
    else
      var init, c := s[..|s| - 1], s[|s| - 1];
      if IsAlnum(c) then Collapse(init) + [c]
      else if init != "" && !IsAlnum(init[|init| - 1]) then Collapse(init)
      else Collapse(init) + "_"
  }

  function ToCIdent(s: string): (r: string)
    ensures IsIdent(r)
  {
    var ident := Collapse(s);
    if ident == "" || !IsLetter(ident[0]) then "x" + ident else ident
  }

  /** The keyword and macro tables; none of them ends in an underscore once it
      starts with a letter. */
  predicate ReservedOk(reserved: set<string>) {
    forall w :: w in reserved && IsIdent(w) ==> w[|w| - 1] != '_'
  }

  function RawName(key: string, reserved: set<string>): (r: string)
    requires ReservedOk(reserved)
    ensures IsIdent(r)
  {
    var ident := ToCIdent(key);
    if ident in reserved then ident + "_" else ident
  }

  /** The letters and digits of a key. */
  function Alnums(s: string): string {
    if s == "" then ""
    else Alnums(s[..|s| - 1]) + if IsAlnum(s[|s| - 1]) then [s[|s| - 1]] else ""
  }

  lemma AlnumsSnoc(s: string, c: char)
    ensures Alnums(s + [c]) == Alnums(s) + if IsAlnum(c) then [c] else ""
  {
    hide IsAlnum;
    assert (s + [c])[..|s|] == s;
  }

  lemma {:induction false} AlnumsConcat(s: string, t: string)
    ensures Alnums(s + t) == Alnums(s) + Alnums(t)
  {
    hide IsAlnum;
    if t == "" {
      assert s + t == s;
    } else {
      var n := |t| - 1;
      AlnumsConcat(s, t[..n]);
      assert (s + t)[..|s + t| - 1] == s + t[..n];
    }
  }

  lemma {:induction false} CollapseKeeps(s: string)
    ensures Alnums(Collapse(s)) == Alnums(s)
  {
    hide Clean;
    if s != "" {
      var n := |s| - 1;
      CollapseKeeps(s[..n]);
      AlnumsSnoc(Collapse(s[..n]), s[n]);
      AlnumsSnoc(Collapse(s[..n]), '_');
    }
  }

  lemma {:induction false} CleanStays(s: string)
    requires Clean(s)
    ensures Collapse(s) == s
  {
    if s != "" {
      CleanStays(s[..|s| - 1]);
      Snoc(s);
    }
  }

  /** A key keeps its letters and digits, behind an 'x' where it does not start with a
      letter, and a key that is an identifier is its own name. */
  lemma IdentKeeps(s: string)
    ensures var r := ToCIdent(s); Alnums(r) == Alnums(s) || Alnums(r) == "x" + Alnums(s)
    ensures s != "" && IsLetter(s[0]) ==> Alnums(ToCIdent(s)) == Alnums(s)
    ensures IsIdent(s) ==> ToCIdent(s) == s
  {
    hide Collapse, Alnums;
    CollapseKeeps(s);
    if Clean(s) { CleanStays(s); }
    AlnumsConcat("x", Collapse(s));
    assert Alnums("x") == "x" by { OneLetter(); }
    if s != "" && IsLetter(s[0]) { CollapseStarts(s); }
  }

  lemma OneLetter()
    ensures Alnums("x") == "x"
  {
    assert "x"[..0] == "";
  }

  lemma {:induction false} CollapseStarts(s: string)
    requires s != "" && IsAlnum(s[0])
    ensures Collapse(s) != "" && Collapse(s)[0] == s[0]
  {
    if |s| > 1 {
      CollapseStarts(s[..|s| - 1]);
    } else {
      assert s[..0] == "";
    }
  }

  /** No name is a reserved word. */
  lemma RawIsFree(key: string, reserved: set<string>)
    requires ReservedOk(reserved)
    ensures RawName(key, reserved) !in reserved
    ensures ToCIdent(key) !in reserved ==> RawName(key, reserved) == ToCIdent(key)
  {
    hide ToCIdent;
  }

  /** Joining never doubles an underscore either. */
  lemma JoinIsIdent(a: string, b: string)
    requires IsIdent(a) && b != "" && Clean(b) && b[0] != '_'
    ensures IsIdent(Join(a, b))
  {
    var stem := Stem(a);
    assert Join(a, b) == stem + b;
    forall i | 0 < i < |Join(a, b)|
      ensures Join(a, b)[i - 1] != '_' || Join(a, b)[i] != '_'
    {
      if i < |a| {
        assert Join(a, b)[i - 1] == a[i - 1] && Join(a, b)[i] == a[i];
      } else if i > |stem| {
        assert Join(a, b)[i - 1] == b[i - 1 - |stem|] && Join(a, b)[i] == b[i - |stem|];
      }
    }
  }

  lemma CandidateIsIdent(base: string, n: nat)
    requires IsIdent(base)
    ensures IsIdent(Candidate(base, n))
  {
    hide IsIdent, Decimal;
    if n >= 2 { JoinIsIdent(base, Decimal(n)); }
  }

  // ---- Steps 3 and 4: the assignment ------------------------------------------------

  datatype Kind = Array | Dynamic | Plain

  /** _derived_member(): the suffix of the companion member, "" for none. */
  function Companion(kind: Kind): string {
    match kind
    case Array => "count"
    case Dynamic => "json"
    case Plain => ""
  }

  /** One key as the assignment sees it. */
  datatype Entry = Entry(base: string, kind: Kind)

  function Suffixes(e: Entry): seq<string> {
    if e.kind == Plain then [""] else ["", Companion(e.kind)]
  }

  /** The struct members a field named `name` occupies. */
  function Members(e: Entry, name: string): set<string> {
    set s | s in Suffixes(e) :: Name(name, s)
  }

  function Used(entries: seq<Entry>, names: seq<string>): set<string>
    requires |names| <= |entries|
  {
    if names == [] then {}
    else
      var k := |names| - 1;
      Used(entries, names[..k]) + Members(entries[k], names[k])
  }

  function Same<T>(x: T, n: nat): (s: seq<T>)
    ensures |s| == n && forall i :: 0 <= i < n ==> s[i] == x
  {
    seq(n, _ => x)
  }

  /** `name` is the first of base, base_2, ... that leaves `used` alone. */
  ghost predicate FirstChoice(e: Entry, name: string, used: set<string>) {
    && Members(e, name) !! used
    && exists n :: n >= 1 && name == Candidate(e.base, n) &&
                   forall m :: 1 <= m < n ==> Members(e, Candidate(e.base, m)) * used != {}
  }

  ghost predicate Chosen(entries: seq<Entry>, names: seq<string>) {
    && |names| <= |entries|
    && forall i :: 0 <= i < |names| ==> FirstChoice(entries[i], names[i], Used(entries, names[..i]))
  }

  lemma FreeIsDisjoint(e: Entry, name: string, used: set<string>)
    ensures Free(name, Suffixes(e), Same(used, |Suffixes(e)|)) <==> Members(e, name) !! used
  {
    hide Name;
    var ss := Suffixes(e);
    if Free(name, ss, Same(used, |ss|)) {
      forall x | x in Members(e, name) ensures x !in used {
        var s :| s in ss && x == Name(name, s);
        var i :| 0 <= i < |ss| && ss[i] == s;
      }
    } else {
      var i :| 0 <= i < |ss| && Name(name, ss[i]) in used;
      assert ss[i] in ss;
      assert Name(name, ss[i]) in Members(e, name);
    }
  }

  method Choose(e: Entry, used: set<string>) returns (name: string)
    ensures FirstChoice(e, name, used)
  {
    hide Free, Candidate;
    var ss := Suffixes(e);
    name := FirstFree(e.base, ss, Same(used, |ss|));
    ghost var n :| 1 <= n && name == Candidate(e.base, n) &&
                   forall m :: 1 <= m < n ==> !Free(Candidate(e.base, m), ss, Same(used, |ss|));
    FreeIsDisjoint(e, name, used);
    forall m | 1 <= m < n ensures Members(e, Candidate(e.base, m)) * used != {} {
      FreeIsDisjoint(e, Candidate(e.base, m), used);
      var ms := Members(e, Candidate(e.base, m));
      var x :| x in ms && x in used;
      assert x in ms * used;
    }
  }

  /** The loop over the sorted keys. */
  method AssignNames(entries: seq<Entry>) returns (names: seq<string>)
    ensures |names| == |entries| && Chosen(entries, names)
  {
    hide FirstChoice;
    names := [];
    var used := {};
    for i := 0 to |entries|
      invariant |names| == i && used == Used(entries, names)
      invariant Chosen(entries, names)
    {
      var cand := Choose(entries[i], used);
      used := used + Members(entries[i], cand);
      ghost var was := names;
      names := names + [cand];
      assert names[..i] == was;
      assert forall k :: 0 <= k < i ==> names[..k] == was[..k];
    }
  }

  lemma {:induction false} UsedHolds(entries: seq<Entry>, names: seq<string>, i: nat)
    requires i < |names| <= |entries|
    ensures Members(entries[i], names[i]) <= Used(entries, names)
    decreases |names|
  {
    hide Members;
    var k := |names| - 1;
    if i < k { UsedHolds(entries, names[..k], i); }
  }

  /** No two fields share a member: not by name, not by companion, not by one of
      each. */
  lemma MembersDistinct(entries: seq<Entry>, names: seq<string>, i: nat, j: nat)
    requires Chosen(entries, names) && i < j < |names|
    ensures Members(entries[i], names[i]) !! Members(entries[j], names[j])
  {
    hide Members, Used;
    UsedHolds(entries, names[..j], i);
    assert FirstChoice(entries[j], names[j], Used(entries, names[..j]));
  }

  /** Nor does a field share one with its own companion. */
  lemma MemberCount(e: Entry, name: string)
    ensures |Members(e, name)| == |Suffixes(e)|
  {
    hide Name;
    if e.kind == Plain {
      assert Members(e, name) == {Name(name, "")};
    } else {
      var c := Companion(e.kind);
      SuffixInjective(name, "", c);
      assert Members(e, name) == {Name(name, ""), Name(name, c)} by {
        assert Suffixes(e) == ["", c];
        assert "" in Suffixes(e) && c in Suffixes(e);
      }
    }
  }

  /** Every member name is an identifier that keeps the house rules. */
  lemma MembersAreIdents(entries: seq<Entry>, names: seq<string>, i: nat)
    requires Chosen(entries, names) && i < |names| && IsIdent(entries[i].base)
    ensures IsIdent(names[i])
    ensures forall x :: x in Members(entries[i], names[i]) ==> IsIdent(x)
  {
    hide IsIdent, Used;
    var e := entries[i];
    assert FirstChoice(e, names[i], Used(entries, names[..i]));
    var n :| n >= 1 && names[i] == Candidate(e.base, n);
    CandidateIsIdent(e.base, n);
    forall s | s in Suffixes(e) ensures IsIdent(Name(names[i], s)) {
      if s != "" { JoinIsIdent(names[i], s); }
    }
  }

  // ---- When the first key of every group keeps its plain name ---------------------------------

  /** A key keeps its plain name exactly when the members before it leave that
      name, and its companion, free. */
  lemma PlainWhenFree(es: seq<Entry>, names: seq<string>, i: nat)
    requires Chosen(es, names) && i < |names|
    ensures names[i] == es[i].base <==> Members(es[i], es[i].base) !! Used(es, names[..i])
  {
    hide Members, Used;
    var e, used := es[i], Used(es, names[..i]);
    assert FirstChoice(e, names[i], used);
    var n :| n >= 1 && names[i] == Candidate(e.base, n) &&
             forall m :: 1 <= m < n ==> Members(e, Candidate(e.base, m)) * used != {};
    assert Candidate(e.base, 1) == e.base;
  }

  /** The first key of its group of equal identifiers. */
  predicate First(es: seq<Entry>, i: nat)
    requires i < |es|
  {
    forall k :: 0 <= k < i ==> es[k].base != es[i].base
  }

  /** How many of the first `i` keys need a number under a stem. */
  function Extras(es: seq<Entry>, i: nat, stem: string): nat
    requires i <= |es|
  {
    if i == 0 then 0
    else Extras(es, i - 1, stem) + if !First(es, i - 1) && Stem(es[i - 1].base) == stem then 1 else 0
  }

  /** The name a key has if the first of every group keeps its own: the others are
      numbered through, keys of one stem together. */
  function Planned(es: seq<Entry>, i: nat): string
    requires i < |es|
  {
    if First(es, i) then es[i].base
    else Candidate(es[i].base, 2 + Extras(es, i, Stem(es[i].base)))
  }

  /** The generator's order: by identifier. */
  ghost predicate InOrder(es: seq<Entry>) {
    && (forall i :: 0 <= i < |es| ==> es[i].base != "")
    && (forall i, j :: 0 <= i < j < |es| ==> LexLe(es[i].base, es[j].base))
  }

  /** No identifier or its companion is spelled like a member planned before it.
      This can be told from the identifiers and kinds alone. */
  ghost predicate NoneSpelled(es: seq<Entry>) {
    forall i, j :: 0 <= i < j < |es| && First(es, j) ==>
      Members(es[i], Planned(es, i)) !! Members(es[j], es[j].base)
  }

  /** What the documentation promises. */
  ghost predicate FirstsKept(es: seq<Entry>, names: seq<string>)
    requires |names| <= |es|
  {
    forall i :: 0 <= i < |names| && First(es, i) ==> names[i] == es[i].base
  }

  ghost predicate AsPlanned(es: seq<Entry>, names: seq<string>, n: nat)
    requires n <= |names| <= |es|
  {
    forall k :: 0 <= k < n ==> names[k] == Planned(es, k)
  }

  lemma {:induction false} ExtrasGrow(es: seq<Entry>, i: nat, j: nat, stem: string)
    requires i <= j <= |es|
    ensures Extras(es, i, stem) <= Extras(es, j, stem)
    decreases j
  {
    if i < j { ExtrasGrow(es, i, j - 1, stem); }
  }

  /** Every number below the next has been given to some key. */
  lemma {:induction false} ExtrasHit(es: seq<Entry>, i: nat, stem: string, r: nat) returns (k: nat)
    requires i <= |es| && r < Extras(es, i, stem)
    ensures k < i && !First(es, k) && Stem(es[k].base) == stem && Extras(es, k, stem) == r
    decreases i
  {
    hide First, Stem;
    if r < Extras(es, i - 1, stem) {
      k := ExtrasHit(es, i - 1, stem, r);
    } else {
      k := i - 1;
    }
  }

  lemma {:induction false} FirstOf(es: seq<Entry>, i: nat) returns (k: nat)
    requires i < |es|
    ensures k <= i && First(es, k) && es[k].base == es[i].base
    decreases i
  {
    if First(es, i) {
      k := i;
    } else {
      var j :| 0 <= j < i && es[j].base == es[i].base;
      k := FirstOf(es, j);
    }
  }

  // ---- Spellings --------------------------------------------------------------------------

  /** Numbered names end in a digit, companions in a letter. */
  lemma NumberedEnds(base: string, n: nat)
    requires n >= 2
    ensures Candidate(base, n) != "" && IsDigit(Candidate(base, n)[|Candidate(base, n)| - 1])
  {
    hide Decimal;
    CandidateShape(base, n);
    var d := Decimal(n);
    assert IsDigit(d[|d| - 1]);
    assert Candidate(base, n)[|Candidate(base, n)| - 1] == d[|d| - 1];
  }

  lemma CompanionEnds(name: string, kind: Kind)
    requires kind != Plain
    ensures var c := Name(name, Companion(kind));
            c != "" && c[|c| - 1] == (if kind == Array then 't' else 'n')
  {
  }

  /** The stem of a numbered name can be read off it. */
  lemma NumberedSame(a: string, m: nat, b: string, n: nat)
    requires a != "" && b != "" && m >= 2 && n >= 2 && Candidate(a, m) == Candidate(b, n)
    ensures Stem(a) == Stem(b) && m == n
  {
    hide Decimal;
    CandidateShape(a, m);
    CandidateShape(b, n);
    var x := Candidate(a, m);
    var i, j := |Stem(a)| - 1, |Stem(b)| - 1;
    assert x[i] == '_' && x[j] == '_';
    assert forall k :: i < k < |x| ==> x[k] == Decimal(m)[k - i - 1];
    assert forall k :: j < k < |x| ==> x[k] == Decimal(n)[k - j - 1];
    assert i == j;
    assert Stem(a) == x[..i + 1] && Stem(b) == x[..i + 1];
    assert Decimal(m) == x[i + 1..] && Decimal(n) == x[i + 1..];
    DecimalInjective(m, n);
  }

  lemma SameStem(a: string, b: string, n: nat)
    requires Stem(a) == Stem(b) && n >= 2
    ensures Candidate(a, n) == Candidate(b, n)
  {
    CandidateShape(a, n);
    CandidateShape(b, n);
  }

  /** A numbered name stands behind its base, and whatever it starts. */
  lemma NumberedAfter(base: string, n: nat, more: string)
    requires base != "" && n >= 2
    ensures !LexLe(Candidate(base, n) + more, base)
  {
    hide Decimal, LexLe;
    CandidateShape(base, n);
    var x := Candidate(base, n) + more;
    assert base <= x && |base| < |x|;
    PrefixFirst(base, x);
  }

  /** Two names with one companion differ at most by a closing underscore. */
  lemma SameCompanion(a: string, b: string, kind: Kind)
    requires kind != Plain && a != "" && b != "" && b[|b| - 1] != '_'
    requires Name(a, Companion(kind)) == Name(b, Companion(kind))
    ensures a == b || a == b + "_"
  {
    var c := Companion(kind);
    var x := Name(a, c);
    assert x == Stem(a) + c && x == Stem(b) + c;
    assert Stem(a) == x[..|x| - |c|] && Stem(b) == x[..|x| - |c|];
    assert Stem(b) == b + "_";
  }

  // ---- A numbered key gets the planned number ----------------------------------------------

  /** The next number is free: none of the members of an earlier key is spelled
      like it or like its companion. */
  lemma NextIsFree(es: seq<Entry>, i: nat, k: nat)
    requires InOrder(es) && k < i < |es|
    ensures var c := Candidate(es[i].base, 2 + Extras(es, i, Stem(es[i].base)));
            Members(es[i], c) !! Members(es[k], Planned(es, k))
  {
    hide Members, Extras, First, LexLe, Stem;
    var n := 2 + Extras(es, i, Stem(es[i].base));
    var c, m := Candidate(es[i].base, n), Planned(es, k);
    NumberedEnds(es[i].base, n);
    NumberedIsNew(es, i, k);
    MembersAre(es[i], c);
    MembersAre(es[k], m);
    if es[k].kind != Plain { CompanionEnds(m, es[k].kind); }
    if es[i].kind != Plain {
      CompanionEnds(c, es[i].kind);
      CompanionIsNew(es, i, k);
    }
  }

  lemma MembersAre(e: Entry, name: string)
    ensures e.kind == Plain ==> Members(e, name) == {name}
    ensures e.kind != Plain ==> Members(e, name) == {name, Name(name, Companion(e.kind))}
  {
    hide Join;
    assert Name(name, "") == name;
    if e.kind == Plain {
      assert Suffixes(e) == [""] && "" in Suffixes(e);
    } else {
      assert Suffixes(e) == ["", Companion(e.kind)];
      assert "" in Suffixes(e) && Companion(e.kind) in Suffixes(e);
    }
  }

  lemma NumberedIsNew(es: seq<Entry>, i: nat, k: nat)
    requires InOrder(es) && k < i < |es|
    ensures var c := Candidate(es[i].base, 2 + Extras(es, i, Stem(es[i].base)));
            Planned(es, k) != c && Planned(es, k) != c + "_"
  {
    hide Extras, LexLe, Stem;
    var b, stem := es[i].base, Stem(es[i].base);
    var n := 2 + Extras(es, i, stem);
    var c := Candidate(b, n);
    if First(es, k) {
      NumberedAfter(b, n, "");
      NumberedAfter(b, n, "_");
      assert c + "" == c;
      assert LexLe(es[k].base, b);
    } else {
      var s := Stem(es[k].base);
      var m := 2 + Extras(es, k, s);
      NumberedEnds(es[k].base, m);
      assert (c + "_")[|c + "_"| - 1] == '_';
      if Candidate(es[k].base, m) == c {
        NumberedSame(es[k].base, m, b, n);
        ExtrasStep(es, k, stem);
        ExtrasGrow(es, k + 1, i, stem);
        assert false;
      }
    }
  }

  lemma ExtrasStep(es: seq<Entry>, k: nat, stem: string)
    requires k < |es| && !First(es, k) && Stem(es[k].base) == stem
    ensures Extras(es, k + 1, stem) == Extras(es, k, stem) + 1
  {
  }

  lemma CompanionIsNew(es: seq<Entry>, i: nat, k: nat)
    requires InOrder(es) && k < i < |es| && es[i].kind != Plain
    ensures var c := Candidate(es[i].base, 2 + Extras(es, i, Stem(es[i].base)));
            var x := Name(c, Companion(es[i].kind));
            && Planned(es, k) != x
            && (es[k].kind == es[i].kind ==> Name(Planned(es, k), Companion(es[k].kind)) != x)
  {
    hide Extras, LexLe, Stem, Candidate;
    var b, stem := es[i].base, Stem(es[i].base);
    var n := 2 + Extras(es, i, stem);
    var c, m := Candidate(b, n), Planned(es, k);
    var x := Name(c, Companion(es[i].kind));
    NumberedEnds(b, n);
    CompanionEnds(c, es[i].kind);
    NumberedIsNew(es, i, k);
    assert x == c + ("_" + Companion(es[i].kind));
    if First(es, k) {
      NumberedAfter(b, n, "_" + Companion(es[i].kind));
      assert LexLe(es[k].base, b);
    } else {
      NumberedEnds(es[k].base, 2 + Extras(es, k, Stem(es[k].base)));
    }
    if es[k].kind == es[i].kind && Name(m, Companion(es[k].kind)) == x {
      SameCompanion(m, c, es[i].kind);
      assert false;
    }
  }

  /** What earlier keys occupy, member by member. */
  lemma {:induction false} UsedOnly(es: seq<Entry>, names: seq<string>, x: string) returns (k: nat)
    requires |names| <= |es| && x in Used(es, names)
    ensures k < |names| && x in Members(es[k], names[k])
    decreases |names|
  {
    hide Members;
    var n := |names| - 1;
    if x in Members(es[n], names[n]) {
      k := n;
    } else {
      k := UsedOnly(es, names[..n], x);
    }
  }

  lemma NextFreeInUsed(es: seq<Entry>, names: seq<string>, i: nat)
    requires InOrder(es) && |names| == i < |es| && AsPlanned(es, names, i)
    ensures Members(es[i], Candidate(es[i].base, 2 + Extras(es, i, Stem(es[i].base)))) !! Used(es, names)
  {
    hide Members, Planned, Extras, Used, InOrder;
    var c := Candidate(es[i].base, 2 + Extras(es, i, Stem(es[i].base)));
    forall x | x in Members(es[i], c) ensures x !in Used(es, names) {
      if x in Used(es, names) {
        var k := UsedOnly(es, names, x);
        NextIsFree(es, i, k);
      }
    }
  }

  lemma TakenBefore(es: seq<Entry>, names: seq<string>, i: nat, m: nat)
    requires |names| == i < |es| && AsPlanned(es, names, i) && !First(es, i)
    requires 1 <= m < 2 + Extras(es, i, Stem(es[i].base))
    ensures Members(es[i], Candidate(es[i].base, m)) * Used(es, names) != {}
  {
    hide Members, Used, Extras;
    var c := Candidate(es[i].base, m);
    var k: nat;
    if m == 1 {
      k := FirstOf(es, i);
    } else {
      k := ExtrasHit(es, i, Stem(es[i].base), m - 2);
      SameStem(es[k].base, es[i].base, m);
    }
    assert names[k] == c;
    MembersAre(es[i], c);
    MembersAre(es[k], c);
    UsedHolds(es, names, k);
    assert c in Members(es[i], c) * Used(es, names);
  }

  /** A key that is not the first of its group gets the planned number. */
  lemma NumberedAsPlanned(es: seq<Entry>, names: seq<string>, i: nat)
    requires InOrder(es) && Chosen(es, names) && i < |names| && AsPlanned(es, names, i) && !First(es, i)
    ensures names[i] == Planned(es, i)
  {
    hide Members, Used, Extras, InOrder, First;
    var e, before := es[i], names[..i];
    var used := Used(es, before);
    var goal := 2 + Extras(es, i, Stem(e.base));
    assert FirstChoice(e, names[i], used);
    var n :| n >= 1 && names[i] == Candidate(e.base, n) &&
             forall m :: 1 <= m < n ==> Members(e, Candidate(e.base, m)) * used != {};
    assert AsPlanned(es, before, i);
    NextFreeInUsed(es, before, i);
    assert Members(e, Candidate(e.base, goal)) * used == {};
    if n < goal { TakenBefore(es, before, i, n); }
  }

  lemma FirstAsPlanned(es: seq<Entry>, names: seq<string>, i: nat)
    requires NoneSpelled(es) && Chosen(es, names) && i < |names| && AsPlanned(es, names, i) && First(es, i)
    ensures names[i] == es[i].base
  {
    hide Members, Used, Planned, First;
    var used := Used(es, names[..i]);
    assert forall k :: 0 <= k < i ==> Members(es[k], Planned(es, k)) !! Members(es[i], es[i].base);
    forall x | x in Members(es[i], es[i].base) ensures x !in used {
      if x in used { var k := UsedOnly(es, names[..i], x); }
    }
    PlainWhenFree(es, names, i);
  }

  lemma {:induction false} AllAsPlanned(es: seq<Entry>, names: seq<string>, n: nat)
    requires n <= |names| <= |es| && InOrder(es) && Chosen(es, names)
    requires NoneSpelled(es) || FirstsKept(es, names)
    ensures AsPlanned(es, names, n)
    decreases n
  {
    hide InOrder, NoneSpelled, Chosen, First, Extras, Candidate;
    if n > 0 {
      AllAsPlanned(es, names, n - 1);
      if !First(es, n - 1) {
        NumberedAsPlanned(es, names, n - 1);
      } else if NoneSpelled(es) {
        FirstAsPlanned(es, names, n - 1);
      }
    }
  }

  /** The first key of every group keeps its plain name if and only if no
      identifier, or its companion, is spelled like a member planned before it;
      and then every name is the planned one. */
  lemma FirstsKeptIff(es: seq<Entry>, names: seq<string>)
    requires InOrder(es) && Chosen(es, names) && |names| == |es|
    ensures FirstsKept(es, names) <==> NoneSpelled(es)
    ensures NoneSpelled(es) ==> forall i :: 0 <= i < |es| ==> names[i] == Planned(es, i)
  {
    hide InOrder, Chosen, First, Extras, Members;
    if NoneSpelled(es) || FirstsKept(es, names) { AllAsPlanned(es, names, |es|); }
    if FirstsKept(es, names) {
      forall i, j | 0 <= i < j < |es| && First(es, j)
        ensures Members(es[i], Planned(es, i)) !! Members(es[j], es[j].base)
      {
        MembersDistinct(es, names, i, j);
        assert names[i] == Planned(es, i) && names[j] == es[j].base;
      }
    }
  }

  // ---- From keys to fields ------------------------------------------------------------------

  /** The sort key of the generator: the identifier, then the JSON key. */
  predicate KeyLe(a: (string, string), b: (string, string)) {
    (a.0 != b.0 && LexLe(a.0, b.0)) || (a.0 == b.0 && LexLe(a.1, b.1))
  }

  lemma KeyLeOrders()
    ensures TotalOrder(KeyLe)
  {
    hide LexLe;
    forall a, b ensures KeyLe(a, b) || KeyLe(b, a) {
      LexTotal(a.0, b.0);
      LexTotal(a.1, b.1);
    }
    forall a, b, c | KeyLe(a, b) && KeyLe(b, c) ensures KeyLe(a, c) {
      if a.0 == b.0 == c.0 {
        LexTransitive(a.1, b.1, c.1);
      } else if a.0 != b.0 && b.0 != c.0 {
        LexTransitive(a.0, b.0, c.0);
        if a.0 == c.0 { LexAntisymmetric(a.0, b.0); }
      }
    }
  }

  function Pairs(keys: seq<string>, reserved: set<string>): (ps: seq<(string, string)>)
    requires ReservedOk(reserved)
    ensures |ps| == |keys| && forall i :: 0 <= i < |ps| ==> ps[i] == (RawName(keys[i], reserved), keys[i])
  {
    seq(|keys|, i requires 0 <= i < |keys| => (RawName(keys[i], reserved), keys[i]))
  }

  /** The keys in the order they are visited, with their identifiers. */
  function Visited(keys: seq<string>, reserved: set<string>): seq<(string, string)>
    requires ReservedOk(reserved)
  {
    Sort(Pairs(keys, reserved), KeyLe)
  }

  function Entries(ps: seq<(string, string)>, kindOf: string -> Kind): (es: seq<Entry>)
    ensures |es| == |ps| && forall i :: 0 <= i < |es| ==> es[i] == Entry(ps[i].0, kindOf(ps[i].1))
  {
    seq(|ps|, i requires 0 <= i < |ps| => Entry(ps[i].0, kindOf(ps[i].1)))
  }

  /** Every visited pair is a key with its identifier, and they are in order. */
  lemma VisitedSpec(keys: seq<string>, reserved: set<string>, kindOf: string -> Kind)
    requires ReservedOk(reserved)
    ensures var ps := Visited(keys, reserved);
            && multiset(ps) == multiset(Pairs(keys, reserved))
            && (forall i :: 0 <= i < |ps| ==> ps[i].0 == RawName(ps[i].1, reserved) && ps[i].1 in keys)
            && InOrder(Entries(ps, kindOf))
  {
    hide RawName, Sort, TotalOrder, LexLe, IsIdent;
    var ps, raw := Visited(keys, reserved), Pairs(keys, reserved);
    KeyLeOrders();
    SortBag(raw, KeyLe);
    SortSorted(raw, KeyLe);
    forall i | 0 <= i < |ps| ensures ps[i].0 == RawName(ps[i].1, reserved) && ps[i].1 in keys && ps[i].0 != "" {
      assert ps[i] in multiset(ps);
      assert ps[i] in multiset(raw);
      var k :| 0 <= k < |raw| && raw[k] == ps[i];
      IdentNotEmpty(keys[k], reserved);
    }
    forall i, j | 0 <= i < j < |ps| ensures LexLe(ps[i].0, ps[j].0) {
      assert KeyLe(ps[i], ps[j]);
      LexReflexive(ps[i].0);
    }
  }

  lemma IdentNotEmpty(key: string, reserved: set<string>)
    requires ReservedOk(reserved)
    ensures RawName(key, reserved) != ""
  {
    hide RawName;
  }

  /** _make_field_map(): the name of every key. */
  method MakeFieldMap(keys: seq<string>, kindOf: string -> Kind, reserved: set<string>)
    returns (fields: map<string, string>, names: seq<string>)
    requires ReservedOk(reserved)
    requires forall i, j :: 0 <= i < j < |keys| ==> keys[i] != keys[j]
    ensures var ps := Visited(keys, reserved);
            && |names| == |keys| == |ps| && Chosen(Entries(ps, kindOf), names)
            && fields.Keys == (set k | k in keys)
            && forall i :: 0 <= i < |ps| ==> ps[i].1 in fields && fields[ps[i].1] == names[i]
  {
    hide Chosen, RawName, Visited, KeyLe;
    var ps := Visited(keys, reserved);
    VisitedSpec(keys, reserved, kindOf);
    SameSize(ps, Pairs(keys, reserved));
    VisitedOnce(keys, reserved);
    names := AssignNames(Entries(ps, kindOf));
    fields := Collect(ps, names);
    AllVisited(keys, reserved);
  }

  /** The loop that fills the map. */
  method Collect(ps: seq<(string, string)>, names: seq<string>) returns (fields: map<string, string>)
    requires |names| == |ps| && forall i, j :: 0 <= i < j < |ps| ==> ps[i].1 != ps[j].1
    ensures fields.Keys == set k | 0 <= k < |ps| :: ps[k].1
    ensures forall i :: 0 <= i < |ps| ==> ps[i].1 in fields && fields[ps[i].1] == names[i]
  {
    fields := map[];
    for i := 0 to |ps|
      invariant fields.Keys == set k | 0 <= k < i :: ps[k].1
      invariant forall k :: 0 <= k < i ==> ps[k].1 in fields && fields[ps[k].1] == names[k]
    {
      fields := fields[ps[i].1 := names[i]];
    }
  }

  lemma SameSize<T>(a: seq<T>, b: seq<T>)
    requires multiset(a) == multiset(b)
    ensures |a| == |b|
  {
    assert |multiset(a)| == |a| && |multiset(b)| == |b|;
  }

  lemma AllVisited(keys: seq<string>, reserved: set<string>)
    requires ReservedOk(reserved)
    ensures (set i | 0 <= i < |Visited(keys, reserved)| :: Visited(keys, reserved)[i].1) == set k | k in keys
  {
    hide RawName, Sort;
    var ps, raw := Visited(keys, reserved), Pairs(keys, reserved);
    VisitedSpec(keys, reserved, k => Plain);
    forall k | k in keys ensures exists i :: 0 <= i < |ps| && ps[i].1 == k {
      var j :| 0 <= j < |keys| && keys[j] == k;
      assert raw[j] in multiset(raw);
      assert raw[j] in multiset(ps);
      var i :| 0 <= i < |ps| && ps[i] == raw[j];
    }
  }

  /** Distinct keys are visited once each. */
  lemma VisitedOnce(keys: seq<string>, reserved: set<string>)
    requires ReservedOk(reserved)
    requires forall i, j :: 0 <= i < j < |keys| ==> keys[i] != keys[j]
    ensures var ps := Visited(keys, reserved);
            forall i, j :: 0 <= i < j < |ps| ==> ps[i].1 != ps[j].1
  {
    hide RawName, Sort, KeyLe;
    var ps, raw := Visited(keys, reserved), Pairs(keys, reserved);
    VisitedSpec(keys, reserved, k => Plain);
    forall i, j | 0 <= i < j < |ps| ensures ps[i].1 != ps[j].1 {
      if ps[i].1 == ps[j].1 {
        assert ps[i] == ps[j];
        Twice(ps, i, j);
        Once(raw, ps[i]);
      }
    }
  }

  lemma Twice<T>(s: seq<T>, i: nat, j: nat)
    requires i < j < |s| && s[i] == s[j]
    ensures multiset(s)[s[i]] >= 2
  {
    assert s == s[..i] + [s[i]] + s[i + 1..];
    assert s[i + 1..][j - i - 1] == s[j];
    assert s[j] in multiset(s[i + 1..]);
  }

  lemma {:induction false} Once<T>(s: seq<T>, x: T)
    requires forall i, j :: 0 <= i < j < |s| ==> s[i] != s[j]
    ensures multiset(s)[x] <= 1
  {
    if s != [] {
      var n := |s| - 1;
      Once(s[..n], x);
      assert s == s[..n] + [s[n]];
      if s[n] == x { assert x !in s[..n]; }
    }
  }

  // ---- Keys for which it fails --------------------------------------------------------------

  lemma {:induction false} CollapseIs(s: string, c: char)
    ensures IsAlnum(c) ==> Collapse(s + [c]) == Collapse(s) + [c]
    ensures !IsAlnum(c) && s != "" && IsAlnum(s[|s| - 1]) ==> Collapse(s + [c]) == Collapse(s) + "_"
  {
    hide IsAlnum;
    assert (s + [c])[..|s|] == s;
  }

  lemma ThreeNames(reserved: set<string>)
    requires ReservedOk(reserved) && "a_b" !in reserved && "a_b_2" !in reserved
    ensures RawName("a-b", reserved) == "a_b" && RawName("a_b", reserved) == "a_b"
    ensures RawName("a_b_2", reserved) == "a_b_2"
  {
    hide Collapse;
    CollapseNothing();
    CollapseIs("", 'a');
    CollapseIs("a", '-');
    CollapseIs("a-", 'b');
    CollapseIs("a", '_');
    CollapseIs("a_", 'b');
    CollapseIs("a_b", '_');
    CollapseIs("a_b_", '2');
    assert "" + ['a'] == "a" && "a" + ['-'] == "a-" && "a-" + ['b'] == "a-b";
    assert "a" + ['_'] == "a_" && "a_" + ['b'] == "a_b" && "a_b" + ['_'] == "a_b_" && "a_b_" + ['2'] == "a_b_2";
    assert Collapse("a-b") == "a_b" && Collapse("a_b") == "a_b" && Collapse("a_b_2") == "a_b_2";
  }

  lemma CollapseNothing()
    ensures Collapse("") == ""
  {
  }

  const SPELLED := [Entry("a_b", Plain), Entry("a_b", Plain), Entry("a_b_2", Plain)]

  lemma ThreeVisited(reserved: set<string>)
    requires ReservedOk(reserved) && "a_b" !in reserved && "a_b_2" !in reserved
    ensures Entries(Visited(["a-b", "a_b", "a_b_2"], reserved), k => Plain) == SPELLED
  {
    hide RawName, KeyLe, Sort;
    ThreeNames(reserved);
    var x, y, z := ("a_b", "a-b"), ("a_b", "a_b"), ("a_b_2", "a_b_2");
    assert Pairs(["a-b", "a_b", "a_b_2"], reserved) == [x, y, z];
    Orders();
    SortThree(x, y, z, KeyLe);
  }

  lemma Orders()
    ensures var x, y, z := ("a_b", "a-b"), ("a_b", "a_b"), ("a_b_2", "a_b_2");
            KeyLe(x, y) && KeyLe(y, z)
  {
    assert "a-b"[1..] == "-b" && "a_b"[1..] == "_b";
    assert LexLe("-b", "_b");
    LexTotal("a_b", "a_b_2");
    PrefixFirst("a_b", "a_b_2");
  }

  /** The keys `a-b`, `a_b` and `a_b_2` give the identifier `a_b` twice and `a_b_2`
      once.  The second key takes `a_b_2`, so the third, the only one of its group,
      does not keep its plain name. */
  lemma FirstOfGroupMayMove(reserved: set<string>, names: seq<string>)
    requires ReservedOk(reserved) && "a_b" !in reserved && "a_b_2" !in reserved
    requires |names| == 3 && Chosen(Entries(Visited(["a-b", "a_b", "a_b_2"], reserved), k => Plain), names)
    ensures names[0] == "a_b" && names[1] == "a_b_2" && names[2] != "a_b_2"
    ensures First(SPELLED, 2) && !FirstsKept(SPELLED, names)
  {
    hide Visited, Chosen, Members, Used, RawName, LexLe;
    var es := SPELLED;
    ThreeVisited(reserved);
    assert Chosen(es, names);
    assert names[..0] == [] && Used(es, []) == {} by { NothingUsed(es); }
    PlainWhenFree(es, names, 0);
    SpelledInOrder();
    assert AsPlanned(es, names, 1);
    NumberedAsPlanned(es, names, 1);
    assert Candidate("a_b", 2) == "a_b_2" by { assert Decimal(2) == "2"; }
    assert Extras(es, 1, Stem("a_b")) == 0;
    UsedHolds(es, names[..2], 1);
    MembersAre(es[1], "a_b_2");
    MembersAre(es[2], "a_b_2");
    PlainWhenFree(es, names, 2);
  }

  lemma NothingUsed(es: seq<Entry>)
    ensures Used(es, []) == {}
  {
  }

  lemma SpelledInOrder()
    ensures InOrder(SPELLED)
  {
    LexReflexive("a_b");
    assert LexLe("a_b", "a_b_2") by { LexTotal("a_b", "a_b_2"); PrefixFirst("a_b", "a_b_2"); }
  }
}
