/** How generated C identifiers are put together, and the search for the first
    suffixed candidate whose names are all free. */
module Naming {
  import opened Basics

  /** _join_ident() of two segments. */
  function Join(a: string, b: string): string {
    if a == "" then b
    else if b == "" then a
    else if a[|a| - 1] == '_' || b[0] == '_' then a + b
    else a + "_" + b
  }

  /** The name of a helper with the given suffix under a root. */
  function Name(root: string, suffix: string): string {
    if suffix == "" then root else Join(root, suffix)
  }

  /** base, base_2, base_3, ... */
  function Candidate(base: string, n: nat): string {
    if n <= 1 then base else Join(base, Decimal(n))
  }

  /** What every numbered candidate of a base starts with. */
  function Stem(base: string): string {
    if base == "" || base[|base| - 1] == '_' then base else base + "_"
  }

  lemma CandidateShape(base: string, n: nat)
    requires n >= 2
    ensures Candidate(base, n) == Stem(base) + Decimal(n)
    ensures Candidate(base, n) != "" && Candidate(base, n)[|Candidate(base, n)| - 1] != '_'
  {
    hide Decimal;
  }

  /** Two numbered candidates never give a helper the same name. */
  lemma NameInjective(base: string, suffix: string, m: nat, n: nat)
    requires m >= 2 && n >= 2
    requires Name(Candidate(base, m), suffix) == Name(Candidate(base, n), suffix)
    ensures m == n
  {
    hide Decimal;
    CandidateShape(base, m);
    CandidateShape(base, n);
    var x, y := Candidate(base, m), Candidate(base, n);
    if suffix != "" {
      var tail := if suffix[0] == '_' then suffix else "_" + suffix;
      assert Name(x, suffix) == x + tail && Name(y, suffix) == y + tail;
      assert |x| == |y|;
      assert x == (x + tail)[..|x|] && y == (y + tail)[..|y|];
    }
    assert |Decimal(m)| == |Decimal(n)|;
    assert Decimal(m) == x[|Stem(base)|..] && Decimal(n) == y[|Stem(base)|..];
    DecimalInjective(m, n);
  }

  /** Different suffixes give different names under one root. */
  lemma SuffixInjective(root: string, s: string, t: string)
    requires s != t
    requires s == "" || s[0] != '_'
    requires t == "" || t[0] != '_'
    ensures Name(root, s) != Name(root, t)
  {
    var stem := Stem(root);
    if s != "" { assert Name(root, s) == stem + s && Name(root, s)[|stem|..] == s; }
    if t != "" { assert Name(root, t) == stem + t && Name(root, t)[|stem|..] == t; }
  }

  // ---- The search terminates ------------------------------------------------------

  /** The first n of base_2, base_3, ... up to `last` that one suffix blocks. */
  function BlockedBy(base: string, suffix: string, taken: set<string>, last: nat): set<nat> {
    set n | 2 <= n <= last && Name(Candidate(base, n), suffix) in taken
  }

  lemma {:induction false} BlockedBound(base: string, suffix: string, taken: set<string>, last: nat)
    ensures |BlockedBy(base, suffix, taken, last)| <= |taken|
    decreases last
  {
    hide Candidate, Name;
    var b := BlockedBy(base, suffix, taken, last);
    if last < 2 {
      assert b == {};
    } else {
      var x := Name(Candidate(base, last), suffix);
      if x in taken {
        var fewer := BlockedBy(base, suffix, taken - {x}, last - 1);
        BlockedBound(base, suffix, taken - {x}, last - 1);
        forall n | n in b && n != last ensures n in fewer {
          if Name(Candidate(base, n), suffix) == x { NameInjective(base, suffix, n, last); }
        }
        assert b == fewer + {last};
      } else {
        BlockedBound(base, suffix, taken, last - 1);
        assert b == BlockedBy(base, suffix, taken, last - 1);
      }
    }
  }

  /** Suffix `i` of a request must avoid the names of `taken[i]`. */
  predicate Free(root: string, suffixes: seq<string>, taken: seq<set<string>>)
    requires |suffixes| == |taken|
  {
    forall i :: 0 <= i < |suffixes| ==> Name(root, suffixes[i]) !in taken[i]
  }

  function TotalTaken(taken: seq<set<string>>): nat {
    if taken == [] then 0 else TotalTaken(taken[..|taken| - 1]) + |taken[|taken| - 1]|
  }

  function Blocked(base: string, suffixes: seq<string>, taken: seq<set<string>>, last: nat): set<nat>
    requires |suffixes| == |taken|
  {
    set n | 2 <= n <= last && !Free(Candidate(base, n), suffixes, taken)
  }

  /** Pigeonhole: the suffixes together block no more candidates than there are
      names for them to run into. */
  lemma {:induction false} BlockedTotal(base: string, suffixes: seq<string>, taken: seq<set<string>>, last: nat)
    requires |suffixes| == |taken|
    ensures |Blocked(base, suffixes, taken, last)| <= TotalTaken(taken)
    decreases |suffixes|
  {
    hide Candidate, Name;
    var b := Blocked(base, suffixes, taken, last);
    if suffixes == [] {
      assert b == {};
    } else {
      var k := |suffixes| - 1;
      var some := Blocked(base, suffixes[..k], taken[..k], last);
      var more := BlockedBy(base, suffixes[k], taken[k], last);
      BlockedTotal(base, suffixes[..k], taken[..k], last);
      BlockedBound(base, suffixes[k], taken[k], last);
      forall n | n in b ensures n in some + more {
        var root := Candidate(base, n);
        var i :| 0 <= i < |suffixes| && Name(root, suffixes[i]) in taken[i];
        if i < k { assert suffixes[..k][i] == suffixes[i] && taken[..k][i] == taken[i]; }
      }
      assert b <= some + more;
      SubsetSize(b, some + more);
      UnionSize(some, more);
    }
  }

  lemma {:induction false} SubsetSize<T>(a: set<T>, b: set<T>)
    requires a <= b
    ensures |a| <= |b|
  {
    if a != {} {
      var x :| x in a;
      SubsetSize(a - {x}, b - {x});
    }
  }

  lemma UnionSize<T>(a: set<T>, b: set<T>)
    ensures |a + b| <= |a| + |b|
  {
    assert a + b == a + (b - a);
    assert |a + (b - a)| == |a| + |b - a|;
    SubsetSize(b - a, b);
  }

  /** {2, ..., last} */
  function UpTo(last: nat): (r: set<nat>)
    ensures forall n :: n in r <==> 2 <= n <= last
    ensures last >= 1 ==> |r| == last - 1
  {
    if last < 2 then {} else UpTo(last - 1) + {last}
  }

  /** The suffix search of _make_field_map() and _IdentPlan.assign(): the first
      candidate all of whose names are free.  It always ends. */
  method FirstFree(base: string, suffixes: seq<string>, taken: seq<set<string>>) returns (root: string)
    requires |suffixes| == |taken|
    ensures Free(root, suffixes, taken)
    ensures exists n :: 1 <= n <= TotalTaken(taken) + 2 && root == Candidate(base, n) &&
                        forall m :: 1 <= m < n ==> !Free(Candidate(base, m), suffixes, taken)
  {
    hide Candidate, Free;
    root := base;
    var n := 1;
    BaseIsFirst(base);
    while !Free(root, suffixes, taken)
      invariant 1 <= n <= TotalTaken(taken) + 2 && root == Candidate(base, n)
      invariant forall m :: 1 <= m < n ==> !Free(Candidate(base, m), suffixes, taken)
      decreases TotalTaken(taken) + 2 - n
    {
      AllBlocked(base, suffixes, taken, n);
      n := n + 1;
      NumberedIs(base, n);
      root := Join(base, Decimal(n));
    }
  }

  lemma BaseIsFirst(base: string)
    ensures Candidate(base, 1) == base
  {
  }

  lemma NumberedIs(base: string, n: nat)
    requires n >= 2
    ensures Candidate(base, n) == Join(base, Decimal(n))
  {
  }

  lemma AllBlocked(base: string, suffixes: seq<string>, taken: seq<set<string>>, n: nat)
    requires |suffixes| == |taken| && n >= 1
    requires forall m :: 1 <= m <= n ==> !Free(Candidate(base, m), suffixes, taken)
    ensures n <= TotalTaken(taken) + 1
  {
    hide Candidate, Free;
    var b := Blocked(base, suffixes, taken, n);
    BlockedTotal(base, suffixes, taken, n);
    assert b == UpTo(n);
  }
}
