/** A region that ends inside a comment: whole families of files whose lines change
    sides when the includes are reordered. */
module DanglingComment {
  import opened Basics
  import opened IncludeLines
  import opened IncludeGrammar
  import opened IncludeSort
  import opened IncludeOrder
  import opened Reorder
  import opened CommentMask

  /** A quoted include, whatever comes after it on the line. */
  lemma QuotedInclude(name: string, tail: string)
    requires name != "" && '"' !in name
    ensures var key := "#include \"" + name + "\"";
            IncludeMatch(key + tail) == Some(Include("\"" + name + "\"", key))
  {
    hide IncludeMatch;
    var target := "\"" + name + "\"";
    var key := "#include \"" + name + "\"";
    assert IsHeader(target);
    assert AllSpace("") && AllSpace(" ");
    assert key == "#" + "" + "include" + " " + target;
    IncludeReads(key + tail, target, key);
  }

  lemma {:induction false} ScanPlain(p: string, s: string)
    requires forall c :: c in p ==> c != '/' && c != '"' && c != '\''
    ensures Scan(p + s, Code) == Scan(s, Code)
  {
    if p == "" {
      assert p + s == s;
    } else {
      assert p[0] in p && (p + s)[1..] == p[1..] + s;
      assert forall c :: c in p[1..] ==> c in p;
      ScanPlain(p[1..], s);
    }
  }

  lemma {:induction false} ScanQuoted(name: string, s: string)
    requires forall c :: c in name ==> c != '\\' && c != '"'
    ensures Scan(name + "\"" + s, Quoted('"')) == Scan(s, Code)
  {
    var t := name + "\"" + s;
    if name == "" {
      assert t[1..] == s;
    } else {
      assert name[0] in name && t[1..] == name[1..] + "\"" + s;
      assert forall c :: c in name[1..] ==> c in name;
      ScanQuoted(name[1..], s);
    }
  }

  /** The directive itself opens nothing. */
  lemma ScanInclude(name: string, tail: string)
    requires forall c :: c in name ==> c != '\\' && c != '"'
    ensures Leaves("#include \"" + name + "\"" + tail, false) == Scan(tail, Code)
  {
    var t := "\"" + (name + "\"" + tail);
    assert "#include \"" + name + "\"" + tail == "#include " + t;
    ScanPlain("#include ", t);
    assert t[1..] == name + "\"" + tail;
    ScanQuoted(name, tail);
  }

  function Quote(name: string): string { "#include \"" + name + "\"" }

  lemma {:induction false} ScanInside(s: string)
    requires '*' !in s
    ensures Scan(s, Inside)
  {
    if s != "" { ScanInside(s[1..]); }
  }

  lemma OpensComment(s: string)
    requires '*' !in s
    ensures Scan(" /*" + s, Code)
  {
    hide Scan;
    assert " /*" + s == " " + ("/*" + s);
    ScanPlain(" ", "/*" + s);
    ScanInside(s);
    ScanOpen(s);
  }

  lemma ScanOpen(s: string)
    ensures Scan("/*" + s, Code) == Scan(s, Inside)
  {
    assert ("/*" + s)[2..] == s;
  }

  const CLOSING := "y */\n"

  /** Two includes; the second opens a comment that ends after the region. */
  function Dangling(first: string, second: string): Source {
    Source([Quote(first) + "\n", Quote(second) + " /*" + "\n", CLOSING], [false, false, true])
  }

  ghost predicate HeaderName(name: string) {
    name != "" && forall c :: c in name ==> c != '\\' && c != '"'
  }

  lemma DanglingMasked(first: string, second: string)
    requires HeaderName(first) && HeaderName(second)
    ensures Masked(Dangling(first, second)) && After(Dangling(first, second).lines[..2], false)
  {
    hide Leaves, Scan;
    var lines := Dangling(first, second).lines;
    ScanInclude(first, "\n");
    SpaceKeeps("\n", false);
    assert !Leaves("\n", false) && Leaves("\n", false) == Scan("\n", Code) by { LeavesIs("\n"); }
    ScanInclude(second, " /*" + "\n");
    OpensComment("\n");
    assert lines[1] == Quote(second) + (" /*" + "\n");
    assert lines[..0] == [] && lines[..1] == [] + [lines[0]] && lines[..2] == lines[..1] + [lines[1]];
    AfterSnoc([], lines[0], false);
    AfterSnoc(lines[..1], lines[1], false);
  }

  lemma LeavesIs(s: string)
    ensures Leaves(s, false) == Scan(s, Code)
  {
  }

  lemma DropNewline(s: string)
    requires s != "" && !IsSpace(s[0]) && !IsSpace(s[|s| - 1])
    ensures Strip(s + "\n") == s
  {
    hide Trim;
    TrimIs(s + "\n", IsSpace, 0, |s|);
    assert (s + "\n")[0..|s|] == s;
  }

  lemma QuoteStrips(name: string, tail: string)
    requires HeaderName(name) && (tail == "" || tail == " /*")
    ensures IncludeMatch(Strip(Quote(name) + tail + "\n")) == Some(Include("\"" + name + "\"", Quote(name)))
  {
    hide IncludeMatch, Strip;
    var s := Quote(name) + tail;
    DropNewline(s);
    QuotedInclude(name, tail);
  }

  /** The region is the two includes. */
  lemma DanglingRegion(first: string, second: string)
    requires HeaderName(first) && HeaderName(second)
    ensures var src := Dangling(first, second);
            IncludeAt(src, 0) && IncludeAt(src, 1) && RangeEnd(src, 0, 0) == 2
  {
    hide IncludeMatch, Strip, CloseOf, HasInclude, HasCode, CondKind, Quote;
    var src := Dangling(first, second);
    QuoteStrips(first, "");
    QuoteStrips(second, " /*");
    assert Quote(first) + "" + "\n" == src.lines[0] && Quote(second) + " /*" + "\n" == src.lines[1];
    assert !IncludeAt(src, 2) && !BlankAt(src, 2) && !BlockAt(src, 2);
    assert RangeEnd(src, 2, 2) == 2;
    assert RangeEnd(src, 1, 1) == 2;
  }

  lemma DanglingUnits(first: string, second: string, classify: string -> nat)
    requires HeaderName(first) && HeaderName(second) && Classifies(classify)
    ensures var us := UnitsOf(Tops(Dangling(first, second), 0, 2, classify));
            && |us| == 2
            && us[0].group == classify("\"" + first + "\"") && us[0].key == Quote(first)
            && us[1].group == classify("\"" + second + "\"") && us[1].key == Quote(second)
  {
    hide IncludeMatch, Strip, CloseOf, Quote, UnitsOf, EnsureEol, IsBlank, Classifies, StartsPlain;
    var src := Dangling(first, second);
    DanglingRegion(first, second);
    QuoteStrips(first, "");
    QuoteStrips(second, " /*");
    assert Quote(first) + "" + "\n" == src.lines[0] && Quote(second) + " /*" + "\n" == src.lines[1];
    var a, b := Single(ItemAt(src, 0, classify)), Single(ItemAt(src, 1, classify));
    assert Tops(src, 2, 2, classify) == [];
    assert Tops(src, 1, 2, classify) == [b] + [];
    assert Tops(src, 0, 2, classify) == [a] + [b];
    IncludeStarts(src, 0, classify);
    IncludeStarts(src, 1, classify);
    UnitsCons(a, [b]);
  }

  /** The masks are lost whenever the second include sorts first: the first one then
      follows the opened comment. */
  lemma DanglingIsLost(first: string, second: string, classify: string -> nat,
                       body: nat, block: seq<string>, result: seq<string>)
    requires HeaderName(first) && HeaderName(second) && Classifies(classify)
    requires var g, h := classify("\"" + first + "\""), classify("\"" + second + "\"");
             g > h || (g == h && !LexLe(Lower(Quote(first)), Lower(Quote(second))))
    requires 2 <= body <= 3 && Reordered(Dangling(first, second), classify, 0, 2, body, block, result)
    ensures var src := Dangling(first, second);
            Masked(src) && RangeEnd(src, 0, 0) == 2 &&
            !MasksKept(src, UnitsOf(Tops(src, 0, 2, classify)), 0, 2, block)
  {
    hide IncludeAt, RangeEnd, Tops, UnitsOf, Reordered, MasksKept, Quote, Lower, LexLe, Classifies, After, HeaderName,
      LineMasks, UnitMasks;
    var src := Dangling(first, second);
    DanglingMasked(first, second);
    DanglingRegion(first, second);
    DanglingUnits(first, second, classify);
    MasksSurviveIff(src, classify, 0, 2, body, block, result);
    var us := UnitsOf(Tops(src, 0, 2, classify));
    assert !Before(us[0], us[1]);
  }

  lemma {:induction false} LexPrefix(p: string, a: string, b: string)
    ensures LexLe(p + a, p + b) <==> LexLe(a, b)
  {
    if p == "" {
      assert p + a == a && p + b == b;
    } else {
      LexPrefix(p[1..], a, b);
      assert (p + a)[1..] == p[1..] + a && (p + b)[1..] == p[1..] + b;
    }
  }

  /** There are such names. */
  lemma DanglingNames()
    ensures HeaderName("b.h") && HeaderName("a.h") && !LexLe(Lower(Quote("b.h")), Lower(Quote("a.h")))
  {
    hide LexLe;
    var p := Lower("#include \"");
    assert Lower(Quote("b.h")) == p + Lower("b.h\"") && Lower(Quote("a.h")) == p + Lower("a.h\"");
    LexPrefix(p, Lower("b.h\""), Lower("a.h\""));
    FirstDiffers(Lower("b.h\""), Lower("a.h\""));
  }

  lemma FirstDiffers(a: string, b: string)
    requires a != "" && b != "" && a[0] > b[0]
    ensures !LexLe(a, b)
  {
  }
}
