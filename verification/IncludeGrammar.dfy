/** The two directive patterns as grammars: which lines are includes, of what, and
    which open, branch or close a conditional. */
module IncludeGrammar {
  import opened Basics
  import opened IncludeLines

  predicate AllSpace(s: string) { forall i :: 0 <= i < |s| ==> IsSpace(s[i]) }

  /** A word, and no more of it. */
  predicate EndsWord(rest: string) { rest == "" || !IsWord(rest[0]) }

  lemma {:induction false} WordIs(w: string, rest: string)
    requires (forall i :: 0 <= i < |w| ==> IsWord(w[i])) && EndsWord(rest)
    ensures WordOf(w + rest) == w
  {
    if w == "" {
      assert w + rest == rest;
    } else {
      WordIs(w[1..], rest);
      assert (w + rest)[1..] == w[1..] + rest;
    }
  }

  lemma {:induction false} WordCuts(s: string)
    ensures var w := WordOf(s);
            w <= s && (forall i :: 0 <= i < |w| ==> IsWord(w[i])) && EndsWord(s[|w|..])
  {
    if s != "" && IsWord(s[0]) {
      WordCuts(s[1..]);
      var w := WordOf(s[1..]);
      assert s[|w| + 1..] == s[1..][|w|..];
      assert s == [s[0]] + s[1..];
    } else {
      assert s[0..] == s;
    }
  }

  lemma WordIsNoSpace(c: char)
    ensures IsWord(c) ==> !IsSpace(c)
  {
  }

  lemma SpaceSkips(a: string, s: string)
    requires AllSpace(a) && (s == "" || !IsSpace(s[0]))
    ensures TrimStart(a + s, IsSpace) == s
  {
    hide TrimStart, IsSpace;
    assert forall i :: 0 <= i < |a| ==> (a + s)[i] == a[i];
    assert s != "" ==> (a + s)[|a|] == s[0];
    TrimStartIs(a + s, IsSpace, |a|);
    assert (a + s)[|a|..] == s;
  }

  lemma {:induction false} SkippedIsSpace(s: string)
    ensures AllSpace(s[..|s| - |TrimStart(s, IsSpace)|])
  {
    if s != "" && IsSpace(s[0]) {
      SkippedIsSpace(s[1..]);
      var n := |s| - |TrimStart(s, IsSpace)|;
      assert s[..n] == [s[0]] + s[1..][..n - 1];
    }
  }

  lemma Regroup(a: string, b: string, c: string, d: string)
    ensures a + b + c + d == a + (b + (c + d))
  {
  }

  // ---- Directives -------------------------------------------------------------------------

  /** A '#', white space, a word, and what follows it. */
  ghost predicate SaysDirective(s: string, word: string, rest: string) {
    && word != "" && (forall i :: 0 <= i < |word| ==> IsWord(word[i])) && EndsWord(rest)
    && exists a :: AllSpace(a) && s == "#" + a + word + rest
  }

  lemma DirectiveReads(s: string, word: string, rest: string)
    requires SaysDirective(s, word, rest)
    ensures AfterHash(s) == Some(word + rest) && WordOf(word + rest) == word
  {
    hide TrimStart, WordOf, IsWord, IsSpace;
    var a :| AllSpace(a) && s == "#" + a + word + rest;
    WordIsNoSpace(word[0]);
    assert s[1..] == a + (word + rest);
    SpaceSkips(a, word + rest);
    WordIs(word, rest);
  }

  lemma ReadsDirective(s: string)
    requires AfterHash(s).Some? && WordOf(AfterHash(s).value) != ""
    ensures var r := AfterHash(s).value; var w := WordOf(r);
            |w| <= |r| && r == w + r[|w|..] && SaysDirective(s, w, r[|w|..])
  {
    hide TrimStart, WordOf, IsWord, IsSpace;
    var r := AfterHash(s).value;
    var w := WordOf(r);
    WordCuts(r);
    var t := s[1..];
    var a := t[..|t| - |r|];
    SkippedIsSpace(t);
    assert r == w + r[|w|..] && t == a + r && s == "#" + t;
    Regroup("#", a, w, r[|w|..]);
  }

  /** The conditionals. */
  lemma CondIs(s: string)
    ensures CondKind(s) == Open <==>
            exists rest :: SaysDirective(s, "if", rest) || SaysDirective(s, "ifdef", rest) ||
                           SaysDirective(s, "ifndef", rest)
    ensures CondKind(s) == Branch <==> exists rest :: SaysDirective(s, "elif", rest) || SaysDirective(s, "else", rest)
    ensures CondKind(s) == Endif <==> exists rest :: SaysDirective(s, "endif", rest)
  {
    hide AfterHash, WordOf, SaysDirective;
    forall word, rest | SaysDirective(s, word, rest) ensures AfterHash(s).Some? && WordOf(AfterHash(s).value) == word {
      DirectiveReads(s, word, rest);
    }
    if AfterHash(s).Some? && WordOf(AfterHash(s).value) != "" { ReadsDirective(s); }
  }

  // ---- Includes ---------------------------------------------------------------------------

  /** A name between angle brackets or quotes. */
  ghost predicate IsHeader(t: string) {
    exists name :: name != "" && ((t == "<" + name + ">" && '>' !in name) || (t == "\"" + name + "\"" && '"' !in name))
  }

  lemma HeaderDelimits(t: string, rest: string)
    requires IsHeader(t)
    ensures Delimited(t + rest) == Some(t) && t != "" && (t[0] == '<' || t[0] == '"')
  {
    hide CharIndex;
    var name :| name != "" && ((t == "<" + name + ">" && '>' !in name) || (t == "\"" + name + "\"" && '"' !in name));
    var close := if t[0] == '<' then '>' else '"';
    var s := t + rest;
    assert s[1..] == name + [close] + rest;
    IndexIs(name, close, rest);
    assert s[..|name| + 2] == t;
  }

  lemma DelimitsHeader(s: string)
    requires Delimited(s).Some?
    ensures IsHeader(Delimited(s).value) && Delimited(s).value <= s
  {
    hide CharIndex;
    var close := if s[0] == '<' then '>' else '"';
    var n := CharIndex(s[1..], close);
    var name := s[1..][..n];
    assert close !in name;
    assert s[..n + 2] == [s[0]] + name + [close];
  }

  /** '#', "include", white space and a header; the text matched ends with it. */
  ghost predicate SaysInclude(s: string, target: string, text: string) {
    text <= s && IsHeader(target) &&
    exists a, b :: AllSpace(a) && AllSpace(b) && b != "" && text == "#" + a + "include" + b + target
  }

  lemma IncludeReads(s: string, target: string, text: string)
    requires SaysInclude(s, target, text)
    ensures IncludeMatch(s) == Some(Include(target, text))
  {
    hide AfterHash, WordOf, TrimStart, Delimited, IsSpace, IsHeader, IsWord;
    var a, b :| AllSpace(a) && AllSpace(b) && b != "" && text == "#" + a + "include" + b + target;
    var tail := s[|text|..];
    var t := target + tail;
    var rest := b + t;
    assert s == text + tail;
    assert s == "#" + a + "include" + rest;
    IncludeIsWord();
    SpaceEndsWord(b[0]);
    assert SaysDirective(s, "include", rest);
    DirectiveReads(s, "include", rest);
    assert ("include" + rest)[7..] == rest;
    HeaderDelimits(target, tail);
    HeaderIsNoSpace(target[0]);
    SpaceSkips(b, t);
    assert |t| < |rest| && s[..|s| - |t| + |target|] == text;
  }

  lemma IncludeIsWord()
    ensures "include" != "" && forall i :: 0 <= i < |"include"| ==> IsWord("include"[i])
  {
  }

  lemma SpaceEndsWord(c: char)
    ensures IsSpace(c) ==> !IsWord(c)
  {
  }

  lemma HeaderIsNoSpace(c: char)
    requires c == '<' || c == '"'
    ensures !IsSpace(c)
  {
  }

  lemma ReadsInclude(s: string)
    requires IncludeMatch(s).Some?
    ensures SaysInclude(s, IncludeMatch(s).value.target, IncludeMatch(s).value.text)
  {
    hide AfterHash, WordOf, TrimStart, Delimited, IsSpace, IsHeader, IsWord;
    var r := AfterHash(s).value;
    ReadsDirective(s);
    var rest := r[7..];
    var t := TrimStart(rest, IsSpace);
    var target := Delimited(t).value;
    assert r == "include" + rest;
    var a :| AllSpace(a) && s == "#" + a + "include" + rest;
    var b := rest[..|rest| - |t|];
    SkippedIsSpace(rest);
    assert rest == b + t;
    DelimitsHeader(t);
    var head, tail := "#" + a + "include" + b, t[|target|..];
    assert t == target + tail;
    Regroup("#" + a + "include", b, target, tail);
    IncludeText(s, head, target, tail);
  }

  lemma IncludeText(s: string, head: string, target: string, tail: string)
    requires s == head + target + tail
    ensures s[..|s| - |target + tail| + |target|] == head + target <= s
  {
  }

  /** IncludeMatch() finds exactly the includes. */
  lemma IncludeIs(s: string, target: string, text: string)
    ensures IncludeMatch(s) == Some(Include(target, text)) <==> SaysInclude(s, target, text)
  {
    hide IncludeMatch, SaysInclude;
    if IncludeMatch(s).Some? { ReadsInclude(s); }
    if SaysInclude(s, target, text) { IncludeReads(s, target, text); }
  }
}
