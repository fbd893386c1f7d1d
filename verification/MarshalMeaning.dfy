/** What a marshalled text says: a JSON reader gets the tree back from it, whatever
    the indentation and whatever follows. */
module MarshalMeaning {
  import opened Basics
  import opened JsonEmit
  import opened JsonString
  import opened JsonReader
  import opened Marshal

  // ---- Strings ------------------------------------------------------------------------------

  lemma EscapeReads(c: char, s: string)
    ensures ReadChars(Escape(c) + s) == Prepend([c], ReadChars(s))
  {
    var e := Escape(c);
    var t := e + s;
    assert t[|e|..] == s;
    if |e| == 1 {
      assert t[0] == c;
    } else if |e| == 2 {
      assert t[0] == '\\' && ShortEscape(t[1]) == [c];
    } else {
      ControlReads(c, s);
    }
  }

  lemma ControlReads(c: char, s: string)
    requires c < ' '
    ensures ReadChars("\\u00" + [HexDigit(c as nat / 16), HexDigit(c as nat % 16)] + s) == Prepend([c], ReadChars(s))
  {
    var t := "\\u00" + [HexDigit(c as nat / 16), HexDigit(c as nat % 16)] + s;
    assert t[0] == '\\' && t[1] == 'u' && t[2..][0] == '0' && t[2..][1] == '0';
    assert t[2..][2] == HexDigit(c as nat / 16) && t[2..][3] == HexDigit(c as nat % 16) && t[6..] == s;
    HexDigitReads(c as nat / 16);
    HexDigitReads(c as nat % 16);
    assert CodeUnit(t[2..]) == Some(c as nat);
  }

  lemma EscapeAllCons(s: string)
    requires s != ""
    ensures EscapeAll(s) == Escape(s[0]) + EscapeAll(s[1..])
  {
    hide Escape;
    assert s == [s[0]] + s[1..];
    EscapeAllConcat([s[0]], s[1..]);
    assert [s[0]][..0] == "";
    assert EscapeAll([s[0]]) == EscapeAll("") + Escape(s[0]);
  }

  lemma {:induction false} CharsRead(s: string, rest: string)
    ensures ReadChars(EscapeAll(s) + "\"" + rest) == Done(s, rest)
  {
    hide ReadChars, EscapeAll, Escape;
    if s == "" {
      QuoteEnds(rest);
    } else {
      CharsRead(s[1..], rest);
      EscapeAllCons(s);
      var tail := EscapeAll(s[1..]) + "\"" + rest;
      assert EscapeAll(s) + "\"" + rest == Escape(s[0]) + tail;
      EscapeReads(s[0], tail);
      assert [s[0]] + s[1..] == s;
    }
  }

  lemma QuoteEnds(rest: string)
    ensures ReadChars(EscapeAll("") + "\"" + rest) == Done("", rest)
  {
    assert EscapeAll("") + "\"" + rest == "\"" + rest;
    assert ("\"" + rest)[1..] == rest;
  }

  /** Every quoted string is read back, whatever follows. */
  lemma StringReads(s: string, rest: string)
    ensures ReadString(Quote(s) + rest) == Done(s, rest)
  {
    hide ReadChars, EscapeAll;
    CharsRead(s, rest);
    assert (Quote(s) + rest)[1..] == EscapeAll(s) + "\"" + rest;
  }

  // ---- White space and numbers ------------------------------------------------------------------

  predicate AllWs(s: string) { forall i :: 0 <= i < |s| ==> IsWs(s[i]) }

  lemma {:induction false} SkipsWs(w: string, s: string)
    requires AllWs(w)
    ensures SkipWs(w + s) == SkipWs(s)
  {
    if w == "" {
      assert w + s == s;
    } else {
      assert (w + s)[1..] == w[1..] + s;
      SkipsWs(w[1..], s);
    }
  }

  lemma {:induction false} SkipsOnce(s: string)
    ensures SkipWs(SkipWs(s)) == SkipWs(s)
  {
    if s != "" && IsWs(s[0]) { SkipsOnce(s[1..]); }
  }

  /** White space in front changes nothing. */
  lemma ValueSkips(w: string, s: string)
    requires AllWs(w)
    ensures ReadValue(w + s) == ReadValue(s)
  {
    hide SkipWs, ReadString, ReadMembers, ReadItems;
    SkipsWs(w, s);
  }

  predicate WhiteIndent(ind: Indent) { ind.Pretty? ==> AllWs(ind.unit) }

  lemma {:induction false} RepeatedWs(s: string, d: nat)
    requires AllWs(s)
    ensures AllWs(Repeated(s, d))
  {
    if d > 0 { RepeatedWs(s, d - 1); }
  }

  lemma IndentWs(ind: Indent, d: nat)
    requires WhiteIndent(ind)
    ensures AllWs(IndentText(ind, d))
  {
    if ind.Pretty? { RepeatedWs(ind.unit, d); }
  }

  /** No number goes on here. */
  predicate Stops(rest: string) { rest == "" || !IsNumberChar(rest[0]) }

  lemma {:induction false} DigitsAre(s: string)
    ensures forall i :: 0 <= i < DigitRun(s) ==> IsDigit(s[i])
  {
    if s != "" && IsDigit(s[0]) {
      DigitsAre(s[1..]);
      assert forall i :: 1 <= i < DigitRun(s) ==> s[i] == s[1..][i - 1];
    }
  }

  predicate AllNumber(s: string) { forall i :: 0 <= i < |s| ==> IsNumberChar(s[i]) }

  lemma ExponentChars(s: string)
    requires IsExponent(s)
    ensures AllNumber(s)
  {
    if s != "" {
      var t := DropSign(s[1..], true);
      DigitsAre(t);
      assert s[1..] == t || s[1..] == [s[1]] + t;
      assert forall i :: 1 <= i < |s| ==> s[i] == s[1..][i - 1];
    }
  }

  lemma FractionChars(s: string)
    requires IsFraction(s)
    ensures AllNumber(s)
  {
    hide IsExponent;
    if s != "" && s[0] == '.' {
      var n := DigitRun(s[1..]);
      DigitsAre(s[1..]);
      ExponentChars(s[1 + n..]);
      forall i | 0 <= i < |s| ensures IsNumberChar(s[i]) {
        if 1 <= i <= n { assert s[i] == s[1..][i - 1]; }
        if n < i { assert s[i] == s[1 + n..][i - 1 - n]; }
      }
    } else {
      ExponentChars(s);
    }
  }

  lemma NumberChars(s: string)
    requires IsNumber(s)
    ensures s != "" && AllNumber(s) && (s[0] == '-' || IsDigit(s[0]))
  {
    hide IsFraction;
    var t := DropSign(s, false);
    var n := DigitRun(t);
    DigitsAre(t);
    FractionChars(t[n..]);
    forall i | 0 <= i < |t| ensures IsNumberChar(t[i]) {
      if n <= i { assert t[i] == t[n..][i - n]; }
    }
    assert s == t || s == ['-'] + t;
    assert IsDigit(t[0]);
  }

  lemma {:induction false} RunIs(s: string, rest: string)
    requires AllNumber(s) && Stops(rest)
    ensures NumberRun(s + rest) == |s|
  {
    if s == "" {
      assert s + rest == rest;
    } else {
      assert (s + rest)[1..] == s[1..] + rest;
      RunIs(s[1..], rest);
    }
  }

  lemma NumberReads(s: string, rest: string)
    requires IsNumber(s) && Stops(rest)
    ensures ReadValue(s + rest) == Done(JNumber(s), rest)
  {
    hide ReadString, ReadMembers, ReadItems, IsNumber, NumberRun;
    NumberChars(s);
    RunIs(s, rest);
    var t := s + rest;
    assert t[0] == s[0] && t[..|s|] == s && t[|s|..] == rest;
    assert SkipWs(t) == t;
    assert !("true" <= t) && !("false" <= t) && !("null" <= t);
  }

  // ---- What a tree denotes ------------------------------------------------------------------------

  /** A text some value is read from wherever it stands. */
  ghost predicate Fragment(text: string, j: Json) {
    forall rest :: Stops(rest) ==> ReadValue(text + rest) == Done(j, rest)
  }

  ghost predicate ScalarIs(s: Scalar, j: Json) {
    match s
    case Str(t) => j == JString(t)
    case Num(t) => IsNumber(t) && j == JNumber(t)
    case Dbl(_, t) => IsNumber(t) && j == JNumber(t)
    case Bool(b) => j == JBool(b)
    case Raw(t) => Fragment(t, j)
  }

  ghost predicate ItemIs(x: Item, j: Json)
    decreases x, 0
  {
    match x
    case Leaf(s) => ScalarIs(s, j)
    case Nested(o) => ObjIs(o, j)
  }

  ghost predicate ItemsAre(xs: seq<Item>, js: seq<Json>)
    decreases xs, 1
  {
    |xs| == |js| && (xs != [] ==> ItemIs(xs[0], js[0]) && ItemsAre(xs[1..], js[1..]))
  }

  ghost predicate ValueIs(v: Value, j: Json)
    decreases v, 2
  {
    match v
    case One(x) => ItemIs(x, j)
    case Many(xs) => j.JArray? && ItemsAre(xs, j.items)
  }

  ghost predicate FieldsAre(fs: seq<Field>, ms: seq<Member>)
    decreases fs, 4
  {
    |fs| == |ms| && (fs != [] ==> fs[0].key == EscapeAll(ms[0].key) && ValueIs(fs[0].value, ms[0].value) &&
                                  FieldsAre(fs[1..], ms[1..]))
  }

  ghost predicate ObjIs(o: Obj, j: Json)
    decreases o, 5
  {
    j.JObject? && FieldsAre(o.fields, j.members)
  }

  // ---- Texts from the front ---------------------------------------------------------------------

  function LineText(x: Item, ind: Indent, d: nat): string { IndentText(ind, d) + ItemText(x, ind, d) }

  lemma ItemsSnoc(xs: seq<Item>, ind: Indent, d: nat)
    requires xs != []
    ensures var n := |xs| - 1;
            ItemsText(xs, ind, d) ==
            (if n == 0 then "" else ItemsText(xs[..n], ind, d) + ",") + LineText(xs[n], ind, d)
  {
    hide IndentText, ItemText;
    var n := |xs| - 1;
    var line, item := IndentText(ind, d), ItemText(xs[n], ind, d);
    if n == 0 {
      assert xs[..0] == [];
      assert "" + "" + line + item == line + item;
    } else {
      var init := ItemsText(xs[..n], ind, d);
      assert init + "," + line + item == init + "," + (line + item);
    }
  }

  lemma {:induction false} ItemsCons(xs: seq<Item>, ind: Indent, d: nat)
    requires xs != []
    ensures ItemsText(xs, ind, d) ==
            LineText(xs[0], ind, d) + if |xs| == 1 then "" else "," + ItemsText(xs[1..], ind, d)
    decreases |xs|
  {
    hide ItemsText, LineText;
    var n := |xs| - 1;
    ItemsSnoc(xs, ind, d);
    if n > 0 {
      var init, tail := xs[..n], xs[1..];
      ItemsCons(init, ind, d);
      ItemsSnoc(tail, ind, d);
      assert init[1..] == tail[..n - 1] && tail[n - 1] == xs[n];
    }
  }

  lemma {:induction false} FieldsCons(fs: seq<Field>, ind: Indent, d: nat)
    requires fs != []
    ensures FieldsText(fs, ind, d) ==
            FieldText(fs[0], ind, d) + if |fs| == 1 then "" else "," + FieldsText(fs[1..], ind, d)
    decreases |fs|
  {
    hide FieldText;
    var n := |fs| - 1;
    if n > 0 {
      var init, tail := fs[..n], fs[1..];
      FieldsCons(init, ind, d);
      assert init[1..] == tail[..n - 1] && tail[n - 1] == fs[n];
      var last := FieldText(fs[n], ind, d);
      assert FieldsText(fs, ind, d) == FieldsText(init, ind, d) + "," + last;
      if n > 1 {
        assert FieldsText(tail, ind, d) == FieldsText(tail[..n - 1], ind, d) + "," + last;
      }
    }
  }

  // ---- Reading a tree back ------------------------------------------------------------------------

  lemma ScalarReads(s: Scalar, j: Json, rest: string)
    requires ScalarIs(s, j) && Stops(rest)
    ensures ReadValue(ScalarText(s) + rest) == Done(j, rest)
  {
    hide ReadString, ReadMembers, ReadItems, Quote, IsNumber;
    match s
    case Str(t) =>
      StringReads(t, rest);
      assert (Quote(t) + rest)[0] == '"' by { QuoteStarts(t); }
    case Num(t) => NumberReads(t, rest);
    case Dbl(_, t) => NumberReads(t, rest);
    case Bool(b) =>
      var t := ScalarText(s) + rest;
      assert b ==> "true" <= t && t[4..] == rest;
      assert !b ==> "false" <= t && t[5..] == rest;
    case Raw(t) =>
  }

  lemma QuoteStarts(s: string)
    ensures Quote(s) != "" && Quote(s)[0] == '"'
  {
  }

  lemma {:induction false} ItemReads(x: Item, j: Json, ind: Indent, d: nat, rest: string)
    requires ItemIs(x, j) && WhiteIndent(ind) && Stops(rest)
    ensures ReadValue(ItemText(x, ind, d) + rest) == Done(j, rest)
    decreases x, 0
  {
    hide ReadValue, ScalarText, Text;
    match x
    case Leaf(s) => ScalarReads(s, j, rest);
    case Nested(o) => ObjReads(o, j, ind, d, rest);
  }

  lemma LineReads(line: string, text: string, j: Json, rest: string)
    requires AllWs(line) && ReadValue(text + rest) == Done(j, rest)
    ensures ReadValue(line + text + rest) == Done(j, rest)
  {
    hide ReadValue;
    ValueSkips(line, text + rest);
    assert line + text + rest == line + (text + rest);
  }

  lemma ItemsEnd(s: string, v: Json, close: string, rest: string)
    requires ReadValue(s) == Done(v, close + "]" + rest) && AllWs(close)
    ensures ReadItems(s) == Done([v], rest)
  {
    hide ReadValue;
    SkipsWs(close, "]" + rest);
    assert close + "]" + rest == close + ("]" + rest);
    assert SkipWs("]" + rest) == "]" + rest && ("]" + rest)[1..] == rest;
  }

  lemma ItemsGoOn(s: string, v: Json, more: string)
    requires ReadValue(s) == Done(v, "," + more) && ReadItems(more).Done?
    ensures ReadItems(s) == Done([v] + ReadItems(more).value, ReadItems(more).rest)
  {
    hide ReadValue;
    assert SkipWs("," + more) == "," + more && ("," + more)[1..] == more;
  }

  lemma {:induction false} ItemsRead(xs: seq<Item>, js: seq<Json>, ind: Indent, d: nat, close: string, rest: string)
    requires xs != [] && ItemsAre(xs, js) && WhiteIndent(ind) && AllWs(close)
    ensures ReadItems(ItemsText(xs, ind, d) + close + "]" + rest) == Done(js, rest)
    decreases xs, 1
  {
    hide ReadValue, ReadItems, ItemsText, ItemText, IndentText, ItemIs;
    var end := close + "]" + rest;
    var line, text := IndentText(ind, d), ItemText(xs[0], ind, d);
    var s := ItemsText(xs, ind, d) + close + "]" + rest;
    ItemsCons(xs, ind, d);
    IndentWs(ind, d);
    if |xs| == 1 {
      assert s == line + text + end;
      assert Stops(end);
      ItemReads(xs[0], js[0], ind, d, end);
      LineReads(line, text, js[0], end);
      ItemsEnd(s, js[0], close, rest);
      assert js == [js[0]];
    } else {
      var more := ItemsText(xs[1..], ind, d) + close + "]" + rest;
      assert s == line + text + ("," + more);
      ItemReads(xs[0], js[0], ind, d, "," + more);
      LineReads(line, text, js[0], "," + more);
      ItemsRead(xs[1..], js[1..], ind, d, close, rest);
      ItemsGoOn(s, js[0], more);
      assert js == [js[0]] + js[1..];
    }
  }

  /** What stands between brackets. */
  lemma ArrayReads(body: string, js: seq<Json>, rest: string)
    requires ReadItems(body) == Done(js, rest)
    ensures ReadValue("[" + body) == Done(JArray(js), rest)
  {
    hide ReadString, ReadMembers, IsNumber;
    var t := "[" + body;
    assert t[1..] == body && SkipWs(t) == t;
    var u := SkipWs(body);
    SkipsOnce(body);
    assert ReadValue(u) == ReadValue(body);
    assert ReadItems(u) == ReadItems(body);
    assert u != "" && u[0] != ']';
  }

  lemma EmptyArrayReads(rest: string)
    ensures ReadValue("[]" + rest) == Done(JArray([]), rest)
  {
    var t := "[]" + rest;
    assert SkipWs(t) == t && t[1..] == "]" + rest && t[1..][1..] == rest;
    assert SkipWs("]" + rest) == "]" + rest;
  }

  lemma {:induction false} ValueReads(v: Value, j: Json, ind: Indent, d: nat, rest: string)
    requires ValueIs(v, j) && WhiteIndent(ind) && Stops(rest)
    ensures ReadValue(ValueText(v, ind, d) + rest) == Done(j, rest)
    decreases v, 2
  {
    hide ReadValue, ReadItems, ItemsText, ItemText, IndentText, ItemIs;
    match v
    case One(x) => ItemReads(x, j, ind, d, rest);
    case Many(xs) =>
      if xs == [] {
        assert j == JArray([]);
        NoItemsText(ind, d + 1);
        assert ValueText(v, ind, d) + rest == "[]" + rest;
        EmptyArrayReads(rest);
      } else {
        var close := IndentText(ind, d);
        IndentWs(ind, d);
        var body := ItemsText(xs, ind, d + 1) + close + "]" + rest;
        ItemsRead(xs, j.items, ind, d + 1, close, rest);
        ArrayReads(body, j.items, rest);
        assert ValueText(v, ind, d) + rest == "[" + body;
      }
  }

  lemma NoItemsText(ind: Indent, d: nat)
    ensures ItemsText([], ind, d) == ""
  {
  }

  /** One member: its key, the colon and its value. */
  lemma MemberReads(line: string, key: string, colon: string, text: string, v: Json, rest: string)
    requires AllWs(line) && (colon == ":" || colon == ": ") && ReadValue(text + rest) == Done(v, rest)
    ensures ReadMember(line + "\"" + EscapeAll(key) + "\"" + colon + text + rest) == Done(Member(key, v), rest)
  {
    hide ReadValue, ReadString, EscapeAll;
    var tail := colon + text + rest;
    var s := line + "\"" + EscapeAll(key) + "\"" + colon + text + rest;
    assert s == line + (Quote(key) + tail);
    SkipsWs(line, Quote(key) + tail);
    QuoteStarts(key);
    assert SkipWs(Quote(key) + tail) == Quote(key) + tail;
    StringReads(key, tail);
    assert SkipWs(tail) == tail;
    var gap := colon[1..];
    assert AllWs(gap) && tail[1..] == gap + text + rest;
    LineReads(gap, text, v, rest);
  }

  lemma MembersEnd(s: string, m: Member, close: string, rest: string)
    requires ReadMember(s) == Done(m, close + "}" + rest) && AllWs(close)
    ensures ReadMembers(s) == Done([m], rest)
  {
    hide ReadMember;
    SkipsWs(close, "}" + rest);
    assert close + "}" + rest == close + ("}" + rest);
    assert SkipWs("}" + rest) == "}" + rest && ("}" + rest)[1..] == rest;
  }

  lemma MembersGoOn(s: string, m: Member, more: string)
    requires ReadMember(s) == Done(m, "," + more) && ReadMembers(more).Done?
    ensures ReadMembers(s) == Done([m] + ReadMembers(more).value, ReadMembers(more).rest)
  {
    hide ReadMember;
    assert SkipWs("," + more) == "," + more && ("," + more)[1..] == more;
  }

  lemma {:induction false} FieldReads(f: Field, m: Member, ind: Indent, d: nat, rest: string)
    requires f.key == EscapeAll(m.key) && ValueIs(f.value, m.value) && WhiteIndent(ind) && Stops(rest)
    ensures ReadMember(FieldText(f, ind, d) + rest) == Done(m, rest)
    decreases f, 3
  {
    hide ReadValue, ReadMember, ValueText, IndentText, ValueIs, EscapeAll;
    var line, text := IndentText(ind, d), ValueText(f.value, ind, d);
    IndentWs(ind, d);
    ValueReads(f.value, m.value, ind, d, rest);
    MemberReads(line, m.key, ColonText(ind), text, m.value, rest);
    assert FieldText(f, ind, d) + rest == line + "\"" + EscapeAll(m.key) + "\"" + ColonText(ind) + text + rest;
  }

  lemma {:induction false} FieldsRead(fs: seq<Field>, ms: seq<Member>, ind: Indent, d: nat, close: string, rest: string)
    requires fs != [] && FieldsAre(fs, ms) && WhiteIndent(ind) && AllWs(close)
    ensures ReadMembers(FieldsText(fs, ind, d) + close + "}" + rest) == Done(ms, rest)
    decreases fs, 4
  {
    hide ReadMember, ReadMembers, FieldsText, FieldText, ValueIs, EscapeAll;
    var end := close + "}" + rest;
    var s := FieldsText(fs, ind, d) + close + "}" + rest;
    FieldsCons(fs, ind, d);
    if |fs| == 1 {
      assert s == FieldText(fs[0], ind, d) + end;
      assert Stops(end);
      FieldReads(fs[0], ms[0], ind, d, end);
      MembersEnd(s, ms[0], close, rest);
      assert ms == [ms[0]];
    } else {
      var more := FieldsText(fs[1..], ind, d) + close + "}" + rest;
      assert s == FieldText(fs[0], ind, d) + ("," + more);
      FieldReads(fs[0], ms[0], ind, d, "," + more);
      FieldsRead(fs[1..], ms[1..], ind, d, close, rest);
      MembersGoOn(s, ms[0], more);
      assert ms == [ms[0]] + ms[1..];
    }
  }

  lemma ObjectReads(body: string, ms: seq<Member>, rest: string)
    requires ReadMembers(body) == Done(ms, rest)
    ensures ReadValue("{" + body) == Done(JObject(ms), rest)
  {
    hide ReadItems, IsNumber, ReadValue, ReadString;
    var t := "{" + body;
    assert t[1..] == body && SkipWs(t) == t;
    var u := SkipWs(body);
    SkipsOnce(body);
    assert ReadMember(u) == ReadMember(body);
    assert ReadMembers(u) == ReadMembers(body);
    assert u != "" && u[0] != '}' by { StringStarts(u); }
    BraceReads(body, ms, rest);
  }

  lemma StringStarts(s: string)
    requires ReadString(s).Done?
    ensures s != "" && s[0] == '"'
  {
  }

  lemma BraceReads(body: string, ms: seq<Member>, rest: string)
    requires var u := SkipWs(body); u != "" && u[0] != '}' && ReadMembers(u) == Done(ms, rest)
    ensures ReadValue("{" + body) == Done(JObject(ms), rest)
  {
    hide ReadItems, IsNumber, ReadString, ReadMembers;
    var t := "{" + body;
    assert t[1..] == body && SkipWs(t) == t;
  }

  lemma EmptyObjectReads(rest: string)
    ensures ReadValue("{}" + rest) == Done(JObject([]), rest)
  {
    var t := "{}" + rest;
    assert SkipWs(t) == t && t[1..] == "}" + rest && t[1..][1..] == rest;
    assert SkipWs("}" + rest) == "}" + rest;
  }

  lemma TextParts(o: Obj, ind: Indent, d: nat, rest: string)
    ensures Text(o, ind, d) + rest ==
            if o.fields == [] then "{}" + rest
            else "{" + (FieldsText(o.fields, ind, d + 1) + IndentText(ind, d) + "}" + rest)
  {
    hide FieldsText, IndentText;
    NoFieldsText(ind, d + 1);
    var fields, line := FieldsText(o.fields, ind, d + 1), IndentText(ind, d);
    if o.fields == [] {
      assert "{" + "" + "" + "}" + rest == "{}" + rest;
    } else {
      assert "{" + fields + line + "}" + rest == "{" + (fields + line + "}" + rest);
    }
  }

  /** The text of every tree is read back as the value the tree denotes, with its
      members and elements in order, for every indentation of white space, every
      depth and whatever follows. */
  lemma {:induction false} ObjReads(o: Obj, j: Json, ind: Indent, d: nat, rest: string)
    requires ObjIs(o, j) && WhiteIndent(ind)
    ensures ReadValue(Text(o, ind, d) + rest) == Done(j, rest)
    decreases o, 5
  {
    hide ReadValue, ReadMembers, FieldsText, IndentText, Text;
    TextParts(o, ind, d, rest);
    if o.fields == [] {
      assert j == JObject([]);
      EmptyObjectReads(rest);
    } else {
      var close := IndentText(ind, d);
      IndentWs(ind, d);
      var body := FieldsText(o.fields, ind, d + 1) + close + "}" + rest;
      FieldsRead(o.fields, j.members, ind, d + 1, close, rest);
      ObjectReads(body, j.members, rest);
    }
  }

  // ---- The layout ------------------------------------------------------------------------------------

  /** The indentation of a level is a line break and as many units as the level says. */
  lemma {:induction false} IndentIs(unit: string, d: nat, i: nat)
    requires i < d
    ensures var s := IndentText(Pretty(unit), d);
            |s| == 1 + d * |unit| && s[0] == '\n' && (i + 1) * |unit| <= d * |unit| &&
            s[1 + i * |unit|..1 + (i + 1) * |unit|] == unit
    decreases d
  {
    RepeatedIs(unit, d, i);
    var r := Repeated(unit, d);
    assert ("\n" + r)[1 + i * |unit|..1 + (i + 1) * |unit|] == r[i * |unit|..(i + 1) * |unit|];
  }

  lemma {:induction false} RepeatedIs(unit: string, d: nat, i: nat)
    requires i < d
    ensures var r := Repeated(unit, d);
            |r| == d * |unit| && 0 <= i * |unit| <= (i + 1) * |unit| <= d * |unit| &&
            r[i * |unit|..(i + 1) * |unit|] == unit
    decreases d
  {
    var n := |unit|;
    var init := Repeated(unit, d - 1);
    assert d * n == (d - 1) * n + n && (i + 1) * n == i * n + n;
    if d == 1 {
      assert init == "" && init + unit == unit;
    } else {
      RepeatedIs(unit, d - 1, if i < d - 1 then i else 0);
      if i < d - 1 {
        assert (init + unit)[i * n..(i + 1) * n] == init[i * n..(i + 1) * n];
      } else {
        assert (init + unit)[i * n..(i + 1) * n] == unit;
      }
    }
  }

  predicate Tight(s: string) { forall i :: 0 <= i < |s| ==> !IsWs(s[i]) }

  predicate TightItem(x: Item)
    decreases x, 0
  {
    match x
    case Leaf(s) => Tight(ScalarText(s))
    case Nested(o) => TightFields(o.fields)
  }

  predicate TightItems(xs: seq<Item>)
    decreases xs, 1
  {
    xs != [] ==> TightItems(xs[..|xs| - 1]) && TightItem(xs[|xs| - 1])
  }

  /** No white space in any key or value. */
  predicate TightFields(fs: seq<Field>)
    decreases fs, 4
  {
    fs != [] ==>
      TightFields(fs[..|fs| - 1]) && Tight(fs[|fs| - 1].key) &&
      match fs[|fs| - 1].value {
        case One(x) => TightItem(x)
        case Many(xs) => TightItems(xs)
      }
  }

  lemma TightConcat(a: string, b: string)
    requires Tight(a) && Tight(b)
    ensures Tight(a + b)
  {
  }

  lemma {:induction false} ItemTight(x: Item, d: nat)
    requires TightItem(x)
    ensures Tight(ItemText(x, Compact, d))
    decreases x, 0
  {
    hide ScalarText, Tight;
    if x.Nested? { CompactTight(x.obj, d); }
  }

  lemma Marks()
    ensures Tight("") && Tight(",") && Tight("[") && Tight("]") && Tight("{") && Tight("}") && Tight(":") && Tight("\"")
  {
  }

  lemma {:induction false} ItemsTight(xs: seq<Item>, d: nat)
    requires TightItems(xs)
    ensures Tight(ItemsText(xs, Compact, d))
    decreases xs, 1
  {
    hide ItemText, TightItem, Tight;
    Marks();
    if xs != [] {
      var n := |xs| - 1;
      ItemsTight(xs[..n], d);
      ItemTight(xs[n], d);
      var front := ItemsText(xs[..n], Compact, d) + (if |xs| > 1 then "," else "");
      TightConcat(ItemsText(xs[..n], Compact, d), if |xs| > 1 then "," else "");
      assert front + "" + ItemText(xs[n], Compact, d) == front + ItemText(xs[n], Compact, d);
      TightConcat(front, ItemText(xs[n], Compact, d));
    }
  }

  lemma {:induction false} ValueTight(v: Value, d: nat)
    requires match v { case One(x) => TightItem(x) case Many(xs) => TightItems(xs) }
    ensures Tight(ValueText(v, Compact, d))
    decreases v, 2
  {
    hide ItemText, ItemsText, TightItem, TightItems, Tight;
    Marks();
    match v
    case One(x) => ItemTight(x, d);
    case Many(xs) =>
      ItemsTight(xs, d + 1);
      var body := ItemsText(xs, Compact, d + 1);
      TightConcat("[", body);
      TightConcat("[" + body, "]");
      assert "[" + body + "" + "]" == "[" + body + "]";
  }

  lemma {:induction false} FieldTight(f: Field, d: nat)
    requires Tight(f.key) && match f.value { case One(x) => TightItem(x) case Many(xs) => TightItems(xs) }
    ensures Tight(FieldText(f, Compact, d))
    decreases f, 3
  {
    hide ValueText, TightItem, TightItems, Tight;
    Marks();
    ValueTight(f.value, d);
    var value := ValueText(f.value, Compact, d);
    TightConcat("\"", f.key);
    TightConcat("\"" + f.key, "\"");
    TightConcat("\"" + f.key + "\"", ":");
    TightConcat("\"" + f.key + "\"" + ":", value);
    assert "" + "\"" + f.key + "\"" + ":" + value == "\"" + f.key + "\"" + ":" + value;
  }

  lemma {:induction false} FieldsTight(fs: seq<Field>, d: nat)
    requires TightFields(fs)
    ensures Tight(FieldsText(fs, Compact, d))
    decreases fs, 4
  {
    hide FieldText, TightItem, TightItems, Tight;
    Marks();
    if fs != [] {
      var n := |fs| - 1;
      FieldTight(fs[n], d);
      if n > 0 {
        FieldsTight(fs[..n], d);
        var front := FieldsText(fs[..n], Compact, d);
        TightConcat(front, ",");
        TightConcat(front + ",", FieldText(fs[n], Compact, d));
      }
    }
  }

  /** Compact output adds no white space anywhere. */
  lemma {:induction false} CompactTight(o: Obj, d: nat)
    requires TightFields(o.fields)
    ensures Tight(Text(o, Compact, d))
    decreases o, 5
  {
    hide FieldsText, TightFields, Tight;
    Marks();
    FieldsTight(o.fields, d + 1);
    var body := FieldsText(o.fields, Compact, d + 1);
    TightConcat("{", body);
    TightConcat("{" + body, "}");
    assert "{" + body + "" + "}" == "{" + body + "}";
  }
}
