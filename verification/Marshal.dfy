/** The generated marshal: an object tree written into a bounded buffer.  Every
    field appends a trailing comma which the closing brace backs over, every
    nested call writes its own terminator, and lengths past INT_MAX saturate to
    a sentinel; `Text` is the rendering all of that must amount to. */
module Marshal {
  import opened JsonEmit
  import opened JsonString

  datatype Scalar =
    | Str(s: string)
    | Num(text: string)
    | Dbl(finite: bool, text: string)
    | Bool(b: bool)
    | Raw(text: string)

  datatype Item = Leaf(scalar: Scalar) | Nested(obj: Obj)
  datatype Value = One(item: Item) | Many(items: seq<Item>)
  // the key as it appears between its quotes, already escaped
  datatype Field = Field(key: string, value: Value)
  datatype Obj = Obj(fields: seq<Field>)

  // ---- The unbounded rendering -------------------------------------------------

  function ScalarText(s: Scalar): string {
    match s
    case Str(t) => Quote(t)
    case Num(t) => t
    case Dbl(_, t) => t
    case Bool(b) => if b then "true" else "false"
    case Raw(t) => t
  }

  function ItemText(x: Item, ind: Indent, d: nat): string
    decreases x, 0
  {
    match x
    case Leaf(s) => ScalarText(s)
    case Nested(o) => Text(o, ind, d)
  }

  /** Array elements separated by commas, each on its own line when pretty. */
  function ItemsText(xs: seq<Item>, ind: Indent, d: nat): string
    decreases xs, 1
  {
    if xs == [] then ""
    else
      ItemsText(xs[..|xs| - 1], ind, d) + (if |xs| > 1 then "," else "") +
      IndentText(ind, d) + ItemText(xs[|xs| - 1], ind, d)
  }

  function ValueText(v: Value, ind: Indent, d: nat): string
    decreases v, 2
  {
    match v
    case One(x) => ItemText(x, ind, d)
    case Many(xs) =>
      "[" + ItemsText(xs, ind, d + 1) + (if xs == [] then "" else IndentText(ind, d)) + "]"
  }

  function ColonText(ind: Indent): string { if ind.Compact? then ":" else ": " }

  function FieldText(f: Field, ind: Indent, d: nat): string
    decreases f, 3
  {
    IndentText(ind, d) + "\"" + f.key + "\"" + ColonText(ind) + ValueText(f.value, ind, d)
  }

  /** Fields separated, not terminated, by commas. */
  function FieldsText(fs: seq<Field>, ind: Indent, d: nat): string
    decreases fs, 4
  {
    if fs == [] then ""
    else if |fs| == 1 then FieldText(fs[0], ind, d)
    else FieldsText(fs[..|fs| - 1], ind, d) + "," + FieldText(fs[|fs| - 1], ind, d)
  }

  function Text(o: Obj, ind: Indent, d: nat): string
    decreases o, 5
  {
    "{" + FieldsText(o.fields, ind, d + 1) + (if o.fields == [] then "" else IndentText(ind, d)) + "}"
  }

  // ---- What has a JSON form at all ----------------------------------------------

  predicate ScalarOk(s: Scalar) {
    (s.Str? ==> IsUtf8(s.s)) && (s.Dbl? ==> s.finite)
  }

  predicate ItemOk(x: Item)
    decreases x, 0
  {
    match x
    case Leaf(s) => ScalarOk(s)
    case Nested(o) => ObjOk(o)
  }

  predicate ItemsOk(xs: seq<Item>)
    decreases xs, 1
  {
    xs == [] || (ItemsOk(xs[..|xs| - 1]) && ItemOk(xs[|xs| - 1]))
  }

  predicate ValueOk(v: Value)
    decreases v, 2
  {
    match v
    case One(x) => ItemOk(x)
    case Many(xs) => ItemsOk(xs)
  }

  predicate FieldsOk(fs: seq<Field>)
    decreases fs, 4
  {
    fs == [] || (FieldsOk(fs[..|fs| - 1]) && ValueOk(fs[|fs| - 1].value))
  }

  predicate ObjOk(o: Obj)
    decreases o, 5
  {
    FieldsOk(o.fields)
  }

  // ---- The emitters ---------------------------------------------------------------

  /** A running length: a count, or the sentinel. */
  predicate IsLength(n: nat) { n <= INT_MAX || n == SIZE_MAX }

  /** The EMIT_STR macro's json_emit_str_(). */
  method EmitStr(buf: array<char>, off: nat, cap: nat, n: nat, s: string) returns (n': nat)
    requires off + cap <= buf.Length && IsLength(n)
    modifies buf
    ensures n' == if IsUtf8(s) then JsonAdd(n, |Quote(s)|) else SIZE_MAX
    ensures n' <= INT_MAX ==> Put(buf, off, cap, n, Quote(s))
    ensures forall i :: 0 <= i < buf.Length && !(off + n <= i < off + cap) ==> buf[i] == old(buf[i])
  {
    hide Quote, IsUtf8;
    var r := MarshalString(buf, DstOff(off, cap, n), DstCap(cap, n), s);
    if r < 0 {
      return SIZE_MAX;
    }
    PutShift(buf, off, cap, n, Quote(s));
    n' := JsonAdd(n, r);
  }

  /** One scalar value; `stop` is the early return its macro makes. */
  method EmitScalar(buf: array<char>, off: nat, cap: nat, n: nat, s: Scalar) returns (n': nat, stop: bool)
    requires off + cap <= buf.Length && IsLength(n)
    modifies buf
    ensures n' == if ScalarOk(s) then JsonAdd(n, |ScalarText(s)|) else SIZE_MAX
    ensures stop ==> n' == SIZE_MAX
    ensures !ScalarOk(s) ==> stop
    ensures n' <= INT_MAX ==> Put(buf, off, cap, n, ScalarText(s))
    ensures forall i :: 0 <= i < buf.Length && !(off + n <= i < off + cap) ==> buf[i] == old(buf[i])
  {
    hide Quote, IsUtf8;
    stop := false;
    match s {
      case Str(t) =>
        n' := EmitStr(buf, off, cap, n, t);
        stop := n' == SIZE_MAX;
      case Num(t) =>
        n' := EmitF(buf, off, cap, n, t);
      case Dbl(finite, t) =>
        if !finite {
          return SIZE_MAX, true;
        }
        n' := EmitRaw(buf, off, cap, n, t);
        stop := n' == SIZE_MAX;
      case Bool(b) =>
        n' := EmitRaw(buf, off, cap, n, if b then "true" else "false");
      case Raw(t) =>
        n' := EmitRaw(buf, off, cap, n, t);
    }
  }

  /** EMIT_SUB for an object, the scalar macros otherwise. */
  method EmitItem(buf: array<char>, off: nat, cap: nat, n: nat, x: Item, ind: Indent, d: nat)
    returns (n': nat, stop: bool)
    requires off + cap <= buf.Length && IsLength(n)
    modifies buf
    ensures n' == if ItemOk(x) then JsonAdd(n, |ItemText(x, ind, d)|) else SIZE_MAX
    ensures stop ==> n' == SIZE_MAX
    ensures !ItemOk(x) ==> stop
    ensures n' <= INT_MAX ==> Put(buf, off, cap, n, ItemText(x, ind, d))
    ensures forall i :: 0 <= i < buf.Length && !(off + n <= i < off + cap) ==> buf[i] == old(buf[i])
    decreases x, 0
  {
    match x {
      case Leaf(s) =>
        n', stop := EmitScalar(buf, off, cap, n, s);
      case Nested(o) =>
        var r := MarshalImpl(buf, DstOff(off, cap, n), DstCap(cap, n), o, ind, d);
        if r == SIZE_MAX {
          return SIZE_MAX, true;
        }
        PutShift(buf, off, cap, n, Text(o, ind, d));
        n' := JsonAdd(n, r);
        stop := false;
    }
  }

  function ElementText(x: Item, comma: bool, ind: Indent, d: nat): string {
    (if comma then "," else "") + IndentText(ind, d) + ItemText(x, ind, d)
  }

  /** One element of an array: the separator, its line, its value. */
  method EmitElement(buf: array<char>, off: nat, cap: nat, n: nat, x: Item, comma: bool, ind: Indent, d: nat)
    returns (n': nat, stop: bool)
    requires off + cap <= buf.Length && IsLength(n)
    modifies buf
    ensures n' == if ItemOk(x) then JsonAdd(n, |ElementText(x, comma, ind, d)|) else SIZE_MAX
    ensures stop ==> n' == SIZE_MAX
    ensures !ItemOk(x) ==> stop
    ensures n' <= INT_MAX ==> Put(buf, off, cap, n, ElementText(x, comma, ind, d))
    ensures forall i :: 0 <= i < buf.Length && !(off + n <= i < off + cap) ==> buf[i] == old(buf[i])
    decreases x, 1
  {
    hide IndentText;
    ghost var sep := if comma then "," else "";
    n' := n;
    if comma {
      n' := EmitCh(buf, off, cap, n, ',');
    }
    assert n' == JsonAdd(n, |sep|) && Put(buf, off, cap, n, sep);
    ghost var separated, m := buf[..], n';
    n' := EmitIndent(buf, off, cap, n', ind, d);
    Extend(separated, buf, off, cap, n, sep, m, IndentText(ind, d), n');
    ghost var indented := buf[..];
    m := n';
    n', stop := EmitItem(buf, off, cap, n', x, ind, d);
    if ItemOk(x) {
      Extend(indented, buf, off, cap, n, sep + IndentText(ind, d), m, ItemText(x, ind, d), n');
    }
  }

  lemma ItemsStep(xs: seq<Item>, i: nat, ind: Indent, d: nat)
    requires i < |xs|
    ensures ItemsText(xs[..i + 1], ind, d) == ItemsText(xs[..i], ind, d) + ElementText(xs[i], i > 0, ind, d)
    ensures ItemsOk(xs[..i + 1]) <==> ItemsOk(xs[..i]) && ItemOk(xs[i])
  {
    hide ItemText, ItemOk, IndentText;
    assert xs[..i + 1][..i] == xs[..i];
  }

  /** Emitting more never shortens, and never repairs, an array. */
  lemma {:induction false} ItemsPrefix(xs: seq<Item>, i: nat, ind: Indent, d: nat)
    requires i <= |xs|
    ensures |ItemsText(xs[..i], ind, d)| <= |ItemsText(xs, ind, d)|
    ensures ItemsOk(xs) ==> ItemsOk(xs[..i])
    decreases |xs| - i
  {
    hide ItemText, ItemOk, IndentText;
    if i == |xs| {
      assert xs[..i] == xs;
    } else {
      ItemsStep(xs, i, ind, d);
      ItemsPrefix(xs, i + 1, ind, d);
    }
  }

  /** The element loop of an array field. */
  method EmitItems(buf: array<char>, off: nat, cap: nat, n: nat, xs: seq<Item>, ind: Indent, d: nat)
    returns (n': nat, stop: bool)
    requires off + cap <= buf.Length && IsLength(n)
    modifies buf
    ensures n' == if ItemsOk(xs) then JsonAdd(n, |ItemsText(xs, ind, d)|) else SIZE_MAX
    ensures stop ==> n' == SIZE_MAX
    ensures !ItemsOk(xs) ==> stop
    ensures n' <= INT_MAX ==> Put(buf, off, cap, n, ItemsText(xs, ind, d))
    ensures forall i :: 0 <= i < buf.Length && !(off + n <= i < off + cap) ==> buf[i] == old(buf[i])
    decreases xs, 2
  {
    hide ItemsText, ItemsOk, ItemOk, ElementText;
    n', stop := n, false;
    NoItems(ind, d);
    assert xs[..0] == [];
    for i := 0 to |xs|
      invariant IsLength(n')
      invariant ItemsOk(xs[..i])
      invariant n' == JsonAdd(n, |ItemsText(xs[..i], ind, d)|)
      invariant n' <= INT_MAX ==> Put(buf, off, cap, n, ItemsText(xs[..i], ind, d))
      invariant forall k :: 0 <= k < buf.Length && !(off + n <= k < off + cap) ==> buf[k] == old(buf[k])
    {
      ghost var before, m := buf[..], n';
      ItemsStep(xs, i, ind, d);
      n', stop := EmitElement(buf, off, cap, n', xs[i], i > 0, ind, d);
      if stop {
        ItemsPrefix(xs, i + 1, ind, d);
        if ItemOk(xs[i]) {
          JsonAddAssoc(n, |ItemsText(xs[..i], ind, d)|, |ElementText(xs[i], i > 0, ind, d)|);
        }
        return;
      }
      Extend(before, buf, off, cap, n, ItemsText(xs[..i], ind, d), m, ElementText(xs[i], i > 0, ind, d), n');
    }
    assert xs[..|xs|] == xs;
  }

  lemma NoItems(ind: Indent, d: nat)
    ensures ItemsText([], ind, d) == "" && ItemsOk([])
  {
  }

  /** The value of a field, after its key. */
  method EmitValue(buf: array<char>, off: nat, cap: nat, n: nat, v: Value, ind: Indent, d: nat)
    returns (n': nat, stop: bool)
    requires off + cap <= buf.Length && IsLength(n)
    modifies buf
    ensures n' == if ValueOk(v) then JsonAdd(n, |ValueText(v, ind, d)|) else SIZE_MAX
    ensures stop ==> n' == SIZE_MAX
    ensures !ValueOk(v) ==> stop
    ensures n' <= INT_MAX ==> Put(buf, off, cap, n, ValueText(v, ind, d))
    ensures forall i :: 0 <= i < buf.Length && !(off + n <= i < off + cap) ==> buf[i] == old(buf[i])
    decreases v, 3
  {
    hide ItemsText, ItemsOk, ItemOk, ItemText, IndentText;
    if v.One? {
      n', stop := EmitItem(buf, off, cap, n, v.item, ind, d);
      return;
    }
    ghost var body := ItemsText(v.items, ind, d + 1);
    n' := EmitCh(buf, off, cap, n, '[');
    ghost var started, m := buf[..], n';
    n', stop := EmitItems(buf, off, cap, n', v.items, ind, d + 1);
    if stop {
      if ItemsOk(v.items) {
        JsonAddAssoc(n, 1, |body|);
        ghost var close := if v.items == [] then "" else IndentText(ind, d);
        assert |ValueText(v, ind, d)| == 1 + |body| + |close| + 1;
      }
      return;
    }
    Extend(started, buf, off, cap, n, "[", m, body, n');
    n' := CloseArray(buf, off, cap, n, "[" + body, n', v.items != [], ind, d);
  }

  /** The end of an array: its own line unless it is empty. */
  method CloseArray(buf: array<char>, off: nat, cap: nat, ghost n: nat, ghost text: string, at: nat,
                    ownLine: bool, ind: Indent, d: nat) returns (n': nat)
    requires off + cap <= buf.Length && IsLength(at)
    requires at == JsonAdd(n, |text|) && (at <= INT_MAX ==> Put(buf, off, cap, n, text))
    modifies buf
    ensures n' == JsonAdd(n, |text + (if ownLine then IndentText(ind, d) else "") + "]"|)
    ensures n' <= INT_MAX ==> Put(buf, off, cap, n, text + (if ownLine then IndentText(ind, d) else "") + "]")
    ensures forall i :: 0 <= i < buf.Length && !(off + at <= i < off + cap) ==> buf[i] == old(buf[i])
  {
    hide IndentText;
    ghost var line := if ownLine then IndentText(ind, d) else "";
    ghost var given := buf[..];
    n' := at;
    if ownLine {
      n' := EmitIndent(buf, off, cap, at, ind, d);
      Extend(given, buf, off, cap, n, text, at, line, n');
    } else {
      assert text + line == text;
    }
    ghost var lined, m := buf[..], n';
    n' := EmitCh(buf, off, cap, n', ']');
    Extend(lined, buf, off, cap, n, text + line, m, "]", n');
  }

  function KeyText(key: string, ind: Indent, d: nat): string {
    IndentText(ind, d) + "\"" + key + "\"" + ColonText(ind)
  }

  /** The shared prefix of a field: its line, its quoted key, the separator. */
  method EmitKey(buf: array<char>, off: nat, cap: nat, n: nat, key: string, ind: Indent, d: nat) returns (n': nat)
    requires off + cap <= buf.Length && IsLength(n)
    modifies buf
    ensures n' == JsonAdd(n, |KeyText(key, ind, d)|)
    ensures n' <= INT_MAX ==> Put(buf, off, cap, n, KeyText(key, ind, d))
    ensures forall i :: 0 <= i < buf.Length && !(off + n <= i < off + cap) ==> buf[i] == old(buf[i])
  {
    hide IndentText;
    ghost var text := IndentText(ind, d);
    n' := EmitIndent(buf, off, cap, n, ind, d);
    ghost var indented, m := buf[..], n';
    n' := EmitCh(buf, off, cap, n', '"');
    Extend(indented, buf, off, cap, n, text, m, "\"", n');
    text := text + "\"";
    ghost var quoted := buf[..];
    m := n';
    n' := EmitRaw(buf, off, cap, n', key);
    Extend(quoted, buf, off, cap, n, text, m, key, n');
    text := text + key;
    ghost var keyed := buf[..];
    m := n';
    n' := EmitCh(buf, off, cap, n', '"');
    Extend(keyed, buf, off, cap, n, text, m, "\"", n');
    text := text + "\"";
    ghost var closed := buf[..];
    m := n';
    n' := EmitColon(buf, off, cap, n', ind);
    Extend(closed, buf, off, cap, n, text, m, ColonText(ind), n');
  }

  /** The EMIT_COLON macro. */
  method EmitColon(buf: array<char>, off: nat, cap: nat, n: nat, ind: Indent) returns (n': nat)
    requires off + cap <= buf.Length && IsLength(n)
    modifies buf
    ensures n' == JsonAdd(n, |ColonText(ind)|)
    ensures n' <= INT_MAX ==> Put(buf, off, cap, n, ColonText(ind))
    ensures forall i :: 0 <= i < buf.Length && !(off + n <= i < off + cap) ==> buf[i] == old(buf[i])
  {
    n' := EmitCh(buf, off, cap, n, ':');
    if ind.Pretty? {
      ghost var coloned, m := buf[..], n';
      n' := EmitCh(buf, off, cap, n', ' ');
      Extend(coloned, buf, off, cap, n, ":", m, " ", n');
      assert ":" + " " == ": ";
    }
  }

  /** One whole field with its trailing comma. */
  method EmitField(buf: array<char>, off: nat, cap: nat, n: nat, f: Field, ind: Indent, d: nat)
    returns (n': nat, stop: bool)
    requires off + cap <= buf.Length && IsLength(n)
    modifies buf
    ensures n' == if ValueOk(f.value) then JsonAdd(n, |FieldText(f, ind, d) + ","|) else SIZE_MAX
    ensures stop ==> n' == SIZE_MAX
    ensures !ValueOk(f.value) ==> stop
    ensures n' <= INT_MAX ==> Put(buf, off, cap, n, FieldText(f, ind, d) + ",")
    ensures forall i :: 0 <= i < buf.Length && !(off + n <= i < off + cap) ==> buf[i] == old(buf[i])
    decreases f, 4
  {
    hide ValueText, ValueOk, IndentText, ColonText;
    ghost var key, value := KeyText(f.key, ind, d), ValueText(f.value, ind, d);
    assert FieldText(f, ind, d) == key + value;
    n' := EmitKey(buf, off, cap, n, f.key, ind, d);
    ghost var keyed, m := buf[..], n';
    n', stop := EmitValue(buf, off, cap, n', f.value, ind, d);
    if stop {
      if ValueOk(f.value) {
        JsonAddAssoc(n, |key|, |value|);
        assert |FieldText(f, ind, d) + ","| == |key| + |value| + 1;
      }
      return;
    }
    Extend(keyed, buf, off, cap, n, key, m, value, n');
    ghost var valued := buf[..];
    m := n';
    n' := EmitCh(buf, off, cap, n', ',');
    Extend(valued, buf, off, cap, n, key + value, m, ",", n');
  }

  /** The fields as they are emitted: each with a trailing comma. */
  function Terminated(fs: seq<Field>, ind: Indent, d: nat): string {
    if fs == [] then "" else Terminated(fs[..|fs| - 1], ind, d) + (FieldText(fs[|fs| - 1], ind, d) + ",")
  }

  /** Backing over the last comma leaves the fields separated by commas. */
  lemma {:induction false} TerminatedIsSeparated(fs: seq<Field>, ind: Indent, d: nat)
    requires fs != []
    ensures Terminated(fs, ind, d) == FieldsText(fs, ind, d) + ","
  {
    hide FieldText;
    if |fs| > 1 {
      TerminatedIsSeparated(fs[..|fs| - 1], ind, d);
    } else {
      assert fs[..0] == [];
      assert Terminated(fs[..0], ind, d) == "";
    }
  }

  lemma FieldsStep(fs: seq<Field>, i: nat, ind: Indent, d: nat)
    requires i < |fs|
    ensures Terminated(fs[..i + 1], ind, d) == Terminated(fs[..i], ind, d) + (FieldText(fs[i], ind, d) + ",")
    ensures FieldsOk(fs[..i + 1]) <==> FieldsOk(fs[..i]) && ValueOk(fs[i].value)
  {
    hide FieldText, ValueOk;
    assert fs[..i + 1][..i] == fs[..i];
  }

  lemma {:induction false} FieldsPrefix(fs: seq<Field>, i: nat, ind: Indent, d: nat)
    requires i <= |fs|
    ensures |Terminated(fs[..i], ind, d)| <= |Terminated(fs, ind, d)|
    ensures FieldsOk(fs) ==> FieldsOk(fs[..i])
    decreases |fs| - i
  {
    hide FieldText, ValueOk;
    if i == |fs| {
      assert fs[..i] == fs;
    } else {
      FieldsStep(fs, i, ind, d);
      FieldsPrefix(fs, i + 1, ind, d);
    }
  }

  lemma NoFields(ind: Indent, d: nat)
    ensures Terminated([], ind, d) == "" && FieldsOk([])
  {
  }

  /** The field sequence of an object. */
  method EmitFields(buf: array<char>, off: nat, cap: nat, n: nat, fs: seq<Field>, ind: Indent, d: nat)
    returns (n': nat, stop: bool)
    requires off + cap <= buf.Length && IsLength(n)
    modifies buf
    ensures n' == if FieldsOk(fs) then JsonAdd(n, |Terminated(fs, ind, d)|) else SIZE_MAX
    ensures stop ==> n' == SIZE_MAX
    ensures !FieldsOk(fs) ==> stop
    ensures n' <= INT_MAX ==> Put(buf, off, cap, n, Terminated(fs, ind, d))
    ensures forall i :: 0 <= i < buf.Length && !(off + n <= i < off + cap) ==> buf[i] == old(buf[i])
    decreases fs, 5
  {
    hide Terminated, FieldsOk, ValueOk, FieldText;
    n', stop := n, false;
    NoFields(ind, d);
    assert fs[..0] == [];
    for i := 0 to |fs|
      invariant IsLength(n')
      invariant FieldsOk(fs[..i])
      invariant n' == JsonAdd(n, |Terminated(fs[..i], ind, d)|)
      invariant n' <= INT_MAX ==> Put(buf, off, cap, n, Terminated(fs[..i], ind, d))
      invariant forall k :: 0 <= k < buf.Length && !(off + n <= k < off + cap) ==> buf[k] == old(buf[k])
    {
      ghost var before, m := buf[..], n';
      FieldsStep(fs, i, ind, d);
      n', stop := EmitField(buf, off, cap, n', fs[i], ind, d);
      if stop {
        FieldsPrefix(fs, i + 1, ind, d);
        if ValueOk(fs[i].value) {
          JsonAddAssoc(n, |Terminated(fs[..i], ind, d)|, |FieldText(fs[i], ind, d) + ","|);
        }
        return;
      }
      Extend(before, buf, off, cap, n, Terminated(fs[..i], ind, d), m, FieldText(fs[i], ind, d) + ",", n');
    }
    assert fs[..|fs|] == fs;
  }

  /** The closing brace: back over the trailing comma, if any field was emitted.
      The sentinel survives the decrement, because the next octet saturates
      it again. */
  method CloseObject(buf: array<char>, off: nat, cap: nat, n: nat, ghost o: Obj, ghost text: string,
                     ind: Indent, d: nat) returns (n': nat)
    requires off + cap <= buf.Length
    requires n == Length(|text|) && (n <= INT_MAX ==> Put(buf, off, cap, 0, text))
    requires text == "{" + Terminated(o.fields, ind, d + 1)
    modifies buf
    ensures n' == Length(|Text(o, ind, d)|)
    ensures n' <= INT_MAX ==> Put(buf, off, cap, 0, Text(o, ind, d))
    ensures forall i :: 0 <= i < buf.Length && !(off <= i < off + cap) ==> buf[i] == old(buf[i])
  {
    hide IndentText, FieldsText, FieldText;
    ghost var body := if o.fields == [] then "{" else "{" + FieldsText(o.fields, ind, d + 1);
    ghost var line := if o.fields == [] then "" else IndentText(ind, d);
    if o.fields != [] {
      TerminatedIsSeparated(o.fields, ind, d + 1);
      assert text == body + ",";
    } else {
      NoFields(ind, d + 1);
    }
    assert Text(o, ind, d) == body + line + "}" by { NoFieldsText(ind, d + 1); }
    n' := n;
    if n > 1 {
      n' := n - 1;
      assert text == body + ",";
      assert forall i :: 0 <= i < |body| ==> text[i] == body[i];
      assert n <= INT_MAX ==> Put(buf, off, cap, 0, body);
      ghost var backed, m := buf[..], n';
      n' := EmitIndent(buf, off, cap, n', ind, d);
      if n <= INT_MAX {
        Extend(backed, buf, off, cap, 0, body, m, line, n');
      }
    }
    ghost var lined, m := buf[..], n';
    n' := EmitCh(buf, off, cap, n', '}');
    if n <= INT_MAX {
      Extend(lined, buf, off, cap, 0, body + line, m, "}", n');
    }
  }

  lemma NoFieldsText(ind: Indent, d: nat)
    ensures FieldsText([], ind, d) == ""
  {
  }

  /** The generated marshal of one object, terminator included. */
  method MarshalImpl(buf: array<char>, off: nat, cap: nat, o: Obj, ind: Indent, d: nat) returns (n: nat)
    requires off + cap <= buf.Length
    modifies buf
    ensures n == if ObjOk(o) then Length(|Text(o, ind, d)|) else SIZE_MAX
    ensures n <= INT_MAX ==> Put(buf, off, cap, 0, Text(o, ind, d))
    ensures n <= INT_MAX && cap > 0 ==> buf[off + (if n < cap then n else cap - 1)] == '\0'
    ensures forall i :: 0 <= i < buf.Length && !(off <= i < off + cap) ==> buf[i] == old(buf[i])
    decreases o, 6
  {
    hide Text, FieldsOk, Terminated;
    var stop;
    n := EmitCh(buf, off, cap, 0, '{');
    ghost var started := buf[..];
    n, stop := EmitFields(buf, off, cap, n, o.fields, ind, d + 1);
    if stop {
      if FieldsOk(o.fields) {
        TextOverflows(o, ind, d);
      }
      return SIZE_MAX;
    }
    ghost var text := "{" + Terminated(o.fields, ind, d + 1);
    Extend(started, buf, off, cap, 0, "{", 1, Terminated(o.fields, ind, d + 1), n);
    n := CloseObject(buf, off, cap, n, o, text, ind, d);
    ghost var closed := buf[..];
    if cap > 0 {
      buf[off + (if n < cap then n else cap - 1)] := '\0';
      PutTerminated(closed, buf, off, cap, n, Text(o, ind, d));
    }
  }

  lemma TextOverflows(o: Obj, ind: Indent, d: nat)
    requires JsonAdd(1, |Terminated(o.fields, ind, d + 1)|) == SIZE_MAX
    ensures Length(|Text(o, ind, d)|) == SIZE_MAX
  {
    hide IndentText, FieldText;
    NoFields(ind, d + 1);
    TerminatedIsSeparated(o.fields, ind, d + 1);
  }

  lemma PutTerminated(c: seq<char>, buf: array<char>, off: nat, cap: nat, n: nat, text: string)
    requires off + cap <= buf.Length == |c| && cap > 0
    requires n <= INT_MAX ==> n == |text| && PutIn(c, off, cap, 0, text)
    requires forall i :: 0 <= i < buf.Length && i != off + (if n < cap then n else cap - 1) ==> buf[i] == c[i]
    ensures n <= INT_MAX ==> Put(buf, off, cap, 0, text)
  {
  }

  /** The public marshal: for every tree, indent and buffer size the result is
      the length of the unbounded rendering, or -1 when that has no int form or
      the tree no JSON form; the buffer holds exactly its first
      min(r, bufsz - 1) octets and a terminator. */
  method MarshalObject(buf: array<char>, bufsz: nat, o: Obj, ind: Indent) returns (r: int)
    requires bufsz <= buf.Length
    modifies buf
    ensures r == if ObjOk(o) && |Text(o, ind, 0)| <= INT_MAX then |Text(o, ind, 0)| else -1
    ensures r >= 0 && bufsz > 0 ==>
              var kept := if r < bufsz then r else bufsz - 1;
              buf[..kept] == Text(o, ind, 0)[..kept] && buf[kept] == '\0'
    ensures buf[bufsz..] == old(buf[bufsz..])
  {
    hide Text, ObjOk;
    var n := MarshalImpl(buf, 0, bufsz, o, ind, 0);
    r := CheckedInt(n);
    if r >= 0 && bufsz > 0 {
      ghost var kept := if r < bufsz then r else bufsz - 1;
      ghost var text := Text(o, ind, 0);
      forall i | 0 <= i < kept ensures buf[..kept][i] == text[..kept][i] {
        assert buf[0 + 0 + i] == text[i];
      }
    }
  }
}
