/** Integer fields of a schema, compiled twice: to inline C checks for the
    function backend and to a descriptor table for the size backend.  The C
    type of the field is inferred from its bounds. */
module IntegerSchema {

  import opened Basics

  /** A JSON value in const or enum: a number, or anything else. */
  datatype Json = Number(r: real) | Other

  datatype Schema = Schema(
    minimum: Option<real>,
    maximum: Option<real>,
    exclMin: Option<real>,
    exclMax: Option<real>,
    multipleOf: Option<real>,
    konst: Option<Json>,
    enums: Option<seq<Json>>)

  datatype CType = CInt | CUnsigned | CIntmax | CUintmax

  const INT32_MAX := 0x7FFF_FFFF
  const UINT32_MAX := 0xFFFF_FFFF
  const UINT64_MAX := 0xFFFF_FFFF_FFFF_FFFF

  /** _C_TYPE_RANGE */
  function Lo(t: CType): int {
    match t
    case CInt => -INT32_MAX - 1
    case CIntmax => -INT64_MAX - 1
    case _ => 0
  }

  function Hi(t: CType): int {
    match t
    case CInt => INT32_MAX
    case CUnsigned => UINT32_MAX
    case CIntmax => INT64_MAX
    case CUintmax => UINT64_MAX
  }

  predicate Holds(t: CType, v: int) { Lo(t) <= v <= Hi(t) }

  /** The width descriptor tables store a constraint in. */
  function Wide(t: CType): CType {
    if t == CUnsigned || t == CUintmax then CUintmax else CIntmax
  }

  /** math.ceil() and math.floor() */
  function Ceil(r: real): int { if r.Floor as real == r then r.Floor else r.Floor + 1 }
  function Floor(r: real): int { r.Floor }

  lemma Rounding(r: real, v: int)
    ensures v as real >= r <==> v >= Ceil(r)
    ensures v as real <= r <==> v <= Floor(r)
  {
    if v <= r.Floor - 1 { assert v as real <= r.Floor as real - 1.0; }
    if v >= r.Floor + 1 { assert v as real >= r.Floor as real + 1.0; }
  }

  predicate Integral(r: real) { r.Floor as real == r }

  /** The integer branch of _infer_c_type(); None is a raw JSON fragment. */
  function InferType(s: Schema): Option<CType> {
    var lo := if s.minimum.Some? then Some(Ceil(s.minimum.value)) else None;
    var hi := if s.maximum.Some? then Some(Floor(s.maximum.value)) else None;
    if (lo.Some? && lo.value < Lo(CIntmax)) || (hi.Some? && hi.value > UINT64_MAX) ||
       (lo.Some? && lo.value < 0 && hi.Some? && hi.value > INT64_MAX)
    then None
    else if lo.Some? && hi.Some? && lo.value >= 0 && hi.value <= UINT32_MAX then Some(CUnsigned)
    else if lo.Some? && hi.Some? && lo.value >= Lo(CInt) && hi.value <= INT32_MAX then Some(CInt)
    else if lo.Some? && lo.value >= 0 then Some(CUintmax)
    else Some(CIntmax)
  }

  // ---- What the schema admits --------------------------------------------------------

  predicate Times(v: int, k: int, m: real) { v as real == k as real * m }

  ghost predicate IsMultiple(v: int, m: real) { exists k: int :: Times(v, k, m) }

  ghost predicate Equals(v: int, j: Json) { j == Number(v as real) }

  ghost predicate InBounds(s: Schema, v: int) {
    && (s.minimum.Some? ==> v as real >= s.minimum.value)
    && (s.maximum.Some? ==> v as real <= s.maximum.value)
    && (s.exclMin.Some? ==> v as real > s.exclMin.value)
    && (s.exclMax.Some? ==> (v as real) < s.exclMax.value)
  }

  ghost predicate InConsts(s: Schema, v: int) {
    && (s.konst.Some? ==> Equals(v, s.konst.value))
    && (s.enums.Some? ==> exists i :: 0 <= i < |s.enums.value| && Equals(v, s.enums.value[i]))
  }

  ghost predicate Admits(s: Schema, v: int) {
    InBounds(s, v) && InConsts(s, v) && (s.multipleOf.Some? ==> IsMultiple(v, s.multipleOf.value))
  }

  // ---- Bounds over the integers --------------------------------------------------------

  /** The four bounds once tightened: a non-integral exclusive bound becomes an
      inclusive one. */
  datatype Bounds = Bounds(lo: Option<int>, hi: Option<int>, above: Option<int>, below: Option<int>)

  function MaxOf(a: int, b: int): int { if a > b then a else b }
  function Tighten(s: Schema): Bounds {
    var lo := if s.minimum.Some? then Some(Ceil(s.minimum.value)) else None;
    var hi := if s.maximum.Some? then Some(Floor(s.maximum.value)) else None;
    var lo' := if s.exclMin.Some? && !Integral(s.exclMin.value)
               then (if lo.None? then Some(Ceil(s.exclMin.value)) else Some(MaxOf(lo.value, Ceil(s.exclMin.value))))
               else lo;
    var hi' := if s.exclMax.Some? && !Integral(s.exclMax.value)
               then (if hi.None? then Some(Floor(s.exclMax.value)) else Some(MinOf(hi.value, Floor(s.exclMax.value))))
               else hi;
    Bounds(lo', hi',
           if s.exclMin.Some? && Integral(s.exclMin.value) then Some(s.exclMin.value.Floor) else None,
           if s.exclMax.Some? && Integral(s.exclMax.value) then Some(s.exclMax.value.Floor) else None)
  }

  predicate Within(b: Bounds, v: int) {
    && (b.lo.Some? ==> v >= b.lo.value)
    && (b.hi.Some? ==> v <= b.hi.value)
    && (b.above.Some? ==> v > b.above.value)
    && (b.below.Some? ==> v < b.below.value)
  }

  lemma IntegralInt(v: int)
    ensures Integral(v as real) && (v as real).Floor == v
  {
  }

  lemma Exclusive(r: real, v: int)
    requires !Integral(r)
    ensures v as real > r <==> v >= Ceil(r)
    ensures (v as real) < r <==> v <= Floor(r)
  {
    Rounding(r, v);
    IntegralInt(v);
  }

  /** Tightening changes nothing about which integers are in bounds. */
  lemma TightenExact(s: Schema, v: int)
    ensures Within(Tighten(s), v) <==> InBounds(s, v)
  {
    hide Ceil, Floor, Integral;
    if s.minimum.Some? { Rounding(s.minimum.value, v); }
    if s.maximum.Some? { Rounding(s.maximum.value, v); }
    if s.exclMin.Some? { ExclusiveBound(s.exclMin.value, v); }
    if s.exclMax.Some? { ExclusiveBound(s.exclMax.value, v); }
  }

  lemma ExclusiveBound(r: real, v: int)
    ensures v as real > r <==> if Integral(r) then v > r.Floor else v >= Ceil(r)
    ensures (v as real) < r <==> if Integral(r) then v < r.Floor else v <= Floor(r)
  {
    if !Integral(r) { Exclusive(r, v); }
  }

  // ---- const and enum ----------------------------------------------------------------

  /** _unmatchable_reason() is None: an instance of the field can equal it. */
  predicate Matchable(j: Json, t: CType) {
    j.Number? && Integral(j.r) && Holds(t, j.r.Floor)
  }

  function Kept(js: seq<Json>, t: CType): seq<int> {
    if js == [] then []
    else Kept(js[..|js| - 1], t) + (if Matchable(js[|js| - 1], t) then [js[|js| - 1].r.Floor] else [])
  }

  /** Dropping the members no instance can equal changes no verdict. */
  lemma {:induction false} KeptExact(js: seq<Json>, t: CType, v: int)
    requires Holds(t, v)
    ensures v in Kept(js, t) <==> exists i :: 0 <= i < |js| && Equals(v, js[i])
  {
    if js != [] {
      var init, last := js[..|js| - 1], js[|js| - 1];
      KeptExact(init, t, v);
      IntegralInt(v);
      if i :| 0 <= i < |init| && Equals(v, init[i]) { assert Equals(v, js[i]); }
      if i :| 0 <= i < |js| && Equals(v, js[i]) && i < |init| { assert Equals(v, init[i]); }
      assert Equals(v, last) <==> Matchable(last, t) && last.r.Floor == v;
    }
  }

  // ---- The two backends ---------------------------------------------------------------

  /** One emitted check: the instance is refused when it holds. */
  datatype Check =
    | IfLess(n: int)
    | IfGreater(n: int)
    | IfAtMost(n: int)
    | IfAtLeast(n: int)
    | IfNotMultiple(n: int)
    | IfDiffers(n: int)
    | IfNotAmong(ns: seq<int>)

  /** C's remainder truncates toward zero. */
  function CRem(v: int, m: int): int
    requires m > 0
  {
    if v >= 0 then v % m else -((-v) % m)
  }

  predicate Refuses(c: Check, v: int) {
    match c
    case IfLess(n) => v < n
    case IfGreater(n) => v > n
    case IfAtMost(n) => v <= n
    case IfAtLeast(n) => v >= n
    case IfNotMultiple(n) => n > 0 && CRem(v, n) != 0
    case IfDiffers(n) => v != n
    case IfNotAmong(ns) => v !in ns
  }

  predicate PassesAll(cs: seq<Check>, v: int) {
    forall i :: 0 <= i < |cs| ==> !Refuses(cs[i], v)
  }

  /** One keyword's contribution: generation aborts, or these checks. */
  datatype Part = Abort | Emit(checks: seq<Check>)

  function Append(a: Part, b: Part): Part {
    if a.Abort? || b.Abort? then Abort else Emit(a.checks + b.checks)
  }

  /** A value spelled as a literal of type `t`; out of range aborts. */
  function Spelled(t: CType, n: int, c: Check): Part {
    if Holds(t, n) then Emit([c]) else Abort
  }

  /** The bound keywords of the inline backend: drop what constrains nothing
      for the field's type, abort on what excludes every value of it. */
  function BoundParts(b: Bounds, t: CType): Part {
    Append(Append(LoPart(b, t), HiPart(b, t)),
           Append(AbovePart(b, t), BelowPart(b, t)))
  }

  function LoPart(b: Bounds, t: CType): Part {
    if b.lo.None? || b.lo.value <= Lo(t) then Emit([])
    else if b.lo.value > Hi(t) then Abort
    else Spelled(t, b.lo.value, IfLess(b.lo.value))
  }

  function HiPart(b: Bounds, t: CType): Part {
    if b.hi.None? || b.hi.value >= Hi(t) then Emit([])
    else if b.hi.value < Lo(t) then Abort
    else Spelled(t, b.hi.value, IfGreater(b.hi.value))
  }

  function AbovePart(b: Bounds, t: CType): Part {
    if b.above.None? || b.above.value < Lo(t) then Emit([])
    else if b.above.value >= Hi(t) then Abort
    else Spelled(t, b.above.value, IfAtMost(b.above.value))
  }

  function BelowPart(b: Bounds, t: CType): Part {
    if b.below.None? || b.below.value > Hi(t) then Emit([])
    else if b.below.value <= Lo(t) then Abort
    else Spelled(t, b.below.value, IfAtLeast(b.below.value))
  }

  predicate UsableDivisor(m: real) { m > 0.0 && Integral(m) }

  /** multipleOf: a divisor outside the field's type is taken in the wide one. */
  function InlineMult(s: Schema, field: CType): Part {
    if s.multipleOf.None? || !UsableDivisor(s.multipleOf.value) then Emit([])
    else
      var m := s.multipleOf.value.Floor;
      if Holds(field, m) then Emit([IfNotMultiple(m)]) else Spelled(Wide(field), m, IfNotMultiple(m))
  }

  function ConstParts(s: Schema, t: CType): Part {
    Append(
      if s.konst.None? then Emit([])
      else if !Matchable(s.konst.value, t) then Abort
      else Spelled(t, s.konst.value.r.Floor, IfDiffers(s.konst.value.r.Floor)),
      if s.enums.None? then Emit([])
      else if Kept(s.enums.value, t) == [] then Abort
      else Emit([IfNotAmong(Kept(s.enums.value, t))]))
  }

  /** _scalar_constraint_checks() for an integer field of type `t`. */
  function Inline(s: Schema, t: CType): Part {
    Append(Append(BoundParts(Tighten(s), t), InlineMult(s, t)), ConstParts(s, t))
  }

  /** struct json_constraint: a present value is a set flag. */
  datatype Descriptor = Descriptor(
    min: Option<int>, max: Option<int>, exclMin: Option<int>, exclMax: Option<int>,
    mult: Option<int>, konst: Option<int>, enums: Option<seq<int>>)

  /** What _build_constraint_c() keeps of a value: nothing when it constrains
      nothing in the wide type the table stores. */
  function Keep(v: Option<int>, significant: bool): Option<int> {
    if v.Some? && significant then v else None
  }

  predicate BoundAborts(b: Bounds, t: CType) {
    var w := Wide(t);
    || (b.lo.Some? && b.lo.value > Lo(w) && (b.lo.value > Hi(t) || !Holds(w, b.lo.value)))
    || (b.hi.Some? && b.hi.value < Hi(w) && (b.hi.value < Lo(t) || !Holds(w, b.hi.value)))
    || (b.above.Some? && b.above.value >= Lo(w) && (b.above.value >= Hi(t) || !Holds(w, b.above.value)))
    || (b.below.Some? && b.below.value <= Hi(w) && (b.below.value <= Lo(t) || !Holds(w, b.below.value)))
  }

  predicate MultAborts(s: Schema, t: CType) {
    s.multipleOf.Some? && UsableDivisor(s.multipleOf.value) && !Holds(Wide(t), s.multipleOf.value.Floor)
  }

  predicate ConstAborts(s: Schema, t: CType) {
    || (s.konst.Some? && (!Matchable(s.konst.value, t) || !Holds(Wide(t), s.konst.value.r.Floor)))
    || (s.enums.Some? && Kept(s.enums.value, t) == [])
  }

  predicate TableAborts(s: Schema, t: CType) {
    BoundAborts(Tighten(s), t) || MultAborts(s, t) || ConstAborts(s, t)
  }

  /** _build_constraint_c() for the same field. */
  function Table(s: Schema, t: CType): Option<Descriptor> {
    if TableAborts(s, t) then None
    else
      var b, w := Tighten(s), Wide(t);
      Some(Descriptor(
        Keep(b.lo, b.lo.Some? && b.lo.value > Lo(w)),
        Keep(b.hi, b.hi.Some? && b.hi.value < Hi(w)),
        Keep(b.above, b.above.Some? && b.above.value >= Lo(w)),
        Keep(b.below, b.below.Some? && b.below.value <= Hi(w)),
        if s.multipleOf.Some? && UsableDivisor(s.multipleOf.value) then Some(s.multipleOf.value.Floor) else None,
        if s.konst.Some? && s.konst.value.Number? then Some(s.konst.value.r.Floor) else None,
        if s.enums.Some? then Some(Kept(s.enums.value, t)) else None))
  }

  /** json_check_int() and json_check_uint() */
  predicate JsonCheck(d: Descriptor, v: int) {
    if d.min.Some? && v < d.min.value then false
    else if d.max.Some? && v > d.max.value then false
    else if d.exclMin.Some? && v <= d.exclMin.value then false
    else if d.exclMax.Some? && v >= d.exclMax.value then false
    else if d.mult.Some? && d.mult.value > 0 && CRem(v, d.mult.value) != 0 then false
    else if d.konst.Some? && v != d.konst.value then false
    else if d.enums.Some? && v !in d.enums.value then false
    else true
  }

  // ---- They agree -----------------------------------------------------------------------

  lemma PassesAppend(a: Part, b: Part, v: int)
    requires a.Emit? && b.Emit?
    ensures Append(a, b).Emit?
    ensures PassesAll(Append(a, b).checks, v) <==> PassesAll(a.checks, v) && PassesAll(b.checks, v)
  {
    var cs, n := Append(a, b).checks, |a.checks|;
    if PassesAll(cs, v) {
      forall i | 0 <= i < n ensures !Refuses(a.checks[i], v) { assert cs[i] == a.checks[i]; }
      forall i | 0 <= i < |b.checks| ensures !Refuses(b.checks[i], v) { assert cs[n + i] == b.checks[i]; }
    }
    if PassesAll(a.checks, v) && PassesAll(b.checks, v) {
      forall i | 0 <= i < |cs| ensures !Refuses(cs[i], v) {
        assert cs[i] == if i < n then a.checks[i] else b.checks[i - n];
      }
    }
  }

  /** The bounds part passes exactly the values within the bounds. */
  lemma BoundPartsExact(b: Bounds, t: CType, v: int)
    requires Holds(t, v) && BoundParts(b, t).Emit?
    ensures PassesAll(BoundParts(b, t).checks, v) <==> Within(b, v)
  {
    PassesAppend(LoPart(b, t), HiPart(b, t), v);
    PassesAppend(AbovePart(b, t), BelowPart(b, t), v);
    PassesAppend(Append(LoPart(b, t), HiPart(b, t)), Append(AbovePart(b, t), BelowPart(b, t)), v);
    PassesOne(LoPart(b, t), v);
    PassesOne(HiPart(b, t), v);
    PassesOne(AbovePart(b, t), v);
    PassesOne(BelowPart(b, t), v);
  }

  lemma PassesOne(p: Part, v: int)
    ensures p == Emit([]) ==> PassesAll(p.checks, v)
    ensures p.Emit? && |p.checks| == 1 ==> (PassesAll(p.checks, v) <==> !Refuses(p.checks[0], v))
  {
  }

  /** A refused bound leaves no value of the field's type. */
  lemma BoundPartsRefusal(b: Bounds, t: CType, v: int)
    requires Holds(t, v) && BoundParts(b, t).Abort?
    ensures !Within(b, v)
  {
  }

  lemma ConstPartsExact(s: Schema, t: CType, v: int)
    requires Holds(t, v) && ConstParts(s, t).Emit?
    ensures PassesAll(ConstParts(s, t).checks, v) <==> InConsts(s, v)
  {
    hide Kept;
    var p1 := if s.konst.None? then Emit([])
              else if !Matchable(s.konst.value, t) then Abort
              else Spelled(t, s.konst.value.r.Floor, IfDiffers(s.konst.value.r.Floor));
    var p2 := if s.enums.None? then Emit([])
              else if Kept(s.enums.value, t) == [] then Abort
              else Emit([IfNotAmong(Kept(s.enums.value, t))]);
    PassesAppend(p1, p2, v);
    PassesOne(p1, v);
    PassesOne(p2, v);
    IntegralInt(v);
    if s.enums.Some? {
      KeptExact(s.enums.value, t, v);
    }
  }

  lemma ConstPartsRefusal(s: Schema, t: CType, v: int)
    requires Holds(t, v) && ConstParts(s, t).Abort?
    ensures !InConsts(s, v)
  {
    hide Kept;
    IntegralInt(v);
    if s.enums.Some? { KeptExact(s.enums.value, t, v); }
  }

  lemma RemainderExact(v: int, m: int, r: real)
    requires m > 0 && r == m as real
    ensures CRem(v, m) == 0 <==> IsMultiple(v, r)
  {
    if CRem(v, m) == 0 {
      var k := if v >= 0 then v / m else -((-v) / m);
      assert v == k * m;
      assert (k * m) as real == k as real * r;
      assert Times(v, k, r);
    }
    if IsMultiple(v, r) {
      var k :| Times(v, k, r);
      assert (k * m) as real == k as real * r;
      assert v == k * m;
      DivisibleBy(k, m);
      DivisibleBy(-k, m);
      assert -v == -k * m;
    }
  }

  lemma DivisibleBy(k: int, m: int)
    requires m > 0
    ensures (k * m) % m == 0
  {
    ModUnique(k * m, k, m, 0);
  }

  lemma MultExact(s: Schema, t: CType, v: int)
    requires InlineMult(s, t).Emit?
    requires s.multipleOf.Some? ==> UsableDivisor(s.multipleOf.value)
    ensures PassesAll(InlineMult(s, t).checks, v) <==> (s.multipleOf.Some? ==> IsMultiple(v, s.multipleOf.value))
  {
    hide IsMultiple, CRem;
    if s.multipleOf.Some? {
      var m := s.multipleOf.value.Floor;
      assert m > 0;
      RemainderExact(v, m, s.multipleOf.value);
      assert InlineMult(s, t).checks == [IfNotMultiple(m)];
      assert PassesAll([IfNotMultiple(m)], v) <==> !Refuses([IfNotMultiple(m)][0], v);
    }
  }

  lemma InlineParts(s: Schema, t: CType, v: int)
    requires Inline(s, t).Emit?
    ensures BoundParts(Tighten(s), t).Emit? && InlineMult(s, t).Emit? && ConstParts(s, t).Emit?
    ensures PassesAll(Inline(s, t).checks, v) <==>
            PassesAll(BoundParts(Tighten(s), t).checks, v) && PassesAll(InlineMult(s, t).checks, v) &&
            PassesAll(ConstParts(s, t).checks, v)
  {
    hide BoundParts, ConstParts, Tighten, InlineMult, PassesAll;
    PassesAppend(BoundParts(Tighten(s), t), InlineMult(s, t), v);
    PassesAppend(Append(BoundParts(Tighten(s), t), InlineMult(s, t)), ConstParts(s, t), v);
  }

  ghost predicate TableDivides(s: Schema, v: int) {
    s.multipleOf.Some? && UsableDivisor(s.multipleOf.value) ==> CRem(v, s.multipleOf.value.Floor) == 0
  }

  /** What the descriptor accepts, in terms of the schema's own keywords. */
  lemma TableExact(s: Schema, t: CType, v: int)
    requires Table(s, t).Some? && Holds(t, v)
    ensures JsonCheck(Table(s, t).value, v) <==> Within(Tighten(s), v) && TableDivides(s, v) && InConsts(s, v)
  {
    hide Tighten, Kept, CRem;
    IntegralInt(v);
    if s.enums.Some? { KeptExact(s.enums.value, t, v); }
  }

  lemma InlineMultExact(s: Schema, t: CType, v: int)
    requires InlineMult(s, t).Emit?
    ensures PassesAll(InlineMult(s, t).checks, v) <==> TableDivides(s, v)
  {
    hide CRem;
    PassesOne(InlineMult(s, t), v);
  }

  lemma BoundRefusalsAgree(b: Bounds, t: CType)
    ensures BoundParts(b, t).Abort? <==> BoundAborts(b, t)
  {
  }

  lemma ConstRefusalsAgree(s: Schema, t: CType)
    ensures ConstParts(s, t).Abort? <==> ConstAborts(s, t)
  {
    hide Kept, Matchable;
    if s.konst.Some? { MatchableHolds(s.konst.value, t); }
  }

  /** Both backends refuse the same schemas. */
  lemma RefusalsAgree(s: Schema, t: CType)
    ensures Inline(s, t).Abort? <==> Table(s, t).None?
  {
    hide Tighten, BoundParts, BoundAborts, ConstParts, ConstAborts;
    BoundRefusalsAgree(Tighten(s), t);
    ConstRefusalsAgree(s, t);
  }

  lemma MatchableHolds(j: Json, t: CType)
    ensures Matchable(j, t) ==> j.Number? && Holds(t, j.r.Floor)
  {
  }

  /** On every schema neither refuses, the inline checks and the descriptor
      accept the same values of the field's C type. */
  lemma BackendsAgree(s: Schema, t: CType, v: int)
    requires Inline(s, t).Emit? && Holds(t, v)
    ensures Table(s, t).Some?
    ensures PassesAll(Inline(s, t).checks, v) <==> JsonCheck(Table(s, t).value, v)
  {
    hide BoundParts, ConstParts, InlineMult, Tighten, Table, JsonCheck, Within, InConsts, PassesAll, TableDivides;
    RefusalsAgree(s, t);
    InlineParts(s, t, v);
    BoundPartsExact(Tighten(s), t, v);
    InlineMultExact(s, t, v);
    ConstPartsExact(s, t, v);
    TableExact(s, t, v);
  }

  predicate DivisorSupported(s: Schema) {
    s.multipleOf.Some? ==> UsableDivisor(s.multipleOf.value)
  }

  /** With a supported divisor, or none, the values accepted are exactly those
      the schema admits. */
  lemma AcceptsWhatSchemaAdmits(s: Schema, t: CType, v: int)
    requires DivisorSupported(s) && Inline(s, t).Emit? && Holds(t, v)
    ensures PassesAll(Inline(s, t).checks, v) <==> Admits(s, v)
  {
    hide BoundParts, ConstParts, Tighten, InlineMult, PassesAll, InBounds, InConsts, Within, IsMultiple;
    InlineParts(s, t, v);
    BoundPartsExact(Tighten(s), t, v);
    TightenExact(s, v);
    MultExact(s, t, v);
    ConstPartsExact(s, t, v);
  }

  /** The schema the field really enforces: an unsupported divisor is ignored. */
  function Enforced(s: Schema): Schema {
    if DivisorSupported(s) then s else s.(multipleOf := None)
  }

  /** On every schema that is not refused, the values accepted are exactly those
      the enforced schema admits; so a value the schema itself rules out gets
      through if and only if the divisor is unsupported and alone rules it out. */
  lemma AcceptsExactly(s: Schema, t: CType, v: int)
    requires Inline(s, t).Emit? && Holds(t, v)
    ensures PassesAll(Inline(s, t).checks, v) <==> Admits(Enforced(s), v)
    ensures (PassesAll(Inline(s, t).checks, v) && !Admits(s, v)) <==>
            !DivisorSupported(s) && InBounds(s, v) && InConsts(s, v) && !IsMultiple(v, s.multipleOf.value)
  {
    hide BoundParts, ConstParts, Tighten, InlineMult, PassesAll, InBounds, Within, IsMultiple;
    if DivisorSupported(s) {
      AcceptsWhatSchemaAdmits(s, t, v);
    } else {
      InlineParts(s, t, v);
      BoundPartsExact(Tighten(s), t, v);
      TightenExact(s, v);
      InlineMultExact(s, t, v);
      ConstPartsExact(s, t, v);
      BoundsAlone(s, v);
    }
  }

  lemma BoundsAlone(s: Schema, v: int)
    ensures InBounds(s.(multipleOf := None), v) <==> InBounds(s, v)
  {
  }

  /** A schema is refused only when no value of the field's type satisfies it,
      or when its divisor has no spelling in the widest type. */
  lemma RefusalJustified(s: Schema, t: CType, v: int)
    requires Inline(s, t).Abort? && Holds(t, v)
    ensures !Admits(s, v) ||
            (s.multipleOf.Some? && UsableDivisor(s.multipleOf.value) && s.multipleOf.value.Floor > Hi(Wide(t)))
  {
    hide BoundParts, ConstParts, Tighten, InBounds, InConsts, Within, IsMultiple;
    if BoundParts(Tighten(s), t).Abort? { BoundPartsRefusal(Tighten(s), t, v); }
    if ConstParts(s, t).Abort? { ConstPartsRefusal(s, t, v); }
    TightenExact(s, v);
  }

  /** With both bounds explicit, everything the schema admits fits the inferred
      type: storing it loses nothing. */
  lemma AdmittedFits(s: Schema, v: int)
    requires s.minimum.Some? && s.maximum.Some? && InferType(s).Some? && Admits(s, v)
    ensures Holds(InferType(s).value, v)
  {
    hide Ceil, Floor, IsMultiple, InConsts;
    Rounding(s.minimum.value, v);
    Rounding(s.maximum.value, v);
  }

  /** An unsupported divisor is dropped, and then more may be accepted than the
      schema admits. */
  lemma DroppedDivisorWidens()
    ensures var s := Schema(Some(0.0), Some(10.0), None, None, Some(1.5), None, None);
            InferType(s) == Some(CUnsigned) && Inline(s, CUnsigned).Emit? &&
            PassesAll(Inline(s, CUnsigned).checks, 1) && !Admits(s, 1)
  {
    var s := Schema(Some(0.0), Some(10.0), None, None, Some(1.5), None, None);
    assert Inline(s, CUnsigned).checks == [IfGreater(10)];
    assert forall k: int :: !Times(1, k, 1.5);
  }
}
