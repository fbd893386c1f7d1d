/** Bounded-buffer emitters with snprintf semantics.  A destination is a window
    [off, off + cap) of a buffer; a NULL pointer is a window of capacity 0,
    since every store is guarded by both conditions together.  Each emitter
    threads the running length and stores what fits, so the length never
    depends on the capacity. */
module JsonEmit {

  const INT_MAX := 0x7FFF_FFFF
  const SIZE_MAX := 0xFFFF_FFFF_FFFF_FFFF

  /** What the window holds of `s` placed at `n`; the last octet is reserved
      for the terminator and may hold anything until the end. */
  ghost predicate Put(buf: array<char>, off: nat, cap: nat, n: nat, s: string)
    requires off + cap <= buf.Length
    reads buf
  {
    forall i :: 0 <= i < |s| && n + i < cap - 1 ==> buf[off + n + i] == s[i]
  }

  /** json_add_(): saturating, the sentinel sticks. */
  function JsonAdd(n: nat, add: nat): nat {
    if n > INT_MAX || add > INT_MAX - n then SIZE_MAX else n + add
  }

  /** The running length of `k` octets. */
  function Length(k: nat): nat { if k <= INT_MAX then k else SIZE_MAX }

  lemma JsonAddAssoc(n: nat, j: nat, k: nat)
    ensures JsonAdd(JsonAdd(n, j), k) == JsonAdd(n, j + k)
  {
  }

  /** json_checked_int_() */
  function CheckedInt(n: nat): int { if n > INT_MAX then -1 else n }

  /** json_emit_ch_() */
  method EmitCh(buf: array<char>, off: nat, cap: nat, n: nat, c: char) returns (n': nat)
    requires off + cap <= buf.Length
    modifies buf
    ensures n' == JsonAdd(n, 1)
    ensures Put(buf, off, cap, n, [c])
    ensures forall i :: 0 <= i < buf.Length && !(off + n <= i < off + cap) ==> buf[i] == old(buf[i])
  {
    if n < cap {
      buf[off + n] := c;
    }
    n' := JsonAdd(n, 1);
  }

  /** json_emit_raw_() */
  method EmitRaw(buf: array<char>, off: nat, cap: nat, n: nat, s: string) returns (n': nat)
    requires off + cap <= buf.Length
    modifies buf
    ensures n' == JsonAdd(n, |s|)
    ensures Put(buf, off, cap, n, s)
    ensures forall i :: 0 <= i < buf.Length && !(off + n <= i < off + cap) ==> buf[i] == old(buf[i])
  {
    if n < cap {
      var m := if |s| < cap - n then |s| else cap - n;
      forall i | 0 <= i < m {
        buf[off + n + i] := s[i];
      }
    }
    n' := JsonAdd(n, |s|);
  }

  /** snprintf(dst_, cap', "%s", s): stores what fits before a terminator. */
  method Snprintf(buf: array<char>, off: nat, cap: nat, s: string)
    requires off + cap <= buf.Length
    modifies buf
    ensures Put(buf, off, cap, 0, s)
    ensures forall i :: 0 <= i < buf.Length && !(off <= i < off + cap) ==> buf[i] == old(buf[i])
  {
    if cap > 0 {
      var m := if |s| < cap - 1 then |s| else cap - 1;
      forall i | 0 <= i < m {
        buf[off + i] := s[i];
      }
      buf[off + m] := '\0';
    }
  }

  /** The pointer dst_ and size an emitter hands on: NULL and 0 once past the
      end of the buffer. */
  function DstOff(off: nat, cap: nat, n: nat): nat { if n < cap then off + n else 0 }
  function DstCap(cap: nat, n: nat): nat { if n < cap then cap - n else 0 }

  /** The EMITF macro. */
  method EmitF(buf: array<char>, off: nat, cap: nat, n: nat, s: string) returns (n': nat)
    requires off + cap <= buf.Length
    modifies buf
    ensures n' == JsonAdd(n, |s|)
    ensures Put(buf, off, cap, n, s)
    ensures forall i :: 0 <= i < buf.Length && !(off + n <= i < off + cap) ==> buf[i] == old(buf[i])
  {
    Snprintf(buf, DstOff(off, cap, n), DstCap(cap, n), s);
    PutShift(buf, off, cap, n, s);
    n' := JsonAdd(n, |s|);
  }

  lemma PutShift(buf: array<char>, off: nat, cap: nat, n: nat, s: string)
    requires off + cap <= buf.Length
    requires Put(buf, DstOff(off, cap, n), DstCap(cap, n), 0, s)
    ensures Put(buf, off, cap, n, s)
  {
    if n < cap {
      forall i | 0 <= i < |s| && n + i < cap - 1 ensures buf[off + n + i] == s[i] {
        assert buf[DstOff(off, cap, n) + 0 + i] == s[i];
      }
    }
  }

  lemma PutConcat(buf: array<char>, off: nat, cap: nat, n: nat, s: string, t: string)
    requires off + cap <= buf.Length
    requires Put(buf, off, cap, n, s) && Put(buf, off, cap, n + |s|, t)
    ensures Put(buf, off, cap, n, s + t)
  {
    forall i | 0 <= i < |s + t| && n + i < cap - 1 ensures buf[off + n + i] == (s + t)[i] {
      if i >= |s| { assert buf[off + (n + |s|) + (i - |s|)] == t[i - |s|]; }
    }
  }

  /** The same on a snapshot of the buffer. */
  ghost predicate PutIn(c: seq<char>, off: nat, cap: nat, n: nat, s: string)
    requires off + cap <= |c|
  {
    forall i :: 0 <= i < |s| && n + i < cap - 1 ==> c[off + n + i] == s[i]
  }

  /** Two emissions in a row are one emission; `c` is the buffer between them. */
  lemma Extend(c: seq<char>, buf: array<char>, off: nat, cap: nat, n: nat, s: string, m: nat, t: string, m': nat)
    requires off + cap <= buf.Length == |c|
    requires m == JsonAdd(n, |s|) && (m <= INT_MAX ==> PutIn(c, off, cap, n, s))
    requires m' == JsonAdd(m, |t|) && (m' <= INT_MAX ==> Put(buf, off, cap, m, t))
    requires forall i :: 0 <= i < buf.Length && !(off + m <= i < off + cap) ==> buf[i] == c[i]
    ensures m' == JsonAdd(n, |s + t|)
    ensures m' <= INT_MAX ==> Put(buf, off, cap, n, s + t)
  {
    if m' <= INT_MAX {
      assert Put(buf, off, cap, n, s);
      PutConcat(buf, off, cap, n, s, t);
    }
  }

  /** The indentation of one level: nothing in compact mode. */
  function Repeated(s: string, d: nat): string { if d == 0 then "" else Repeated(s, d - 1) + s }

  datatype Indent = Compact | Pretty(unit: string)

  function IndentText(ind: Indent, d: nat): string {
    if ind.Compact? then "" else "\n" + Repeated(ind.unit, d)
  }

  /** json_emit_indent_() */
  method EmitIndent(buf: array<char>, off: nat, cap: nat, n: nat, ind: Indent, d: nat) returns (n': nat)
    requires off + cap <= buf.Length && n <= SIZE_MAX
    modifies buf
    ensures n <= INT_MAX || n == SIZE_MAX ==> n' == JsonAdd(n, |IndentText(ind, d)|)
    ensures n > INT_MAX ==> INT_MAX < n' <= SIZE_MAX
    ensures n' <= INT_MAX ==> Put(buf, off, cap, n, IndentText(ind, d))
    ensures forall i :: 0 <= i < buf.Length && !(off + n <= i < off + cap) ==> buf[i] == old(buf[i])
  {
    if ind.Compact? {
      return n;
    }
    n' := EmitCh(buf, off, cap, n, '\n');
    for id := 0 to d
      invariant n' == JsonAdd(n, 1 + |Repeated(ind.unit, id)|)
      invariant n' <= INT_MAX ==> Put(buf, off, cap, n, "\n" + Repeated(ind.unit, id))
      invariant forall i :: 0 <= i < buf.Length && !(off + n <= i < off + cap) ==> buf[i] == old(buf[i])
    {
      label before:
      ghost var m, sofar := n', "\n" + Repeated(ind.unit, id);
      n' := EmitRaw(buf, off, cap, n', ind.unit);
      JsonAddAssoc(n, |sofar|, |ind.unit|);
      assert Repeated(ind.unit, id + 1) == Repeated(ind.unit, id) + ind.unit;
      assert sofar + ind.unit == "\n" + Repeated(ind.unit, id + 1);
      if n' <= INT_MAX {
        assert Put(buf, off, cap, n, sofar) by {
          forall i | 0 <= i < |sofar| && n + i < cap - 1 ensures buf[off + n + i] == sofar[i] {
            assert old@before(buf[off + n + i]) == sofar[i];
          }
        }
        PutConcat(buf, off, cap, n, sofar, ind.unit);
      }
    }
  }
}
