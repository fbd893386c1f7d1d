/** The key lookups a schema scope can get: a switch on one discriminating
    octet, or a binary search over a (length, octets)-sorted table.  Both are
    proved to answer exactly what a search through the key list answers. */
module KeyLookup {
  import opened Basics
  import opened Sorting

  type Key = string

  predicate Distinct(keys: seq<Key>) {
    forall i, j :: 0 <= i < j < |keys| ==> keys[i] != keys[j]
  }

  /** The reference: the position of `q` in the key list, or -1. */
  function Linear(keys: seq<Key>, q: Key): (r: int)
    ensures -1 <= r < |keys|
    ensures r >= 0 ==> keys[r] == q
    ensures r < 0 ==> q !in keys
  {
    if keys == [] then -1
    else if keys[|keys| - 1] == q then |keys| - 1
    else Linear(keys[..|keys| - 1], q)
  }

  lemma LinearUnique(keys: seq<Key>, q: Key, i: nat)
    requires Distinct(keys) && i < |keys| && keys[i] == q
    ensures Linear(keys, q) == i
  {
  }

  // ---- The single-octet switch ---------------------------------------------------

  /** Position `pos` exists in every key and tells all of them apart. */
  predicate Discriminates(keys: seq<Key>, pos: nat) {
    (forall i :: 0 <= i < |keys| ==> pos < |keys[i]|) &&
    forall i, j :: 0 <= i < j < |keys| ==> keys[i][pos] != keys[j][pos]
  }

  /** The scan of _try_single_byte_lookup(): the first discriminating position. */
  method FindDiscriminator(keys: seq<Key>) returns (found: bool, pos: nat)
    ensures found ==> keys != [] && Discriminates(keys, pos)
    ensures found ==> forall p :: 0 <= p < pos ==> !Discriminates(keys, p)
    ensures !found ==> keys == [] || forall p :: 0 <= p ==> !Discriminates(keys, p)
  {
    if keys == [] {
      return false, 0;
    }
    var minLen := |keys[0]|;
    for i := 0 to |keys|
      invariant minLen <= |keys[0]|
      invariant forall k :: 0 <= k < i ==> minLen <= |keys[k]|
      invariant exists k :: 0 <= k < |keys| && |keys[k]| == minLen
    {
      if |keys[i]| < minLen {
        minLen := |keys[i]|;
      }
    }
    pos := 0;
    while pos < minLen
      invariant pos <= minLen
      invariant forall p :: 0 <= p < pos ==> !Discriminates(keys, p)
    {
      var octets := OctetsAt(keys, pos);
      SetSize(octets);
      assert AllDiffer(octets) <==> Discriminates(keys, pos);
      if |set c | c in octets| == |keys| {
        return true, pos;
      }
      pos := pos + 1;
    }
    return false, 0;
  }

  /** The octet of every key at one position. */
  function OctetsAt(keys: seq<Key>, pos: nat): (cs: seq<char>)
    requires forall i :: 0 <= i < |keys| ==> pos < |keys[i]|
    ensures |cs| == |keys| && forall i :: 0 <= i < |keys| ==> cs[i] == keys[i][pos]
  {
    seq(|keys|, i requires 0 <= i < |keys| => keys[i][pos])
  }

  predicate AllDiffer(cs: seq<char>) {
    forall i, j :: 0 <= i < j < |cs| ==> cs[i] != cs[j]
  }

  /** A set of the octets is as large as their list exactly when all differ. */
  lemma {:induction false} SetSize(cs: seq<char>)
    ensures |set c | c in cs| <= |cs|
    ensures |set c | c in cs| == |cs| <==> AllDiffer(cs)
  {
    var all := set c | c in cs;
    if cs == [] {
      assert all == {};
    } else {
      var init, last := cs[..|cs| - 1], cs[|cs| - 1];
      SetSize(init);
      var most := set c | c in init;
      assert cs == init + [last];
      assert all == most + {last};
      if last in init {
        assert all == most;
        var i :| 0 <= i < |init| && init[i] == last;
        assert cs[i] == cs[|cs| - 1];
      } else {
        assert AllDiffer(cs) <==> AllDiffer(init);
      }
    }
  }

  /** The case label a switch on octet `c` jumps to, or -1 for the default. */
  function CaseFor(keys: seq<Key>, pos: nat, c: char): (r: int)
    requires forall i :: 0 <= i < |keys| ==> pos < |keys[i]|
    ensures -1 <= r < |keys|
    ensures r >= 0 ==> keys[r][pos] == c
    ensures r < 0 ==> forall i :: 0 <= i < |keys| ==> keys[i][pos] != c
  {
    if keys == [] then -1
    else if keys[|keys| - 1][pos] == c then |keys| - 1
    else CaseFor(keys[..|keys| - 1], pos, c)
  }

  /** The emitted switch lookup. */
  function SwitchLookup(keys: seq<Key>, pos: nat, q: Key): int
    requires forall i :: 0 <= i < |keys| ==> pos < |keys[i]|
  {
    if |q| < pos + 1 then -1
    else
      var i := CaseFor(keys, pos, q[pos]);
      if i < 0 then -1
      else if |q| == |keys[i]| && q == keys[i] then i else -1
  }

  /** The switch answers what a search through the list answers. */
  lemma SwitchIsLinear(keys: seq<Key>, pos: nat, q: Key)
    requires Discriminates(keys, pos)
    ensures SwitchLookup(keys, pos, q) == Linear(keys, q)
  {
    hide Linear, CaseFor;
    var r := Linear(keys, q);
    if r >= 0 {
      assert keys[r] == q;
      var i := CaseFor(keys, pos, q[pos]);
      assert keys[i][pos] == keys[r][pos];
    }
  }

  // ---- The binary search -----------------------------------------------------------

  /** memcmp() over two runs of the same length. */
  function Memcmp(a: Key, b: Key): int
    requires |a| == |b|
  {
    if a == "" then 0
    else if a[0] != b[0] then a[0] as int - b[0] as int
    else Memcmp(a[1..], b[1..])
  }

  /** The emitted comparator: length first, then octets. */
  function Compare(k: Key, e: Key): int {
    if |k| < |e| then -1 else if |k| > |e| then 1 else Memcmp(k, e)
  }

  lemma {:induction false} MemcmpOrder(a: Key, b: Key, c: Key)
    requires |a| == |b| == |c|
    ensures Memcmp(a, b) == 0 <==> a == b
    ensures Memcmp(a, b) < 0 <==> Memcmp(b, a) > 0
    ensures Memcmp(a, b) < 0 && Memcmp(b, c) < 0 ==> Memcmp(a, c) < 0
  {
    if a != "" {
      MemcmpOrder(a[1..], b[1..], c[1..]);
      assert a == [a[0]] + a[1..] && b == [b[0]] + b[1..];
    }
  }

  lemma CompareOrder(a: Key, b: Key, c: Key)
    ensures Compare(a, b) == 0 <==> a == b
    ensures Compare(a, b) < 0 <==> Compare(b, a) > 0
    ensures Compare(a, b) < 0 && Compare(b, c) < 0 ==> Compare(a, c) < 0
  {
    if |a| == |b| { MemcmpOrder(a, b, b); }
    if |a| == |b| == |c| { MemcmpOrder(a, b, c); }
  }

  datatype Entry = Entry(name: Key, idx: int)

  predicate StrictlySorted(t: seq<Entry>) {
    forall i, j :: 0 <= i < j < |t| ==> Compare(t[i].name, t[j].name) < 0
  }

  /** The table indexes exactly the given keys. */
  predicate Covers(t: seq<Entry>, keys: seq<Key>) {
    && (forall i :: 0 <= i < |t| ==> 0 <= t[i].idx < |keys| && keys[t[i].idx] == t[i].name)
    && (forall k :: 0 <= k < |keys| ==> Entry(keys[k], k) in t)
  }

  predicate EntryLe(a: Entry, b: Entry) { Compare(a.name, b.name) <= 0 }

  function Entries(keys: seq<Key>): (es: seq<Entry>)
    ensures |es| == |keys| && forall k :: 0 <= k < |es| ==> es[k] == Entry(keys[k], k)
  {
    seq(|keys|, k requires 0 <= k < |keys| => Entry(keys[k], k))
  }

  /** The sorted table of a key list, entries carrying their list position. */
  function Table(keys: seq<Key>): seq<Entry> { Sort(Entries(keys), EntryLe) }

  lemma EntriesOrdered()
    ensures TotalOrder(EntryLe)
  {
    hide Compare;
    forall a: Entry, b: Entry ensures EntryLe(a, b) || EntryLe(b, a) { CompareOrder(a.name, b.name, a.name); }
    forall a: Entry, b: Entry, c: Entry | EntryLe(a, b) && EntryLe(b, c) ensures EntryLe(a, c) {
      CompareOrder(a.name, b.name, c.name);
      CompareOrder(b.name, c.name, c.name);
    }
  }

  /** What stands in the table stands there once. */
  lemma OncePerKey(keys: seq<Key>, t: seq<Entry>, i: nat, j: nat)
    requires Distinct(keys) && multiset(t) == multiset(Entries(keys)) && i < j < |t|
    ensures t[i].name != t[j].name
  {
    var es := Entries(keys);
    if t[i] == t[j] {
      assert t == t[..i] + [t[i]] + t[i + 1..j] + [t[j]] + t[j + 1..];
      assert multiset(t)[t[i]] >= 2;
      AtMostOnce(es, t[i]);
    } else {
      assert t[i] in multiset(es) && t[j] in multiset(es);
    }
  }

  lemma {:induction false} AtMostOnce(es: seq<Entry>, e: Entry)
    requires forall a, b :: 0 <= a < b < |es| ==> es[a] != es[b]
    ensures multiset(es)[e] <= 1
  {
    if es != [] {
      var n := |es| - 1;
      AtMostOnce(es[..n], e);
      Snoc(es);
      assert es[n] !in es[..n];
    }
  }

  /** The table of distinct keys is strictly sorted and indexes them all. */
  lemma TableCorrect(keys: seq<Key>)
    requires Distinct(keys)
    ensures StrictlySorted(Table(keys)) && Covers(Table(keys), keys) && |Table(keys)| == |keys|
  {
    hide Sort, Compare, TotalOrder;
    var es, t := Entries(keys), Table(keys);
    EntriesOrdered();
    SortBag(es, EntryLe);
    SortSorted(es, EntryLe);
    assert |t| == |multiset(t)| == |multiset(es)| == |es|;
    forall i, j | 0 <= i < j < |t| ensures Compare(t[i].name, t[j].name) < 0 {
      assert EntryLe(t[i], t[j]);
      OncePerKey(keys, t, i, j);
      CompareOrder(t[i].name, t[j].name, t[i].name);
    }
    forall i | 0 <= i < |t| ensures 0 <= t[i].idx < |keys| && keys[t[i].idx] == t[i].name {
      assert t[i] in multiset(es);
    }
    forall k | 0 <= k < |keys| ensures Entry(keys[k], k) in t { assert es[k] in multiset(t); }
  }

  /** bsearch() over the table, then the index of the entry it found. */
  method BsearchLookup(t: seq<Entry>, ghost keys: seq<Key>, q: Key) returns (r: int)
    requires Distinct(keys) && StrictlySorted(t) && Covers(t, keys)
    ensures r == Linear(keys, q)
  {
    hide Compare, Linear;
    var lo, hi := 0, |t|;
    while lo < hi
      invariant 0 <= lo <= hi <= |t|
      invariant forall i :: 0 <= i < lo ==> t[i].name != q
      invariant forall i :: hi <= i < |t| ==> t[i].name != q
    {
      var mid := (lo + hi) / 2;
      var c := Compare(q, t[mid].name);
      CompareOrder(q, t[mid].name, q);
      if c < 0 {
        forall i | mid <= i < hi ensures t[i].name != q {
          CompareOrder(t[mid].name, t[i].name, q);
        }
        hi := mid;
      } else if c > 0 {
        forall i | lo <= i <= mid ensures t[i].name != q {
          CompareOrder(t[i].name, t[mid].name, q);
        }
        lo := mid + 1;
      } else {
        LinearUnique(keys, q, t[mid].idx);
        return t[mid].idx;
      }
    }
    assert forall k :: 0 <= k < |keys| ==> Entry(keys[k], k) in t;
    return -1;
  }

  /** Compiled once and queried ever after: the bsearch backend is the list. */
  method LookupBySearch(keys: seq<Key>, q: Key) returns (r: int)
    requires Distinct(keys)
    ensures r == Linear(keys, q)
  {
    TableCorrect(keys);
    r := BsearchLookup(Table(keys), keys, q);
  }
}
