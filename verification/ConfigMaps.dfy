/** The two dynamic maps of a configuration, identity.listen and tls.psk, and the
    max_startups string.  Strings are sequences of octets. */
module ConfigMaps {
  import opened Basics

  /** One pair of a JSON object; None is a value that is not a string. */
  datatype Pair = Pair(key: string, value: Option<string>)

  /** A dynamic field: the schema keeps it as raw text.  `Malformed` is an object
      whose text ends early, after the given pairs. */
  datatype Fragment = Absent | NotObject | Object(pairs: seq<Pair>) | Malformed(pairs: seq<Pair>)

  /** A loaded pair: a peer and its address, or a peer and its key. */
  datatype Entry = Entry(id: string, value: string)

  predicate IsComment(key: string) { key != "" && key[0] == '-' }

  function Ids(es: seq<Entry>): (ids: seq<string>)
    ensures |ids| == |es| && forall i :: 0 <= i < |es| ==> ids[i] == es[i].id
  {
    seq(|es|, i requires 0 <= i < |es| => es[i].id)
  }

  predicate Distinct(es: seq<Entry>) {
    forall i, j :: 0 <= i < j < |es| ==> es[i].id != es[j].id
  }

  // ---- identity.listen: the last value of a key wins --------------------------------

  function IndexOf(es: seq<Entry>, id: string): (k: nat)
    ensures k <= |es|
    ensures k < |es| ==> es[k].id == id
    ensures forall i :: 0 <= i < k ==> es[i].id != id
  {
    if es == [] then 0 else if es[0].id == id then 0 else 1 + IndexOf(es[1..], id)
  }

  function AddPeer(es: seq<Entry>, e: Entry): seq<Entry> {
    var k := IndexOf(es, e.id);
    if k < |es| then es[k := e] else es + [e]
  }

  /** identity_listen_cb() over the pairs, or None where it fails. */
  function ListenOf(pairs: seq<Pair>): (r: Option<seq<Entry>>) {
    if pairs == [] then Some([])
    else
      var p := pairs[|pairs| - 1];
      var before := ListenOf(pairs[..|pairs| - 1]);
      if before.None? || IsComment(p.key) then before
      else if p.value.None? || HasNul(p.value.value) || HasNul(p.key) then None
      else Some(AddPeer(before.value, Entry(p.key, p.value.value)))
  }

  /** identity_listen_add(): find the peer or append it. */
  method ListenAdd(es: seq<Entry>, id: string) returns (k: nat)
    ensures k == IndexOf(es, id)
  {
    k := 0;
    assert es[0..] == es;
    while k < |es|
      invariant k <= |es| && IndexOf(es, id) == k + IndexOf(es[k..], id)
    {
      if es[k].id == id { return; }
      assert es[k..][1..] == es[k + 1..];
      k := k + 1;
    }
  }

  /** The loop of conf_walk_map() with identity_listen_cb(). */
  method WalkListen(pairs: seq<Pair>) returns (r: Option<seq<Entry>>)
    ensures r == ListenOf(pairs)
  {
    var peers: seq<Entry> := [];
    for i := 0 to |pairs|
      invariant ListenOf(pairs[..i]) == Some(peers)
    {
      assert pairs[..i + 1][..i] == pairs[..i];
      var p := pairs[i];
      if !IsComment(p.key) {
        var bad := p.value.None? || HasNul(p.key) || HasNul(p.value.value);
        if bad {
          ListenFails(pairs, i + 1);
          return None;
        }
        var k := ListenAdd(peers, p.key);
        if k == |peers| { peers := peers + [Entry(p.key, p.value.value)]; }
        else { peers := peers[k := Entry(p.key, p.value.value)]; }
      }
    }
    assert pairs[..|pairs|] == pairs;
    r := Some(peers);
  }

  lemma {:induction false} ListenFails(pairs: seq<Pair>, k: nat)
    requires k <= |pairs| && ListenOf(pairs[..k]).None?
    ensures ListenOf(pairs).None?
    decreases |pairs|
  {
    if k == |pairs| {
      assert pairs[..k] == pairs;
    } else {
      assert pairs[..|pairs| - 1][..k] == pairs[..k];
      ListenFails(pairs[..|pairs| - 1], k);
    }
  }

  /** The value the last pair with that key gives it. */
  function LastValue(pairs: seq<Pair>, id: string): Option<string> {
    if pairs == [] then None
    else
      var p := pairs[|pairs| - 1];
      if p.key == id then p.value else LastValue(pairs[..|pairs| - 1], id)
  }

  /** The keys that are no comments, each where it first stands. */
  function FirstKeys(pairs: seq<Pair>): seq<string> {
    if pairs == [] then []
    else
      var p, before := pairs[|pairs| - 1], FirstKeys(pairs[..|pairs| - 1]);
      if IsComment(p.key) || p.key in before then before else before + [p.key]
  }

  predicate AllStrings(pairs: seq<Pair>) {
    forall i :: 0 <= i < |pairs| && !IsComment(pairs[i].key) ==>
      pairs[i].value.Some? && !HasNul(pairs[i].key) && !HasNul(pairs[i].value.value)
  }

  /** The peers of a map: its keys in order, each with the value given last. */
  ghost predicate ListenSays(pairs: seq<Pair>, es: seq<Entry>) {
    && AllStrings(pairs) && Ids(es) == FirstKeys(pairs)
    && forall i :: 0 <= i < |es| ==> LastValue(pairs, es[i].id) == Some(es[i].value)
  }

  lemma IndexIn(es: seq<Entry>, id: string)
    ensures IndexOf(es, id) < |es| <==> id in Ids(es)
  {
    var k := IndexOf(es, id);
    if k < |es| { assert Ids(es)[k] == id; }
    if id in Ids(es) { var i :| 0 <= i < |es| && Ids(es)[i] == id; }
  }

  predicate IsString(p: Pair) {
    !IsComment(p.key) ==> p.value.Some? && !HasNul(p.key) && !HasNul(p.value.value)
  }

  lemma StringsSnoc(pairs: seq<Pair>)
    requires pairs != []
    ensures AllStrings(pairs) <==> AllStrings(pairs[..|pairs| - 1]) && IsString(pairs[|pairs| - 1])
  {
    hide HasNul, IsComment;
    var k := |pairs| - 1;
    assert AllStrings(pairs) ==> IsString(pairs[k]);
    assert forall i :: 0 <= i < k ==> pairs[..k][i] == pairs[i];
  }

  lemma NoCommentIds(pairs: seq<Pair>, es: seq<Entry>)
    requires Ids(es) == FirstKeys(pairs)
    ensures forall i :: 0 <= i < |es| ==> !IsComment(es[i].id)
  {
    hide IsComment, FirstKeys;
    FirstOnce(pairs);
    forall i | 0 <= i < |es| ensures !IsComment(es[i].id) { assert Ids(es)[i] == FirstKeys(pairs)[i]; }
  }

  lemma {:induction false} ListenIsSaid(pairs: seq<Pair>)
    ensures AllStrings(pairs) <==> ListenOf(pairs).Some?
    ensures ListenOf(pairs).Some? ==> ListenSays(pairs, ListenOf(pairs).value)
  {
    hide HasNul, AllStrings, IsComment, LastValue, AddPeer;
    if pairs == [] {
      assert AllStrings([]) by { NoPairs(); }
      assert Ids([]) == [];
    } else {
      var k := |pairs| - 1;
      var p, init := pairs[k], pairs[..k];
      ListenIsSaid(init);
      StringsSnoc(pairs);
      if ListenOf(pairs).Some? {
        var before := ListenOf(init).value;
        NoCommentIds(init, before);
        if IsComment(p.key) { CommentSkipped(pairs, before); } else { PeerAdded(pairs, before); }
      }
    }
  }

  lemma NoPairs()
    ensures AllStrings([])
  {
  }

  lemma CommentSkipped(pairs: seq<Pair>, before: seq<Entry>)
    requires pairs != [] && IsComment(pairs[|pairs| - 1].key) && ListenSays(pairs[..|pairs| - 1], before)
    requires forall i :: 0 <= i < |before| ==> !IsComment(before[i].id)
    ensures forall i :: 0 <= i < |before| ==> LastValue(pairs, before[i].id) == Some(before[i].value)
  {
  }

  lemma PeerAdded(pairs: seq<Pair>, before: seq<Entry>)
    requires pairs != [] && !IsComment(pairs[|pairs| - 1].key) && pairs[|pairs| - 1].value.Some?
    requires ListenSays(pairs[..|pairs| - 1], before)
    ensures var p := pairs[|pairs| - 1]; var es := AddPeer(before, Entry(p.key, p.value.value));
            && Ids(es) == FirstKeys(pairs)
            && forall i :: 0 <= i < |es| ==> LastValue(pairs, es[i].id) == Some(es[i].value)
  {
    hide IsComment, HasNul, AllStrings;
    var p := pairs[|pairs| - 1];
    var e := Entry(p.key, p.value.value);
    var k, es := IndexOf(before, p.key), AddPeer(before, e);
    IndexIn(before, p.key);
    if k < |before| {
      assert Ids(es) == Ids(before);
      FirstOnce(pairs[..|pairs| - 1]);
      forall i | 0 <= i < |es| ensures LastValue(pairs, es[i].id) == Some(es[i].value) {
        if i != k {
          assert FirstKeys(pairs[..|pairs| - 1])[i] != FirstKeys(pairs[..|pairs| - 1])[k];
          assert Ids(before)[i] != Ids(before)[k];
          assert LastValue(pairs[..|pairs| - 1], before[i].id) == Some(before[i].value);
        }
      }
    } else {
      assert Ids(es) == Ids(before) + [p.key];
      forall i | 0 <= i < |es| ensures LastValue(pairs, es[i].id) == Some(es[i].value) {
        if i < |before| {
          assert Ids(before)[i] == before[i].id;
          assert LastValue(pairs[..|pairs| - 1], before[i].id) == Some(before[i].value);
        }
      }
    }
  }

  predicate NoRepeats(ks: seq<string>) {
    (forall i, j :: 0 <= i < j < |ks| ==> ks[i] != ks[j]) && forall i :: 0 <= i < |ks| ==> !IsComment(ks[i])
  }

  lemma NoRepeatsSnoc(ks: seq<string>, k: string)
    requires NoRepeats(ks) && k !in ks && !IsComment(k)
    ensures NoRepeats(ks + [k])
  {
  }

  lemma {:induction false} FirstOnce(pairs: seq<Pair>)
    ensures NoRepeats(FirstKeys(pairs))
  {
    hide NoRepeats, IsComment;
    if pairs == [] {
      assert NoRepeats([]) by { NoneRepeat(); }
    } else {
      var p, before := pairs[|pairs| - 1], FirstKeys(pairs[..|pairs| - 1]);
      FirstOnce(pairs[..|pairs| - 1]);
      if !IsComment(p.key) && p.key !in before { NoRepeatsSnoc(before, p.key); }
    }
  }

  lemma NoneRepeat()
    ensures NoRepeats([])
  {
  }

  /** The loaded peers are exactly these. */
  lemma ListenIs(pairs: seq<Pair>, es: seq<Entry>)
    ensures ListenOf(pairs) == Some(es) <==> ListenSays(pairs, es)
  {
    hide ListenOf, FirstKeys, LastValue, AllStrings;
    ListenIsSaid(pairs);
    if ListenSays(pairs, es) {
      var got := ListenOf(pairs).value;
      assert Ids(got) == Ids(es);
      forall i | 0 <= i < |es| ensures got[i] == es[i] {
        assert Ids(got)[i] == Ids(es)[i];
      }
      assert got == es;
    }
  }

  /** Each peer is listed once, under the value its key was given last, and no
      key of the map is lost except the comments. */
  lemma {:induction false} ListenIsLastWins(pairs: seq<Pair>, es: seq<Entry>)
    requires ListenOf(pairs) == Some(es)
    ensures Distinct(es)
    ensures forall i :: 0 <= i < |es| ==> LastValue(pairs, es[i].id) == Some(es[i].value)
    ensures forall p :: p in pairs && !IsComment(p.key) ==> p.key in Ids(es)
    ensures forall i :: 0 <= i < |es| ==> !IsComment(es[i].id) && !HasNul(es[i].id) && !HasNul(es[i].value)
  {
    if pairs != [] {
      var k := |pairs| - 1;
      var before := ListenOf(pairs[..k]).value;
      ListenIsLastWins(pairs[..k], before);
      assert forall p :: p in pairs ==> p in pairs[..k] || p == pairs[k];
      if !IsComment(pairs[k].key) {
        var j := IndexOf(before, pairs[k].key);
        assert es[j] == Entry(pairs[k].key, pairs[k].value.value);
        assert Ids(es)[j] == pairs[k].key;
        forall id | id in Ids(before) ensures id in Ids(es) {
          var i :| 0 <= i < |before| && Ids(before)[i] == id;
          assert Ids(es)[i] == id;
        }
      }
    }
  }

  // ---- tls.psk: a repeated identity is an error -----------------------------------

  function PskOf(pairs: seq<Pair>): (r: Option<seq<Entry>>) {
    if pairs == [] then Some([])
    else
      var p := pairs[|pairs| - 1];
      var before := PskOf(pairs[..|pairs| - 1]);
      if before.None? || IsComment(p.key) then before
      else if p.value.None? || p.key in Ids(before.value) || HasNul(p.key) || HasNul(p.value.value) then None
      else Some(before.value + [Entry(p.key, p.value.value)])
  }

  /** The loop of conf_walk_map() with psk_map_cb(). */
  method WalkPsk(pairs: seq<Pair>) returns (r: Option<seq<Entry>>)
    ensures r == PskOf(pairs)
  {
    var es: seq<Entry> := [];
    for i := 0 to |pairs|
      invariant PskOf(pairs[..i]) == Some(es)
    {
      assert pairs[..i + 1][..i] == pairs[..i];
      var p := pairs[i];
      if !IsComment(p.key) {
        var k := ListenAdd(es, p.key);
        assert k < |es| <==> p.key in Ids(es) by {
          if k < |es| { assert Ids(es)[k] == p.key; }
        }
        if p.value.None? || k < |es| || HasNul(p.key) || HasNul(p.value.value) {
          PskFails(pairs, i + 1);
          return None;
        }
        es := es + [Entry(p.key, p.value.value)];
      }
    }
    assert pairs[..|pairs|] == pairs;
    r := Some(es);
  }

  lemma {:induction false} PskFails(pairs: seq<Pair>, k: nat)
    requires k <= |pairs| && PskOf(pairs[..k]).None?
    ensures PskOf(pairs).None?
    decreases |pairs|
  {
    if k == |pairs| {
      assert pairs[..k] == pairs;
    } else {
      assert pairs[..|pairs| - 1][..k] == pairs[..k];
      PskFails(pairs[..|pairs| - 1], k);
    }
  }

  /** The pairs that are entries at all. */
  function Live(pairs: seq<Pair>): seq<Pair> {
    if pairs == [] then []
    else
      var p := pairs[|pairs| - 1];
      Live(pairs[..|pairs| - 1]) + if IsComment(p.key) then [] else [p]
  }

  /** The keys are loaded exactly in document order, and a map is refused just
      when one is repeated, holds a NUL or has no string value. */
  lemma {:induction false} PskIsDocumentOrder(pairs: seq<Pair>, es: seq<Entry>)
    ensures PskOf(pairs) == Some(es) <==> Live(pairs) == Pairs(es) && EntriesOk(es)
  {
    if pairs == [] {
      assert es == [] <==> Pairs(es) == [];
    } else {
      var k := |pairs| - 1;
      var p := pairs[k];
      if IsComment(p.key) {
        PskIsDocumentOrder(pairs[..k], es);
      } else if es != [] {
        var n := |es| - 1;
        PskIsDocumentOrder(pairs[..k], es[..n]);
        PskStep(pairs, es);
        EntriesStep(es);
        SnocEqual(Live(pairs[..k]), p, Pairs(es[..n]), Pair(es[n].id, Some(es[n].value)));
        assert Pairs(es) == Pairs(es[..n]) + [Pair(es[n].id, Some(es[n].value))];
      }
    }
  }

  lemma SnocEqual<T>(a: seq<T>, x: T, b: seq<T>, y: T)
    ensures a + [x] == b + [y] <==> a == b && x == y
  {
    assert (a + [x])[..|a|] == a && (a + [x])[|a|] == x;
    assert (b + [y])[..|b|] == b && (b + [y])[|b|] == y;
  }

  lemma EntriesStep(es: seq<Entry>)
    requires es != []
    ensures EntriesOk(es) <==>
            var n := |es| - 1;
            && EntriesOk(es[..n])
            && !IsComment(es[n].id) && !HasNul(es[n].id) && !HasNul(es[n].value)
            && es[n].id !in Ids(es[..n])
  {
    hide IsComment, HasNul;
    var n := |es| - 1;
    if es[n].id in Ids(es[..n]) {
      var i :| 0 <= i < n && Ids(es[..n])[i] == es[n].id;
      assert es[i].id == es[n].id;
    } else {
      assert forall i :: 0 <= i < n ==> Ids(es[..n])[i] == es[i].id;
    }
  }

  lemma {:induction false} PskStep(pairs: seq<Pair>, es: seq<Entry>)
    requires pairs != [] && es != [] && !IsComment(pairs[|pairs| - 1].key)
    ensures PskOf(pairs) == Some(es) <==>
            var p, e := pairs[|pairs| - 1], es[|es| - 1];
            && PskOf(pairs[..|pairs| - 1]) == Some(es[..|es| - 1])
            && p == Pair(e.id, Some(e.value))
            && !HasNul(e.id) && !HasNul(e.value) && e.id !in Ids(es[..|es| - 1])
  {
    var before := PskOf(pairs[..|pairs| - 1]);
    var n := |es| - 1;
    assert es == es[..n] + [es[n]];
    if before.Some? && pairs[|pairs| - 1].value.Some? {
      var e := Entry(pairs[|pairs| - 1].key, pairs[|pairs| - 1].value.value);
      assert before.value + [e] == es <==> before.value == es[..n] && e == es[n] by {
        assert (before.value + [e])[..|before.value|] == before.value;
      }
    }
  }

  // ---- Printing a map and walking it again ------------------------------------------

  function Pairs(es: seq<Entry>): (pairs: seq<Pair>)
    ensures |pairs| == |es|
  {
    seq(|es|, i requires 0 <= i < |es| => Pair(es[i].id, Some(es[i].value)))
  }

  /** What a loaded map looks like. */
  predicate EntriesOk(es: seq<Entry>) {
    && Distinct(es)
    && forall i :: 0 <= i < |es| ==> !IsComment(es[i].id) && !HasNul(es[i].id) && !HasNul(es[i].value)
  }

  lemma PairsSnoc(es: seq<Entry>)
    requires es != []
    ensures var n := |es| - 1;
            Pairs(es)[..n] == Pairs(es[..n]) && Pairs(es)[n] == Pair(es[n].id, Some(es[n].value))
  {
  }

  lemma {:induction false} ListenRoundTrip(es: seq<Entry>)
    requires EntriesOk(es)
    ensures ListenOf(Pairs(es)) == Some(es)
  {
    hide EntriesOk, IsComment, HasNul, Pairs, IndexOf;
    if es == [] {
      assert Pairs(es) == [];
    } else {
      var n := |es| - 1;
      EntriesStep(es);
      PairsSnoc(es);
      ListenRoundTrip(es[..n]);
      assert forall i :: 0 <= i < n ==> Ids(es[..n])[i] in Ids(es[..n]);
      assert IndexOf(es[..n], es[n].id) == n;
      assert es[..n] + [Entry(es[n].id, es[n].value)] == es;
    }
  }

  lemma {:induction false} PskRoundTrip(es: seq<Entry>)
    requires EntriesOk(es)
    ensures PskOf(Pairs(es)) == Some(es)
  {
    hide EntriesOk, IsComment, HasNul, Pairs, Ids;
    if es == [] {
      assert Pairs(es) == [];
    } else {
      var n := |es| - 1;
      EntriesStep(es);
      PairsSnoc(es);
      PskRoundTrip(es[..n]);
      assert es[..n] + [Entry(es[n].id, es[n].value)] == es;
    }
  }

  // ---- max_startups -----------------------------------------------------------------

  const INT_MAX := 0x7FFF_FFFF

  datatype Startups = Startups(start: nat, rate: nat, full: nat)

  /** The octets a C function reading the string sees. */
  function CStr(s: string): (r: CString)
    ensures |r| <= |s| && r == s[..|r|]
    ensures |r| < |s| ==> s[|r|] == '\0'
  {
    if s == "" || s[0] == '\0' then "" else [s[0]] + CStr(s[1..])
  }

  function DigitRun(s: string): (k: nat)
    ensures k <= |s| && AllDigits(s[..k]) && (k < |s| ==> !IsDigit(s[k]))
  {
    if s == "" || !IsDigit(s[0]) then 0
    else
      var k := 1 + DigitRun(s[1..]);
      assert s[..k] == [s[0]] + s[1..][..k - 1];
      k
  }

  /** parse_startups_field(): a run of digits up to INT_MAX, then `sep`; None in
      `sep` is the end of the string. */
  function ParseField(s: string, sep: Option<char>): (r: Option<(nat, string)>)
    ensures r.Some? ==> r.value.0 <= INT_MAX
  {
    var k := DigitRun(s);
    if k == 0 || DigitsValue(s[..k]) > INT_MAX then None
    else if sep.None? then (if k == |s| then Some((DigitsValue(s[..k]), "")) else None)
    else if k < |s| && s[k] == sep.value then Some((DigitsValue(s[..k]), s[k + 1..]))
    else None
  }

  function ParseStartups(s: string): (r: Option<Startups>) {
    var a := ParseField(CStr(s), Some(':'));
    if a.None? then None else
    var b := ParseField(a.value.1, Some(':'));
    if b.None? then None else
    var c := ParseField(b.value.1, None);
    if c.None? then None else Some(Startups(a.value.0, b.value.0, c.value.0))
  }

  function PrintStartups(t: Startups): string {
    Decimal(t.start) + ":" + Decimal(t.rate) + ":" + Decimal(t.full)
  }

  lemma {:induction false} RunOf(d: string, rest: string)
    requires AllDigits(d) && (rest == "" || !IsDigit(rest[0]))
    ensures DigitRun(d + rest) == |d|
  {
    if d == "" {
      assert d + rest == rest;
    } else {
      assert (d + rest)[1..] == d[1..] + rest;
      RunOf(d[1..], rest);
    }
  }

  lemma {:induction false} NoNulIsWhole(s: string)
    requires !HasNul(s)
    ensures CStr(s) == s
  {
    if s != "" { NoNulIsWhole(s[1..]); }
  }

  lemma FieldOf(n: nat, sep: char, rest: string)
    requires n <= INT_MAX && !IsDigit(sep)
    ensures ParseField(Decimal(n) + [sep] + rest, Some(sep)) == Some((n, rest))
    ensures ParseField(Decimal(n), None) == Some((n, ""))
  {
    hide Decimal, DigitsValue, DigitRun;
    var d := Decimal(n);
    DecimalValue(n);
    RunOf(d, [sep] + rest);
    RunOf(d, "");
    var s := d + [sep] + rest;
    assert s == d + ([sep] + rest) && d + "" == d;
    assert s[..|d|] == d && s[|d| + 1..] == rest && d[..|d|] == d;
  }

  /** Printing the three limits and parsing them again. */
  lemma StartupsRoundTrip(t: Startups)
    requires t.start <= INT_MAX && t.rate <= INT_MAX && t.full <= INT_MAX
    ensures ParseStartups(PrintStartups(t)) == Some(t)
  {
    hide Decimal, ParseField;
    var tail := Decimal(t.rate) + ":" + Decimal(t.full);
    var s := PrintStartups(t);
    assert s == Decimal(t.start) + [':'] + tail;
    NoNulIsWhole(s);
    FieldOf(t.start, ':', tail);
    FieldOf(t.rate, ':', Decimal(t.full));
    FieldOf(t.full, ':', "");
  }
}
