/** --genpsk and --gencerts: every file of the list, or none of them. */
module Provision {
  import opened Basics
  import opened FileSystem
  import ConfigSpec

  // ---- The name list --------------------------------------------------------------------

  predicate IsSpace(c: char) { c == ' ' }

  /** The comma-separated names, trimmed, without the blank ones. */
  function NamesIn(fields: seq<string>): (names: seq<string>) {
    if fields == [] then []
    else
      var name := Trim(fields[|fields| - 1], IsSpace);
      NamesIn(fields[..|fields| - 1]) + if name == "" then [] else [name]
  }

  function Names(list: string): seq<string> { NamesIn(Elements(list)) }

  /** Names as a list spells them. */
  predicate Listable(name: string) { name != "" && ',' !in name && IsTrimmed(name, IsSpace) }

  lemma {:induction false} NamesInAll(names: seq<string>)
    requires forall i :: 0 <= i < |names| ==> Listable(names[i])
    ensures NamesIn(names) == names
  {
    hide Trim, IsTrimmed;
    if names != [] {
      var n := |names| - 1;
      NamesInAll(names[..n]);
      assert Listable(names[n]);
      TrimOf("", names[n], "", IsSpace);
      assert "" + names[n] + "" == names[n] && AllAre("", IsSpace);
      Snoc(names);
    }
  }

  /** A list of names names them, in order. */
  lemma ListNames(names: seq<string>)
    requires names != [] && forall i :: 0 <= i < |names| ==> Listable(names[i])
    ensures Names(CommaJoined(names)) == names
  {
    hide CommaJoined, Elements, NamesIn;
    ElementsOf(names);
    NamesInAll(names);
  }

  // ---- Key files ------------------------------------------------------------------------

  const GENPSK_KEY_LEN := 32

  type Octet = n: int | 0 <= n < 256

  function Hex(key: seq<Octet>): (s: string)
    ensures |s| == 2 * |key| && forall i :: 0 <= i < |s| ==> IsHexDigit(s[i])
  {
    if key == [] then ""
    else
      var k := key[|key| - 1];
      Hex(key[..|key| - 1]) + [HexDigit(k / 16), HexDigit(k % 16)]
  }

  /** The octets a hexadecimal text spells, two digits each. */
  function Unhex(s: string): seq<Octet>
    requires |s| % 2 == 0 && forall i :: 0 <= i < |s| ==> IsHexDigit(s[i])
  {
    if s == "" then []
    else
      assert IsHexDigit(s[0]) && IsHexDigit(s[1]);
      [HexDigitValue(s[0]) * 16 + HexDigitValue(s[1])] + Unhex(s[2..])
  }

  lemma {:induction false} UnhexSnoc(s: string, a: char, b: char)
    requires |s| % 2 == 0 && (forall i :: 0 <= i < |s| ==> IsHexDigit(s[i])) && IsHexDigit(a) && IsHexDigit(b)
    ensures Unhex(s + [a, b]) == Unhex(s) + [HexDigitValue(a) * 16 + HexDigitValue(b)]
  {
    hide HexDigitValue, IsHexDigit;
    var t := s + [a, b];
    if s == "" {
      assert t == [a, b] && t[2..] == "";
    } else {
      assert t[0] == s[0] && t[1] == s[1] && t[2..] == s[2..] + [a, b];
      UnhexSnoc(s[2..], a, b);
    }
  }

  /** The printed key spells the key. */
  lemma {:induction false} HexRoundTrip(key: seq<Octet>)
    ensures Unhex(Hex(key)) == key
  {
    hide HexDigit, HexDigitValue;
    if key != [] {
      var n := |key| - 1;
      var k := key[n];
      HexRoundTrip(key[..n]);
      HexDigitReads(k / 16);
      HexDigitReads(k % 16);
      UnhexSnoc(Hex(key[..n]), HexDigit(k / 16), HexDigit(k % 16));
      assert key == key[..n] + [k];
    }
  }

  /** The loop that prints the key. */
  method HexLine(key: seq<Octet>) returns (s: string)
    ensures s == Hex(key) + "\n"
  {
    s := "";
    for i := 0 to |key|
      invariant s == Hex(key[..i])
    {
      assert key[..i + 1][..i] == key[..i];
      s := s + [HexDigit(key[i] / 16), HexDigit(key[i] % 16)];
    }
    assert key[..|key|] == key;
    s := s + "\n";
  }

  /** The content of a key file written by --genpsk. */
  ghost predicate IsKeyFile(content: string) {
    exists key: seq<Octet> :: |key| == GENPSK_KEY_LEN && content == Hex(key) + "\n"
  }

  /** A generated key file is one the configuration accepts, once loaded. */
  lemma KeyFileIsAccepted(content: string)
    requires IsKeyFile(content)
    ensures ConfigSpec.PskKey(ConfigSpec.PskTrim(content))
  {
    hide Hex, Trim;
    var key: seq<Octet> :| |key| == GENPSK_KEY_LEN && content == Hex(key) + "\n";
    assert content[..64] == Hex(key);
    TrimIs(content, ConfigSpec.IsPskSpace, 0, 64);
    assert content[0..64] == Hex(key);
  }

  function PskPath(name: string): string { name + ".psk" }

  /** snprintf() into a 256-octet buffer. */
  predicate Fits(path: string) { |path| < 256 }

  /** A step that failed: what was there is still there, and nothing was added
      unless a removal failed; then only under the step's own paths. */
  ghost predicate TakenBack(before: map<string, string>, was: bool, after: map<string, string>, stuck: bool,
                            paths: set<string>)
  {
    && (was ==> stuck)
    && Extends(before, after, {}, stuck)
    && after.Keys <= before.Keys + paths
  }

  /** genpsk_one(); `key` is what the entropy source gave. */
  method GenpskOne(disk: Disk, name: string, key: Option<seq<Octet>>) returns (ok: bool)
    modifies disk
    ensures var p := disk.resolve(PskPath(name));
            && (ok ==> p !in old(disk.files) && disk.stuck == old(disk.stuck) &&
                       p in disk.files && IsKeyFile(disk.files[p]) &&
                       disk.files == old(disk.files)[p := disk.files[p]])
            && (!ok ==> TakenBack(old(disk.files), old(disk.stuck), disk.files, disk.stuck, {p}))
  {
    hide Hex;
    if key.None? || |key.value| != GENPSK_KEY_LEN { return false; }
    var labelled: bool := *;
    if !labelled { return false; }
    var path := PskPath(name);
    if !Fits(path) { return false; }
    ok := disk.CreateExclusive(path);
    if !ok { return; }
    var hex := HexLine(key.value);
    ok := disk.Append(path, hex);
    if !ok {
      disk.Discard(path);
      return;
    }
    ghost var p := disk.resolve(path);
    assert disk.files[p] == "" + hex == Hex(key.value) + "\n";
    assert disk.files == old(disk.files)[p := disk.files[p]];
  }

  function PskFiles(resolve: string -> string, names: seq<string>): set<string> {
    set n | n in names :: resolve(PskPath(n))
  }

  /** No two names are the same file. */
  ghost predicate Apart(resolve: string -> string, names: seq<string>) {
    forall i, j :: 0 <= i < j < |names| ==> resolve(PskPath(names[i])) != resolve(PskPath(names[j]))
  }

  /** The files written so far: one for each name, none of them there before. */
  ghost predicate Written(start: map<string, string>, files: map<string, string>, stuck: bool,
                          resolve: string -> string, done: seq<string>)
  {
    && Extends(start, files, PskFiles(resolve, done), stuck)
    && Apart(resolve, done)
    && forall p :: p in PskFiles(resolve, done) ==> p in files && IsKeyFile(files[p])
  }

  lemma WrittenSnoc(start: map<string, string>, files: map<string, string>, stuck: bool,
                    resolve: string -> string, done: seq<string>, name: string, content: string)
    requires Written(start, files, stuck, resolve, done) && IsKeyFile(content)
    requires resolve(PskPath(name)) !in files
    ensures Written(start, files[resolve(PskPath(name)) := content], stuck, resolve, done + [name])
  {
    hide IsKeyFile, PskFiles;
    PskFilesSnoc(resolve, done, name);
    forall i | 0 <= i < |done| ensures resolve(PskPath(done[i])) in PskFiles(resolve, done) {
      Listed(resolve, done, i);
    }
  }

  lemma Listed(resolve: string -> string, names: seq<string>, i: nat)
    requires i < |names|
    ensures resolve(PskPath(names[i])) in PskFiles(resolve, names)
  {
    assert names[i] in names;
  }

  lemma WrittenKept(start: map<string, string>, files: map<string, string>, was: bool,
                    resolve: string -> string, done: seq<string>,
                    after: map<string, string>, stuck: bool, paths: set<string>)
    requires Written(start, files, was, resolve, done) && TakenBack(files, was, after, stuck, paths)
    ensures Written(start, after, stuck, resolve, done)
  {
    hide IsKeyFile, PskFiles, Apart;
  }

  lemma PskFilesSnoc(resolve: string -> string, done: seq<string>, name: string)
    ensures PskFiles(resolve, done + [name]) == PskFiles(resolve, done) + {resolve(PskPath(name))}
  {
    assert forall n :: n in done + [name] <==> n in done || n == name;
  }

  /** Taking one of the new files back. */
  lemma ExtendsLess(start: map<string, string>, files: map<string, string>, mine: set<string>, stuck: bool,
                    p: string, after: map<string, string>, later: bool)
    requires Extends(start, files, mine + {p}, stuck) && p !in mine && (stuck ==> later)
    requires after == files - {p} || (later && after == files)
    ensures Extends(start, after, mine, later)
  {
  }

  /** release_generated_names(): the files of this call are taken back. */
  method Release(disk: Disk, done: seq<string>, ghost start: map<string, string>)
    requires Extends(start, disk.files, PskFiles(disk.resolve, done), disk.stuck) && Apart(disk.resolve, done)
    modifies disk
    ensures old(disk.stuck) ==> disk.stuck
    ensures Extends(start, disk.files, {}, disk.stuck)
    ensures disk.files.Keys <= old(disk.files).Keys
  {
    hide Extends, PskFiles;
    ghost var keys := disk.files.Keys;
    var k := |done|;
    assert done[..k] == done;
    while k > 0
      invariant 0 <= k <= |done|
      invariant old(disk.stuck) ==> disk.stuck
      invariant Extends(start, disk.files, PskFiles(disk.resolve, done[..k]), disk.stuck)
      invariant disk.files.Keys <= keys
    {
      k := k - 1;
      assert done[..k + 1] == done[..k] + [done[k]];
      PskFilesSnoc(disk.resolve, done[..k], done[k]);
      ghost var mine, p := PskFiles(disk.resolve, done[..k]), disk.resolve(PskPath(done[k]));
      ApartFrom(disk.resolve, done, k);
      ghost var files, was := disk.files, disk.stuck;
      disk.Discard(PskPath(done[k]));
      ExtendsLess(start, files, mine, was, p, disk.files, disk.stuck);
    }
    NoFiles(disk.resolve);
    assert done[..0] == [];
  }

  lemma NoFiles(resolve: string -> string)
    ensures PskFiles(resolve, []) == {}
  {
  }

  lemma ApartFrom(resolve: string -> string, names: seq<string>, k: nat)
    requires Apart(resolve, names) && k < |names|
    ensures resolve(PskPath(names[k])) !in PskFiles(resolve, names[..k])
  {
    hide PskPath;
  }

  /** genpsk(): on success exactly the key files of the list were added; on
      failure the disk is as it was; and no file that was there ever changes. */
  method Genpsk(disk: Disk, list: string, entropy: nat -> Option<seq<Octet>>) returns (ok: bool)
    requires !disk.stuck
    modifies disk
    ensures ok ==> Names(list) != [] && !disk.stuck
    ensures ok ==> Written(old(disk.files), disk.files, false, disk.resolve, Names(list))
    ensures !ok ==> TakenBack(old(disk.files), false, disk.files, disk.stuck, PskFiles(disk.resolve, Names(list)))
  {
    hide Extends, IsKeyFile, PskFiles, Apart, Trim;
    ghost var start := disk.files;
    ghost var all := PskFiles(disk.resolve, Names(list));
    var fields := Elements(list);
    var done: seq<string> := [];
    ok := true;
    var i := 0;
    NothingWritten(start, disk.resolve);
    while i < |fields| && ok
      invariant 0 <= i <= |fields|
      invariant Written(start, disk.files, disk.stuck, disk.resolve, done)
      invariant ok ==> !disk.stuck && done == NamesIn(fields[..i])
      invariant disk.files.Keys <= start.Keys + all
      decreases |fields| - i
    {
      var name := Trim(fields[i], IsSpace);
      assert fields[..i + 1][..i] == fields[..i];
      if name != "" {
        NameListed(disk.resolve, fields, i);
        var node: bool := *;
        if !node {
          ok := false;
        } else {
          ghost var files, was := disk.files, disk.stuck;
          ok := GenpskOne(disk, name, entropy(i));
          ghost var p := disk.resolve(PskPath(name));
          if ok {
            WrittenSnoc(start, files, was, disk.resolve, done, name, disk.files[p]);
            done := done + [name];
          } else {
            WrittenKept(start, files, was, disk.resolve, done, disk.files, disk.stuck, {p});
          }
        }
      }
      i := i + 1;
    }
    assert fields[..|fields|] == fields;
    if ok && done == [] { ok := false; }
    if !ok { Release(disk, done, start); }
  }

  lemma NothingWritten(start: map<string, string>, resolve: string -> string)
    ensures Written(start, start, false, resolve, [])
  {
    assert PskFiles(resolve, []) == {};
  }

  lemma {:induction false} NameListed(resolve: string -> string, fields: seq<string>, i: nat)
    requires i < |fields| && Trim(fields[i], IsSpace) != ""
    ensures Trim(fields[i], IsSpace) in NamesIn(fields)
    ensures resolve(PskPath(Trim(fields[i], IsSpace))) in PskFiles(resolve, NamesIn(fields))
    decreases |fields|
  {
    hide Trim;
    if i < |fields| - 1 { NameListed(resolve, fields[..|fields| - 1], i); }
  }
}
