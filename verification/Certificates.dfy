/** --gencerts: planning the jobs, writing each certificate and key, and taking
    everything back when one of them fails. */
module Certificates {
  import opened Basics
  import opened FileSystem
  import opened Provision

  // ---- plan_jobs ----------------------------------------------------------------------

  datatype Job = Job(name: string, identity: Option<string>)

  /** The i-th name is paired with the i-th field of the identity list. */
  function JobAt(names: seq<string>, ids: Option<seq<string>>, i: nat): Job
    requires i < |names| && (ids.Some? ==> |names| <= |ids.value|)
  {
    Job(names[i], if ids.None? then None else Some(Trim(ids.value[i], IsSpace)))
  }

  /** The whole list can be served: as many identities as names, all valid. */
  ghost predicate Plannable(names: seq<string>, ids: Option<seq<string>>, valid: (string, string) -> bool) {
    ids.Some? ==>
      |ids.value| == |names| && forall i :: 0 <= i < |names| ==> valid(names[i], Trim(ids.value[i], IsSpace))
  }

  ghost predicate Paired(names: seq<string>, ids: Option<seq<string>>, jobs: seq<Job>) {
    && (ids.Some? ==> |names| <= |ids.value|)
    && |jobs| == |names|
    && forall i :: 0 <= i < |names| ==> jobs[i] == JobAt(names, ids, i)
  }

  /** Every name so far has a valid identity. */
  ghost predicate ValidSoFar(names: seq<string>, ids: Option<seq<string>>, valid: (string, string) -> bool) {
    ids.Some? ==>
      |names| <= |ids.value| && forall i :: 0 <= i < |names| ==> valid(names[i], Trim(ids.value[i], IsSpace))
  }

  lemma PlanSnoc(names: seq<string>, ids: Option<seq<string>>, jobs: seq<Job>, name: string,
                 valid: (string, string) -> bool)
    requires Paired(names, ids, jobs) && ValidSoFar(names, ids, valid)
    requires ids.Some? ==> |names| < |ids.value| && valid(name, Trim(ids.value[|names|], IsSpace))
    ensures ValidSoFar(names + [name], ids, valid)
    ensures var id := if ids.None? then None else Some(Trim(ids.value[|names|], IsSpace));
            Paired(names + [name], ids, jobs + [Job(name, id)])
  {
    hide Trim;
  }

  /** A prefix that cannot be served spoils the list. */
  lemma NotPlannable(names: seq<string>, k: nat, ids: Option<seq<string>>, valid: (string, string) -> bool)
    requires k < |names| && ids.Some?
    requires |ids.value| <= k || !valid(names[k], Trim(ids.value[k], IsSpace))
    ensures !Plannable(names, ids, valid)
  {
    hide Trim;
  }

  /** plan_jobs(): nothing is planned unless all of it can be. */
  method PlanJobs(list: string, identities: Option<string>, valid: (string, string) -> bool)
    returns (plan: Option<seq<Job>>)
    ensures var ids := if identities.None? then None else Some(Elements(identities.value));
            && (plan.Some? <==> Plannable(Names(list), ids, valid))
            && (plan.Some? ==> Paired(Names(list), ids, plan.value))
  {
    hide Trim, Elements, Paired, Plannable, ValidSoFar;
    var fields := Elements(list);
    var ids := if identities.None? then None else Some(Elements(identities.value));
    var cursor, jobs := 0, [];
    NothingPlanned(ids, valid);
    assert fields[..|fields|] == fields;
    for k := 0 to |fields|
      invariant cursor == |NamesIn(fields[..k])|
      invariant Paired(NamesIn(fields[..k]), ids, jobs) && ValidSoFar(NamesIn(fields[..k]), ids, valid)
    {
      ghost var names := NamesIn(fields[..k]);
      assert fields[..k + 1][..k] == fields[..k];
      var name := Trim(fields[k], IsSpace);
      if name == "" {
        assert NamesIn(fields[..k + 1]) == names + [] == names;
      } else {
        NamesPrefix(fields, k + 1);
        assert Names(list)[|names|] == name;
        var identity := None;
        if ids.Some? {
          if cursor >= |ids.value| {
            NotPlannable(Names(list), cursor, ids, valid);
            return None;
          }
          identity := Some(Trim(ids.value[cursor], IsSpace));
          if !valid(name, identity.value) {
            NotPlannable(Names(list), cursor, ids, valid);
            return None;
          }
        }
        PlanSnoc(names, ids, jobs, name, valid);
        jobs := jobs + [Job(name, identity)];
        cursor := cursor + 1;
      }
    }
    Settled(Names(list), ids, valid);
    if ids.Some? && cursor < |ids.value| { return None; }
    plan := Some(jobs);
  }

  lemma NothingPlanned(ids: Option<seq<string>>, valid: (string, string) -> bool)
    ensures Paired([], ids, []) && ValidSoFar([], ids, valid)
  {
  }

  lemma Settled(names: seq<string>, ids: Option<seq<string>>, valid: (string, string) -> bool)
    requires ValidSoFar(names, ids, valid)
    ensures Plannable(names, ids, valid) <==> (ids.Some? ==> |ids.value| <= |names|)
  {
    hide Trim;
  }

  lemma {:induction false} NamesPrefix(fields: seq<string>, k: nat)
    requires k <= |fields|
    ensures NamesIn(fields[..k]) <= NamesIn(fields)
    decreases |fields|
  {
    hide Trim;
    if k == |fields| {
      assert fields[..k] == fields;
    } else {
      assert fields[..|fields| - 1][..k] == fields[..k];
      NamesPrefix(fields[..|fields| - 1], k);
    }
  }

  // ---- write_keypair ------------------------------------------------------------------

  function CertPath(name: string): string { name + "-cert.pem" }
  function KeyPath(name: string): string { name + "-key.pem" }

  /** One new file, in one or two writes. */
  method WriteNew(disk: Disk, path: string, first: string, second: string) returns (ok: bool)
    modifies disk
    ensures var p := disk.resolve(path);
            && (ok ==> p !in old(disk.files) && disk.stuck == old(disk.stuck) &&
                       disk.files == old(disk.files)[p := first + second])
            && (!ok ==> TakenBack(old(disk.files), old(disk.stuck), disk.files, disk.stuck, {p}))
  {
    ok := disk.CreateExclusive(path);
    if !ok { return; }
    ok := disk.Append(path, first);
    if ok { ok := disk.Append(path, second); }
    if !ok {
      disk.Discard(path);
      return;
    }
    ghost var p := disk.resolve(path);
    assert disk.files[p] == "" + first + second == first + second;
    assert disk.files == old(disk.files)[p := first + second];
  }

  lemma BothTakenBack(before: map<string, string>, was: bool, c: string, k: string, content: string,
                      middle: map<string, string>, then1: bool, after: map<string, string>, later: bool)
    requires c !in before && TakenBack(before[c := content], was, middle, then1, {k})
    requires (then1 ==> later) && (after == middle - {c} || (later && after == middle))
    ensures TakenBack(before, was, after, later, {c, k})
  {
  }

  /** write_keypair(): both files or neither. */
  method WriteKeypair(disk: Disk, name: string, cert: string, key: string, parent: string) returns (ok: bool)
    modifies disk
    ensures var c, k := disk.resolve(CertPath(name)), disk.resolve(KeyPath(name));
            && (ok ==> c !in old(disk.files) && k !in old(disk.files) && c != k && disk.stuck == old(disk.stuck) &&
                       disk.files == old(disk.files)[c := cert + parent][k := key])
            && (!ok ==> TakenBack(old(disk.files), old(disk.stuck), disk.files, disk.stuck, {c, k}))
  {
    var certFile, keyFile := CertPath(name), KeyPath(name);
    if !Fits(certFile) || !Fits(keyFile) { return false; }
    ok := WriteNew(disk, certFile, cert, parent);
    if !ok { return; }
    ok := WriteNew(disk, keyFile, key, "");
    assert key + "" == key;
    if !ok {
      ghost var middle, then1 := disk.files, disk.stuck;
      disk.Discard(certFile);
      BothTakenBack(old(disk.files), old(disk.stuck), disk.resolve(certFile), disk.resolve(keyFile), cert + parent,
                    middle, then1, disk.files, disk.stuck);
    }
  }

  // ---- gencerts -----------------------------------------------------------------------

  /** The PEM text of a certificate and of its key, or None where making them fails. */
  datatype Material = Material(cert: string, key: string)

  function Pair(resolve: string -> string, name: string): set<string> {
    {resolve(CertPath(name)), resolve(KeyPath(name))}
  }

  function PairFiles(resolve: string -> string, jobs: seq<Job>): set<string> {
    if jobs == [] then {} else Pair(resolve, jobs[0].name) + PairFiles(resolve, jobs[1..])
  }

  /** No two of the files are one. */
  ghost predicate PairsApart(resolve: string -> string, jobs: seq<Job>) {
    jobs != [] ==>
      && resolve(CertPath(jobs[0].name)) != resolve(KeyPath(jobs[0].name))
      && Pair(resolve, jobs[0].name) !! PairFiles(resolve, jobs[1..])
      && PairsApart(resolve, jobs[1..])
  }

  /** The certificate (with its chain) and the key of a job, as written. */
  ghost predicate Holds(files: map<string, string>, resolve: string -> string, job: Job,
                        make: Job -> Option<Material>, parent: string)
  {
    var c, k := resolve(CertPath(job.name)), resolve(KeyPath(job.name));
    && c in files && k in files && make(job).Some?
    && files[c] == make(job).value.cert + parent && files[k] == make(job).value.key
  }

  ghost predicate PairsWritten(start: map<string, string>, files: map<string, string>, stuck: bool,
                               resolve: string -> string, jobs: seq<Job>,
                               make: Job -> Option<Material>, parent: string)
  {
    && Extends(start, files, PairFiles(resolve, jobs), stuck)
    && PairsApart(resolve, jobs)
    && forall i :: 0 <= i < |jobs| ==> Holds(files, resolve, jobs[i], make, parent)
  }

  lemma {:induction false} PairFilesSnoc(resolve: string -> string, jobs: seq<Job>, job: Job)
    ensures PairFiles(resolve, jobs + [job]) == PairFiles(resolve, jobs) + Pair(resolve, job.name)
    ensures PairsApart(resolve, jobs)
            && Pair(resolve, job.name) !! PairFiles(resolve, jobs)
            && resolve(CertPath(job.name)) != resolve(KeyPath(job.name))
            ==> PairsApart(resolve, jobs + [job])
  {
    hide CertPath, KeyPath;
    if jobs == [] {
      assert jobs + [job] == [job] && [job][1..] == [];
    } else {
      assert (jobs + [job])[1..] == jobs[1..] + [job];
      PairFilesSnoc(resolve, jobs[1..], job);
    }
  }

  lemma {:induction false} JobListed(resolve: string -> string, jobs: seq<Job>, i: nat)
    requires i < |jobs|
    ensures Pair(resolve, jobs[i].name) <= PairFiles(resolve, jobs)
  {
    hide Pair;
    if i > 0 { JobListed(resolve, jobs[1..], i - 1); }
  }

  lemma PairsWrittenSnoc(start: map<string, string>, files: map<string, string>, stuck: bool,
                         resolve: string -> string, jobs: seq<Job>, make: Job -> Option<Material>, parent: string,
                         job: Job, after: map<string, string>)
    requires PairsWritten(start, files, stuck, resolve, jobs, make, parent) && make(job).Some?
    requires var c, k := resolve(CertPath(job.name)), resolve(KeyPath(job.name));
             && c !in files && k !in files && c != k
             && after == files[c := make(job).value.cert + parent][k := make(job).value.key]
    ensures PairsWritten(start, after, stuck, resolve, jobs + [job], make, parent)
  {
    hide CertPath, KeyPath, PairFiles, PairsApart;
    PairFilesSnoc(resolve, jobs, job);
    forall i | 0 <= i < |jobs| ensures Holds(after, resolve, jobs[i], make, parent) {
      assert Holds(files, resolve, jobs[i], make, parent);
    }
  }

  lemma PairsWrittenKept(start: map<string, string>, files: map<string, string>, was: bool,
                         resolve: string -> string, jobs: seq<Job>, make: Job -> Option<Material>, parent: string,
                         after: map<string, string>, stuck: bool, paths: set<string>)
    requires PairsWritten(start, files, was, resolve, jobs, make, parent) && TakenBack(files, was, after, stuck, paths)
    ensures PairsWritten(start, after, stuck, resolve, jobs, make, parent)
  {
    hide CertPath, KeyPath, PairFiles, PairsApart;
    forall i | 0 <= i < |jobs| ensures Holds(after, resolve, jobs[i], make, parent) {
      assert Holds(files, resolve, jobs[i], make, parent);
    }
  }

  /** discard_keypair() over the jobs already written. */
  method DiscardPairs(disk: Disk, jobs: seq<Job>, ghost start: map<string, string>)
    requires Extends(start, disk.files, PairFiles(disk.resolve, jobs), disk.stuck) && PairsApart(disk.resolve, jobs)
    modifies disk
    ensures old(disk.stuck) ==> disk.stuck
    ensures Extends(start, disk.files, {}, disk.stuck)
    ensures disk.files.Keys <= old(disk.files).Keys
  {
    hide Extends, CertPath, KeyPath;
    for i := 0 to |jobs|
      invariant old(disk.stuck) ==> disk.stuck
      invariant Extends(start, disk.files, PairFiles(disk.resolve, jobs[i..]), disk.stuck)
      invariant PairsApart(disk.resolve, jobs[i..])
      invariant disk.files.Keys <= old(disk.files).Keys
    {
      assert jobs[i..][1..] == jobs[i + 1..];
      ghost var c, k := disk.resolve(CertPath(jobs[i].name)), disk.resolve(KeyPath(jobs[i].name));
      ghost var rest := PairFiles(disk.resolve, jobs[i + 1..]);
      assert PairFiles(disk.resolve, jobs[i..]) == rest + {k} + {c};
      ghost var files, was := disk.files, disk.stuck;
      disk.Discard(CertPath(jobs[i].name));
      ExtendsLess(start, files, rest + {k}, was, c, disk.files, disk.stuck);
      files, was := disk.files, disk.stuck;
      disk.Discard(KeyPath(jobs[i].name));
      ExtendsLess(start, files, rest, was, k, disk.files, disk.stuck);
    }
  }

  /** gencerts(): the files of every job, or none.  `make` is key generation and
      signing; `signer` is the certificate to append as the chain, empty without
      --sign, and None where it cannot be read. */
  method Gencerts(disk: Disk, list: string, identities: Option<string>, valid: (string, string) -> bool,
                  signer: Option<string>, make: Job -> Option<Material>)
    returns (ok: bool, ghost jobs: seq<Job>)
    requires !disk.stuck
    modifies disk
    ensures var ids := if identities.None? then None else Some(Elements(identities.value));
            ok ==> jobs != [] && Plannable(Names(list), ids, valid) && Paired(Names(list), ids, jobs)
    ensures ok ==> signer.Some? && !disk.stuck &&
                   PairsWritten(old(disk.files), disk.files, false, disk.resolve, jobs, make, signer.value)
    ensures !ok ==> TakenBack(old(disk.files), false, disk.files, disk.stuck, PairFiles(disk.resolve, jobs))
  {
    hide Extends, PairsApart, Paired, Plannable, CertPath, KeyPath, Names, Elements, Holds, PairFiles;
    ghost var start := disk.files;
    jobs := [];
    var plan := PlanJobs(list, identities, valid);
    NoPairs(start, disk.resolve, make, if signer.Some? then signer.value else "");
    NothingChanged(start, PairFiles(disk.resolve, []));
    if plan.None? || plan.value == [] || signer.None? { return false, []; }
    var todo := plan.value;
    jobs := todo;
    var pending := 0;
    ok := true;
    while ok && pending < |todo|
      invariant 0 <= pending <= |todo|
      invariant PairsWritten(start, disk.files, disk.stuck, disk.resolve, todo[..pending], make, signer.value)
      invariant ok ==> !disk.stuck
      invariant disk.files.Keys <= start.Keys + PairFiles(disk.resolve, todo)
      decreases |todo| - pending, ok
    {
      var job := todo[pending];
      assert todo[..pending + 1] == todo[..pending] + [job];
      JobListed(disk.resolve, todo, pending);
      var made := make(job);
      if made.None? {
        ok := false;
      } else {
        ghost var files, was := disk.files, disk.stuck;
        ok := WriteKeypair(disk, job.name, made.value.cert, made.value.key, signer.value);
        if ok {
          PairsWrittenSnoc(start, files, was, disk.resolve, todo[..pending], make, signer.value, job, disk.files);
          pending := pending + 1;
        } else {
          PairsWrittenKept(start, files, was, disk.resolve, todo[..pending], make, signer.value,
                           disk.files, disk.stuck, Pair(disk.resolve, job.name));
        }
      }
    }
    assert todo[..|todo|] == todo;
    if !ok { DiscardPairs(disk, todo[..pending], start); }
  }

  lemma NothingChanged(start: map<string, string>, paths: set<string>)
    ensures TakenBack(start, false, start, false, paths)
  {
  }

  lemma NoPairs(start: map<string, string>, resolve: string -> string, make: Job -> Option<Material>, parent: string)
    ensures PairsWritten(start, start, false, resolve, [], make, parent)
  {
  }
}
