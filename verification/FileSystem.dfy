/** The files the provisioning commands create and discard.  A path is resolved
    to the file it names, so two spellings of one file meet; every operation may
    also fail for reasons of its own. */
module FileSystem {

  /** Nothing that existed before has changed, and only `mine` was added.  A
      removal that failed (`stuck`) may leave more behind. */
  ghost predicate Extends(start: map<string, string>, files: map<string, string>, mine: set<string>, stuck: bool) {
    && (forall p :: p in start ==> p in files && files[p] == start[p])
    && mine !! start.Keys
    && mine <= files.Keys
    && (!stuck ==> files.Keys == start.Keys + mine)
  }

  class Disk {
    const resolve: string -> string
    var files: map<string, string>
    /** A removal has failed. */
    ghost var stuck: bool

    constructor (resolve: string -> string, files: map<string, string>)
      ensures this.resolve == resolve && this.files == files && !stuck
    {
      this.resolve, this.files, stuck := resolve, files, false;
    }

    /** discard_file(): best effort. */
    method Discard(path: string)
      modifies this
      ensures old(stuck) ==> stuck
      ensures files == old(files) - {resolve(path)} || (stuck && files == old(files))
    {
      var unlinked: bool := *;
      if unlinked {
        files := files - {resolve(path)};
      } else {
        stuck := true;
      }
    }

    /** create_exclusive(): O_CREAT | O_EXCL, then fdopen(). */
    method CreateExclusive(path: string) returns (ok: bool)
      modifies this
      ensures old(stuck) ==> stuck
      ensures ok ==> resolve(path) !in old(files) && files == old(files)[resolve(path) := ""] && stuck == old(stuck)
      ensures !ok ==> Extends(old(files), files, {}, stuck) && files.Keys <= old(files).Keys + {resolve(path)}
    {
      var p := resolve(path);
      var refused: bool := *;
      if refused || p in files { return false; }
      files := files[p := ""];
      var stream: bool := *;
      if !stream {
        Discard(path);
        return false;
      }
      ok := true;
    }

    /** fwrite() and fclose() on a file this call has open. */
    method Append(path: string, data: string) returns (ok: bool)
      requires resolve(path) in files
      modifies this`files
      ensures files.Keys == old(files).Keys
      ensures forall q :: q in files && q != resolve(path) ==> files[q] == old(files)[q]
      ensures ok ==> files[resolve(path)] == old(files)[resolve(path)] + data
    {
      ok := *;
      var kept: nat := |data|;
      if !ok {
        var short: int := *;
        kept := if 0 <= short <= |data| then short else 0;
      }
      var p := resolve(path);
      files := files[p := files[p] + data[..kept]];
    }
  }
}
