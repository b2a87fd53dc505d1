/**
  The upload queue of the file tools: an ordered list of entries, each a
  picked file with an id, a processing status, a progress value and, once
  processed, a result or an error message. Every operation replaces the
  list; `moveFile` moves one entry with two `splice` calls on a copy. Ids
  come from a random generator and are given to `AddFiles` by the caller.
 */
module FileUpload {
  import opened Common
  import FileHelpers

  datatype Status = Pending | Processing | Done | Error

  /** A picked file: its name, MIME type, size and content. */
  datatype UploadedFile = UploadedFile(name: string, mimeType: string, size: nat, content: seq<bv8>)

  datatype ProcessingResult = ProcessingResult(blob: seq<bv8>, filename: string, originalSize: nat, resultSize: nat)

  datatype ProcessingFile = ProcessingFile(
    id: string,
    file: UploadedFile,
    name: string,
    size: nat,
    status: Status,
    progress: int,
    result: Option<ProcessingResult>,
    error: Option<string>)

  /** A `Partial<ProcessingFile>`: the fields an update sets. */
  datatype FileUpdate = FileUpdate(
    id: Option<string>,
    file: Option<UploadedFile>,
    name: Option<string>,
    size: Option<nat>,
    status: Option<Status>,
    progress: Option<int>,
    result: Option<ProcessingResult>,
    error: Option<string>)

  function Override<T>(given: Option<T>, current: T): T {
    if given.Some? then given.value else current
  }

  function OverrideOptional<T>(given: Option<T>, current: Option<T>): Option<T> {
    if given.Some? then given else current
  }

  /** `{ ...f, ...updates }`. */
  function Apply(f: ProcessingFile, u: FileUpdate): ProcessingFile {
    ProcessingFile(
      Override(u.id, f.id), Override(u.file, f.file), Override(u.name, f.name),
      Override(u.size, f.size), Override(u.status, f.status), Override(u.progress, f.progress),
      OverrideOptional(u.result, f.result), OverrideOptional(u.error, f.error))
  }

  function IsValidFor(acceptedTypes: seq<string>): UploadedFile -> bool {
    (f: UploadedFile) => FileHelpers.ValidateFileType(f.name, f.mimeType, acceptedTypes)
  }

  /** `arr.filter((f) => validateFileType(f, acceptedTypes))`. */
  function Accepted(newFiles: seq<UploadedFile>, acceptedTypes: seq<string>): seq<UploadedFile> {
    Filter(newFiles, IsValidFor(acceptedTypes))
  }

  /** The entry made for a newly added file. */
  function NewEntry(f: UploadedFile, id: string): ProcessingFile {
    ProcessingFile(id, f, f.name, f.size, Pending, 0, None, None)
  }

  /** `valid.map(...)` with the generated ids. */
  function NewEntries(valid: seq<UploadedFile>, ids: seq<string>): seq<ProcessingFile>
    requires |ids| == |valid|
  {
    seq(|valid|, i requires 0 <= i < |valid| => NewEntry(valid[i], ids[i]))
  }

  function HasOtherId(id: string): ProcessingFile -> bool {
    (f: ProcessingFile) => f.id != id
  }

  /** `prev.filter((f) => f.id !== id)`. */
  function Without(files: seq<ProcessingFile>, id: string): seq<ProcessingFile> {
    Filter(files, HasOtherId(id))
  }

  /** `prev.map((f) => (f.id === id ? { ...f, ...updates } : f))`. */
  function Updated(files: seq<ProcessingFile>, id: string, u: FileUpdate): seq<ProcessingFile> {
    seq(|files|, i requires 0 <= i < |files| => if files[i].id == id then Apply(files[i], u) else files[i])
  }

  /** `next.splice(fromIndex, 1)` then `next.splice(toIndex, 0, item)`. The
      first call must remove an entry: otherwise `item` is `undefined`. */
  function Moved(files: seq<ProcessingFile>, fromIndex: int, toIndex: int): seq<ProcessingFile>
    requires |files| > 0 && fromIndex < |files|
  {
    var i := SliceIndex(fromIndex, |files|);
    var rest := files[..i] + files[i + 1..];
    var j := SliceIndex(toIndex, |rest|);
    rest[..j] + [files[i]] + rest[j..]
  }

  class FileQueue {
    const acceptedTypes: seq<string>
    var files: seq<ProcessingFile>

    constructor(acceptedTypes: seq<string>)
      ensures this.acceptedTypes == acceptedTypes && files == []
    {
      this.acceptedTypes := acceptedTypes;
      files := [];
    }

    /** `addFiles`, with the ids the generator produced for the valid files. */
    method AddFiles(newFiles: seq<UploadedFile>, ids: seq<string>)
      requires |ids| == |Accepted(newFiles, acceptedTypes)|
      modifies this
      ensures files == old(files) + NewEntries(Accepted(newFiles, acceptedTypes), ids)
    {
      var valid := Accepted(newFiles, acceptedTypes);
      files := files + NewEntries(valid, ids);
    }

    method RemoveFile(id: string)
      modifies this
      ensures files == Without(old(files), id)
    {
      files := Without(files, id);
    }

    method ClearFiles()
      modifies this
      ensures files == []
    {
      files := [];
    }

    method UpdateFile(id: string, updates: FileUpdate)
      modifies this
      ensures files == Updated(old(files), id, updates)
    {
      files := Updated(files, id, updates);
    }

    /** `moveFile`, for a `fromIndex` that names an entry. */
    method MoveFile(fromIndex: int, toIndex: int)
      requires |files| > 0 && fromIndex < |files|
      modifies this
      ensures files == Moved(old(files), fromIndex, toIndex)
    {
      var next := files;
      var i := SliceIndex(fromIndex, |next|);
      var item := next[i];
      next := next[..i] + next[i + 1..];
      var j := SliceIndex(toIndex, |next|);
      next := next[..j] + [item] + next[j..];
      files := next;
    }
  }

  // ---------------------------------------------------------------------------
  // Properties
  // ---------------------------------------------------------------------------

  /** The filter keeps exactly the valid files, in input order. */
  lemma AcceptedProperties(newFiles: seq<UploadedFile>, more: seq<UploadedFile>, acceptedTypes: seq<string>)
    ensures forall f :: f in Accepted(newFiles, acceptedTypes) <==>
              f in newFiles && FileHelpers.ValidateFileType(f.name, f.mimeType, acceptedTypes)
    ensures Accepted(newFiles + more, acceptedTypes) == Accepted(newFiles, acceptedTypes) + Accepted(more, acceptedTypes)
  {
    FilterMembers(newFiles, IsValidFor(acceptedTypes));
    FilterConcat(newFiles, more, IsValidFor(acceptedTypes));
  }

  /** Adding files keeps the existing entries and appends one pending entry
      with progress 0 per valid file, in input order. */
  lemma AddedEntries(old_files: seq<ProcessingFile>, newFiles: seq<UploadedFile>, acceptedTypes: seq<string>, ids: seq<string>)
    requires |ids| == |Accepted(newFiles, acceptedTypes)|
    ensures var valid := Accepted(newFiles, acceptedTypes);
            var files := old_files + NewEntries(valid, ids);
            && |files| == |old_files| + |valid|
            && files[..|old_files|] == old_files
            && forall k :: |old_files| <= k < |files| ==>
                 && files[k].file == valid[k - |old_files|] && files[k].id == ids[k - |old_files|]
                 && files[k].name == files[k].file.name && files[k].size == files[k].file.size
                 && files[k].status == Pending && files[k].progress == 0
                 && files[k].result == None && files[k].error == None
  {
  }

  /** Removing an id leaves no entry with it, keeps every other entry, and
      keeps the order: removal distributes over concatenation. */
  lemma WithoutProperties(files: seq<ProcessingFile>, more: seq<ProcessingFile>, id: string)
    ensures forall f :: f in Without(files, id) <==> f in files && f.id != id
    ensures Without(files + more, id) == Without(files, id) + Without(more, id)
  {
    FilterMembers(files, HasOtherId(id));
    FilterConcat(files, more, HasOtherId(id));
  }

  /** Applying the same update twice is applying it once, and an empty update
      changes nothing. */
  lemma ApplyProperties(f: ProcessingFile, u: FileUpdate)
    ensures Apply(Apply(f, u), u) == Apply(f, u)
    ensures Apply(f, FileUpdate(None, None, None, None, None, None, None, None)) == f
  {
  }

  /** An update keeps the length and the order; entries with other ids are
      untouched and each matching entry gets exactly the given fields. A
      second identical update changes nothing when it keeps the id. */
  lemma UpdatedProperties(files: seq<ProcessingFile>, id: string, u: FileUpdate)
    ensures |Updated(files, id, u)| == |files|
    ensures forall i :: 0 <= i < |files| && files[i].id != id ==> Updated(files, id, u)[i] == files[i]
    ensures forall i :: 0 <= i < |files| && files[i].id == id ==>
              var g := Updated(files, id, u)[i];
              && g.status == Override(u.status, files[i].status)
              && g.progress == Override(u.progress, files[i].progress)
              && g.result == (if u.result.Some? then u.result else files[i].result)
              && g.error == (if u.error.Some? then u.error else files[i].error)
    ensures u.id.None? || u.id == Some(id) ==> Updated(Updated(files, id, u), id, u) == Updated(files, id, u)
  {
    var once := Updated(files, id, u);
    forall i | 0 <= i < |files| && files[i].id == id ensures once[i] == Apply(files[i], u) {
    }
    if u.id.None? || u.id == Some(id) {
      forall i | 0 <= i < |files| ensures Updated(once, id, u)[i] == once[i] {
        if files[i].id == id {
          ApplyProperties(files[i], u);
        }
      }
    }
  }

  /** Moving keeps the length and the multiset of entries, puts the moved
      entry at the target index and leaves the others in their order. */
  lemma MovedProperties(files: seq<ProcessingFile>, fromIndex: int, toIndex: int)
    requires |files| > 0 && fromIndex < |files|
    ensures var r := Moved(files, fromIndex, toIndex);
            var i := SliceIndex(fromIndex, |files|);
            var j := SliceIndex(toIndex, |files| - 1);
            && i < |files| && j < |files|
            && |r| == |files|
            && multiset(r) == multiset(files)
            && r[j] == files[i]
            && r[..j] + r[j + 1..] == files[..i] + files[i + 1..]
  {
    var i := SliceIndex(fromIndex, |files|);
    var j := SliceIndex(toIndex, |files| - 1);
    MoveOne(files, i, j);
  }

  /** Removing the element at `i` and inserting it at `j`. */
  lemma MoveOne<T>(s: seq<T>, i: nat, j: nat)
    requires i < |s| && j < |s|
    ensures var rest := s[..i] + s[i + 1..];
            var r := rest[..j] + [s[i]] + rest[j..];
            && |r| == |s|
            && multiset(r) == multiset(s)
            && r[j] == s[i]
            && r[..j] + r[j + 1..] == rest
  {
    var rest := s[..i] + s[i + 1..];
    var r := rest[..j] + [s[i]] + rest[j..];
    assert s == s[..i] + [s[i]] + s[i + 1..];
    assert r[..j] == rest[..j];
    assert r[j + 1..] == rest[j..];
    assert rest == rest[..j] + rest[j..];
    calc {
      multiset(r);
      multiset(rest[..j]) + multiset{s[i]} + multiset(rest[j..]);
      multiset(rest) + multiset{s[i]};
      multiset(s[..i]) + multiset(s[i + 1..]) + multiset{s[i]};
      multiset(s);
    }
  }

  /** Moving an entry onto its own index leaves the list as it was. */
  lemma MoveInPlace(files: seq<ProcessingFile>, i: nat)
    requires i < |files|
    ensures Moved(files, i, i) == files
  {
    var rest := files[..i] + files[i + 1..];
    assert rest[..i] == files[..i];
    assert rest[i..] == files[i + 1..];
    assert files == files[..i] + [files[i]] + files[i + 1..];
  }
}
