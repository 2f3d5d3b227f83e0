/** Receiving files, several at a time (native/crates/engine/src/transfer.rs). */
module Receive {
  import opened Common
  import opened Transfer

  datatype Meta = Meta(name: string, size: nat)

  datatype Error = TooLarge | Unusable | OutsideFolder | CannotWrite | Exceeded | WriteFailed | Incomplete

  /** A transfer in progress. */
  datatype Part = Part(path: string, written: nat, expected: nat)

  /** What the disk does: whether a file can be created, and after how many bytes a write fails. */
  datatype Disk = Disk(creates: bool, fails: Option<nat>)

  /** A directory under the chosen name cannot be created as a file. */
  function Begun(chars: Chars, files: Files, meta: Meta, disk: Disk): (Files, Result<Part, Error>) {
    if meta.size > MAX_FILE_BYTES then (files, Err(TooLarge))
    else
      match Sanitized(chars, meta.name)
      case None => (files, Err(Unusable))
      case Some(name) =>
        var path := UniquePath(files, name);
        if !Bare(path) then (files, Err(OutsideFolder))
        else if !disk.creates || (path in files && !files[path].File?) then (files, Err(CannotWrite))
        else (files[path := File([])], Ok(Part(path, 0, meta.size)))
  }

  /** The part's own file is there. */
  predicate Open(files: Files, part: Part) {
    part.path in files && files[part.path].File?
  }

  function Grown(files: Files, path: string, bytes: seq<byte>): Files
    requires path in files && files[path].File?
  {
    files[path := File(files[path].bytes + bytes)]
  }

  function Chunked(files: Files, part: Part, bytes: seq<byte>, disk: Disk): (Files, Part, Option<Error>)
    requires Open(files, part)
  {
    if part.written + |bytes| > part.expected then (files, part, Some(Exceeded))
    else
      match disk.fails
      case Some(n) => (Grown(files, part.path, bytes[..Min(n, |bytes|)]), part, Some(WriteFailed))
      case None => (Grown(files, part.path, bytes), part.(written := part.written + |bytes|), None)
  }

  function Ended(files: Files, part: Part): (Files, Result<string, Error>) {
    if part.written != part.expected then (files - {part.path}, Err(Incomplete)) else (files, Ok(part.path))
  }

  /** The receive folder. */
  class Folder {
    var files: Files

    constructor (files: Files)
      ensures this.files == files
    {
      this.files := files;
    }
  }

  class Incoming {
    const folder: Folder
    const path: string
    var written: nat
    const expected: nat

    ghost function Now(): Part
      reads this
    {
      Part(path, written, expected)
    }

    constructor Create(folder: Folder, path: string, expected: nat)
      ensures this.folder == folder && Now() == Part(path, 0, expected)
    {
      this.folder, this.path, this.written, this.expected := folder, path, 0, expected;
    }

    static method Begin(chars: Chars, folder: Folder, meta: Meta, disk: Disk) returns (r: Result<Incoming, Error>)
      modifies folder
      ensures var (files, part) := Begun(chars, old(folder.files), meta, disk);
              && folder.files == files
              && r.Ok? == part.Ok?
              && (r.Ok? ==> fresh(r.value) && r.value.folder == folder && r.value.Now() == part.value)
              && (r.Err? ==> r.error == part.error)
    {
      if meta.size > MAX_FILE_BYTES {
        return Err(TooLarge);
      }
      var name := Sanitized(chars, meta.name);
      if name.None? {
        return Err(Unusable);
      }
      var path := FindUniquePath(folder.files, name.value);
      if !Bare(path) {
        return Err(OutsideFolder);
      }
      if !disk.creates || (path in folder.files && !folder.files[path].File?) {
        return Err(CannotWrite);
      }
      folder.files := folder.files[path := File([])];
      var part := new Incoming.Create(folder, path, meta.size);
      r := Ok(part);
    }

    method Write(bytes: seq<byte>, disk: Disk) returns (error: Option<Error>)
      requires Open(folder.files, Now())
      modifies this`written, folder
      ensures (folder.files, Now(), error) == Chunked(old(folder.files), old(Now()), bytes, disk)
    {
      if written + |bytes| > expected {
        return Some(Exceeded);
      }
      if disk.fails.Some? {
        folder.files := Grown(folder.files, path, bytes[..Min(disk.fails.value, |bytes|)]);
        return Some(WriteFailed);
      }
      folder.files := Grown(folder.files, path, bytes);
      written := written + |bytes|;
      error := None;
    }

    method Finish() returns (r: Result<string, Error>)
      modifies folder
      ensures (folder.files, r) == Ended(old(folder.files), old(Now()))
    {
      if written != expected {
        Abort();
        return Err(Incomplete);
      }
      r := Ok(path);
    }

    method Abort()
      modifies folder
      ensures folder.files == old(folder.files) - {path}
    {
      folder.files := folder.files - {path};
    }
  }

  // ---- Runs --------------------------------------------------------------

  /** A sender's transfer is named by a number; a failed chunk makes the receiver abort it. */
  datatype Event =
    | Begin(id: nat, meta: Meta, disk: Disk)
    | Chunk(id: nat, bytes: seq<byte>, disk: Disk)
    | End(id: nat)
    | Abort(id: nat)

  /** A transfer in progress and the chunks it has taken. */
  datatype Running = Running(part: Part, chunks: seq<seq<byte>>)

  /** The folder, the transfers in progress, and what must be kept: what was there and what is complete. */
  datatype State = State(files: Files, open: map<nat, Running>, kept: Files)

  function Dropped(s: State, id: nat): State
    requires id in s.open
  {
    s.(files := s.files - {s.open[id].part.path}, open := s.open - {id})
  }

  function Next(chars: Chars, s: State, e: Event): State
    requires e.Chunk? && e.id in s.open ==> Open(s.files, s.open[e.id].part)
  {
    match e
    case Begin(id, meta, disk) =>
      if id in s.open then s
      else
        var (files, part) := Begun(chars, s.files, meta, disk);
        if part.Err? then s.(files := files)
        else s.(files := files, open := s.open[id := Running(part.value, [])])
    case Chunk(id, bytes, disk) =>
      if id !in s.open then s
      else
        var (files, part, error) := Chunked(s.files, s.open[id].part, bytes, disk);
        if error.Some? then Dropped(s.(files := files), id)
        else s.(files := files, open := s.open[id := Running(part, s.open[id].chunks + [bytes])])
    case End(id) =>
      if id !in s.open then s
      else
        var (files, r) := Ended(s.files, s.open[id].part);
        var t := s.(files := files, open := s.open - {id});
        if r.Err? then t else t.(kept := t.kept[r.value := File(Concat(s.open[id].chunks))])
    case Abort(id) => if id in s.open then Dropped(s, id) else s
  }

  /** A transfer that starts does so while its name still has a free variant. */
  ghost predicate Allowed(chars: Chars, s: State, e: Event) {
    e.Begin? && e.id !in s.open && Begun(chars, s.files, e.meta, e.disk).1.Ok? ==>
      Roomy(s.files, Sanitized(chars, e.meta.name).value)
  }

  /** An open transfer's file holds exactly its chunks, within the declared size. */
  predicate Sound(files: Files, r: Running) {
    && Open(files, r.part)
    && files[r.part.path].bytes == Concat(r.chunks)
    && r.part.written == |Concat(r.chunks)| <= r.part.expected <= MAX_FILE_BYTES
    && Bare(r.part.path)
  }

  ghost predicate AllSound(s: State) {
    forall id :: id in s.open ==> Sound(s.files, s.open[id])
  }

  ghost predicate Apart(s: State) {
    && (forall i, j :: i in s.open && j in s.open && i != j ==> s.open[i].part.path != s.open[j].part.path)
    && (forall id :: id in s.open ==> s.open[id].part.path !in s.kept)
  }

  ghost predicate Kept(s: State) {
    forall name :: name in s.kept ==> name in s.files && s.files[name] == s.kept[name]
  }

  /** Some open transfer is writing this file. */
  ghost predicate Owned(s: State, name: string) {
    exists id :: id in s.open && s.open[id].part.path == name
  }

  ghost predicate NothingElse(s: State) {
    forall name :: name in s.files && name !in s.kept ==> Owned(s, name)
  }

  ghost predicate Inv(s: State) {
    AllSound(s) && Apart(s) && Kept(s) && NothingElse(s)
  }

  /** The other transfers do not notice what happens to the file at `path`. */
  lemma OthersSound(s: State, t: State, id: nat, path: string)
    requires AllSound(s)
    requires forall i :: i in t.open && i != id ==> i in s.open && t.open[i] == s.open[i] && s.open[i].part.path != path
    requires forall name :: name in s.files && name != path ==> name in t.files && t.files[name] == s.files[name]
    requires id in t.open ==> Sound(t.files, t.open[id])
    ensures AllSound(t)
  {
    hide Bare, Concat;
    forall i | i in t.open
      ensures Sound(t.files, t.open[i])
    {
      if i != id {
        assert Sound(s.files, s.open[i]);
      }
    }
  }

  /** Every file that is not kept still has its transfer. */
  lemma OthersOwned(s: State, t: State, id: nat)
    requires NothingElse(s)
    requires forall i :: i in s.open && i != id ==> i in t.open && t.open[i].part.path == s.open[i].part.path
    requires forall name :: name in t.files && name !in t.kept && !Owned(t, name) ==>
               name in s.files && name !in s.kept && !(id in s.open && s.open[id].part.path == name)
    ensures NothingElse(t)
  {
    forall name | name in t.files && name !in t.kept
      ensures Owned(t, name)
    {
      if name in s.files && name !in s.kept && !(id in s.open && s.open[id].part.path == name) {
        StillOwned(s, t, id, name);
      }
    }
  }

  lemma StillOwned(s: State, t: State, id: nat, name: string)
    requires Owned(s, name) && !(id in s.open && s.open[id].part.path == name)
    requires forall i :: i in s.open && i != id ==> i in t.open && t.open[i].part.path == s.open[i].part.path
    ensures Owned(t, name)
  {
    var i :| i in s.open && s.open[i].part.path == name;
    assert t.open[i].part.path == name;
  }

  lemma BeginKeeps(chars: Chars, s: State, id: nat, meta: Meta, disk: Disk)
    requires Inv(s) && Allowed(chars, s, Begin(id, meta, disk))
    ensures Inv(Next(chars, s, Begin(id, meta, disk)))
  {
    hide Sanitized, UniquePath, Bare, Roomy, Concat, AllSound, Apart, Kept, NothingElse;
    var (files, part) := Begun(chars, s.files, meta, disk);
    if id !in s.open && part.Ok? {
      FreePath(chars, s.files, meta.name);
      OpenKeeps(s, id, part.value);
    }
  }

  /** A new, empty file for a new transfer. */
  lemma OpenKeeps(s: State, id: nat, part: Part)
    requires Inv(s) && id !in s.open && part.path !in s.files && Bare(part.path)
    requires part.written == 0 && part.expected <= MAX_FILE_BYTES
    ensures Inv(State(s.files[part.path := File([])], s.open[id := Running(part, [])], s.kept))
  {
    hide Bare, Concat, Sound, Owned;
    var t := State(s.files[part.path := File([])], s.open[id := Running(part, [])], s.kept);
    assert Sound(t.files, t.open[id]) by {
      EmptySound(t.files, part);
    }
    forall i | i in s.open
      ensures s.open[i].part.path != part.path
    {
      assert Sound(s.files, s.open[i]);
      SoundOpen(s.files, s.open[i]);
    }
    OthersSound(s, t, id, part.path);
    assert Owned(t, part.path) by {
      OwnedBy(t, id);
    }
    OthersOwned(s, t, id);
  }

  lemma OwnedBy(s: State, id: nat)
    requires id in s.open
    ensures Owned(s, s.open[id].part.path)
  {
  }

  lemma SoundOpen(files: Files, r: Running)
    requires Sound(files, r)
    ensures Open(files, r.part)
  {
  }

  lemma EmptySound(files: Files, part: Part)
    requires part.path in files && files[part.path] == File([]) && Bare(part.path)
    requires part.written == 0 && part.expected <= MAX_FILE_BYTES
    ensures Sound(files, Running(part, []))
  {
    hide Bare;
    NoChunks();
  }

  lemma NoChunks()
    ensures Concat<byte>([]) == []
  {
  }

  lemma FreePath(chars: Chars, files: Files, raw: string)
    requires Sanitized(chars, raw).Some? && Roomy(files, Sanitized(chars, raw).value)
    ensures UniquePath(files, Sanitized(chars, raw).value) !in files
  {
    hide Sanitized, FirstFree;
    FreeIfRoomy(files, Sanitized(chars, raw).value, 1);
  }

  lemma ChunkKeeps(chars: Chars, s: State, id: nat, bytes: seq<byte>, disk: Disk)
    requires Inv(s) && id in s.open && Open(s.files, s.open[id].part)
    requires disk.fails.None? && s.open[id].part.written + |bytes| <= s.open[id].part.expected
    ensures Inv(Next(chars, s, Chunk(id, bytes, disk)))
  {
    hide Bare, Concat, Sound, Owned;
    var t := Next(chars, s, Chunk(id, bytes, disk));
    var path := s.open[id].part.path;
    GrownSound(s.files, s.open[id], bytes);
    OthersSound(s, t, id, path);
    assert Owned(t, path) by {
      OwnedBy(t, id);
    }
    OthersOwned(s, t, id);
  }

  lemma GrownSound(files: Files, r: Running, bytes: seq<byte>)
    requires Sound(files, r) && r.part.written + |bytes| <= r.part.expected
    ensures Sound(Grown(files, r.part.path, bytes),
                  Running(r.part.(written := r.part.written + |bytes|), r.chunks + [bytes]))
  {
    hide Bare, Concat;
    ChunkAppend(r.chunks, bytes);
  }

  lemma ChunkAppend(chunks: seq<seq<byte>>, bytes: seq<byte>)
    ensures Concat(chunks + [bytes]) == Concat(chunks) + bytes
  {
    ConcatAppend(chunks, [bytes]);
    assert Concat([bytes]) == bytes + Concat<byte>([]);
  }

  /** Dropping a transfer, whatever its file holds, leaves nothing of it. */
  lemma DropKeeps(s: State, id: nat, files: Files)
    requires Inv(s) && id in s.open
    requires files.Keys == s.files.Keys
    requires forall name :: name in files && name != s.open[id].part.path ==> files[name] == s.files[name]
    ensures Inv(Dropped(s.(files := files), id))
    ensures s.open[id].part.path !in Dropped(s.(files := files), id).files
  {
    hide Sound, Owned;
    var t := Dropped(s.(files := files), id);
    OthersSound(s, t, id, s.open[id].part.path);
    OthersOwned(s, t, id);
  }

  /** A complete transfer's file is its chunks, joined, and has the declared length. */
  lemma EndKeeps(chars: Chars, s: State, id: nat)
    requires Inv(s) && id in s.open && s.open[id].part.written == s.open[id].part.expected
    ensures var t, path := Next(chars, s, End(id)), s.open[id].part.path;
            && Inv(t)
            && path in t.files && t.files[path] == File(Concat(s.open[id].chunks))
            && |Concat(s.open[id].chunks)| == s.open[id].part.expected
  {
    hide Bare, Concat, Sound, Owned;
    var t := Next(chars, s, End(id));
    FileIsChunks(s.files, s.open[id]);
    OthersSound(s, t, id, s.open[id].part.path);
    OthersOwned(s, t, id);
  }

  lemma FileIsChunks(files: Files, r: Running)
    requires Sound(files, r)
    ensures r.part.path in files && files[r.part.path] == File(Concat(r.chunks))
    ensures r.part.written == |Concat(r.chunks)|
  {
    hide Concat, Bare;
  }

  /** Every event keeps every promise, and whatever was kept stays as it was. */
  lemma NextKeeps(chars: Chars, s: State, e: Event)
    requires Inv(s) && Allowed(chars, s, e)
    ensures e.Chunk? && e.id in s.open ==> Open(s.files, s.open[e.id].part)
    ensures Inv(Next(chars, s, e))
    ensures forall name :: name in s.kept ==>
              name in Next(chars, s, e).kept && Next(chars, s, e).kept[name] == s.kept[name]
  {
    hide Sound, Apart, Kept, NothingElse, Begun, Sanitized, Roomy, Concat, Bare;
    match e
    case Begin(id, meta, disk) =>
      BeginKeeps(chars, s, id, meta, disk);
    case Chunk(id, bytes, disk) =>
      if id in s.open {
        assert Sound(s.files, s.open[id]);
        SoundOpen(s.files, s.open[id]);
        var (files, part, error) := Chunked(s.files, s.open[id].part, bytes, disk);
        if error.Some? {
          DropKeeps(s, id, files);
        } else {
          ChunkKeeps(chars, s, id, bytes, disk);
        }
      }
    case End(id) =>
      if id in s.open {
        if s.open[id].part.written == s.open[id].part.expected {
          EndKeeps(chars, s, id);
          EndKeepsOld(s, id);
        } else {
          DropKeeps(s, id, s.files);
        }
      }
    case Abort(id) =>
      if id in s.open {
        DropKeeps(s, id, s.files);
      }
  }

  lemma EndKeepsOld(s: State, id: nat)
    requires Apart(s) && id in s.open
    ensures s.open[id].part.path !in s.kept
  {
  }

  lemma ChunkIsOpen(s: State, e: Event)
    requires Inv(s)
    ensures e.Chunk? && e.id in s.open ==> Open(s.files, s.open[e.id].part)
  {
    hide Concat, Bare;
  }

  /** Every transfer of the run starts while its name has a free variant. */
  ghost predicate Runs(chars: Chars, s: State, events: seq<Event>)
    requires Inv(s)
    decreases |events|
  {
    events == [] ||
    (Allowed(chars, s, events[0]) &&
     (NextKeeps(chars, s, events[0]); Runs(chars, Next(chars, s, events[0]), events[1..])))
  }

  ghost function After(chars: Chars, s: State, events: seq<Event>): (t: State)
    requires Inv(s) && Runs(chars, s, events)
    decreases |events|
  {
    if events == [] then s
    else
      NextKeeps(chars, s, events[0]);
      After(chars, Next(chars, s, events[0]), events[1..])
  }

  /**
   * However transfers interleave: those in progress never share a file, what the folder held and
   * what was received in full keeps its bytes, and there is nothing else in the folder.
   */
  lemma {:induction false} RunKeeps(chars: Chars, s: State, events: seq<Event>)
    requires Inv(s) && Runs(chars, s, events)
    ensures Inv(After(chars, s, events))
    ensures forall name :: name in s.kept ==> name in After(chars, s, events).files
                                              && After(chars, s, events).files[name] == s.kept[name]
    decreases |events|
  {
    if events != [] {
      NextKeeps(chars, s, events[0]);
      RunKeeps(chars, Next(chars, s, events[0]), events[1..]);
      hide Next;
    }
  }

  /** The promises hold after every event of the run. */
  ghost predicate Safe(chars: Chars, s: State, events: seq<Event>)
    requires Inv(s)
    decreases |events|
  {
    events == [] ||
    (ChunkIsOpen(s, events[0]);
     Inv(Next(chars, s, events[0])) && Safe(chars, Next(chars, s, events[0]), events[1..]))
  }

  /** A transfer that starts under a taken name breaks the promises: it empties another's file, or a kept one. */
  lemma CrowdedBreaks(chars: Chars, s: State, e: Event)
    requires Inv(s) && !Allowed(chars, s, e)
    ensures !Inv(Next(chars, s, e))
  {
    hide Sanitized, UniquePath, Bare, Roomy, Concat, Sound;
    FreeIfRoomy(s.files, Sanitized(chars, e.meta.name).value, 1);
    var path := UniquePath(s.files, Sanitized(chars, e.meta.name).value);
    assert path in s.files by {
      TakenPath(s.files, Sanitized(chars, e.meta.name).value);
    }
    var t := Next(chars, s, e);
    assert t.open[e.id].part.path == path;
    if path !in s.kept {
      var i :| i in s.open && s.open[i].part.path == path;
      assert i in t.open && t.open[i].part.path == path;
    }
  }

  lemma TakenPath(files: Files, name: string)
    requires !Roomy(files, name)
    ensures UniquePath(files, name) in files
  {
    hide FirstFree;
    FreeIfRoomy(files, name, 1);
  }

  /** The promises hold throughout a run exactly when every transfer of it starts under a free name. */
  lemma {:induction false} RunExact(chars: Chars, s: State, events: seq<Event>)
    requires Inv(s)
    ensures Safe(chars, s, events) <==> Runs(chars, s, events)
    decreases |events|
  {
    hide Inv, Allowed, Next;
    if events != [] {
      ChunkIsOpen(s, events[0]);
      if Allowed(chars, s, events[0]) {
        NextKeeps(chars, s, events[0]);
        RunExact(chars, Next(chars, s, events[0]), events[1..]);
      } else {
        CrowdedBreaks(chars, s, events[0]);
      }
    }
  }

  /** A folder before any transfer. */
  function Quiet(files: Files): (s: State)
    ensures Inv(s)
  {
    State(files, map[], files)
  }

  /**
   * As long as entries and events together are fewer than 9,999, no transfer can disturb what the
   * folder held, whatever the events are.
   */
  lemma FolderKept(chars: Chars, files: Files, events: seq<Event>)
    requires |files| + |events| < 9_999
    ensures Safe(chars, Quiet(files), events) && Runs(chars, Quiet(files), events)
    ensures forall name :: name in files ==> name in After(chars, Quiet(files), events).files
                                             && After(chars, Quiet(files), events).files[name] == files[name]
  {
    hide After, Inv;
    FewEventsRun(chars, Quiet(files), events);
    RunExact(chars, Quiet(files), events);
    RunKeeps(chars, Quiet(files), events);
  }

  lemma {:induction false} FewEventsRun(chars: Chars, s: State, events: seq<Event>)
    requires Inv(s) && |s.files| + |events| < 9_999
    ensures Runs(chars, s, events)
    decreases |events|
  {
    hide Inv, Allowed, Next;
    if events != [] {
      FewEntriesAllow(chars, s, events[0]);
      NextKeeps(chars, s, events[0]);
      OneEntryMore(chars, s, events[0]);
      FewEventsRun(chars, Next(chars, s, events[0]), events[1..]);
    }
  }

  lemma OneEntryMore(chars: Chars, s: State, e: Event)
    requires e.Chunk? && e.id in s.open ==> Open(s.files, s.open[e.id].part)
    ensures |Next(chars, s, e).files| <= |s.files| + 1
  {
    hide Begun, Chunked, Concat;
    if e.Begin? {
      BegunCount(chars, s.files, e.meta, e.disk);
    } else {
      if e.Chunk? && e.id in s.open {
        ChunkedKeys(s.files, s.open[e.id].part, e.bytes, e.disk);
      }
      SubsetCount(Next(chars, s, e).files.Keys, s.files.Keys);
    }
  }

  lemma BegunCount(chars: Chars, files: Files, meta: Meta, disk: Disk)
    ensures |Begun(chars, files, meta, disk).0| <= |files| + 1
  {
    hide Sanitized, UniquePath, Bare;
    if Begun(chars, files, meta, disk).1.Ok? {
      var path := UniquePath(files, Sanitized(chars, meta.name).value);
      SubsetCount(files[path := File([])].Keys, files.Keys + {path});
    }
  }

  lemma ChunkedKeys(files: Files, part: Part, bytes: seq<byte>, disk: Disk)
    requires Open(files, part)
    ensures Chunked(files, part, bytes, disk).0.Keys == files.Keys
  {
  }

  /** Fewer than 9,999 entries are enough for a transfer to start. */
  lemma FewEntriesAllow(chars: Chars, s: State, e: Event)
    requires |s.files| < 9_999
    ensures Allowed(chars, s, e)
  {
    hide Sanitized, Roomy;
    if !Allowed(chars, s, e) {
      FewEntriesAreRoomy(s.files, Sanitized(chars, e.meta.name).value);
    }
  }

  /** The check of the final path never fires: every name from the filter is bare, and so is every variant. */
  lemma NeverOutside(chars: Chars, files: Files, meta: Meta, disk: Disk)
    ensures Begun(chars, files, meta, disk).1 != Err(OutsideFolder)
  {
    hide Sanitized, Bare;
    SanitizedIsBare(chars, meta.name);
    if Sanitized(chars, meta.name).Some? {
      FirstFreeIsBare(files, Sanitized(chars, meta.name).value, 1);
    }
  }

  /** When every variant of the name is taken the last one, if a file, is emptied: exactly then one is overwritten. */
  lemma OverwritesIffCrowded(chars: Chars, files: Files, meta: Meta, disk: Disk)
    requires disk.creates && meta.size <= MAX_FILE_BYTES && Sanitized(chars, meta.name).Some?
    ensures var name := Sanitized(chars, meta.name).value;
            var dup := Tagged(name, "dup");
            var (after, r) := Begun(chars, files, meta, disk);
            && (r.Err? <==> !Roomy(files, name) && !files[dup].File?)
            && (r.Ok? ==> (r.value.path in files <==> !Roomy(files, name)))
            && (r.Ok? && !Roomy(files, name) ==> r.value.path == dup && after[dup] == File([]))
  {
    hide Sanitized, Bare, Tagged, Candidate;
    NeverOutside(chars, files, meta, disk);
    var name := Sanitized(chars, meta.name).value;
    FreeIfRoomy(files, name, 1);
    if !Roomy(files, name) {
      LastResort(files, name, 1);
    }
  }

  lemma {:induction false} LastResort(files: Files, name: string, n: nat)
    requires 1 <= n <= 10_000 && !Roomy(files, name)
    ensures FirstFree(files, name, n) == Tagged(name, "dup")
    decreases 10_000 - n
  {
    hide Candidate, Tagged;
    if n < 10_000 {
      LastResort(files, name, n + 1);
    }
  }

  // ---- A whole transfer --------------------------------------------------

  /** A transfer starts exactly when it is at most 2 GiB, has a usable name, and a file of that name can be created. */
  lemma BegunExact(chars: Chars, files: Files, meta: Meta, disk: Disk)
    ensures var (after, r) := Begun(chars, files, meta, disk);
            var name := Sanitized(chars, meta.name);
            && (r.Ok? <==> meta.size <= 0x8000_0000 && name.Some? && disk.creates
                           && (UniquePath(files, name.value) in files ==> files[UniquePath(files, name.value)].File?))
            && (r == Err(TooLarge) <==> meta.size > 0x8000_0000)
            && (r == Err(Unusable) <==> meta.size <= 0x8000_0000 && name == None)
            && (r.Err? ==> after == files)
  {
    hide Sanitized, UniquePath, Bare;
    NeverOutside(chars, files, meta, disk);
  }

  function ChunkEvents(id: nat, chunks: seq<seq<byte>>): seq<Event> {
    seq(|chunks|, k requires 0 <= k < |chunks| => Chunk(id, chunks[k], Disk(true, None)))
  }

  /** Chunks within the declared size are all taken, in their order, and nothing else changes. */
  lemma {:induction false} ChunksTaken(chars: Chars, s: State, id: nat, chunks: seq<seq<byte>>)
    requires Inv(s) && id in s.open
    requires s.open[id].part.written + |Concat(chunks)| <= s.open[id].part.expected
    ensures Runs(chars, s, ChunkEvents(id, chunks))
    ensures var r := s.open[id];
            && r.part.path in s.files && s.files[r.part.path].File?
            && After(chars, s, ChunkEvents(id, chunks)) ==
               State(s.files[r.part.path := File(s.files[r.part.path].bytes + Concat(chunks))],
                     s.open[id := Running(r.part.(written := r.part.written + |Concat(chunks)|), r.chunks + chunks)],
                     s.kept)
    decreases |chunks|
  {
    hide Inv, Sanitized, UniquePath, Begun;
    ChunkIsOpen(s, Chunk(id, [], Disk(true, None)));
    var events := ChunkEvents(id, chunks);
    var r := s.open[id];
    if chunks == [] {
      assert events == [];
      assert r.chunks + chunks == r.chunks;
      assert s.files[r.part.path].bytes + Concat(chunks) == s.files[r.part.path].bytes;
    } else {
      hide Concat;
      ConcatHead(chunks);
      var e := events[0];
      assert Allowed(chars, s, e);
      NextKeeps(chars, s, e);
      var t := Next(chars, s, e);
      assert t.open[id] == Running(r.part.(written := r.part.written + |chunks[0]|), r.chunks + [chunks[0]]);
      ChunksTaken(chars, t, id, chunks[1..]);
      assert events[1..] == ChunkEvents(id, chunks[1..]);
      assert r.chunks + [chunks[0]] + chunks[1..] == r.chunks + chunks;
      assert s.files[r.part.path].bytes + chunks[0] + Concat(chunks[1..]) ==
             s.files[r.part.path].bytes + Concat(chunks);
    }
  }

  lemma ConcatHead(chunks: seq<seq<byte>>)
    requires chunks != []
    ensures Concat(chunks) == chunks[0] + Concat(chunks[1..])
  {
  }

  /**
   * Whatever transfers are open: one that may start and whose chunks have the declared length ends as a file of
   * exactly these bytes under its free name, and everything else is as it was.
   */
  lemma WholeFile(chars: Chars, s: State, id: nat, meta: Meta, chunks: seq<seq<byte>>)
    requires Inv(s) && id !in s.open && Allowed(chars, s, Begin(id, meta, Disk(true, None)))
    requires Begun(chars, s.files, meta, Disk(true, None)).1.Ok? && |Concat(chunks)| == meta.size
    ensures var path := UniquePath(s.files, Sanitized(chars, meta.name).value);
            var begun := Next(chars, s, Begin(id, meta, Disk(true, None)));
            && path !in s.files && Inv(begun) && Runs(chars, begun, ChunkEvents(id, chunks))
            && Next(chars, After(chars, begun, ChunkEvents(id, chunks)), End(id)) ==
               State(s.files[path := File(Concat(chunks))], s.open, s.kept[path := File(Concat(chunks))])
  {
    hide Inv, Sanitized, UniquePath, Bare, After, Runs, Concat;
    var path := UniquePath(s.files, Sanitized(chars, meta.name).value);
    FreePath(chars, s.files, meta.name);
    NextKeeps(chars, s, Begin(id, meta, Disk(true, None)));
    var begun := Next(chars, s, Begin(id, meta, Disk(true, None)));
    ChunksTaken(chars, begun, id, chunks);
    assert [] + Concat(chunks) == Concat(chunks) && [] + chunks == chunks;
    var done := Next(chars, After(chars, begun, ChunkEvents(id, chunks)), End(id));
    assert done.open == s.open;
    assert done.files == s.files[path := File(Concat(chunks))];
  }
}
