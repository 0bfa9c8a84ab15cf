/** Address allocation and per-entry dispatch of the upload loop: each entry
    that is not skipped is written at the running flash address, with the
    device method its name selects, from a temporary file named after its
    extension; the running address then moves past the written bytes. */
module Planning {
  import opened Strings
  import opened Device
  import opened Ordering

  /** The next start address after `size` bytes written at `address`: the
      chunk index of the end offset, plus one, times the chunk size. This is
      not a ceiling: an end offset on a chunk boundary still skips one
      whole chunk. */
  function NextAddress(address: nat, size: nat): (next: nat)
    ensures next % ChunkSize == 0
    ensures address + size < next <= address + size + ChunkSize
  {
    ((address + size) / ChunkSize + 1) * ChunkSize
  }

  /** An end offset on a chunk boundary leaves a whole empty chunk behind it. */
  lemma BoundaryEndSkipsAChunk(address: nat, size: nat)
    requires (address + size) % ChunkSize == 0
    ensures NextAddress(address, size) == address + size + ChunkSize
  {
  }

  /** `"temp"` followed by the name's extension, taken from its last `.`;
      None where the name has no `.` and `rindex` raises. */
  function TempPath(name: string): (r: Option<string>)
    ensures r.None? <==> '.' !in name
    ensures r.Some? ==> StartsWith(r.value, "temp") && |r.value| > 4 && r.value[4] == '.'
    ensures r.Some? ==> '.' !in r.value[5..] && EndsWith(name, r.value[4..])
  {
    match LastIndexOf(name, '.')
    case None => None
    case Some(k) =>
      var path := "temp" + name[k..];
      assert path[4..] == name[k..] && path[5..] == name[k + 1..];
      Some(path)
  }

  /** The device method a name is written with. */
  function WriterFor(name: string): Writer
  {
    if IsBin(name) then ViaUploadProgram else ViaUploadFile
  }

  /** Where the upload loop stands after some prefix of the file list: the
      writes issued, the running address, and the name that made `rindex`
      raise, if one did (after which nothing more happens). */
  datatype Progress = Progress(writes: seq<Write>, next: nat, failedOn: Option<string>)

  /** The upload loop over `files`, starting at address 0. */
  function Plan(files: seq<Entry>): Progress
    decreases |files|
  {
    if files == [] then Progress([], 0, None)
    else
      var p := Plan(files[..|files| - 1]);
      var e := files[|files| - 1];
      if p.failedOn.Some? || e.name == "/" then p
      else match TempPath(e.name)
        case None => p.(failedOn := Some(e.name))
        case Some(path) =>
          Progress(p.writes + [Write(WriterFor(e.name), p.next, path, e)], NextAddress(p.next, e.size), None)
  }

  /** The entries of `files` that are not skipped. */
  function Kept(files: seq<Entry>): seq<Entry>
    decreases |files|
  {
    if files == [] then []
    else Kept(files[..|files| - 1]) + (if files[|files| - 1].name == "/" then [] else [files[|files| - 1]])
  }

  function EntriesOf(writes: seq<Write>): (entries: seq<Entry>)
    ensures |entries| == |writes|
    ensures forall i :: 0 <= i < |writes| ==> entries[i] == writes[i].entry
  {
    if writes == [] then [] else EntriesOf(writes[..|writes| - 1]) + [writes[|writes| - 1].entry]
  }

  /** Layout of the writes of a session: the first at address 0, each next
      one at NextAddress of the previous one's end, all chunk-aligned, and
      the running address just past the last. */
  ghost predicate Allocated(p: Progress)
  {
    var w := p.writes;
    (w == [] ==> p.next == 0) &&
    (w != [] ==> w[0].address == 0 && p.next == NextAddress(w[|w| - 1].address, w[|w| - 1].entry.size)) &&
    (forall i :: 0 <= i < |w| - 1 ==> w[i + 1].address == NextAddress(w[i].address, w[i].entry.size)) &&
    (forall i :: 0 <= i < |w| ==> w[i].address % ChunkSize == 0)
  }

  lemma {:induction false} PlanIsAllocated(files: seq<Entry>)
    ensures Allocated(Plan(files))
    decreases |files|
  {
    if files != [] {
      PlanIsAllocated(files[..|files| - 1]);
    }
  }

  /** Written regions never overlap and start at strictly increasing
      addresses: every write ends before the next one starts, and before the
      running address. */
  lemma {:induction false} WritesDoNotOverlap(files: seq<Entry>)
    ensures var w := Plan(files).writes;
      forall i, j :: 0 <= i < j < |w| ==> w[i].address + w[i].entry.size < w[j].address
    ensures var w := Plan(files).writes;
      forall i :: 0 <= i < |w| ==> w[i].address + w[i].entry.size < Plan(files).next
    decreases |files|
  {
    if files != [] {
      var init := files[..|files| - 1];
      var e := files[|files| - 1];
      WritesDoNotOverlap(init);
      var p := Plan(init);
      PlanStep(files);
      if p.failedOn.None? && e.name != "/" && TempPath(e.name).Some? {
        var w, n := Plan(files).writes, |p.writes|;
        assert forall i :: 0 <= i < n ==> w[i] == p.writes[i];
        assert w[n].address == p.next && w[n].entry == e;
        assert Plan(files).next == NextAddress(p.next, e.size);
        forall i, j | 0 <= i < j < |w|
          ensures w[i].address + w[i].entry.size < w[j].address
        {
          if j < n {
            assert p.writes[i].address + p.writes[i].entry.size < p.writes[j].address;
          } else {
            assert p.writes[i].address + p.writes[i].entry.size < p.next;
          }
        }
      }
    }
  }

  /** Each write goes through `upload_program` exactly for `.bin` names, from
      the temporary path derived from its name, and never for a skipped `/`
      entry. */
  lemma {:induction false} WritesAreDispatchedByName(files: seq<Entry>)
    ensures var w := Plan(files).writes;
      forall i :: 0 <= i < |w| ==>
        w[i].entry.name != "/" &&
        (w[i].via == ViaUploadProgram <==> IsBin(w[i].entry.name)) &&
        TempPath(w[i].entry.name) == Some(w[i].path)
    decreases |files|
  {
    if files != [] {
      var init := files[..|files| - 1];
      var e := files[|files| - 1];
      WritesAreDispatchedByName(init);
      var p := Plan(init);
      PlanStep(files);
      if p.failedOn.None? && e.name != "/" && TempPath(e.name).Some? {
        var w := Plan(files).writes;
        assert forall i :: 0 <= i < |p.writes| ==> w[i] == p.writes[i];
      }
    }
  }

  /** One step of the loop, unfolded: a write is added exactly when the loop
      has not raised, the entry is not skipped and its name has a `.`. */
  lemma PlanStep(files: seq<Entry>)
    requires files != []
    ensures var p, e := Plan(files[..|files| - 1]), files[|files| - 1];
      if p.failedOn.None? && e.name != "/" && TempPath(e.name).Some? then
        Plan(files) == Progress(p.writes + [Write(WriterFor(e.name), p.next, TempPath(e.name).value, e)],
                                NextAddress(p.next, e.size), None)
      else
        Plan(files).writes == p.writes && Plan(files).next == p.next
  {
  }

  /** A skipped entry issues no write and leaves the running address alone. */
  lemma SkippedEntryChangesNothing(files: seq<Entry>, e: Entry)
    requires e.name == "/"
    ensures Plan(files + [e]) == Plan(files)
  {
    assert (files + [e])[..|files|] == files;
  }

  /** The loop runs to completion exactly when every entry that is not
      skipped has a `.` in its name, and then it writes exactly the entries
      that are not skipped, in order. */
  lemma {:induction false} CompletePlanWritesKept(files: seq<Entry>)
    ensures Plan(files).failedOn.None? <==>
              forall k :: 0 <= k < |files| && files[k].name != "/" ==> '.' in files[k].name
    ensures Plan(files).failedOn.None? ==> EntriesOf(Plan(files).writes) == Kept(files)
    decreases |files|
  {
    if files != [] {
      var init := files[..|files| - 1];
      CompletePlanWritesKept(init);
      assert forall k :: 0 <= k < |init| ==> init[k] == files[k];
    }
  }

  /** Once `rindex` has raised, the later entries change nothing. */
  lemma {:induction false} FailureIsFinal(files: seq<Entry>, n: nat)
    requires n <= |files|
    requires Plan(files[..n]).failedOn.Some?
    ensures Plan(files) == Plan(files[..n])
    decreases |files| - n
  {
    if n < |files| {
      var init := files[..|files| - 1];
      assert init[..n] == files[..n];
      FailureIsFinal(init, n);
    } else {
      assert files[..n] == files;
    }
  }

  /** The first entry that is not skipped and has no `.` stops the loop: its
      name is reported and only the entries before it were written. */
  lemma FirstDotlessNameStops(files: seq<Entry>, k: nat)
    requires k < |files| && files[k].name != "/" && '.' !in files[k].name
    requires forall j :: 0 <= j < k && files[j].name != "/" ==> '.' in files[j].name
    ensures Plan(files).failedOn == Some(files[k].name)
    ensures Plan(files).writes == Plan(files[..k]).writes
  {
    var prefix, e := files[..k], files[k];
    assert forall j :: 0 <= j < |prefix| ==> prefix[j] == files[j];
    CompletePlanWritesKept(prefix);
    assert Plan(prefix).failedOn.None?;
    assert files[..k + 1][..k] == prefix && files[..k + 1][k] == e;
    PlanStep(files[..k + 1]);
    assert Plan(files[..k + 1]) == Plan(prefix).(failedOn := Some(e.name));
    FailureIsFinal(files, k + 1);
  }

  /** When the file list has every image before every other entry, so do the
      writes. */
  lemma {:induction false} WritesKeepImagesFirst(files: seq<Entry>)
    requires forall i, j :: 0 <= i < j < |files| && IsBin(files[j].name) ==> IsBin(files[i].name)
    ensures var w := Plan(files).writes;
      forall i, j :: 0 <= i < j < |w| && IsBin(w[j].entry.name) ==> IsBin(w[i].entry.name)
    ensures forall i :: 0 <= i < |Plan(files).writes| ==> Plan(files).writes[i].entry in files
    decreases |files|
  {
    if files != [] {
      var init := files[..|files| - 1];
      var e := files[|files| - 1];
      WritesKeepImagesFirst(init);
      var p := Plan(init);
      assert forall x :: x in init ==> x in files;
      PlanStep(files);
      if p.failedOn.None? && e.name != "/" && TempPath(e.name).Some? {
        var w := Plan(files).writes;
        assert forall i :: 0 <= i < |p.writes| ==> w[i] == p.writes[i];
        if IsBin(e.name) {
          forall i | 0 <= i < |p.writes| ensures IsBin(w[i].entry.name) {
            var k :| 0 <= k < |init| && init[k] == p.writes[i].entry;
            assert files[k] == init[k];
          }
        }
      }
    }
  }
}
