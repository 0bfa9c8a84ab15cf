/** The upload session behind the "Upload ZIP File" button: the status
    guard, a fresh device search, one erase, then one write per archive entry
    in upload order at the running flash address. */
module Session {
  import opened Strings
  import opened Device
  import opened Resolver
  import opened Ordering
  import opened Planning

  /** The exceptions the session can raise. */
  datatype Error =
    | UndefinedTask          // the no-device branch schedules a name that is not in scope
    | UnreadableArchive      // the selected file cannot be opened as a zip archive
    | NoDotInName(name: string)  // `rindex('.')` on an entry name without a `.`

  /** What the button handler does: return a boolean or raise. */
  datatype Outcome = Returned(ok: bool) | Raised(error: Error)

  /** `lastStatus` is the status last stored by the polling task (None before
      the first poll); `ports` and `flashId` describe the serial ports and
      their probe output at the time of the upload; `archive` holds the
      entries of the selected zip file, or None when it cannot be read. */
  method UploadZipFolder(lastStatus: Option<Status>, ports: seq<PortInfo>, flashId: string -> string,
                         archive: Option<seq<Entry>>, tool: Esptool)
    returns (outcome: Outcome)
    modifies tool
    ensures lastStatus != Some(DeviceFound) ==>
              outcome == Returned(false) && tool.calls == old(tool.calls)
    ensures lastStatus == Some(DeviceFound) && Resolve(ports, flashId).device.None? ==>
              outcome == Raised(UndefinedTask) && tool.calls == old(tool.calls)
    ensures lastStatus == Some(DeviceFound) && Resolve(ports, flashId).device.Some? && archive.None? ==>
              var port := Resolve(ports, flashId).device.value.port;
              outcome == Raised(UnreadableArchive) && tool.calls == old(tool.calls) + [EraseFlash(port)]
    ensures lastStatus == Some(DeviceFound) && Resolve(ports, flashId).device.Some? && archive.Some? ==>
              var port := Resolve(ports, flashId).device.value.port;
              var p := Plan(Ordered(archive.value));
              tool.calls == old(tool.calls) + [EraseFlash(port)] + WritesTo(port, p.writes) &&
              outcome == (if p.failedOn.None? then Returned(true) else Raised(NoDotInName(p.failedOn.value)))
  {
    if lastStatus != Some(DeviceFound) {
      return Returned(false);
    }
    var device, _, _ := GetDevice(ports, flashId);
    if device.None? {
      return Raised(UndefinedTask);
    }
    var esp := device.value;
    tool.ClearFlash(esp);
    if archive.None? {
      return Raised(UnreadableArchive);
    }
    var fileList := OrderEntries(archive.value);
    var failedOn := UploadFiles(esp, fileList, tool);
    outcome := if failedOn.None? then Returned(true) else Raised(NoDotInName(failedOn.value));
  }

  /** The loop over the ordered file list: skip `/`, derive the temporary
      path (raising on a name without `.`), write with the method the name
      selects at the running address, then advance the address. */
  method UploadFiles(esp: Esp32, fileList: seq<Entry>, tool: Esptool) returns (failedOn: Option<string>)
    modifies tool
    ensures failedOn == Plan(fileList).failedOn
    ensures tool.calls == old(tool.calls) + WritesTo(esp.port, Plan(fileList).writes)
  {
    var currentAddress := 0;
    var i := 0;
    while i < |fileList|
      invariant i <= |fileList|
      invariant Plan(fileList[..i]).failedOn.None?
      invariant currentAddress == Plan(fileList[..i]).next
      invariant tool.calls == old(tool.calls) + WritesTo(esp.port, Plan(fileList[..i]).writes)
    {
      var entry := fileList[i];
      ghost var before := Plan(fileList[..i]);
      assert fileList[..i + 1][..i] == fileList[..i];
      PlanStep(fileList[..i + 1]);
      if entry.name == "/" {
        i := i + 1;
        continue;
      }
      var tempPath := TempPath(entry.name);
      if tempPath.None? {
        FailureIsFinal(fileList, i + 1);
        return Some(entry.name);
      }
      var write := Write(WriterFor(entry.name), currentAddress, tempPath.value, entry);
      assert Plan(fileList[..i + 1]).writes == before.writes + [write];
      WritesToAppend(esp.port, before.writes, write);
      Dispatch(esp, currentAddress, tempPath.value, entry, tool);
      assert tool.calls == old(tool.calls) + (WritesTo(esp.port, before.writes) + [WriteFlash(esp.port, write)]);
      currentAddress := NextAddress(currentAddress, entry.size);
      i := i + 1;
    }
    assert fileList[..i] == fileList;
    return None;
  }

  /** Writes one entry with `upload_program` when its name ends in `.bin`
      and with `upload_file` otherwise. */
  method Dispatch(esp: Esp32, address: nat, path: string, entry: Entry, tool: Esptool)
    modifies tool
    ensures tool.calls == old(tool.calls) + [WriteFlash(esp.port, Write(WriterFor(entry.name), address, path, entry))]
  {
    if IsBin(entry.name) {
      tool.UploadProgram(esp, address, path, entry);
    } else {
      tool.UploadFile(esp, address, path, entry);
    }
  }

  /** In a session, every image is written before any other entry. */
  lemma SessionWritesImagesFirst(entries: seq<Entry>)
    ensures var w := Plan(Ordered(entries)).writes;
      forall i, j :: 0 <= i < j < |w| && IsBin(w[j].entry.name) ==> IsBin(w[i].entry.name)
  {
    BinsComeFirst(entries);
    WritesKeepImagesFirst(Ordered(entries));
  }

  /** A text file, an image of 5000 bytes and a `/` entry: the image goes
      first at 0x0; its end 5000 lies in chunk 1, so the text file goes to
      0x2000; the `/` entry is skipped. */
  lemma ImageFirstExample()
    ensures Plan(Ordered([Entry("a.txt", 10), Entry("b.bin", 5000), Entry("/", 0)])).writes ==
      [Write(ViaUploadProgram, 0x0, "temp.bin", Entry("b.bin", 5000)),
       Write(ViaUploadFile, 0x2000, "temp.txt", Entry("a.txt", 10))]
  {
    ExampleOrder();
    ExamplePlan();
  }

  lemma ExamplePlan()
    ensures Plan([Entry("b.bin", 5000), Entry("a.txt", 10), Entry("/", 0)]).writes ==
      [Write(ViaUploadProgram, 0x0, "temp.bin", Entry("b.bin", 5000)),
       Write(ViaUploadFile, 0x2000, "temp.txt", Entry("a.txt", 10))]
  {
    var a, b, slash := Entry("a.txt", 10), Entry("b.bin", 5000), Entry("/", 0);
    ExamplePlanImage();
    ExamplePlanText();
    assert [b, a, slash][..2] == [b, a];
    PlanStep([b, a, slash]);
  }

  lemma ExamplePlanImage()
    ensures Plan([Entry("b.bin", 5000)]) ==
      Progress([Write(ViaUploadProgram, 0, "temp.bin", Entry("b.bin", 5000))], 0x2000, None)
  {
    var b := Entry("b.bin", 5000);
    ExampleTempPaths();
    assert IsBin(b.name) by { assert "b.bin"[1..] == ".bin"; }
    assert [b][..0] == [];
    PlanStep([b]);
  }

  lemma ExamplePlanText()
    ensures Plan([Entry("b.bin", 5000), Entry("a.txt", 10)]).writes ==
      [Write(ViaUploadProgram, 0x0, "temp.bin", Entry("b.bin", 5000)),
       Write(ViaUploadFile, 0x2000, "temp.txt", Entry("a.txt", 10))]
  {
    var a, b := Entry("a.txt", 10), Entry("b.bin", 5000);
    ExamplePlanImage();
    ExampleTempPaths();
    assert !IsBin(a.name);
    assert [b, a][..1] == [b];
    PlanStep([b, a]);
  }

  lemma ExampleOrder()
    ensures Ordered([Entry("a.txt", 10), Entry("b.bin", 5000), Entry("/", 0)]) ==
      [Entry("b.bin", 5000), Entry("a.txt", 10), Entry("/", 0)]
  {
    ExampleImages();
    ExampleOthers();
  }

  lemma ExampleImages()
    ensures Select([Entry("a.txt", 10), Entry("b.bin", 5000), Entry("/", 0)], true) == [Entry("b.bin", 5000)]
  {
    var a, b, slash := Entry("a.txt", 10), Entry("b.bin", 5000), Entry("/", 0);
    assert IsBin(b.name) by { assert "b.bin"[1..] == ".bin"; }
    assert !IsBin(a.name) && !IsBin(slash.name);
    assert [a][..0] == [];
    assert Select([a], true) == [];
    assert [a, b][..1] == [a];
    assert Select([a, b], true) == [b];
    assert [a, b, slash][..2] == [a, b];
  }

  lemma ExampleOthers()
    ensures Select([Entry("a.txt", 10), Entry("b.bin", 5000), Entry("/", 0)], false) ==
      [Entry("a.txt", 10), Entry("/", 0)]
  {
    var a, b, slash := Entry("a.txt", 10), Entry("b.bin", 5000), Entry("/", 0);
    assert IsBin(b.name) by { assert "b.bin"[1..] == ".bin"; }
    assert !IsBin(a.name) && !IsBin(slash.name);
    assert [a][..0] == [];
    assert Select([a], false) == [a];
    assert [a, b][..1] == [a];
    assert Select([a, b], false) == [a];
    assert [a, b, slash][..2] == [a, b];
  }

  lemma ExampleTempPaths()
    ensures TempPath("b.bin") == Some("temp.bin") && TempPath("a.txt") == Some("temp.txt")
  {
    LastDotAtOne("b.bin");
    LastDotAtOne("a.txt");
    assert "temp" + "b.bin"[1..] == "temp.bin";
    assert "temp" + "a.txt"[1..] == "temp.txt";
  }

  /** A five-character name whose only `.` is at index 1. */
  lemma LastDotAtOne(name: string)
    requires |name| == 5 && name[1] == '.'
    requires name[0] != '.' && name[2] != '.' && name[3] != '.' && name[4] != '.'
    ensures LastIndexOf(name, '.') == Some(1)
  {
    assert '.' in name;
  }
}
