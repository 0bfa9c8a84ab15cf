# ESP32 SPIFFS uploader — Dafny model

The uploader is a small desktop tool. It finds an ESP32 on a serial port and
erases its flash. Then it writes the entries of a zip archive one after
another into flash, through the `esptool` command-line program.

This project models the three pieces of `main.py` that hold the logic:

- **Status classification** (`ESP32.check_status`). The standard output of
  `esptool flash_id` becomes one of three statuses. The boot-mode signature
  `Wrong boot mode detected` is tested first, so it wins over the no-device
  signature `fatal error occurred: Failed to connect`. Text with neither
  signature means the device is ready. Python's `in` is modelled by a scanning
  function, `Strings.Contains`, and proved equal to the declarative
  "occurs at some index".
- **Device resolution** (`get_device`). The ports are probed in order. The
  first ready port is returned with `DEVICE_FOUND`. The first boot-mode error
  returns no device with `BOOT_MODE_ERROR`, even when a later port would be
  ready. A miss moves on to the next port. Running out of ports means
  `NO_DEVICE_FOUND`. `Resolver.Resolve` is the first-match specification.
  `Resolver.GetDevice` is the loop with its two early returns. It also reports
  how many ports it probed.
- **The upload** (`GUI.upload_zip_folder`). The steps are, in order:
  1. the guard on the last polled status;
  2. a fresh device search;
  3. one erase;
  4. the upload order (`.bin` images first, then the rest, each group in
     archive order);
  5. the loop over the entries.

  The loop skips `/` entries. It derives the temporary path `"temp"` +
  (suffix from the last `.`). It writes with `upload_program` for `.bin`
  names and with `upload_file` otherwise. Then it advances the flash address
  to `((address + size) div 0x1000 + 1) * 0x1000`. The device is an
  `Esptool` object whose `calls` field logs every erase and write.
  `Planning.Plan` is the loop's specification over `(name, size)` entries.
  `Session.UploadFiles` is the loop itself.

Modules: `Strings` (substring and `rindex` helpers), `Device` (statuses,
classification, ports, the `Esptool` call log), `Resolver`, `Ordering`,
`Planning` and `Session`.

Behaviour of the code that the model keeps as written:

- The probe classifies standard output only (main.py:76), not combined
  output.
- The address rule is floor-plus-one, not a ceiling (main.py:234). An entry
  that ends exactly on a 4 KiB boundary leaves a whole empty chunk behind it
  (`Planning.BoundaryEndSkipsAChunk`).
- For `a.txt` (10 bytes), `b.bin` (5000 bytes) and `/`, the image is
  written at 0x0 and the text file at 0x2000, because byte 5000 lies in
  chunk 1 (`Session.ImageFirstExample`).
- The erase happens before the archive is opened (main.py:195-198). So an
  archive that cannot be read, including a cancelled file dialog, still
  erases the flash and then raises.
- In the no-device branch, main.py:191 names `task`, which is not in scope
  there. The branch therefore raises a NameError before it can return `False`.
  The model reports `Raised(UndefinedTask)`, with no device calls.

## Model

| member | source | states |
|---|---|---|
| `Strings.ContainsIffOccurs` | main.py:80-83 | the substring test used for `in` holds exactly when the pattern occurs at some index of the text |
| `Device.Classify` | main.py:79-86 | BOOT_MODE_ERROR iff the boot-mode signature occurs; NO_DEVICE_FOUND iff it does not and the no-device signature does; DEVICE_FOUND iff neither occurs |
| `Device.Esptool.ClearFlash` | main.py:102-107 | the log gains exactly one erase of the device's port |
| `Device.Esptool.UploadProgram` | main.py:95-100 | the log gains exactly one write of the given file at the given address, issued by `upload_program` |
| `Device.Esptool.UploadFile` | main.py:88-93 | the log gains exactly one write of the given file at the given address, issued by `upload_file` |
| `Resolver.GetDevice` | main.py:48-65 | the result equals the first-match search; every port probed before the last was a miss; no port after the deciding one is probed; with no decision every port was probed; a returned device is the last probed port |
| `Resolver.DeviceIffFound` | main.py:57-65 | a device is returned exactly when the status is DEVICE_FOUND |
| `Resolver.AllMissesMeanNoDevice` | main.py:51-65 | when every port misses, including an empty port list, the result is no device and NO_DEVICE_FOUND |
| `Resolver.FirstDecisivePortDecides` | main.py:51-61 | the first port that does not miss decides: its device if ready, no device with BOOT_MODE_ERROR if in the wrong boot mode, whatever later ports would answer |
| `Resolver.LaterPortsIgnored` | main.py:57-61 | ports after a decisive one do not change the result |
| `Resolver.MissesAreSkipped` | main.py:51-63 | a list of misses in front changes nothing: the result is that of the ports after it |
| `Ordering.OrderEntries` | main.py:203-204 | the file list built and then extended in place is the images followed by the other entries |
| `Ordering.SelectMembers` | main.py:203-204 | an entry is in a group exactly when it is in the archive and its `.bin` test matches the group |
| `Ordering.OrderedIsPermutation` | main.py:203-204 | the upload order holds each archive entry exactly as often as the archive does |
| `Ordering.BinsComeFirst` | main.py:203-204 | no `.bin` entry comes after a non-`.bin` entry in the upload order |
| `Ordering.SelectKeepsOrder` | main.py:203-204 | each group lists its entries at strictly increasing archive positions (archive order is kept) |
| `Strings.LastIndexOf` | main.py:219 | `rindex`: the index found holds the character and no later index does; None exactly when the character is absent |
| `Planning.TempPath` | main.py:219 | None exactly when the name has no `.`; otherwise `temp` followed by the name's suffix that starts at a `.` and holds no further `.` |
| `Planning.NextAddress` | main.py:232-234 | the next address is a multiple of 0x1000, strictly past the end of the written bytes, and at most 0x1000 past it |
| `Planning.BoundaryEndSkipsAChunk` | main.py:234 | an end offset on a chunk boundary moves the address a full chunk past the end |
| `Planning.PlanIsAllocated` | main.py:201-234 | the first write is at 0; each next write is at NextAddress of the previous one's end; every write is chunk-aligned |
| `Planning.WritesDoNotOverlap` | main.py:201-234 | every write ends before any later write starts and before the running address: regions are disjoint and start addresses strictly increase |
| `Planning.WritesAreDispatchedByName` | main.py:210-230 | no `/` entry is written; `upload_program` is used exactly for `.bin` names; the path is the temporary path of the name |
| `Planning.SkippedEntryChangesNothing` | main.py:210-211 | a `/` entry adds no write and leaves the running address unchanged |
| `Planning.CompletePlanWritesKept` | main.py:208-234 | the loop completes exactly when every non-skipped name has a `.`, and then it writes exactly the non-skipped entries, in order |
| `Planning.FailureIsFinal` | main.py:219 | after `rindex` raises, later entries add no writes |
| `Planning.FirstDotlessNameStops` | main.py:208-219 | the first non-skipped name without `.` is the one reported, and only the entries before it were written |
| `Planning.WritesKeepImagesFirst` | main.py:208-230 | when the file list has images first, so do the writes; every write's entry comes from the file list |
| `Session.UploadZipFolder` | main.py:173-243 | a status other than DEVICE_FOUND returns False with no device call; no device on the re-search raises with no device call; otherwise one erase comes first, then the planned writes of the ordered archive; the outcome is True, or the error raised by an unreadable archive or a name without `.` |
| `Session.UploadFiles` | main.py:201-237 | the log gains exactly the planned writes of the file list, and the name that raised is the plan's |
| `Session.Dispatch` | main.py:226-230 | a `.bin` entry is written by `upload_program`, any other by `upload_file`, at the given address |
| `Session.SessionWritesImagesFirst` | main.py:203-230 | in a session every `.bin` entry is written before any other entry |
| `Session.ImageFirstExample` | main.py:201-234 | `[a.txt:10, b.bin:5000, /]` is written as b.bin at 0x0 by `upload_program`, then a.txt at 0x2000 by `upload_file`; `/` is skipped |

## Left out

- The Tkinter window, labels, button, `mainloop` and the `after`-based polling task (main.py:110-171, 185-186). The status the poller last stored is an input to `Session.UploadZipFolder`.
- The `esptool` subprocesses and their command lines, the baud rate and console printing (main.py:74, 90-107). A probe is a function from port name to its standard output. Erase and write are entries in the `Esptool` log.
- Device.Esp32.CheckStatus and Resolver.GetDevice assume the probe always returns its output. A probe that raises is not modelled: main.py:74 passes `BAUD_RATE` unconverted where main.py:90, 97 and 104 pass `str(BAUD_RATE)`, so an integer `baud_rate` makes `subprocess.run` raise TypeError there; a missing `esptool` executable and output that does not decode also raise. In those cases `check_status`, `get_device`, the polling task and the device search in `upload_zip_folder` raise instead of returning a status.
- Device.Esptool.ClearFlash, Device.Esptool.UploadProgram and Device.Esptool.UploadFile always succeed. The `check=True` failure that would raise mid-session is not modelled, so a partially written device is not modelled either.
- Serial port enumeration (main.py:42-45): the port list is an input. Each port's probe answer is fixed for the duration of one search.
- Reading the zip file, the file dialog, writing the temporary file, `os.path.getsize` and `os.remove` (main.py:183, 198-237). An entry's size is its uncompressed length. An archive that cannot be read is `None`.
- Removal of the temporary file is not modelled. It is not in a `finally`, so any exception after the file is written leaves it behind.
- A temporary path that names a missing directory (a `.` inside a directory part of the name) fails when the file is opened. This is file-system behaviour and is not modelled.
- Configuration loading (main.py:14-18).
- Entry names are strings, because zip entries always have string names. The `None` half of the skip test at main.py:210 can never be true, so only `/` is skipped.
- Status codes are the constructors of `Device.Status`, not the integers 0, 1 and 2. The guard's `is not` on these small integers behaves as `!=`.
