/** The ESP32 adapter: classifying the output of esptool's `flash_id` probe,
    and the erase/write invocations the uploader makes against a port. */
module Device {
  import opened Strings

  /** The three device status codes (0, 1 and 2 in the program). */
  datatype Status = DeviceFound | BootModeError | NoDeviceFound

  const BootModeErrorText: string := "Wrong boot mode detected"
  const NoDeviceFoundText: string := "fatal error occurred: Failed to connect"

  /** Flash page size: every write starts on a multiple of it. */
  const ChunkSize: nat := 0x1000

  /** Classification of the probe's standard output. The boot-mode signature
      is tested first, so it wins when both signatures are present; any
      text with neither signature means the device is ready. */
  function Classify(text: string): (s: Status)
    ensures s == BootModeError <==> Occurs(text, BootModeErrorText)
    ensures s == NoDeviceFound <==>
              !Occurs(text, BootModeErrorText) && Occurs(text, NoDeviceFoundText)
    ensures s == DeviceFound <==>
              !Occurs(text, BootModeErrorText) && !Occurs(text, NoDeviceFoundText)
  {
    ContainsIffOccurs(text, BootModeErrorText);
    ContainsIffOccurs(text, NoDeviceFoundText);
    if Contains(text, BootModeErrorText) then BootModeError
    else if Contains(text, NoDeviceFoundText) then NoDeviceFound
    else DeviceFound
  }

  /** A serial port as enumerated by pyserial: (device, description, hwid). */
  datatype PortInfo = PortInfo(device: string, description: string, hwid: string)

  /** An ESP32 reached through a serial port; it holds nothing but the port.
      `flashId` gives the text esptool prints on standard output when asked
      for `flash_id` on a port. */
  datatype Esp32 = Esp32(port: string) {
    function CheckStatus(flashId: string -> string): Status
    {
      Classify(flashId(port))
    }
  }

  /** Which of the two device methods issued a write. Both run the same
      `write_flash --flash_size=detect <address> <path>` command. */
  datatype Writer = ViaUploadProgram | ViaUploadFile

  /** One flash write: the method used, the start address, the temporary
      path handed to esptool, and the archive entry whose bytes that file holds. */
  datatype Write = Write(via: Writer, address: nat, path: string, entry: Entry)

  /** An archive entry, by name and uncompressed size in bytes. */
  datatype Entry = Entry(name: string, size: nat)

  /** One destructive esptool invocation against a port. */
  datatype Call = EraseFlash(port: string) | WriteFlash(port: string, write: Write)

  /** The writes of a session as the esptool calls they become on `port`. */
  function WritesTo(port: string, writes: seq<Write>): (calls: seq<Call>)
    ensures |calls| == |writes|
    ensures forall i :: 0 <= i < |writes| ==> calls[i] == WriteFlash(port, writes[i])
  {
    if writes == [] then []
    else WritesTo(port, writes[..|writes| - 1]) + [WriteFlash(port, writes[|writes| - 1])]
  }

  lemma WritesToAppend(port: string, writes: seq<Write>, w: Write)
    ensures WritesTo(port, writes + [w]) == WritesTo(port, writes) + [WriteFlash(port, w)]
  {
    assert (writes + [w])[..|writes|] == writes;
  }

  /** The external flashing tool, seen as the log of erase and write
      invocations it has received. Every invocation is assumed to succeed. */
  class Esptool {
    var calls: seq<Call>

    constructor ()
      ensures calls == []
    {
      calls := [];
    }

    method ClearFlash(device: Esp32)
      modifies this
      ensures calls == old(calls) + [EraseFlash(device.port)]
    {
      calls := calls + [EraseFlash(device.port)];
    }

    method UploadProgram(device: Esp32, address: nat, path: string, entry: Entry)
      modifies this
      ensures calls == old(calls) + [WriteFlash(device.port, Write(ViaUploadProgram, address, path, entry))]
    {
      calls := calls + [WriteFlash(device.port, Write(ViaUploadProgram, address, path, entry))];
    }

    method UploadFile(device: Esp32, address: nat, path: string, entry: Entry)
      modifies this
      ensures calls == old(calls) + [WriteFlash(device.port, Write(ViaUploadFile, address, path, entry))]
    {
      calls := calls + [WriteFlash(device.port, Write(ViaUploadFile, address, path, entry))];
    }
  }
}
