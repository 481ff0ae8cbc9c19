// infparser/device.py: a device listed in an INF models section, and the
// vendor, device, subsystem and revision ids read from its hardware id
// (`PCI\VEN_8086&DEV_100E&SUBSYS_001E8086&REV_02`, `USB\VID_046D&PID_C52B`).
module InfDevice {
  import opened Wrappers
  import opened PyStr

  /** `InstallInfo`: the files an install section copies, and its OS suffix. */
  datatype InstallInfo = InstallInfo(copyFiles: set<string>, version: Option<string>)

  /** Which class `Device.create` picked, with the ids that class parsed. */
  datatype Kind =
    | Generic
    | Pci(vendorId: int, deviceId: int, subsystemId: int, revisionId: int)
    | Usb(vendorId: int, deviceId: int, subsystemId: int)

  /**
   * A device. `installInfo` is what `get_models` attaches afterwards: the
   * install information of every section whose name starts with the
   * device's install section.
   */
  datatype Device = Device(
    name: string,
    installSection: string,
    hardwareId: string,
    version: Option<string>,
    kind: Kind,
    installInfo: Option<map<string, InstallInfo>>)

  /** `int(f.split(marker)[1], 16)`: the hexadecimal number after the first `marker` in `f`. */
  function HexAfter(f: string, marker: string): Option<int>
    requires |marker| > 0 && Contains(f, marker)
  {
    SplitContains(f, marker);
    ParseInt(Split(f, marker)[1], 16)
  }

  /**
   * The value an id field has after the constructor's loop has seen
   * `fields`: 0 at first, then the number after `marker` of every field that
   * contains it. A field that contains `marker` but no number there is a
   * ValueError.
   */
  function FieldValue(fields: seq<string>, marker: string): (r: Result<int>)
    requires |marker| > 0
    ensures r.Fail? ==> r.error == ValueError
  {
    if fields == [] then Ok(0)
    else
      var before :- FieldValue(fields[..|fields| - 1], marker);
      Updated(before, fields[|fields| - 1], marker)
  }

  /** One field's effect on an id: its number after `marker`, if it contains `marker`. */
  function Updated(before: int, f: string, marker: string): (r: Result<int>)
    requires |marker| > 0
    ensures r.Fail? ==> r.error == ValueError
  {
    if !Contains(f, marker) then Ok(before)
    else
      match HexAfter(f, marker)
      case None => Fail(ValueError)
      case Some(n) => Ok(n)
  }

  /** The loop's step: field `i` updates the id read from the fields before it. */
  lemma FieldValueNext(fields: seq<string>, i: nat, marker: string, before: int)
    requires |marker| > 0 && i < |fields| && FieldValue(fields[..i], marker) == Ok(before)
    ensures FieldValue(fields[..i + 1], marker) == Updated(before, fields[i], marker)
  {
    assert fields[..i + 1][..i] == fields[..i];
  }

  /** The index of the last field containing `marker`, or -1. */
  function LastWith(fields: seq<string>, marker: string): (r: int)
    ensures -1 <= r < |fields|
    ensures r >= 0 ==> Contains(fields[r], marker)
    ensures forall j :: r < j < |fields| ==> !Contains(fields[j], marker)
  {
    if fields == [] then -1
    else if Contains(fields[|fields| - 1], marker) then |fields| - 1
    else LastWith(fields[..|fields| - 1], marker)
  }

  /**
   * An id is the number after its marker in the LAST field that contains
   * the marker, or 0 when no field does; it is a ValueError exactly when
   * some field containing the marker has no number after it.
   */
  lemma {:induction false} FieldValueSpec(fields: seq<string>, marker: string)
    requires |marker| > 0
    ensures FieldValue(fields, marker).Fail? <==>
      exists j :: 0 <= j < |fields| && Contains(fields[j], marker) && HexAfter(fields[j], marker).None?
    ensures FieldValue(fields, marker).Ok? ==>
      var k := LastWith(fields, marker);
      FieldValue(fields, marker).value == if k < 0 then 0 else HexAfter(fields[k], marker).value
  {
    if fields != [] {
      var n := |fields| - 1;
      var init := fields[..n];
      FieldValueSpec(init, marker);
      assert forall j :: 0 <= j < n ==> init[j] == fields[j];
      if FieldValue(init, marker).Ok? && !Contains(fields[n], marker) {
        assert LastWith(fields, marker) == LastWith(init, marker);
      }
    }
  }

  /** Once a prefix of the fields has a bad id, the whole id is a ValueError. */
  lemma {:induction false} FieldValueFailPrefix(fields: seq<string>, marker: string, k: nat)
    requires |marker| > 0 && k <= |fields| && FieldValue(fields[..k], marker).Fail?
    ensures FieldValue(fields, marker) == Fail(ValueError)
    decreases |fields|
  {
    if k < |fields| {
      assert fields[..|fields| - 1][..k] == fields[..k];
      FieldValueFailPrefix(fields[..|fields| - 1], marker, k);
    } else {
      assert fields[..k] == fields;
    }
  }

  /** `hardware_id[1:-1]` when it starts and ends with a double quote. */
  function StripQuotes(hardwareId: string): (r: string)
    ensures |r| <= |hardwareId|
    ensures |hardwareId| >= 2 && StartsWith(hardwareId, "\"") && EndsWith(hardwareId, "\"") ==>
      "\"" + r + "\"" == hardwareId
    ensures !(StartsWith(hardwareId, "\"") && EndsWith(hardwareId, "\"")) ==> r == hardwareId
  {
    if StartsWith(hardwareId, "\"") && EndsWith(hardwareId, "\"") then
      if |hardwareId| >= 2 then hardwareId[1..|hardwareId| - 1] else []
    else hardwareId
  }

  /** Removing the quotes around a hardware id keeps the backslash in it. */
  lemma StripQuotesKeepsBackslash(hardwareId: string)
    requires Contains(hardwareId, "\\")
    ensures Contains(StripQuotes(hardwareId), "\\")
  {
    var h := hardwareId;
    var j := Find(h, "\\");
    assert h[j..j + 1] == "\\";
    if StartsWith(h, "\"") && EndsWith(h, "\"") {
      assert h[0] == '"' && h[|h| - 1] == '"' && h[j] == '\\';
      assert 1 <= j < |h| - 1;
      var t := StripQuotes(h);
      assert t[j - 1..j] == h[j..j + 1];
      assert OccursAt(t, "\\", j - 1);
    }
  }

  /** The ids `PCIDevice.__init__` reads: VEN_, DEV_, SUBSYS_ and REV_, in hexadecimal. */
  function PciKindOf(hardwareId: string): (r: Result<Kind>)
    ensures r.Fail? ==> r.error == ValueError || r.error == IndexError
    ensures r.Ok? ==> r.value.Pci?
  {
    var enumerator := Split(StripQuotes(hardwareId), "\\");
    if |enumerator| < 2 then Fail(IndexError) else PciIdsOf(Split(enumerator[1], "&"))
  }

  /** The PCI ids read from the `&`-separated fields after the enumerator. */
  function PciIdsOf(desc: seq<string>): (r: Result<Kind>)
    ensures r.Fail? ==> r.error == ValueError
    ensures r.Ok? ==> r.value.Pci?
  {
    var vendorId :- FieldValue(desc, "VEN_");
    var deviceId :- FieldValue(desc, "DEV_");
    var subsystemId :- FieldValue(desc, "SUBSYS_");
    var revisionId :- FieldValue(desc, "REV_");
    Ok(Pci(vendorId, deviceId, subsystemId, revisionId))
  }

  /** The ids `USBDevice.__init__` reads: VID_ and PID_, in hexadecimal; the subsystem id stays 0. */
  function UsbKindOf(hardwareId: string): (r: Result<Kind>)
    ensures r.Fail? ==> r.error == ValueError || r.error == IndexError
    ensures r.Ok? ==> r.value.Usb? && r.value.subsystemId == 0
  {
    var enumerator := Split(hardwareId, "\\");
    if |enumerator| < 2 then Fail(IndexError)
    else
      var desc := Split(enumerator[1], "&");
      var vendorId :- FieldValue(desc, "VID_");
      var deviceId :- FieldValue(desc, "PID_");
      Ok(Usb(vendorId, deviceId, 0))
  }

  /** `PCIDevice.__init__`: the id fields are updated field by field of the hardware id. */
  method PciKind(hardwareId: string) returns (r: Result<Kind>)
    ensures r == PciKindOf(hardwareId)
  {
    var h := StripQuotes(hardwareId);
    var enumerator := Split(h, "\\");
    if |enumerator| < 2 {
      return Fail(IndexError);
    }
    r := PciIds(Split(enumerator[1], "&"));
  }

  /** A bad value of any of the four ids makes the PCI ids a ValueError. */
  lemma PciIdsFail(desc: seq<string>, marker: string)
    requires marker in ["VEN_", "DEV_", "SUBSYS_", "REV_"] && FieldValue(desc, marker).Fail?
    ensures PciIdsOf(desc) == Fail(ValueError)
  {
  }

  /** The loop of `PCIDevice.__init__` over the id fields. */
  method PciIds(desc: seq<string>) returns (r: Result<Kind>)
    ensures r == PciIdsOf(desc)
  {
    var vendorId, deviceId, subsystemId, revisionId := 0, 0, 0, 0;
    for i := 0 to |desc|
      invariant FieldValue(desc[..i], "VEN_") == Ok(vendorId)
      invariant FieldValue(desc[..i], "DEV_") == Ok(deviceId)
      invariant FieldValue(desc[..i], "SUBSYS_") == Ok(subsystemId)
      invariant FieldValue(desc[..i], "REV_") == Ok(revisionId)
    {
      var f := desc[i];
      FieldValueNext(desc, i, "VEN_", vendorId);
      if Contains(f, "VEN_") {
        var n := HexAfter(f, "VEN_");
        if n.None? {
          FieldValueFailPrefix(desc, "VEN_", i + 1);
          PciIdsFail(desc, "VEN_");
          return Fail(ValueError);
        }
        vendorId := n.value;
      }
      FieldValueNext(desc, i, "DEV_", deviceId);
      if Contains(f, "DEV_") {
        var n := HexAfter(f, "DEV_");
        if n.None? {
          FieldValueFailPrefix(desc, "DEV_", i + 1);
          PciIdsFail(desc, "DEV_");
          return Fail(ValueError);
        }
        deviceId := n.value;
      }
      FieldValueNext(desc, i, "SUBSYS_", subsystemId);
      if Contains(f, "SUBSYS_") {
        var n := HexAfter(f, "SUBSYS_");
        if n.None? {
          FieldValueFailPrefix(desc, "SUBSYS_", i + 1);
          PciIdsFail(desc, "SUBSYS_");
          return Fail(ValueError);
        }
        subsystemId := n.value;
      }
      FieldValueNext(desc, i, "REV_", revisionId);
      if Contains(f, "REV_") {
        var n := HexAfter(f, "REV_");
        if n.None? {
          FieldValueFailPrefix(desc, "REV_", i + 1);
          PciIdsFail(desc, "REV_");
          return Fail(ValueError);
        }
        revisionId := n.value;
      }
    }
    assert desc[..|desc|] == desc;
    return Ok(Pci(vendorId, deviceId, subsystemId, revisionId));
  }

  /** `USBDevice.__init__`: the same loop over the VID_ and PID_ fields. */
  method UsbKind(hardwareId: string) returns (r: Result<Kind>)
    ensures r == UsbKindOf(hardwareId)
  {
    var enumerator := Split(hardwareId, "\\");
    if |enumerator| < 2 {
      return Fail(IndexError);
    }
    var desc := Split(enumerator[1], "&");
    var vendorId, deviceId := 0, 0;
    for i := 0 to |desc|
      invariant FieldValue(desc[..i], "VID_") == Ok(vendorId)
      invariant FieldValue(desc[..i], "PID_") == Ok(deviceId)
    {
      var f := desc[i];
      FieldValueNext(desc, i, "VID_", vendorId);
      if Contains(f, "VID_") {
        var n := HexAfter(f, "VID_");
        if n.None? {
          FieldValueFailPrefix(desc, "VID_", i + 1);
          return Fail(ValueError);
        }
        vendorId := n.value;
      }
      FieldValueNext(desc, i, "PID_", deviceId);
      if Contains(f, "PID_") {
        var n := HexAfter(f, "PID_");
        if n.None? {
          FieldValueFailPrefix(desc, "PID_", i + 1);
          return Fail(ValueError);
        }
        deviceId := n.value;
      }
    }
    assert desc[..|desc|] == desc;
    return Ok(Usb(vendorId, deviceId, 0));
  }

  /**
   * `Device.create`: a hardware id with no backslash, or whose enumerator
   * names neither PCI nor USB, is a plain device; otherwise the PCI or USB
   * ids are parsed. The result carries `version` and no install information.
   */
  function Create(name: string, installSection: string, hardwareId: string, version: Option<string>): (r: Result<Device>)
    ensures r.Fail? ==> r.error == ValueError
    ensures r.Ok? ==>
      r.value.name == name && r.value.installSection == installSection &&
      r.value.hardwareId == hardwareId && r.value.version == version && r.value.installInfo.None?
    ensures !Contains(hardwareId, "\\") ==> r.Ok? && r.value.kind.Generic?
  {
    var enumerator := Split(hardwareId, "\\");
    SplitContains(hardwareId, "\\");
    var kind :-
      if |enumerator| < 2 then Ok(Generic)
      else if Contains(enumerator[0], "PCI") then
        StripQuotesKeepsBackslash(hardwareId);
        SplitContains(StripQuotes(hardwareId), "\\");
        PciKindOf(hardwareId)
      else if Contains(enumerator[0], "USB") then UsbKindOf(hardwareId)
      else Ok(Generic);
    Ok(Device(name, installSection, hardwareId, version, kind, None))
  }

  /** `Device.create`, running the PCI or USB id loops. */
  method CreateDevice(name: string, installSection: string, hardwareId: string, version: Option<string>) returns (r: Result<Device>)
    ensures r == Create(name, installSection, hardwareId, version)
  {
    var enumerator := Split(hardwareId, "\\");
    var kind: Result<Kind> := Ok(Generic);
    if |enumerator| >= 2 {
      if Contains(enumerator[0], "PCI") {
        kind := PciKind(hardwareId);
      } else if Contains(enumerator[0], "USB") {
        kind := UsbKind(hardwareId);
      }
    }
    if kind.Fail? {
      return Fail(kind.error);
    }
    return Ok(Device(name, installSection, hardwareId, version, kind.value, None));
  }

  /** The enumerator, the part of a hardware id before its first backslash. */
  function Enumerator(hardwareId: string): string
  {
    Split(hardwareId, "\\")[0]
  }

  /**
   * The class `create` picks depends only on the enumerator: PCI before
   * USB, and a device of that class whenever its ids parse.
   */
  lemma CreateKind(name: string, installSection: string, hardwareId: string, version: Option<string>)
    requires Contains(hardwareId, "\\")
    ensures var r := Create(name, installSection, hardwareId, version);
      (Contains(Enumerator(hardwareId), "PCI") ==> (r.Ok? <==> PciKindOf(hardwareId).Ok?) && (r.Ok? ==> r.value.kind.Pci?)) &&
      (!Contains(Enumerator(hardwareId), "PCI") && Contains(Enumerator(hardwareId), "USB") ==>
        (r.Ok? <==> UsbKindOf(hardwareId).Ok?) && (r.Ok? ==> r.value.kind.Usb?)) &&
      (!Contains(Enumerator(hardwareId), "PCI") && !Contains(Enumerator(hardwareId), "USB") ==>
        r.Ok? && r.value.kind.Generic?)
  {
    SplitContains(hardwareId, "\\");
  }

  /** What `get_s2e_cfg` returns for a PCI device. */
  datatype S2eCfg = S2eCfg(name: string, vid: int, pid: int, revId: int, hwId: string, ssid: int, ssvid: int)

  /**
   * `get_s2e_cfg`: only PCI devices have one; the others raise. The
   * subsystem id is split with `>> 16` and `& 0xffff`, which on Python's
   * unbounded integers are floor division and the non-negative remainder by
   * 65536 (Dafny's `/` and `%` by a positive divisor agree with both).
   */
  function GetS2eCfg(d: Device): (r: Result<S2eCfg>)
    ensures r.Ok? <==> d.kind.Pci?
    ensures r.Fail? ==> r.error == PlainException
    ensures r.Ok? ==>
      r.value.name == d.name && r.value.hwId == d.hardwareId &&
      r.value.vid == d.kind.vendorId && r.value.pid == d.kind.deviceId && r.value.revId == d.kind.revisionId
    ensures r.Ok? ==> r.value.ssid * 65536 + r.value.ssvid == d.kind.subsystemId && 0 <= r.value.ssvid < 65536
  {
    match d.kind
    case Pci(vendorId, deviceId, subsystemId, revisionId) =>
      Ok(S2eCfg(d.name, vendorId, deviceId, revisionId, d.hardwareId, subsystemId / 65536, subsystemId % 65536))
    case _ => Fail(PlainException)
  }

  /** A 32-bit SUBSYS_ value splits into two 16-bit halves. */
  lemma S2eCfgHalves(d: Device)
    requires d.kind.Pci? && 0 <= d.kind.subsystemId < 0x1_0000_0000
    ensures 0 <= GetS2eCfg(d).value.ssid < 65536
  {
  }
}
