/**
 * The diagnosis as a whole: the devices found, the status of the readers and
 * the warnings derived from comparing the two.
 */
module Diagnose {
  import opened Results
  import opened Readers
  import opened Devices

  /** What the tool reports when it gets that far; the printing itself is not modelled. */
  datatype Report = Report(
    devices: seq<Device>,
    status: ReaderStatus,
    couldNotConnect: bool,          // more firmware devices than firmware readers
    multipleFirmwareDevices: bool,  // more than one firmware device
    foreignReaders: bool)           // readers that do not belong to the firmware

  /**
   * main: find the devices (failing when there are none), sort the readers,
   * then compare the number of firmware devices with the firmware readers.
   */
  method Diagnose(bootloaders: seq<Lpc55Bootloader>, usb: Option<seq<UsbDevice>>, pcsc: Option<seq<PcscReader>>)
    returns (r: Result<Report>)
    ensures FirmwareDevicesOf(usb).Err? ==> r == Err(FirmwareDevicesOf(usb).error)
    ensures FirmwareDevicesOf(usb).Ok? && |bootloaders| + |FirmwareDevicesOf(usb).value| == 0 ==> r == Err(NoDevices)
    ensures FirmwareDevicesOf(usb).Ok? && |bootloaders| + |FirmwareDevicesOf(usb).value| > 0 && pcsc.None? ==>
      r == Err(PcscUnavailable)
    ensures r.Ok? <==> FirmwareDevicesOf(usb).Ok? && |bootloaders| + |FirmwareDevicesOf(usb).value| > 0 && pcsc.Some?
    ensures r.Ok? ==> r.value.devices == BootloaderDevices(bootloaders) + FirmwareDevicesOf(usb).value
    ensures r.Ok? ==> r.value.status == StatusOf(GetReaders(pcsc).value)
    ensures r.Ok? ==> (r.value.couldNotConnect <==>
      |FirmwareDevicesOf(usb).value| > |FirmwareReadersOf(GetReaders(pcsc).value)|)
    ensures r.Ok? ==> (r.value.multipleFirmwareDevices <==> |FirmwareDevicesOf(usb).value| > 1)
    ensures r.Ok? ==> (r.value.foreignReaders <==> OtherReadersOf(GetReaders(pcsc).value) != [])
  {
    var devices := FindDevices(bootloaders, usb);
    if devices.Err? {
      return Err(devices.error);
    }
    if |devices.value| == 0 {
      return Err(NoDevices);
    }
    var readerStatus := GetReaderStatus(GetReaders(pcsc));
    if readerStatus.Err? {
      return Err(readerStatus.error);
    }
    var status := readerStatus.value;
    var firmwareDeviceCount := FirmwareDeviceCount(devices.value);
    r := Ok(Report(
      devices.value,
      status,
      firmwareDeviceCount > |status.firmwareReaders|,
      firmwareDeviceCount > 1,
      status.otherReaders != []));
  }

  /** The foreign-reader warning fires exactly when some listed reader lacks the firmware's name. */
  lemma ForeignReadersIffUnnamed(rs: seq<PcscReader>)
    ensures OtherReadersOf(GetReaders(Some(rs)).value) != [] <==>
      exists i :: 0 <= i < |rs| && !IsFirmwareReaderName(rs[i].name)
  {
    var all := GetReaders(Some(rs)).value;
    StatusOfMembers(all);
    if exists i :: 0 <= i < |rs| && !IsFirmwareReaderName(rs[i].name) {
      var i :| 0 <= i < |rs| && !IsFirmwareReaderName(rs[i].name);
      assert all[i] == Other(rs[i].name);
      assert rs[i].name in OtherReadersOf(all);
    }
    if OtherReadersOf(all) != [] {
      var n := OtherReadersOf(all)[0];
      assert n in OtherReadersOf(all);
      assert Other(n) in all;
      var i :| 0 <= i < |all| && all[i] == Other(n);
      assert !IsFirmwareReaderName(rs[i].name);
    }
  }

  /**
   * A firmware device without a reader of the firmware's name (the reader the
   * platform exposes only once it knows the device) always raises the connect
   * warning, whatever the readers answer.
   */
  lemma ConnectWarningForUnnamedDevices(usb: Option<seq<UsbDevice>>, rs: seq<PcscReader>)
    requires FirmwareDevicesOf(usb).Ok?
    requires |FirmwareDevicesOf(usb).value| > FirmwareNamedCount(rs)
    ensures |FirmwareDevicesOf(usb).value| > |FirmwareReadersOf(GetReaders(Some(rs)).value)|
  {
    ClassifiedCounts(rs);
  }
}
