/**
 * The USB side of the diagnosis: bootloader devices reported by the LPC55
 * bootloader listing, and firmware devices found by their VID:PID.
 */
module Devices {
  import opened Bytes
  import opened Results

  const VID_FIRMWARE: u16 := 0x1209
  const PID_FIRMWARE: u16 := 0xbeee

  datatype Device =
    | Bootloader(vid: u16, pid: u16, uuid: u128)
    | Firmware(bus: byte, address: byte)

  /** A bootloader as the LPC55 listing reports it. */
  datatype Lpc55Bootloader = Lpc55Bootloader(vid: u16, pid: u16, uuid: u128)

  datatype Descriptor = Descriptor(vendorId: u16, productId: u16)

  /** A device of the libusb listing; its descriptor is None when querying it fails. */
  datatype UsbDevice = UsbDevice(descriptor: Option<Descriptor>, bus: byte, address: byte)

  /** The conversion of a listed bootloader into a device. */
  function FromBootloader(b: Lpc55Bootloader): (d: Device)
    ensures d.Bootloader? && d.vid == b.vid && d.pid == b.pid && d.uuid == b.uuid
  {
    Bootloader(b.vid, b.pid, b.uuid)
  }

  /** find_bootloader_devices: every listed bootloader, in listing order. */
  function BootloaderDevices(bs: seq<Lpc55Bootloader>): (ds: seq<Device>)
    ensures |ds| == |bs|
    ensures forall i :: 0 <= i < |bs| ==> ds[i] == FromBootloader(bs[i])
  {
    seq(|bs|, i requires 0 <= i < |bs| => FromBootloader(bs[i]))
  }

  /** A USB device runs the firmware when its descriptor reads 1209:beee. */
  predicate IsFirmwareDescriptor(d: Descriptor)
  {
    d.vendorId == VID_FIRMWARE && d.productId == PID_FIRMWARE
  }

  /** Every descriptor of the listing could be read. */
  predicate AllDescribed(usb: seq<UsbDevice>)
  {
    forall i :: 0 <= i < |usb| ==> usb[i].descriptor.Some?
  }

  /** The firmware devices among described USB devices, in listing order. */
  function MatchingDevices(usb: seq<UsbDevice>): seq<Device>
  {
    if usb == [] then []
    else
      var last := usb[|usb| - 1];
      MatchingDevices(usb[..|usb| - 1]) +
        (if last.descriptor.Some? && IsFirmwareDescriptor(last.descriptor.value)
         then [Firmware(last.bus, last.address)] else [])
  }

  /**
   * What find_firmware_devices returns: an error when libusb is unavailable or
   * any descriptor cannot be read, otherwise the matching devices.
   */
  function FirmwareDevicesOf(listing: Option<seq<UsbDevice>>): Result<seq<Device>>
  {
    match listing
    case None => Err(UsbUnavailable)
    case Some(usb) => if AllDescribed(usb) then Ok(MatchingDevices(usb)) else Err(DescriptorUnavailable)
  }

  /** find_firmware_devices: walks the USB listing and pushes every firmware device. */
  method FindFirmwareDevices(listing: Option<seq<UsbDevice>>) returns (r: Result<seq<Device>>)
    ensures r == FirmwareDevicesOf(listing)
  {
    if listing.None? {
      return Err(UsbUnavailable);
    }
    var usb := listing.value;
    var firmwareDevices: seq<Device> := [];
    for i := 0 to |usb|
      invariant AllDescribed(usb[..i])
      invariant firmwareDevices == MatchingDevices(usb[..i])
    {
      assert usb[..i + 1][..i] == usb[..i];
      var device := usb[i];
      if device.descriptor.None? {
        return Err(DescriptorUnavailable);
      }
      var desc := device.descriptor.value;
      if desc.vendorId == VID_FIRMWARE && desc.productId == PID_FIRMWARE {
        firmwareDevices := firmwareDevices + [Firmware(device.bus, device.address)];
      }
    }
    assert usb[..|usb|] == usb;
    r := Ok(firmwareDevices);
  }

  /** The matching devices are exactly the firmware devices built from the 1209:beee entries of the listing. */
  lemma {:induction false} MatchingDevicesMembers(usb: seq<UsbDevice>)
    ensures forall d :: d in MatchingDevices(usb) ==> d.Firmware?
    ensures forall d :: d in MatchingDevices(usb) <==>
      exists u :: u in usb && u.descriptor.Some? && IsFirmwareDescriptor(u.descriptor.value) &&
                  d == Firmware(u.bus, u.address)
  {
    if usb != [] {
      var init := usb[..|usb| - 1];
      MatchingDevicesMembers(init);
      assert usb == init + [usb[|usb| - 1]];
    }
  }

  /** The number of firmware devices in a device list, as main counts them. */
  function FirmwareDeviceCount(devices: seq<Device>): (n: nat)
    ensures n <= |devices|
  {
    if devices == [] then 0
    else FirmwareDeviceCount(devices[1..]) + (if devices[0].Firmware? then 1 else 0)
  }

  lemma {:induction false} FirmwareDeviceCountAppend(a: seq<Device>, b: seq<Device>)
    ensures FirmwareDeviceCount(a + b) == FirmwareDeviceCount(a) + FirmwareDeviceCount(b)
  {
    if a != [] {
      assert (a + b)[1..] == a[1..] + b;
      FirmwareDeviceCountAppend(a[1..], b);
    } else {
      assert a + b == b;
    }
  }

  /** The count is the list's length when every device is a firmware device, and zero when none is. */
  lemma {:induction false} FirmwareDeviceCountUniform(devices: seq<Device>)
    ensures (forall d :: d in devices ==> d.Firmware?) ==> FirmwareDeviceCount(devices) == |devices|
    ensures (forall d :: d in devices ==> d.Bootloader?) ==> FirmwareDeviceCount(devices) == 0
  {
    if devices != [] {
      FirmwareDeviceCountUniform(devices[1..]);
      assert devices[0] in devices;
      assert forall d :: d in devices[1..] ==> d in devices;
    }
  }

  /**
   * find_devices: the bootloader devices followed by the firmware devices; an
   * error of the firmware search is passed on.
   */
  method FindDevices(bootloaders: seq<Lpc55Bootloader>, listing: Option<seq<UsbDevice>>) returns (r: Result<seq<Device>>)
    ensures FirmwareDevicesOf(listing).Err? ==> r == Err(FirmwareDevicesOf(listing).error)
    ensures FirmwareDevicesOf(listing).Ok? ==> r == Ok(BootloaderDevices(bootloaders) + FirmwareDevicesOf(listing).value)
    ensures r.Ok? ==> forall i, j :: 0 <= i < j < |r.value| && r.value[i].Firmware? ==> r.value[j].Firmware?
    ensures r.Ok? ==> FirmwareDeviceCount(r.value) == |FirmwareDevicesOf(listing).value|
  {
    var devices: seq<Device> := [];
    devices := devices + BootloaderDevices(bootloaders);
    var firmware := FindFirmwareDevices(listing);
    if firmware.Err? {
      return Err(firmware.error);
    }
    devices := devices + firmware.value;
    MatchingDevicesMembers(listing.value);
    var boots := BootloaderDevices(bootloaders);
    assert devices == boots + firmware.value;
    FirmwareDeviceCountAppend(boots, firmware.value);
    FirmwareDeviceCountUniform(boots);
    FirmwareDeviceCountUniform(firmware.value);
    forall i, j | 0 <= i < j < |devices| && devices[i].Firmware?
      ensures devices[j].Firmware?
    {
      assert i >= |boots|;
      assert devices[j] in firmware.value;
    }
    r := Ok(devices);
  }
}
