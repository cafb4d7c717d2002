/** Optional values, results and the failures the diagnostic tool can report. */
module Results {
  import opened Bytes

  datatype Option<+T> = None | Some(value: T)

  /** Every way an operation of the tool can fail; the context strings are not modelled. */
  datatype Error =
    | LcTooLong                        // the command data does not fit a one-byte Lc
    | TransmitFailed                   // the PC/SC transmit call failed
    | ResponseTooShort                 // the reply has no room for SW1 SW2
    | StatusWord(sw1: byte, sw2: byte)  // the card answered with a status other than 90 00
    | UuidLength                       // the UUID payload is not 16 bytes long
    | ConnectFailed                    // connecting to the reader or starting a transaction failed
    | UsbUnavailable                   // no libusb context or no device list
    | DescriptorUnavailable            // a USB device descriptor could not be read
    | PcscUnavailable                  // no PC/SC context or no reader list
    | NoDevices                        // neither bootloader nor firmware devices were found

  datatype Result<+T> = Ok(value: T) | Err(error: Error)
}
