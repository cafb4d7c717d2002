# nk3-diagnose, modelled in Dafny

`nk3-diagnose` is a small command-line diagnostic for Solo 2 / Nitrokey 3
security keys. It lists the keys attached over USB, both in bootloader mode
(through the LPC55 bootloader listing) and running the firmware (USB VID:PID
1209:beee). It then goes through the PC/SC smartcard readers. A reader whose
name starts with "SoloKeys Solo 2 [CCID/ICCD Interface]" is asked, with short
command APDUs (section 5.1 of ISO/IEC 7816-4), to select the admin application,
report the key's 128-bit UUID and select the provisioner application. Finally
the tool compares the device count with the readers it could talk to and
prints warnings.

This project models that logic from `src/main.rs`:

- `Bytes.dfy`: `byte` (Rust's `u8`), `u16` and `u128` as bounded newtypes, and big-endian byte strings
  (`u128::from_be_bytes`), with round trips in both directions.
- `Results.dfy`: `Option`, `Result` and one error kind for each failure the tool reports.
- `Ccid.dfy`: the request builder, the reply-buffer sizing, the status-word check,
  and `ccid_transmit` as an imperative method.
  Also `ccid_select`, `ccid_select2` and `admin_get_uuid`.
  These callers are written over the pure `Exchange`, the specification of
  `ccid_transmit`; `Transmit` is proved to return exactly what `Exchange` gives.
  `Transmit` runs the function's two halves as two methods. `PushRequest` grows
  the request vector, and `ReadResponse` truncates the reply buffer and pops the
  status word off it.
  The builder's partner is an ISO/IEC 7816-4 short-APDU parser, related to it by a
  round-trip lemma in each direction.
- `Readers.dfy`: the reader-name prefix test, `get_firmware_reader`, `get_readers`,
  and the `get_reader_status` loop.
  That loop is proved against a specification of the three lists; order, counts
  and membership are proved about the specification.
- `Devices.dfy`: the VID:PID filter loop of `find_firmware_devices`, the
  bootloader-first order of `find_devices`, and the firmware-device count.
- `Diagnose.dfy`: `main`, including its error order and its three warnings.

Every call into libusb, the LPC55 crate or PC/SC becomes an input:
- the bootloader list;
- the USB listing, `None` when no context or list is available, with one optional descriptor per device;
- the reader listing, `None` when PC/SC is unavailable.

Every listed reader carries a `Session`; only those with the firmware's name
are ever talked to. A session is either `Unreachable` (connect
or transaction failed) or holds the card's answers to the three exchanges. An
answer is `None` when the transmit call fails for a reason of its own. An answer
longer than the reply buffer sized from Le cannot be delivered, so the model
fails that transmit call as well (`TransmitFailed`).

## Model

| member | source | states |
|---|---|---|
| `Bytes.U128FromBeBytes` | src/main.rs:185 | 16 bytes are read as the big-endian value Σ b[i]·256^(15−i), which always fits a u128 |
| `Bytes.BeValueBound` | src/main.rs:185 | n big-endian bytes denote a value below 256^n |
| `Bytes.BeValueOfToBeBytes` | src/main.rs:185 | encoding a value that fits in n bytes big-endian and decoding it gives the value back |
| `Bytes.ToBeBytesOfBeValue` | src/main.rs:185 | decoding a byte string and re-encoding it in as many bytes gives the string back |
| `Bytes.U128RoundTrip` | src/main.rs:185 | from_be_bytes(to_be_bytes(x)) == x for every u128 |
| `Bytes.U128RoundTripBytes` | src/main.rs:185 | to_be_bytes(from_be_bytes(b)) == b for every 16 bytes |
| `Ccid.BuildRequest` | src/main.rs:122-142 | the length of the request is 4 + (1+\|data\| if data) + (1 if Le); building fails, with LcTooLong, exactly when data exceeds 255 bytes |
| `Ccid.BuildRequestLayout` | src/main.rs:122-142 | the request starts with 00 INS P1 P2; Lc = \|data\| and the unchanged data follow only when data is non-empty; empty data adds only Le; Le, when given, is the last byte |
| `Ccid.ParseRequest` | src/main.rs:122-142 | an ISO/IEC 7816-4 short-case parser (the card's side), whose result keeps the four header bytes and at most 255 data bytes |
| `Ccid.ParseBuiltRequest` | src/main.rs:122-142 | every built request parses back to command (00, INS, P1, P2, data, Le) |
| `Ccid.BuildParsedRequest` | src/main.rs:122-142 | every well-formed short command of class 00 is exactly what the builder produces from its fields |
| `Ccid.ExpectedLength` | src/main.rs:144-149 | Ne is 0 without Le, 256 for Le = 0, Le otherwise, never more than 256 |
| `Ccid.ResponseCapacity` | src/main.rs:144-150 | the reply buffer is 2 bytes without Le, 258 for Le = 0 and Le + 2 otherwise: Ne data bytes plus SW1 SW2 |
| `Ccid.DecodeResponse` | src/main.rs:153-161 | fewer than 2 bytes is ResponseTooShort; otherwise success iff the last two bytes are 90 00, with the payload being the reply minus those bytes; any other status is reported with its SW1 SW2 |
| `Ccid.EncodeResponse` | src/main.rs:153-161 | a card's reply is its payload followed by the two status bytes |
| `Ccid.DecodeEncodedResponse` | src/main.rs:155-161 | decoding payload + SW1 SW2 returns the payload iff the status is 90 00 and the status error otherwise |
| `Ccid.DecodedResponseIsEncoded` | src/main.rs:155-158 | a successful decode came from exactly payload + 90 00 |
| `Ccid.Receive` | src/main.rs:144-161 | a failed transmit, or an answer longer than the reply buffer, is TransmitFailed; otherwise the answer is decoded, and a payload never exceeds Ne bytes |
| `Ccid.PushRequest` | src/main.rs:122-142 | pushing header, Lc, data and Le onto the request vector yields exactly the built request, and LcTooLong before anything is sent when data exceeds 255 bytes |
| `Ccid.ReadResponse` | src/main.rs:144-161 | filling the zeroed buffer sized from Le, truncating it to the received length and popping SW2 then SW1 gives exactly what Receive specifies |
| `Ccid.Transmit` | src/main.rs:119-162 | the imperative ccid_transmit sends exactly the built request (nothing when Lc overflows), fails the transmit for an answer that does not fit the reply buffer, returns what the exchange specification gives, and a successful payload never exceeds Ne bytes |
| `Ccid.Select` | src/main.rs:164-168 | SELECT by AID without Le succeeds iff the exchange does, and otherwise fails with the exchange's error; the payload is discarded |
| `Ccid.Select2` | src/main.rs:170-175 | SELECT by AID with Le = 16 succeeds iff the exchange does, and otherwise fails with the exchange's error; the payload is discarded |
| `Ccid.SelectSucceedsIff` | src/main.rs:164-168 | with its 2-byte buffer, a SELECT of an AID of at most 255 bytes succeeds iff the card answers exactly 90 00 |
| `Ccid.SelectNeedsLeForUuidAnswer` | src/main.rs:164-175 | a provisioner answering its 16-byte UUID and 90 00 is selected successfully with Le = 16, while a SELECT without Le fails the transmit because the answer does not fit its 2-byte buffer |
| `Ccid.AdminGetUuid` | src/main.rs:177-187 | the UUID query succeeds iff the exchange succeeds with exactly 16 payload bytes, the UUID being their big-endian value; a failed exchange passes its error on, and a payload of any other length is UuidLength |
| `Ccid.AdminGetUuidRequest` | src/main.rs:178 | the UUID query sends the case 2 command 00 62 00 00 10 |
| `Ccid.AdminGetUuidSucceedsIff` | src/main.rs:177-187 | the query succeeds iff the card answers 18 bytes ending in 90 00, and the UUID is the first 16 read big-endian |
| `Ccid.AdminGetUuidRoundTrip` | src/main.rs:177-186 | a card answering a UUID's 16 big-endian bytes and 90 00 yields that UUID |
| `Readers.IsFirmwareReaderName` | src/main.rs:208 | a reader belongs to the firmware iff its name begins with the 37 bytes of the firmware reader name |
| `Readers.GetFirmwareReader` | src/main.rs:189-200 | an unreachable reader is ConnectFailed; a failing admin SELECT, or then a failing UUID query, passes that error on; otherwise success iff the admin SELECT and the UUID query succeed; the UUID is the query's; provisioner is set iff the provisioner SELECT succeeds, and its failure never fails the reader |
| `Readers.ClassifyReader` | src/main.rs:207-216 | a reader is Other (keeping its name) iff its name lacks the prefix; Firmware iff it has the prefix and the firmware answers; Unsupported with the firmware error otherwise |
| `Readers.GetReaders` | src/main.rs:202-218 | no PC/SC listing is PcscUnavailable; otherwise one classified reader per listed reader, in listing order |
| `Readers.GetReaderStatus` | src/main.rs:107-117 | the loop passes on a listing error and otherwise returns exactly the three lists of the status specification |
| `Readers.StatusOfAppend` | src/main.rs:107-117 | sorting a concatenation concatenates the sorted parts, so the relative order is kept in every list |
| `Readers.StatusOfSingle` | src/main.rs:110-114 | one reader lands in exactly the list of its variant |
| `Readers.StatusOfCounts` | src/main.rs:107-117 | the three list lengths add up to the number of readers |
| `Readers.StatusOfMembers` | src/main.rs:107-117 | an entry is in a list iff a reader of that variant carrying it is in the input |
| `Readers.FirmwareNamedCount` | src/main.rs:208 | counts the readers with the firmware's name, never more than listed |
| `Readers.ClassifiedCounts` | src/main.rs:207-216 | firmware plus unsupported readers are exactly the firmware-named readers, and the others are the rest |
| `Devices.FromBootloader` | src/main.rs:28-36 | a listed bootloader becomes a Bootloader device with the same VID, PID and UUID |
| `Devices.BootloaderDevices` | src/main.rs:77-82 | one bootloader device per listed bootloader, in order |
| `Devices.FindFirmwareDevices` | src/main.rs:84-98 | the loop fails with UsbUnavailable without a listing or DescriptorUnavailable when a descriptor is missing, and otherwise returns the devices with VID:PID 1209:beee in listing order |
| `Devices.MatchingDevicesMembers` | src/main.rs:88-96 | the firmware devices found are all Firmware, and are exactly those built from listed devices whose descriptor reads 1209:beee |
| `Devices.FirmwareDeviceCount` | src/main.rs:248 | the number of firmware devices is at most the number of devices |
| `Devices.FirmwareDeviceCountAppend` | src/main.rs:248 | the count of a concatenation is the sum of the counts |
| `Devices.FirmwareDeviceCountUniform` | src/main.rs:248 | an all-firmware list counts its length, an all-bootloader list counts zero |
| `Devices.FindDevices` | src/main.rs:100-105 | a firmware-search error is passed on; otherwise the bootloader devices come first and then the firmware devices (no firmware device precedes a bootloader), and the firmware count equals the number of firmware devices found |
| `Diagnose.Diagnose` | src/main.rs:220-260 | errors come in source order (USB, no devices, PC/SC); on success the "could not connect" warning fires iff firmware devices outnumber firmware readers, the "multiple devices" warning iff there is more than one firmware device, and the foreign-reader warning iff the list of other readers is non-empty |
| `Diagnose.ForeignReadersIffUnnamed` | src/main.rs:255-256 | the list of other readers behind the foreign-reader warning is non-empty iff some listed reader's name lacks the firmware prefix |
| `Diagnose.ConnectWarningForUnnamedDevices` | src/main.rs:248-251 | when firmware devices outnumber the readers with the firmware's name, firmware readers are outnumbered too, so the connect warning fires whatever the readers answer |

## Left out

- USB enumeration through libusb, the LPC55 bootloader listing, and the PC/SC context, connect and transaction calls (src/main.rs:77-98, 189-203) are foreign I/O. Their results are inputs to the model.
- The card exchange itself (src/main.rs:152) is an input reply. Each firmware-named reader's three replies are fixed in advance; they cannot depend on what was sent before.
- An answer that does not fit the reply buffer is modelled as a failed transmit call. The PC/SC layer's specific error for it is not distinguished from other transmit failures.
- Connect and transaction failures are one error kind, `ConnectFailed`.
- The `anyhow` context strings and the formatted status text are not modelled. Errors keep their kind and, for status words, SW1 and SW2. Like the source's message, `UuidLength` carries no length.
- The `Display` output of `Device` and `FirmwareReader` and every `println!` in `main` (src/main.rs:38-45, 67-75, 224-257) are presentation. The model reports the warnings as booleans and the lists they print.
- The bootloader's VID, PID and UUID are taken as listed; the LPC55 crate that decodes them is not part of this model.
