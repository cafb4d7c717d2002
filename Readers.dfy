/**
 * The PC/SC side of the diagnosis: which smartcard readers belong to the key's
 * firmware, what the firmware answers on them, and the three lists the
 * readers are sorted into.
 */
module Readers {
  import opened Bytes
  import opened Results
  import opened Ccid

  /** The name prefix of the firmware's CCID reader, "SoloKeys Solo 2 [CCID/ICCD Interface]". */
  const FIRMWARE_READER_NAME: seq<byte> := [
    0x53, 0x6F, 0x6C, 0x6F, 0x4B, 0x65, 0x79, 0x73, 0x20, 0x53, 0x6F, 0x6C, 0x6F, 0x20, 0x32, 0x20,
    0x5B, 0x43, 0x43, 0x49, 0x44, 0x2F, 0x49, 0x43, 0x43, 0x44, 0x20, 0x49, 0x6E, 0x74, 0x65, 0x72,
    0x66, 0x61, 0x63, 0x65, 0x5D]

  datatype FirmwareReader = FirmwareReader(uuid: u128, provisioner: bool)

  datatype Reader =
    | Firmware(reader: FirmwareReader)
    | Unsupported(error: Error)
    | Other(name: seq<byte>)

  datatype ReaderStatus = ReaderStatus(
    firmwareReaders: seq<FirmwareReader>,
    unsupportedReaders: seq<Error>,
    otherReaders: seq<seq<byte>>)

  /**
   * What a reader with the firmware's name does when the tool talks to it:
   * either connecting or starting the transaction fails, or the card answers
   * the admin SELECT, the UUID query and the provisioner SELECT in turn
   * (None where the transmit call itself fails).
   */
  datatype Session =
    | Unreachable
    | Session(adminSelect: Option<seq<byte>>, uuidQuery: Option<seq<byte>>, provisionerSelect: Option<seq<byte>>)

  /** A reader as the PC/SC listing names it, with what talking to it would give. */
  datatype PcscReader = PcscReader(name: seq<byte>, session: Session)

  /** A reader belongs to the firmware when its name starts with the firmware reader name. */
  function IsFirmwareReaderName(name: seq<byte>): (r: bool)
    ensures r <==> |name| >= |FIRMWARE_READER_NAME| && name[..|FIRMWARE_READER_NAME|] == FIRMWARE_READER_NAME
  {
    FIRMWARE_READER_NAME <= name
  }

  /** get_firmware_reader: select the admin application, read the UUID, probe the provisioner. */
  function GetFirmwareReader(session: Session): (r: Result<FirmwareReader>)
    ensures session.Unreachable? ==> r == Err(ConnectFailed)
    ensures r.Ok? <==> session.Session? && Select(AID_ADMIN, session.adminSelect).Ok? &&
                       AdminGetUuid(session.uuidQuery).Ok?
    ensures session.Session? && Select(AID_ADMIN, session.adminSelect).Err? ==>
      r == Err(Select(AID_ADMIN, session.adminSelect).error)
    ensures session.Session? && Select(AID_ADMIN, session.adminSelect).Ok? && AdminGetUuid(session.uuidQuery).Err? ==>
      r == Err(AdminGetUuid(session.uuidQuery).error)
    ensures r.Ok? ==> r.value.uuid == AdminGetUuid(session.uuidQuery).value
    ensures r.Ok? ==> (r.value.provisioner <==> Select2(AID_PROVISIONER, session.provisionerSelect).Ok?)
  {
    match session
    case Unreachable => Err(ConnectFailed)
    case Session(adminSelect, uuidQuery, provisionerSelect) =>
      match Select(AID_ADMIN, adminSelect)
      case Err(e) => Err(e)
      case Ok(_) =>
        match AdminGetUuid(uuidQuery)
        case Err(e) => Err(e)
        case Ok(uuid) => Ok(FirmwareReader(uuid, Select2(AID_PROVISIONER, provisionerSelect).Ok?))
  }

  /** The classification applied to each listed reader in get_readers. */
  function ClassifyReader(r: PcscReader): (c: Reader)
    ensures c.Other? <==> !IsFirmwareReaderName(r.name)
    ensures c.Other? ==> c.name == r.name
    ensures c.Firmware? <==> IsFirmwareReaderName(r.name) && GetFirmwareReader(r.session).Ok?
    ensures c.Firmware? ==> c.reader == GetFirmwareReader(r.session).value
    ensures c.Unsupported? ==> c.error == GetFirmwareReader(r.session).error
  {
    if IsFirmwareReaderName(r.name) then
      match GetFirmwareReader(r.session)
      case Ok(reader) => Firmware(reader)
      case Err(err) => Unsupported(err)
    else
      Other(r.name)
  }

  /** get_readers: the listing (None when PC/SC is unavailable) classified reader by reader, in order. */
  function GetReaders(listing: Option<seq<PcscReader>>): (r: Result<seq<Reader>>)
    ensures listing.None? ==> r == Err(PcscUnavailable)
    ensures listing.Some? ==> r.Ok? && |r.value| == |listing.value|
    ensures listing.Some? ==> forall i :: 0 <= i < |listing.value| ==> r.value[i] == ClassifyReader(listing.value[i])
  {
    match listing
    case None => Err(PcscUnavailable)
    case Some(rs) => Ok(seq(|rs|, i requires 0 <= i < |rs| => ClassifyReader(rs[i])))
  }

  /** The firmware readers of a list, in list order. */
  function FirmwareReadersOf(rs: seq<Reader>): seq<FirmwareReader>
  {
    if rs == [] then []
    else
      var last := rs[|rs| - 1];
      FirmwareReadersOf(rs[..|rs| - 1]) + (if last.Firmware? then [last.reader] else [])
  }

  /** The errors of the unsupported readers of a list, in list order. */
  function UnsupportedReadersOf(rs: seq<Reader>): seq<Error>
  {
    if rs == [] then []
    else
      var last := rs[|rs| - 1];
      UnsupportedReadersOf(rs[..|rs| - 1]) + (if last.Unsupported? then [last.error] else [])
  }

  /** The names of the other readers of a list, in list order. */
  function OtherReadersOf(rs: seq<Reader>): seq<seq<byte>>
  {
    if rs == [] then []
    else
      var last := rs[|rs| - 1];
      OtherReadersOf(rs[..|rs| - 1]) + (if last.Other? then [last.name] else [])
  }

  function StatusOf(rs: seq<Reader>): ReaderStatus
  {
    ReaderStatus(FirmwareReadersOf(rs), UnsupportedReadersOf(rs), OtherReadersOf(rs))
  }

  /** get_reader_status: pushes every listed reader onto the list of its kind. */
  method GetReaderStatus(readers: Result<seq<Reader>>) returns (r: Result<ReaderStatus>)
    ensures readers.Err? ==> r == Err(readers.error)
    ensures readers.Ok? ==> r == Ok(StatusOf(readers.value))
  {
    if readers.Err? {
      return Err(readers.error);
    }
    var rs := readers.value;
    var status := ReaderStatus([], [], []);
    for i := 0 to |rs|
      invariant status == StatusOf(rs[..i])
    {
      assert rs[..i + 1][..i] == rs[..i];
      match rs[i]
      case Firmware(reader) => status := status.(firmwareReaders := status.firmwareReaders + [reader]);
      case Unsupported(error) => status := status.(unsupportedReaders := status.unsupportedReaders + [error]);
      case Other(name) => status := status.(otherReaders := status.otherReaders + [name]);
    }
    assert rs[..|rs|] == rs;
    r := Ok(status);
  }

  /** Sorting a concatenation sorts each part and concatenates the results: relative order is kept. */
  lemma {:induction false} StatusOfAppend(a: seq<Reader>, b: seq<Reader>)
    ensures FirmwareReadersOf(a + b) == FirmwareReadersOf(a) + FirmwareReadersOf(b)
    ensures UnsupportedReadersOf(a + b) == UnsupportedReadersOf(a) + UnsupportedReadersOf(b)
    ensures OtherReadersOf(a + b) == OtherReadersOf(a) + OtherReadersOf(b)
  {
    if b == [] {
      assert a + b == a;
    } else {
      var init := b[..|b| - 1];
      assert (a + b)[..|a + b| - 1] == a + init;
      StatusOfAppend(a, init);
    }
  }

  /** A single reader lands in exactly the list of its kind. */
  lemma StatusOfSingle(x: Reader)
    ensures StatusOf([x]) == match x
      case Firmware(f) => ReaderStatus([f], [], [])
      case Unsupported(e) => ReaderStatus([], [e], [])
      case Other(n) => ReaderStatus([], [], [n])
  {
    assert [x][..0] == [];
    assert FirmwareReadersOf([x]) == if x.Firmware? then [x.reader] else [];
    assert UnsupportedReadersOf([x]) == if x.Unsupported? then [x.error] else [];
    assert OtherReadersOf([x]) == if x.Other? then [x.name] else [];
  }

  /** The three lists together are exactly as long as the input. */
  lemma {:induction false} StatusOfCounts(rs: seq<Reader>)
    ensures |FirmwareReadersOf(rs)| + |UnsupportedReadersOf(rs)| + |OtherReadersOf(rs)| == |rs|
  {
    if rs != [] {
      StatusOfCounts(rs[..|rs| - 1]);
    }
  }

  /** An entry is in a list exactly when a reader of that kind carrying it is in the input. */
  lemma {:induction false} StatusOfMembers(rs: seq<Reader>)
    ensures forall f :: f in FirmwareReadersOf(rs) <==> Firmware(f) in rs
    ensures forall e :: e in UnsupportedReadersOf(rs) <==> Unsupported(e) in rs
    ensures forall n :: n in OtherReadersOf(rs) <==> Other(n) in rs
  {
    if rs != [] {
      var init := rs[..|rs| - 1];
      StatusOfMembers(init);
      assert rs == init + [rs[|rs| - 1]];
    }
  }

  /** The number of listed readers whose name is the firmware reader name. */
  function FirmwareNamedCount(rs: seq<PcscReader>): (n: nat)
    ensures n <= |rs|
  {
    if rs == [] then 0
    else FirmwareNamedCount(rs[..|rs| - 1]) + (if IsFirmwareReaderName(rs[|rs| - 1].name) then 1 else 0)
  }

  /**
   * Every reader with the firmware's name ends up a firmware or an unsupported
   * reader, and every other reader among the others.
   */
  lemma {:induction false} ClassifiedCounts(rs: seq<PcscReader>)
    ensures |FirmwareReadersOf(GetReaders(Some(rs)).value)| + |UnsupportedReadersOf(GetReaders(Some(rs)).value)|
            == FirmwareNamedCount(rs)
    ensures |OtherReadersOf(GetReaders(Some(rs)).value)| == |rs| - FirmwareNamedCount(rs)
  {
    if rs != [] {
      var init := rs[..|rs| - 1];
      var all := GetReaders(Some(rs)).value;
      var allInit := GetReaders(Some(init)).value;
      assert all[..|all| - 1] == allInit;
      ClassifiedCounts(init);
      assert FirmwareReadersOf(all) == FirmwareReadersOf(allInit) + (if all[|all| - 1].Firmware? then [all[|all| - 1].reader] else []);
      assert UnsupportedReadersOf(all) == UnsupportedReadersOf(allInit) + (if all[|all| - 1].Unsupported? then [all[|all| - 1].error] else []);
      assert OtherReadersOf(all) == OtherReadersOf(allInit) + (if all[|all| - 1].Other? then [all[|all| - 1].name] else []);
      assert all[|all| - 1] == ClassifyReader(rs[|rs| - 1]);
    }
  }
}
