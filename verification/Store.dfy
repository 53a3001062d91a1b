/** The pairing store: records on disk, and locked read-modify-write over the document. */
module Store {
  import opened Bytes
  import opened Hex

  datatype StoreError = Io | Malformed

  datatype StoredBroadcast = StoredBroadcast(key: bytes, gsn: u16)

  datatype Transport = Ip(addr: string) | Ble(deviceId: bytes, broadcast: Option<StoredBroadcast>)

  datatype StoredAccessory = StoredAccessory(id: string, ltpk: bytes, transport: Transport)

  datatype Keypair = Keypair(id: string, seed: bytes)

  /** The fixed array widths of the keys and ids. */
  predicate BroadcastFits(b: StoredBroadcast)
  {
    |b.key| == 32
  }

  predicate Fits(a: StoredAccessory)
  {
    |a.ltpk| == 32 && (a.transport.Ble? ==> |a.transport.deviceId| == 6 &&
                                            (a.transport.broadcast.Some? ==> BroadcastFits(a.transport.broadcast.value)))
  }

  // ---- Records ----

  datatype BroadcastRecord = BroadcastRecord(keyHex: string, gsn: u16)

  datatype TransportRecord = IpRecord(addr: string) | BleRecord(deviceId: string, broadcast: Option<BroadcastRecord>)

  /** A version 1 record has a bare `addr` and no `transport`. */
  datatype AccessoryRecord = AccessoryRecord(id: string, ltpkHex: string, transport: Option<TransportRecord>, addr: Option<string>)

  datatype ControllerRecord = ControllerRecord(id: string, signingKeyHex: string)

  datatype Document = Document(version: Option<nat>, controller: Option<ControllerRecord>, accessories: seq<AccessoryRecord>)

  function BroadcastToRecord(b: StoredBroadcast): BroadcastRecord
  {
    BroadcastRecord(EncodeHex(b.key), b.gsn)
  }

  function ToRecord(a: StoredAccessory): AccessoryRecord
  {
    var transport :=
      match a.transport
      case Ip(addr) => IpRecord(addr)
      case Ble(deviceId, broadcast) =>
        BleRecord(FormatDeviceId(deviceId), if broadcast.Some? then Some(BroadcastToRecord(broadcast.value)) else None);
    AccessoryRecord(a.id, EncodeHex(a.ltpk), Some(transport), None)
  }

  ghost function BroadcastFromRecord(b: Option<BroadcastRecord>): Result<Option<StoredBroadcast>, StoreError>
  {
    if b.None? then Ok(None)
    else
      match KeyOf(b.value.keyHex)
      case None => Err(Malformed)
      case Some(key) => Ok(Some(StoredBroadcast(key, b.value.gsn)))
  }

  ghost function TransportFromRecord(r: AccessoryRecord): Result<Transport, StoreError>
  {
    match (r.transport, r.addr)
    case (Some(IpRecord(addr)), _) => Ok(Ip(addr))
    case (None, Some(addr)) => Ok(Ip(addr))
    case (Some(BleRecord(deviceId, broadcast)), _) =>
      (match DeviceIdOf(deviceId)
       case None => Err(Malformed)
       case Some(id) =>
         match BroadcastFromRecord(broadcast)
         case Err(e) => Err(e)
         case Ok(b) => Ok(Ble(id, b)))
    case (None, None) => Err(Malformed)
  }

  ghost function FromRecord(r: AccessoryRecord): Result<StoredAccessory, StoreError>
  {
    match (KeyOf(r.ltpkHex), TransportFromRecord(r))
    case (Some(ltpk), Ok(transport)) => Ok(StoredAccessory(r.id, ltpk, transport))
    case _ => Err(Malformed)
  }

  method AccessoryFromRecord(r: AccessoryRecord) returns (a: Result<StoredAccessory, StoreError>)
    ensures a == FromRecord(r)
  {
    var ltpk := DecodeKey32(r.ltpkHex);
    if ltpk.None? { return Err(Malformed); }
    match (r.transport, r.addr)
    case (Some(IpRecord(addr)), _) => return Ok(StoredAccessory(r.id, ltpk.value, Ip(addr)));
    case (None, Some(addr)) => return Ok(StoredAccessory(r.id, ltpk.value, Ip(addr)));
    case (Some(BleRecord(deviceId, broadcast)), _) =>
      var id := ParseDeviceId(deviceId);
      if id.None? { return Err(Malformed); }
      if broadcast.None? { return Ok(StoredAccessory(r.id, ltpk.value, Ble(id.value, None))); }
      var key := DecodeKey32(broadcast.value.keyHex);
      if key.None? { return Err(Malformed); }
      return Ok(StoredAccessory(r.id, ltpk.value, Ble(id.value, Some(StoredBroadcast(key.value, broadcast.value.gsn)))));
    case (None, None) => return Err(Malformed);
  }

  /** Every accessory survives being written and read back. */
  lemma AccessorySurvives(a: StoredAccessory)
    requires Fits(a)
    ensures FromRecord(ToRecord(a)) == Ok(a)
  {
    KeySurvives(a.ltpk);
    if a.transport.Ble? {
      DeviceIdSurvives(a.transport.deviceId);
      if a.transport.broadcast.Some? { KeySurvives(a.transport.broadcast.value.key); }
    }
  }

  function ToControllerRecord(k: Keypair): ControllerRecord
  {
    ControllerRecord(k.id, EncodeHex(k.seed))
  }

  ghost function FromControllerRecord(r: ControllerRecord): Result<Keypair, StoreError>
  {
    match KeyOf(r.signingKeyHex)
    case None => Err(Malformed)
    case Some(seed) => Ok(Keypair(r.id, seed))
  }

  lemma ControllerSurvives(k: Keypair)
    requires |k.seed| == 32
    ensures FromControllerRecord(ToControllerRecord(k)) == Ok(k)
  {
    KeySurvives(k.seed);
  }

  ghost function LoadIdentity(disk: Option<Document>, ioOk: bool): Result<Option<Keypair>, StoreError>
  {
    match ReadDoc(disk, ioOk)
    case Err(e) => Err(e)
    case Ok(doc) =>
      if doc.controller.None? then Ok(None)
      else
        match FromControllerRecord(doc.controller.value)
        case Err(e) => Err(e)
        case Ok(k) => Ok(Some(k))
  }

  method LoadController(disk: Option<Document>, ioOk: bool) returns (r: Result<Option<Keypair>, StoreError>)
    ensures r == LoadIdentity(disk, ioOk)
  {
    var before := ReadDoc(disk, ioOk);
    if before.Err? { return Err(before.error); }
    if before.value.controller.None? { return Ok(None); }
    var seed := DecodeKey32(before.value.controller.value.signingKeyHex);
    if seed.None? { return Err(Malformed); }
    r := Ok(Some(Keypair(before.value.controller.value.id, seed.value)));
  }

  // ---- Edits of the record list ----

  /** The record an id finds: the first one under it. */
  function Lookup(records: seq<AccessoryRecord>, id: string): (r: Option<AccessoryRecord>)
    ensures r.Some? ==> r.value in records && r.value.id == id
    ensures r.None? <==> forall x :: x in records ==> x.id != id
  {
    if records == [] then None
    else if records[0].id == id then Some(records[0])
    else Lookup(records[1..], id)
  }

  function Without(records: seq<AccessoryRecord>, id: string): seq<AccessoryRecord>
  {
    if records == [] then []
    else (if records[0].id == id then [] else [records[0]]) + Without(records[1..], id)
  }

  function IdAt(records: seq<AccessoryRecord>, id: string): (i: nat)
    ensures i <= |records|
    ensures i < |records| ==> records[i].id == id
    ensures forall j :: 0 <= j < i ==> records[j].id != id
  {
    if records == [] || records[0].id == id then 0 else 1 + IdAt(records[1..], id)
  }

  lemma {:induction false} LookupAt(records: seq<AccessoryRecord>, id: string)
    ensures var i := IdAt(records, id);
            Lookup(records, id) == if i < |records| then Some(records[i]) else None
  {
    if records != [] && records[0].id != id { LookupAt(records[1..], id); }
  }

  /** Replace the first record under an id, or append. */
  function Upsert(records: seq<AccessoryRecord>, r: AccessoryRecord): (up: seq<AccessoryRecord>)
    ensures forall x :: x in up ==> x == r || x in records
  {
    var i := IdAt(records, r.id);
    if i < |records| then records[i := r] else records + [r]
  }

  method FindRecord(records: seq<AccessoryRecord>, id: string) returns (i: nat)
    ensures i == IdAt(records, id)
  {
    i := 0;
    while i < |records|
      invariant i <= |records| && IdAt(records, id) == i + IdAt(records[i..], id)
    {
      if records[i].id == id { return; }
      i := i + 1;
    }
  }

  method Retain(records: seq<AccessoryRecord>, id: string) returns (kept: seq<AccessoryRecord>)
    ensures kept == Without(records, id)
  {
    kept := [];
    var i := 0;
    while i < |records|
      invariant 0 <= i <= |records| && kept + Without(records[i..], id) == Without(records, id)
    {
      assert records[i..][0] == records[i] && records[i..][1..] == records[i + 1..];
      if records[i].id != id { kept := kept + [records[i]]; }
      i := i + 1;
    }
    assert records[i..] == [];
  }

  ghost predicate UniqueIds(records: seq<AccessoryRecord>)
  {
    forall i, j :: 0 <= i < j < |records| ==> records[i].id != records[j].id
  }

  lemma {:induction false} LookupFirst(records: seq<AccessoryRecord>, i: nat)
    requires i < |records| && forall j :: 0 <= j < i ==> records[j].id != records[i].id
    ensures Lookup(records, records[i].id) == Some(records[i])
  {
    if i > 0 {
      assert records[1..][i - 1] == records[i];
      LookupFirst(records[1..], i - 1);
    }
  }

  lemma UpsertKeeps(records: seq<AccessoryRecord>, r: AccessoryRecord, id: string)
    ensures Lookup(Upsert(records, r), id) == if id == r.id then Some(r) else Lookup(records, id)
    ensures UniqueIds(records) ==> UniqueIds(Upsert(records, r))
  {
    var up, i := Upsert(records, r), IdAt(records, r.id);
    if id == r.id {
      LookupFirst(up, i);
    } else if Lookup(records, id).Some? {
      LookupAt(records, id);
      LookupFirst(up, IdAt(records, id));
    }
  }

  lemma WithoutKeeps(records: seq<AccessoryRecord>, gone: string, id: string)
    ensures Lookup(Without(records, gone), id) == if id == gone then None else Lookup(records, id)
    ensures forall x :: x in Without(records, gone) ==> x in records && x.id != gone
    ensures UniqueIds(records) ==> UniqueIds(Without(records, gone))
  {
    WithoutFinds(records, gone, id);
    if UniqueIds(records) { WithoutUnique(records, gone); }
  }

  lemma {:induction false} WithoutFinds(records: seq<AccessoryRecord>, gone: string, id: string)
    ensures Lookup(Without(records, gone), id) == if id == gone then None else Lookup(records, id)
    ensures forall x :: x in Without(records, gone) ==> x in records && x.id != gone
  {
    if records != [] {
      WithoutFinds(records[1..], gone, id);
      var rest := Without(records[1..], gone);
      if records[0].id != gone {
        assert ([records[0]] + rest)[1..] == rest;
      } else {
        assert [] + rest == rest;
      }
    }
  }

  lemma {:induction false} WithoutUnique(records: seq<AccessoryRecord>, gone: string)
    requires UniqueIds(records)
    ensures UniqueIds(Without(records, gone))
  {
    if records != [] {
      WithoutUnique(records[1..], gone);
      var rest := Without(records[1..], gone);
      WithoutFinds(records[1..], gone, gone);
      if records[0].id != gone {
        forall j | 0 <= j < |rest| ensures records[0].id != rest[j].id { assert rest[j] in records[1..]; }
      } else {
        assert [] + rest == rest;
      }
    }
  }

  // ---- The operations ----

  datatype Op =
    | SavePairing(a: StoredAccessory)
    | DeletePairing(id: string)
    | SaveController(k: Keypair)
    | SaveBroadcast(id: string, b: StoredBroadcast)

  predicate OpFits(op: Op)
  {
    match op
    case SavePairing(a) => Fits(a)
    case DeletePairing(_) => true
    case SaveController(k) => |k.seed| == 32
    case SaveBroadcast(_, b) => BroadcastFits(b)
  }

  /** The record whose broadcast a broadcast update rewrites, if it has one. */
  function BleUnder(doc: Document, id: string): Option<AccessoryRecord>
  {
    var r := Lookup(doc.accessories, id);
    if r.Some? && r.value.transport.Some? && r.value.transport.value.BleRecord? then r else None
  }

  function WithBroadcast(r: AccessoryRecord, b: StoredBroadcast): AccessoryRecord
    requires r.transport.Some? && r.transport.value.BleRecord?
  {
    r.(transport := Some(r.transport.value.(broadcast := Some(BroadcastToRecord(b)))))
  }

  /** The document after an operation. A broadcast update of no BLE record writes nothing. */
  function Apply(doc: Document, op: Op): Document
  {
    match op
    case SavePairing(a) => doc.(version := Some(2), accessories := Upsert(doc.accessories, ToRecord(a)))
    case DeletePairing(id) => doc.(version := Some(2), accessories := Without(doc.accessories, id))
    case SaveController(k) => doc.(version := Some(2), controller := Some(ToControllerRecord(k)))
    case SaveBroadcast(id, b) =>
      var r := BleUnder(doc, id);
      if r.None? then doc else doc.(version := Some(2), accessories := Upsert(doc.accessories, WithBroadcast(r.value, b)))
  }

  /** The document on disk: none is an empty one, and only versions absent, 1 and 2 are read. */
  function ReadDoc(disk: Option<Document>, ioOk: bool): Result<Document, StoreError>
  {
    if !ioOk then Err(Io)
    else if Content(disk).version in {None, Some(1), Some(2)} then Ok(Content(disk))
    else Err(Malformed)
  }

  function Content(disk: Option<Document>): Document
  {
    if disk.None? then Document(None, None, []) else disk.value
  }

  predicate WritesNothing(doc: Document, op: Op)
  {
    op.SaveBroadcast? && BleUnder(doc, op.id).None?
  }

  /** The disk after one operation, and its outcome. */
  function Exec(disk: Option<Document>, op: Op, readOk: bool, writeOk: bool): (Option<Document>, Result<(), StoreError>)
  {
    match ReadDoc(disk, readOk)
    case Err(e) => (disk, Err(e))
    case Ok(doc) =>
      if WritesNothing(doc, op) then (disk, Ok(()))
      else if !writeOk then (disk, Err(Io))
      else (Some(Apply(doc, op)), Ok(()))
  }

  class JsonFileStore {
    var disk: Option<Document>

    constructor (disk: Option<Document>)
      ensures this.disk == disk
    {
      this.disk := disk;
    }

    /** One locked operation, start to end. It fails as its read or its write does, and then changes nothing. */
    method Execute(op: Op, readOk: bool, writeOk: bool) returns (r: Result<(), StoreError>)
      modifies this
      ensures (disk, r) == Exec(old(disk), op, readOk, writeOk)
    {
      var before := ReadDoc(disk, readOk);
      if before.Err? { return Err(before.error); }
      var edited := Edit(before.value, op);
      if edited.None? { return Ok(()); }
      if !writeOk { return Err(Io); }
      disk := Some(edited.value.(version := Some(2)));
      r := Ok(());
    }
  }

  method ReplaceOrPush(records: seq<AccessoryRecord>, record: AccessoryRecord) returns (r: seq<AccessoryRecord>)
    ensures r == Upsert(records, record)
  {
    var i := FindRecord(records, record.id);
    if i < |records| {
      r := records[i := record];
    } else {
      r := records + [record];
    }
  }

  /** The edited document, or nothing to write. */
  method Edit(doc: Document, op: Op) returns (edited: Option<Document>)
    ensures edited.None? <==> op.SaveBroadcast? && BleUnder(doc, op.id).None?
    ensures edited.Some? ==> edited.value.(version := Some(2)) == Apply(doc, op)
  {
    match op {
      case SavePairing(a) =>
        var records := ReplaceOrPush(doc.accessories, ToRecord(a));
        return Some(doc.(accessories := records));
      case DeletePairing(id) =>
        var records := Retain(doc.accessories, id);
        return Some(doc.(accessories := records));
      case SaveController(k) =>
        return Some(doc.(controller := Some(ToControllerRecord(k))));
      case SaveBroadcast(id, b) =>
        LookupAt(doc.accessories, id);
        var i := FindRecord(doc.accessories, id);
        if i == |doc.accessories| { return None; }
        var found := doc.accessories[i];
        if found.transport.None? || found.transport.value.IpRecord? { return None; }
        return Some(doc.(accessories := doc.accessories[i := WithBroadcast(found, b)]));
    }
  }

  // ---- Loading ----

  ghost function LoadAll(records: seq<AccessoryRecord>): Result<seq<StoredAccessory>, StoreError>
  {
    if records == [] then Ok([])
    else
      match FromRecord(records[0])
      case Err(e) => Err(e)
      case Ok(a) =>
        match LoadAll(records[1..])
        case Err(e) => Err(e)
        case Ok(rest) => Ok([a] + rest)
  }

  ghost function Load(disk: Option<Document>, ioOk: bool): Result<seq<StoredAccessory>, StoreError>
  {
    match ReadDoc(disk, ioOk)
    case Err(e) => Err(e)
    case Ok(doc) => LoadAll(doc.accessories)
  }

  method LoadPairings(disk: Option<Document>, ioOk: bool) returns (r: Result<seq<StoredAccessory>, StoreError>)
    ensures r == Load(disk, ioOk)
  {
    var before := ReadDoc(disk, ioOk);
    if before.Err? { return Err(before.error); }
    var records := before.value.accessories;
    var all: seq<StoredAccessory> := [];
    var i := 0;
    assert records[0..] == records;
    assert LoadAll(records).Ok? ==> all + LoadAll(records).value == LoadAll(records).value;
    while i < |records|
      invariant 0 <= i <= |records| && LoadAll(records) == LoadRest(all, records[i..])
    {
      LoadStep(all, records, i);
      var a := AccessoryFromRecord(records[i]);
      if a.Err? { return Err(a.error); }
      all := all + [a.value];
      i := i + 1;
    }
    assert records[i..] == [] && all + [] == all;
    r := Ok(all);
  }

  /** The rest of a list loaded after what is loaded already. */
  ghost function LoadRest(all: seq<StoredAccessory>, records: seq<AccessoryRecord>): Result<seq<StoredAccessory>, StoreError>
  {
    match LoadAll(records)
    case Err(e) => Err(e)
    case Ok(rest) => Ok(all + rest)
  }

  lemma LoadStep(all: seq<StoredAccessory>, records: seq<AccessoryRecord>, i: nat)
    requires i < |records|
    ensures LoadRest(all, records[i..]) ==
            match FromRecord(records[i])
            case Err(e) => Err(e)
            case Ok(a) => LoadRest(all + [a], records[i + 1..])
  {
    assert records[i..][0] == records[i] && records[i..][1..] == records[i + 1..];
    var a, rest := FromRecord(records[i]), LoadAll(records[i + 1..]);
    if a.Ok? && rest.Ok? { assert all + ([a.value] + rest.value) == all + [a.value] + rest.value; }
  }

  /** A loadable list loads in order, each record to its accessory, under its own id. */
  lemma {:induction false} LoadAllAt(records: seq<AccessoryRecord>)
    requires forall r :: r in records ==> FromRecord(r).Ok?
    ensures LoadAll(records).Ok? && |LoadAll(records).value| == |records|
    ensures forall i :: 0 <= i < |records| ==> FromRecord(records[i]) == Ok(LoadAll(records).value[i])
  {
    if records != [] {
      assert records[0] in records;
      LoadAllAt(records[1..]);
      forall i | 0 <= i < |records| ensures FromRecord(records[i]) == Ok(LoadAll(records).value[i]) {
        if i > 0 { assert records[i] == records[1..][i - 1]; }
      }
    }
  }

  lemma {:induction false} LoadAllDecodes(records: seq<AccessoryRecord>)
    requires LoadAll(records).Ok?
    ensures forall r :: r in records ==> FromRecord(r).Ok?
  {
    if records != [] { LoadAllDecodes(records[1..]); }
  }

  lemma DecodedFits(r: AccessoryRecord)
    requires FromRecord(r).Ok?
    ensures Fits(FromRecord(r).value) && FromRecord(r).value.id == r.id
  {
    if r.transport.Some? && r.transport.value.BleRecord? {
      ParsePartsAt(Split(r.transport.value.deviceId));
    }
  }

  // ---- One cell per id ----

  /** What the store holds under an id, as loaded. */
  ghost function Loaded(doc: Document, id: string): Option<StoredAccessory>
  {
    var r := Lookup(doc.accessories, id);
    if r.Some? && FromRecord(r.value).Ok? then Some(FromRecord(r.value).value) else None
  }

  /** The document loads: every record decodes, under an id of its own. */
  ghost predicate Loads(doc: Document)
  {
    && doc.version in {None, Some(1), Some(2)} && UniqueIds(doc.accessories)
    && forall r :: r in doc.accessories ==> FromRecord(r).Ok?
  }

  /** What an operation does to the accessory under one id. */
  function CellStep(cell: Option<StoredAccessory>, op: Op, id: string): Option<StoredAccessory>
  {
    match op
    case SavePairing(a) => if a.id == id then Some(a) else cell
    case DeletePairing(gone) => if gone == id then None else cell
    case SaveController(_) => cell
    case SaveBroadcast(to, b) =>
      if to == id && cell.Some? && cell.value.transport.Ble?
      then Some(cell.value.(transport := cell.value.transport.(broadcast := Some(b))))
      else cell
  }

  lemma BroadcastRewritten(r: AccessoryRecord, b: StoredBroadcast)
    requires FromRecord(r).Ok? && r.transport.Some? && r.transport.value.BleRecord? && BroadcastFits(b)
    ensures FromRecord(r).value.transport.Ble?
    ensures var a := FromRecord(r).value;
            FromRecord(WithBroadcast(r, b)) == Ok(a.(transport := a.transport.(broadcast := Some(b))))
  {
    KeySurvives(b.key);
  }

  /** Every operation keeps the document loadable and acts on each id's accessory on its own. */
  lemma ApplyIsCellwise(doc: Document, op: Op, id: string)
    requires Loads(doc) && OpFits(op)
    ensures Loads(Apply(doc, op))
    ensures Loaded(Apply(doc, op), id) == CellStep(Loaded(doc, id), op, id)
  {
    match op
    case SavePairing(a) =>
      AccessorySurvives(a);
      UpsertKeeps(doc.accessories, ToRecord(a), id);
    case DeletePairing(gone) => WithoutKeeps(doc.accessories, gone, id);
    case SaveController(_) =>
    case SaveBroadcast(to, b) =>
      var r := BleUnder(doc, to);
      if r.Some? {
        BroadcastRewritten(r.value, b);
        UpsertKeeps(doc.accessories, WithBroadcast(r.value, b), id);
      }
  }

  /** A call that succeeds acts on each id's accessory on its own; one that fails changes nothing. */
  lemma ExecIsCellwise(disk: Option<Document>, op: Op, readOk: bool, writeOk: bool, id: string)
    requires Loads(Content(disk)) && OpFits(op)
    ensures var (next, r) := Exec(disk, op, readOk, writeOk);
            && Loads(Content(next))
            && (r.Ok? ==> Loaded(Content(next), id) == CellStep(Loaded(Content(disk), id), op, id))
            && (r.Err? ==> next == disk)
  {
    ApplyIsCellwise(Content(disk), op, id);
  }

  // ---- Exactly what is read and written ----

  /** The broadcast a record holds. */
  ghost predicate BroadcastIs(r: Option<BroadcastRecord>, b: Option<StoredBroadcast>)
  {
    match (r, b)
    case (None, None) => true
    case (Some(record), Some(broadcast)) => |broadcast.key| == 32 && Spells(record.keyHex, broadcast.key) && record.gsn == broadcast.gsn
    case _ => false
  }

  /** The transport a record holds; one of version 1 has only an address. */
  ghost predicate TransportIs(r: AccessoryRecord, t: Transport)
  {
    match t
    case Ip(addr) => r.transport == Some(IpRecord(addr)) || (r.transport == None && r.addr == Some(addr))
    case Ble(deviceId, broadcast) =>
      r.transport.Some? && r.transport.value.BleRecord? && DeviceIdOf(r.transport.value.deviceId) == Some(deviceId) && BroadcastIs(r.transport.value.broadcast, broadcast)
  }

  lemma {:induction false} KeyIs(s: string, key: bytes)
    ensures KeyOf(s) == Some(key) <==> |key| == 32 && Spells(s, key)
  {
    if |key| == 32 && Spells(s, key) { SpelledOnce(s, key, KeyOf(s).value); }
  }

  lemma {:induction false} BroadcastReads(r: Option<BroadcastRecord>, b: Option<StoredBroadcast>)
    ensures BroadcastFromRecord(r) == Ok(b) <==> BroadcastIs(r, b)
  {
    if r.Some? && b.Some? { KeyIs(r.value.keyHex, b.value.key); }
  }

  /** A record decodes to exactly the accessory it spells out; any other is malformed. */
  lemma {:induction false} RecordReadsExactly(r: AccessoryRecord, a: StoredAccessory)
    ensures FromRecord(r) == Ok(a) <==> r.id == a.id && |a.ltpk| == 32 && Spells(r.ltpkHex, a.ltpk) && TransportIs(r, a.transport)
    ensures FromRecord(r).Err? ==> FromRecord(r) == Err(Malformed)
  {
    KeyIs(r.ltpkHex, a.ltpk);
    if a.transport.Ble? && r.transport.Some? && r.transport.value.BleRecord? { BroadcastReads(r.transport.value.broadcast, a.transport.broadcast); }
  }

  /** A document is read if the read works and its version is absent, 1 or 2; every write leaves version 2. */
  lemma {:induction false} VersionsExactly(disk: Option<Document>, op: Op, readOk: bool, writeOk: bool)
    ensures ReadDoc(disk, readOk).Ok? <==> readOk && (disk.None? || disk.value.version in {None, Some(1), Some(2)})
    ensures ReadDoc(disk, readOk).Ok? ==> ReadDoc(disk, readOk).value == if disk.None? then Document(None, None, []) else disk.value
    ensures !readOk ==> ReadDoc(disk, readOk) == Err(Io)
    ensures Exec(disk, op, readOk, writeOk).0 != disk ==>
              writeOk && Exec(disk, op, readOk, writeOk).0.Some? && Exec(disk, op, readOk, writeOk).0.value.version == Some(2)
    ensures Exec(disk, op, readOk, writeOk).1.Ok? <==> ReadDoc(disk, readOk).Ok? && (writeOk || WritesNothing(Content(disk), op))
  {
  }
}
