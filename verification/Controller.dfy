/** The controller's `paired()` snapshot against the store, over every sequence of calls. */
module Controller {
  import opened Bytes
  import opened Hex
  import opened Store

  /** A lookup that finds nothing, or a store that fails. */
  datatype HapError = UnknownAccessory | Pairing(error: StoreError) | Remote

  predicate EqIgnoreCase(a: string, b: string)
  {
    LowerAll(a) == LowerAll(b)
  }

  function FirstNamed(all: seq<StoredAccessory>, id: string): (r: Option<StoredAccessory>)
    ensures r.Some? ==> r.value in all && EqIgnoreCase(r.value.id, id)
    ensures r.None? ==> forall a :: a in all ==> !EqIgnoreCase(a.id, id)
  {
    if all == [] then None else if EqIgnoreCase(all[0].id, id) then Some(all[0]) else FirstNamed(all[1..], id)
  }

  function FirstBle(all: seq<StoredAccessory>, deviceId: bytes): (r: Option<StoredAccessory>)
    ensures r.Some? ==> r.value in all && r.value.transport.Ble? && r.value.transport.deviceId == deviceId
  {
    if all == [] then None
    else if all[0].transport.Ble? && all[0].transport.deviceId == deviceId then Some(all[0])
    else FirstBle(all[1..], deviceId)
  }

  /** By name in any case, else by BLE device id. */
  function Find(all: seq<StoredAccessory>, id: string): Option<StoredAccessory>
  {
    var named := FirstNamed(all, id);
    if named.Some? then named
    else
      match DeviceIdOf(id)
      case None => None
      case Some(deviceId) => FirstBle(all, deviceId)
  }

  ghost function LoadStored(disk: Option<Document>, ioOk: bool, id: string): Result<StoredAccessory, HapError>
  {
    match Load(disk, ioOk)
    case Err(e) => Err(Pairing(e))
    case Ok(all) =>
      match Find(all, id)
      case None => Err(UnknownAccessory)
      case Some(a) => Ok(a)
  }

  method LoadStoredLoop(disk: Option<Document>, ioOk: bool, id: string) returns (r: Result<StoredAccessory, HapError>)
    ensures r == LoadStored(disk, ioOk, id)
  {
    var loaded := LoadPairings(disk, ioOk);
    if loaded.Err? { return Err(Pairing(loaded.error)); }
    var all := loaded.value;
    var i := 0;
    while i < |all|
      invariant 0 <= i <= |all| && FirstNamed(all, id) == FirstNamed(all[i..], id)
    {
      if EqIgnoreCase(all[i].id, id) { return Ok(all[i]); }
      i := i + 1;
    }
    var deviceId := ParseDeviceId(id);
    if deviceId.Some? {
      i := 0;
      while i < |all|
        invariant 0 <= i <= |all| && FirstBle(all, deviceId.value) == FirstBle(all[i..], deviceId.value)
      {
        if all[i].transport.Ble? && all[i].transport.deviceId == deviceId.value { return Ok(all[i]); }
        i := i + 1;
      }
    }
    r := Err(UnknownAccessory);
  }

  // ---- Calls ----

  /** A broadcast-state update from a background watch. */
  datatype Update = Update(id: string, b: StoredBroadcast, readOk: bool, writeOk: bool)

  function Background(disk: Option<Document>, updates: seq<Update>): Option<Document>
    decreases |updates|
  {
    if updates == [] then disk
    else
      var u := updates[0];
      Background(Exec(disk, SaveBroadcast(u.id, u.b), u.readOk, u.writeOk).0, updates[1..])
  }

  /**
   * A call with everything it meets: whether each store access works, what the accessory answers, and
   * the background updates between its load and its write.
   */
  datatype Call =
    | Pair(paired: Option<StoredAccessory>, readOk: bool, writeOk: bool)
    | Remove(id: string, loadOk: bool, remoteOk: bool, meanwhile: seq<Update>, readOk: bool, writeOk: bool)
    | Forget(id: string, loadOk: bool, meanwhile: seq<Update>, readOk: bool, writeOk: bool)
    | SaveState(id: string, b: StoredBroadcast, loadOk: bool, meanwhile: seq<Update>, readOk: bool, writeOk: bool)
    | Watch(updates: seq<Update>)

  datatype State = State(disk: Option<Document>, cached: seq<string>)

  function Drop(ids: seq<string>, id: string): seq<string>
  {
    if ids == [] then [] else (if ids[0] == id then [] else [ids[0]]) + Drop(ids[1..], id)
  }

  function DropIgnoringCase(ids: seq<string>, id: string): seq<string>
  {
    if ids == [] then []
    else (if EqIgnoreCase(ids[0], id) then [] else [ids[0]]) + DropIgnoringCase(ids[1..], id)
  }

  function Add(ids: seq<string>, id: string): seq<string>
  {
    if id in ids then ids else ids + [id]
  }

  function Refreshed(a: StoredAccessory, b: StoredBroadcast): StoredAccessory
  {
    if a.transport.Ble? then a.(transport := a.transport.(broadcast := Some(b))) else a
  }

  /** Delete under the record's own id, then drop that id from the snapshot. */
  function Deleted(disk: Option<Document>, cached: seq<string>, id: string, readOk: bool, writeOk: bool): (State, Result<(), HapError>)
  {
    match Exec(disk, DeletePairing(id), readOk, writeOk)
    case (next, Ok(_)) => (State(next, Drop(cached, id)), Ok(()))
    case (next, Err(e)) => (State(next, cached), Err(Pairing(e)))
  }

  ghost function Perform(s: State, call: Call): (State, Result<(), HapError>)
  {
    match call
    case Pair(paired, readOk, writeOk) =>
      if paired.None? then (s, Err(Remote))
      else
        (match Exec(s.disk, SavePairing(paired.value), readOk, writeOk)
         case (next, Ok(_)) => (State(next, Add(s.cached, paired.value.id)), Ok(()))
         case (next, Err(e)) => (State(next, s.cached), Err(Pairing(e))))
    case Remove(id, loadOk, remoteOk, meanwhile, readOk, writeOk) =>
      (match LoadStored(s.disk, loadOk, id)
       case Err(e) => (s, Err(e))
       case Ok(stored) =>
         var disk := Background(s.disk, meanwhile);
         if !remoteOk then (State(disk, s.cached), Err(Remote))
         else Deleted(disk, s.cached, stored.id, readOk, writeOk))
    case Forget(id, loadOk, meanwhile, readOk, writeOk) =>
      (match LoadStored(s.disk, loadOk, id)
       case Ok(stored) => Deleted(Background(s.disk, meanwhile), s.cached, stored.id, readOk, writeOk)
       case Err(UnknownAccessory) => (s.(cached := DropIgnoringCase(s.cached, id)), Ok(()))
       case Err(e) => (s, Err(e)))
    case SaveState(id, b, loadOk, meanwhile, readOk, writeOk) =>
      (match LoadStored(s.disk, loadOk, id)
       case Err(e) => (s, Err(e))
       case Ok(stored) =>
         match Exec(Background(s.disk, meanwhile), SavePairing(Refreshed(stored, b)), readOk, writeOk)
         case (next, Ok(_)) => (State(next, s.cached), Ok(()))
         case (next, Err(e)) => (State(next, s.cached), Err(Pairing(e))))
    case Watch(updates) => (s.(disk := Background(s.disk, updates)), Ok(()))
  }

  ghost function Run(s: State, calls: seq<Call>): State
    decreases |calls|
  {
    if calls == [] then s else Run(Perform(s, calls[0]).0, calls[1..])
  }

  // ---- Opening ----

  /** Which store accesses of `new` work. */
  datatype OpenIo = OpenIo(loadOk: bool, readOk: bool, writeOk: bool, listOk: bool)

  /** The identity an open uses and the disk it leaves, `generated` being saved if the store has none. */
  ghost function Identified(disk: Option<Document>, generated: Keypair, io: OpenIo): (Option<Document>, Result<Keypair, HapError>)
  {
    match LoadIdentity(disk, io.loadOk)
    case Err(e) => (disk, Err(Pairing(e)))
    case Ok(Some(k)) => (disk, Ok(k))
    case Ok(None) =>
      match Exec(disk, SaveController(generated), io.readOk, io.writeOk)
      case (next, Err(e)) => (next, Err(Pairing(e)))
      case (next, Ok(_)) => (next, Ok(generated))
  }

  ghost function Opening(disk: Option<Document>, generated: Keypair, io: OpenIo): (Option<Document>, Result<(Keypair, State), HapError>)
  {
    match Identified(disk, generated, io)
    case (next, Err(e)) => (next, Err(e))
    case (next, Ok(keypair)) =>
      match Load(next, io.listOk)
      case Err(e) => (next, Err(Pairing(e)))
      case Ok(all) => (next, Ok((keypair, State(next, Ids(all)))))
  }

  // ---- The controller object ----

  class HapController {
    const store: JsonFileStore
    const keypair: Keypair
    var cachedIds: seq<string>

    ghost function Model(): State
      reads this, store
    {
      State(store.disk, cachedIds)
    }

    constructor (store: JsonFileStore, keypair: Keypair, ids: seq<string>)
      ensures this.store == store && this.keypair == keypair && cachedIds == ids
    {
      this.store := store;
      this.keypair := keypair;
      cachedIds := ids;
    }

    /** Loads the identity, or saves a fresh one, and lists what the store holds; any failure yields no controller. */
    static method Open(store: JsonFileStore, generated: Keypair, io: OpenIo) returns (r: Result<HapController, HapError>)
      modifies store
      ensures var (disk, outcome) := Opening(old(store.disk), generated, io);
              && store.disk == disk
              && match outcome
                 case Err(e) => r == Err(e)
                 case Ok((keypair, s)) => r.Ok? && fresh(r.value) && r.value.store == store && r.value.keypair == keypair && r.value.Model() == s
    {
      var found := LoadController(store.disk, io.loadOk);
      if found.Err? { return Err(Pairing(found.error)); }
      var keypair := generated;
      if found.value.Some? {
        keypair := found.value.value;
      } else {
        var saved := store.Execute(SaveController(generated), io.readOk, io.writeOk);
        if saved.Err? { return Err(Pairing(saved.error)); }
      }
      var all := LoadPairings(store.disk, io.listOk);
      if all.Err? { return Err(Pairing(all.error)); }
      var controller := new HapController(store, keypair, Ids(all.value));
      r := Ok(controller);
    }

    method Retain(id: string, ignoreCase: bool)
      modifies this`cachedIds
      ensures cachedIds == if ignoreCase then DropIgnoringCase(old(cachedIds), id) else Drop(old(cachedIds), id)
    {
      var ids := cachedIds;
      var kept: seq<string> := [];
      var i := 0;
      while i < |ids|
        invariant 0 <= i <= |ids|
        invariant ignoreCase ==> kept + DropIgnoringCase(ids[i..], id) == DropIgnoringCase(ids, id)
        invariant !ignoreCase ==> kept + Drop(ids[i..], id) == Drop(ids, id)
      {
        assert ids[i..][0] == ids[i] && ids[i..][1..] == ids[i + 1..];
        var goes := if ignoreCase then EqIgnoreCase(ids[i], id) else ids[i] == id;
        if !goes { kept := kept + [ids[i]]; }
        i := i + 1;
      }
      assert ids[i..] == [];
      cachedIds := kept;
    }

    method RunUpdates(updates: seq<Update>)
      modifies store
      ensures store.disk == Background(old(store.disk), updates)
    {
      var i := 0;
      while i < |updates|
        invariant 0 <= i <= |updates|
        invariant Background(store.disk, updates[i..]) == Background(old(store.disk), updates)
      {
        assert updates[i..][0] == updates[i] && updates[i..][1..] == updates[i + 1..];
        var _ := store.Execute(SaveBroadcast(updates[i].id, updates[i].b), updates[i].readOk, updates[i].writeOk);
        i := i + 1;
      }
    }

    method Delete(id: string, readOk: bool, writeOk: bool) returns (r: Result<(), HapError>)
      modifies this, store
      ensures (Model(), r) == Deleted(old(store.disk), old(cachedIds), id, readOk, writeOk)
    {
      var deleted := store.Execute(DeletePairing(id), readOk, writeOk);
      if deleted.Err? { return Err(Pairing(deleted.error)); }
      Retain(id, false);
      r := Ok(());
    }

    method Invoke(call: Call) returns (r: Result<(), HapError>)
      modifies this, store
      ensures (Model(), r) == Perform(old(Model()), call)
    {
      match call {
        case Pair(paired, readOk, writeOk) =>
          if paired.None? { return Err(Remote); }
          var saved := store.Execute(SavePairing(paired.value), readOk, writeOk);
          if saved.Err? { return Err(Pairing(saved.error)); }
          if paired.value.id !in cachedIds { cachedIds := cachedIds + [paired.value.id]; }
          r := Ok(());
        case Remove(id, loadOk, remoteOk, meanwhile, readOk, writeOk) =>
          var stored := LoadStoredLoop(store.disk, loadOk, id);
          if stored.Err? { return Err(stored.error); }
          RunUpdates(meanwhile);
          if !remoteOk { return Err(Remote); }
          r := Delete(stored.value.id, readOk, writeOk);
        case Forget(id, loadOk, meanwhile, readOk, writeOk) =>
          var stored := LoadStoredLoop(store.disk, loadOk, id);
          if stored.Ok? {
            RunUpdates(meanwhile);
            r := Delete(stored.value.id, readOk, writeOk);
          } else if stored.error.UnknownAccessory? {
            Retain(id, true);
            r := Ok(());
          } else {
            r := Err(stored.error);
          }
        case SaveState(id, b, loadOk, meanwhile, readOk, writeOk) =>
          var stored := LoadStoredLoop(store.disk, loadOk, id);
          if stored.Err? { return Err(stored.error); }
          RunUpdates(meanwhile);
          var saved := store.Execute(SavePairing(Refreshed(stored.value, b)), readOk, writeOk);
          if saved.Err? { return Err(Pairing(saved.error)); }
          r := Ok(());
        case Watch(updates) =>
          RunUpdates(updates);
          r := Ok(());
      }
    }
  }

  function Ids(all: seq<StoredAccessory>): (ids: seq<string>)
    ensures |ids| == |all| && forall i :: 0 <= i < |all| ==> ids[i] == all[i].id
  {
    seq(|all|, i requires 0 <= i < |all| => all[i].id)
  }

  // ---- The snapshot agrees with the store ----

  predicate UpdatesFit(updates: seq<Update>)
  {
    forall i :: 0 <= i < |updates| ==> BroadcastFits(updates[i].b)
  }

  predicate CallFits(call: Call)
  {
    match call
    case Pair(paired, _, _) => paired.Some? ==> Fits(paired.value)
    case Remove(_, _, _, meanwhile, _, _) => UpdatesFit(meanwhile)
    case Forget(_, _, meanwhile, _, _) => UpdatesFit(meanwhile)
    case SaveState(_, b, _, meanwhile, _, _) => BroadcastFits(b) && UpdatesFit(meanwhile)
    case Watch(updates) => UpdatesFit(updates)
  }

  ghost predicate Stored(disk: Option<Document>, id: string)
  {
    Loaded(Content(disk), id).Some?
  }

  ghost predicate NoRepeats(ids: seq<string>)
  {
    forall i, j :: 0 <= i < j < |ids| ==> ids[i] != ids[j]
  }

  ghost predicate Agree(s: State)
  {
    Loads(Content(s.disk)) && NoRepeats(s.cached) && forall id: string :: id in s.cached <==> Stored(s.disk, id)
  }

  lemma {:induction false} BackgroundKeeps(disk: Option<Document>, updates: seq<Update>, id: string)
    requires Loads(Content(disk)) && UpdatesFit(updates)
    ensures Loads(Content(Background(disk, updates))) && (Stored(Background(disk, updates), id) <==> Stored(disk, id))
    decreases |updates|
  {
    if updates != [] {
      var u := updates[0];
      ExecIsCellwise(disk, SaveBroadcast(u.id, u.b), u.readOk, u.writeOk, id);
      BackgroundKeeps(Exec(disk, SaveBroadcast(u.id, u.b), u.readOk, u.writeOk).0, updates[1..], id);
    }
  }

  /** A listed accessory is the one its own id finds, and every id stored is listed. */
  lemma LoadIsStored(disk: Option<Document>)
    requires Loads(Content(disk))
    ensures Load(disk, true).Ok?
    ensures forall a :: a in Load(disk, true).value ==> Loaded(Content(disk), a.id) == Some(a) && Fits(a)
    ensures forall id: string :: Stored(disk, id) <==> id in Ids(Load(disk, true).value)
    ensures NoRepeats(Ids(Load(disk, true).value))
  {
    var records := Content(disk).accessories;
    LoadAllAt(records);
    var all := LoadAll(records).value;
    forall i | 0 <= i < |all| ensures Loaded(Content(disk), all[i].id) == Some(all[i]) && Fits(all[i]) && all[i].id == records[i].id {
      DecodedFits(records[i]);
      LookupFirst(records, i);
    }
    forall id: string | Stored(disk, id) ensures id in Ids(all) {
      var r := Lookup(records, id).value;
      var i :| 0 <= i < |records| && records[i] == r;
      assert Ids(all)[i] == id;
    }
  }

  lemma {:induction false} DropIds(ids: seq<string>, id: string)
    ensures forall x: string :: x in Drop(ids, id) <==> x in ids && x != id
    ensures NoRepeats(ids) ==> NoRepeats(Drop(ids, id))
  {
    if ids != [] {
      DropIds(ids[1..], id);
      var rest := Drop(ids[1..], id);
      assert ids == [ids[0]] + ids[1..];
      if NoRepeats(ids) && ids[0] != id {
        forall i, j | 0 <= i < j < |[ids[0]] + rest| ensures ([ids[0]] + rest)[i] != ([ids[0]] + rest)[j] {
          if i == 0 { assert rest[j - 1] in ids[1..]; }
        }
      }
    }
  }

  lemma {:induction false} DropNone(ids: seq<string>, id: string)
    requires forall x :: x in ids ==> !EqIgnoreCase(x, id)
    ensures DropIgnoringCase(ids, id) == ids
  {
    if ids != [] {
      assert ids[0] in ids;
      DropNone(ids[1..], id);
      assert ids == [ids[0]] + ids[1..];
    }
  }

  lemma DeleteKeeps(s: State, disk: Option<Document>, id: string, readOk: bool, writeOk: bool)
    requires Agree(s) && Loads(Content(disk)) && forall x: string :: Stored(disk, x) <==> Stored(s.disk, x)
    ensures Agree(Deleted(disk, s.cached, id, readOk, writeOk).0)
  {
    forall x: string ensures Loads(Content(Exec(disk, DeletePairing(id), readOk, writeOk).0)) &&
                             (Exec(disk, DeletePairing(id), readOk, writeOk).1.Ok? ==>
                                (Stored(Exec(disk, DeletePairing(id), readOk, writeOk).0, x) <==> Stored(disk, x) && x != id))
    {
      ExecIsCellwise(disk, DeletePairing(id), readOk, writeOk, x);
    }
    ExecIsCellwise(disk, DeletePairing(id), readOk, writeOk, id);
    DropIds(s.cached, id);
  }

  /** Saving under an id already stored, or newly added to the snapshot. */
  lemma SaveKeeps(s: State, disk: Option<Document>, a: StoredAccessory, readOk: bool, writeOk: bool)
    requires Agree(s) && Fits(a) && Loads(Content(disk)) && forall x: string :: Stored(disk, x) <==> Stored(s.disk, x)
    ensures var (next, r) := Exec(disk, SavePairing(a), readOk, writeOk);
            && (r.Ok? ==> Agree(State(next, Add(s.cached, a.id))))
            && (r.Err? ==> Agree(State(next, s.cached)))
  {
    var (next, r) := Exec(disk, SavePairing(a), readOk, writeOk);
    forall x: string ensures Loads(Content(next)) && (r.Ok? ==> (Stored(next, x) <==> Stored(disk, x) || x == a.id)) && (r.Err? ==> next == disk) {
      ExecIsCellwise(disk, SavePairing(a), readOk, writeOk, x);
    }
  }

  lemma MeanwhileKeeps(s: State, updates: seq<Update>)
    requires Agree(s) && UpdatesFit(updates)
    ensures var disk := Background(s.disk, updates);
            Loads(Content(disk)) && forall x: string :: Stored(disk, x) <==> Stored(s.disk, x)
  {
    BackgroundKeeps(s.disk, updates, "");
    forall x: string ensures Stored(Background(s.disk, updates), x) <==> Stored(s.disk, x) {
      BackgroundKeeps(s.disk, updates, x);
    }
  }

  lemma CallKeeps(s: State, call: Call)
    requires Agree(s) && CallFits(call)
    ensures Agree(Perform(s, call).0)
  {
    LoadIsStored(s.disk);
    match call
    case Pair(paired, readOk, writeOk) =>
      if paired.Some? { SaveKeeps(s, s.disk, paired.value, readOk, writeOk); }
    case Remove(id, loadOk, remoteOk, meanwhile, readOk, writeOk) =>
      MeanwhileKeeps(s, meanwhile);
      var stored := LoadStored(s.disk, loadOk, id);
      if stored.Ok? { DeleteKeeps(s, Background(s.disk, meanwhile), stored.value.id, readOk, writeOk); }
    case Forget(id, loadOk, meanwhile, readOk, writeOk) =>
      MeanwhileKeeps(s, meanwhile);
      var stored := LoadStored(s.disk, loadOk, id);
      if stored.Ok? {
        DeleteKeeps(s, Background(s.disk, meanwhile), stored.value.id, readOk, writeOk);
      } else if stored.error.UnknownAccessory? {
        NotListed(s, id);
        DropNone(s.cached, id);
      }
    case SaveState(id, b, loadOk, meanwhile, readOk, writeOk) =>
      MeanwhileKeeps(s, meanwhile);
      var stored := LoadStored(s.disk, loadOk, id);
      if stored.Ok? { SaveKeeps(s, Background(s.disk, meanwhile), Refreshed(stored.value, b), readOk, writeOk); }
    case Watch(updates) => MeanwhileKeeps(s, updates);
  }

  /** An id the store does not know, in any case, is not in the snapshot either. */
  lemma NotListed(s: State, id: string)
    requires Agree(s) && LoadStored(s.disk, true, id) == Err(UnknownAccessory)
    ensures forall x :: x in s.cached ==> !EqIgnoreCase(x, id)
  {
    LoadIsStored(s.disk);
    var all := Load(s.disk, true).value;
    forall x | x in s.cached ensures !EqIgnoreCase(x, id) {
      assert Stored(s.disk, x);
      var i :| 0 <= i < |all| && Ids(all)[i] == x;
      assert all[i] in all;
    }
  }

  lemma {:induction false} RunKeeps(s: State, calls: seq<Call>)
    requires Agree(s) && forall i :: 0 <= i < |calls| ==> CallFits(calls[i])
    ensures Agree(Run(s, calls))
    decreases |calls|
  {
    if calls != [] {
      CallKeeps(s, calls[0]);
      RunKeeps(Perform(s, calls[0]).0, calls[1..]);
    }
  }

  /** A controller that opened has a loadable store, its accessories untouched, whose identity it uses. */
  lemma OpenedWell(disk: Option<Document>, generated: Keypair, io: OpenIo)
    requires Opening(disk, generated, io).1.Ok? && UniqueIds(Content(disk).accessories) && |generated.seed| == 32
    ensures var (next, r) := Opening(disk, generated, io);
            && Agree(r.value.1) && r.value.1.disk == next
            && Content(next).accessories == Content(disk).accessories
            && LoadIdentity(next, true) == Ok(Some(r.value.0))
  {
    var (next, r) := Opening(disk, generated, io);
    ControllerSurvives(generated);
    LoadAllDecodes(Content(next).accessories);
    LoadIsStored(next);
  }

  /** The documents a call leaves keep their identity record and stay readable. */
  lemma {:induction false} BackgroundKeepsIdentity(disk: Option<Document>, updates: seq<Update>)
    ensures Content(Background(disk, updates)).controller == Content(disk).controller
    decreases |updates|
  {
    if updates != [] {
      var u := updates[0];
      BackgroundKeepsIdentity(Exec(disk, SaveBroadcast(u.id, u.b), u.readOk, u.writeOk).0, updates[1..]);
    }
  }

  lemma CallKeepsIdentity(s: State, call: Call)
    ensures Content(Perform(s, call).0.disk).controller == Content(s.disk).controller
  {
    match call
    case Pair(_, _, _) =>
    case Remove(_, _, _, meanwhile, _, _) => BackgroundKeepsIdentity(s.disk, meanwhile);
    case Forget(_, _, meanwhile, _, _) => BackgroundKeepsIdentity(s.disk, meanwhile);
    case SaveState(_, _, _, meanwhile, _, _) => BackgroundKeepsIdentity(s.disk, meanwhile);
    case Watch(updates) => BackgroundKeepsIdentity(s.disk, updates);
  }

  lemma {:induction false} RunKeepsIdentity(s: State, calls: seq<Call>)
    ensures Content(Run(s, calls).disk).controller == Content(s.disk).controller
    decreases |calls|
  {
    if calls != [] {
      CallKeepsIdentity(s, calls[0]);
      RunKeepsIdentity(Perform(s, calls[0]).0, calls[1..]);
    }
  }

  /**
   * Opened on a store with unique ids, the snapshot lists exactly the ids in the store, each once, after every
   * sequence of calls, whatever fails and whatever a background watch writes meanwhile.
   */
  lemma PairedAgreesWithStore(disk: Option<Document>, generated: Keypair, io: OpenIo, calls: seq<Call>)
    requires Opening(disk, generated, io).1.Ok? && UniqueIds(Content(disk).accessories) && |generated.seed| == 32
    requires forall i :: 0 <= i < |calls| ==> CallFits(calls[i])
    ensures var s := Run(Opening(disk, generated, io).1.value.1, calls);
            && NoRepeats(s.cached)
            && (forall id: string :: id in s.cached <==> exists r :: r in Content(s.disk).accessories && r.id == id)
            && UniqueIds(Content(s.disk).accessories)
  {
    OpenedWell(disk, generated, io);
    var start := Opening(disk, generated, io).1.value.1;
    RunKeeps(start, calls);
    var s := Run(start, calls);
    forall id: string ensures Stored(s.disk, id) <==> exists r :: r in Content(s.disk).accessories && r.id == id {
      var found := Lookup(Content(s.disk).accessories, id);
      if found.Some? { assert FromRecord(found.value).Ok?; }
    }
  }

  /** A controller opened again, after any calls, has the identity it had; the fresh one it is offered is not used. */
  lemma IdentityPersists(disk: Option<Document>, generated: Keypair, io: OpenIo, calls: seq<Call>, again: Keypair, io': OpenIo)
    requires Opening(disk, generated, io).1.Ok? && UniqueIds(Content(disk).accessories) && |generated.seed| == 32
    requires forall i :: 0 <= i < |calls| ==> CallFits(calls[i])
    ensures var (_, first) := Opening(disk, generated, io);
            var (_, second) := Opening(Run(first.value.1, calls).disk, again, io');
            && (second.Ok? <==> io'.loadOk && io'.listOk)
            && (second.Ok? ==> second.value.0 == first.value.0)
  {
    OpenedWell(disk, generated, io);
    var start := Opening(disk, generated, io).1.value.1;
    RunKeeps(start, calls);
    RunKeepsIdentity(start, calls);
    LoadIsStored(Run(start, calls).disk);
  }

  /** What each call does to the snapshot: a success adds or removes exactly one id, and all else leaves it alone. */
  lemma CallChangesOneId(s: State, call: Call, id: string)
    requires Agree(s) && CallFits(call)
    ensures var (next, r) := Perform(s, call);
            id in next.cached <==>
              if r.Err? || call.SaveState? || call.Watch? then id in s.cached
              else if call.Pair? then id in s.cached || id == call.paired.value.id
              else if LoadStored(s.disk, call.loadOk, call.id).Ok?
              then id in s.cached && id != LoadStored(s.disk, call.loadOk, call.id).value.id
              else id in s.cached
  {
    if call.Remove? || call.Forget? {
      var stored := LoadStored(s.disk, call.loadOk, call.id);
      if stored.Ok? {
        DropIds(s.cached, stored.value.id);
      } else if call.Forget? && stored.error.UnknownAccessory? {
        NotListed(s, call.id);
        DropNone(s.cached, call.id);
      }
    }
  }

  // ---- Saving state beside a watch ----

  /** Update `i` was written: its store access worked, and found a BLE record under its id. */
  ghost predicate Landed(disk: Option<Document>, updates: seq<Update>, i: nat)
    requires i < |updates|
  {
    var u, before := updates[i], Background(disk, updates[..i]);
    u.readOk && u.writeOk && ReadDoc(before, true).Ok? && BleUnder(Content(before), u.id).Some?
  }

  /** Update `i` was written under this id, and the accessory no longer has its broadcast. */
  ghost predicate Lost(disk: Option<Document>, updates: seq<Update>, id: string, after: Option<Document>, i: nat)
  {
    && i < |updates| && updates[i].id == id && Landed(disk, updates, i)
    && var a := Loaded(Content(after), id);
       !(a.Some? && a.value.transport.Ble? && a.value.transport.broadcast == Some(updates[i].b))
  }

  /** An accessory but for its broadcast. */
  function Bare(a: StoredAccessory): StoredAccessory
  {
    if a.transport.Ble? then a.(transport := Ble(a.transport.deviceId, None)) else a
  }

  ghost predicate SameBare(all: seq<StoredAccessory>, all': seq<StoredAccessory>)
  {
    |all| == |all'| && forall i :: 0 <= i < |all| ==> Bare(all[i]) == Bare(all'[i])
  }

  /** Both documents load, and to the same accessories but for their broadcasts. */
  ghost predicate LoadAlike(disk: Option<Document>, disk': Option<Document>)
  {
    Load(disk, true).Ok? && Load(disk', true).Ok? && SameBare(Load(disk, true).value, Load(disk', true).value)
  }

  lemma RecordsAlike(records: seq<AccessoryRecord>, records': seq<AccessoryRecord>)
    requires |records| == |records'| && (forall r :: r in records ==> FromRecord(r).Ok?) && (forall r :: r in records' ==> FromRecord(r).Ok?)
    requires forall i :: 0 <= i < |records| ==> Bare(FromRecord(records[i]).value) == Bare(FromRecord(records'[i]).value)
    ensures LoadAll(records).Ok? && LoadAll(records').Ok? && SameBare(LoadAll(records).value, LoadAll(records').value)
  {
    LoadAllAt(records);
    LoadAllAt(records');
  }

  lemma BroadcastBare(disk: Option<Document>, u: Update)
    requires Loads(Content(disk)) && BroadcastFits(u.b)
    ensures var next := Exec(disk, SaveBroadcast(u.id, u.b), u.readOk, u.writeOk).0; Loads(Content(next)) && LoadAlike(disk, next)
  {
    var records := Content(disk).accessories;
    var next := Exec(disk, SaveBroadcast(u.id, u.b), u.readOk, u.writeOk).0;
    ExecIsCellwise(disk, SaveBroadcast(u.id, u.b), u.readOk, u.writeOk, u.id);
    LookupAt(records, u.id);
    var r := BleUnder(Content(disk), u.id);
    if r.Some? { BroadcastRewritten(r.value, u.b); }
    RecordsAlike(records, Content(next).accessories);
  }

  lemma {:induction false} BackgroundBare(disk: Option<Document>, updates: seq<Update>)
    requires Loads(Content(disk)) && UpdatesFit(updates)
    ensures Loads(Content(Background(disk, updates))) && LoadAlike(disk, Background(disk, updates))
    decreases |updates|
  {
    LoadIsStored(disk);
    if updates != [] {
      var u := updates[0];
      BroadcastBare(disk, u);
      BackgroundBare(Exec(disk, SaveBroadcast(u.id, u.b), u.readOk, u.writeOk).0, updates[1..]);
    }
  }

  ghost predicate FoundAlike(r: Option<StoredAccessory>, r': Option<StoredAccessory>)
  {
    r.Some? == r'.Some? && (r.Some? ==> Bare(r.value) == Bare(r'.value))
  }

  lemma {:induction false} NamedAlike(all: seq<StoredAccessory>, all': seq<StoredAccessory>, id: string)
    requires SameBare(all, all')
    ensures FoundAlike(FirstNamed(all, id), FirstNamed(all', id))
  {
    if all != [] {
      assert Bare(all[0]) == Bare(all'[0]);
      NamedAlike(all[1..], all'[1..], id);
    }
  }

  lemma {:induction false} BleAlike(all: seq<StoredAccessory>, all': seq<StoredAccessory>, deviceId: bytes)
    requires SameBare(all, all')
    ensures FoundAlike(FirstBle(all, deviceId), FirstBle(all', deviceId))
  {
    if all != [] {
      assert Bare(all[0]) == Bare(all'[0]);
      BleAlike(all[1..], all'[1..], deviceId);
    }
  }

  /** Background updates do not change which accessory an id finds, but for its broadcast. */
  lemma FindsAlike(disk: Option<Document>, updates: seq<Update>, id: string)
    requires Loads(Content(disk)) && UpdatesFit(updates) && LoadStored(disk, true, id).Ok?
    ensures var found := LoadStored(Background(disk, updates), true, id);
            found.Ok? && Bare(found.value) == Bare(LoadStored(disk, true, id).value)
  {
    BackgroundBare(disk, updates);
    var all, all' := Load(disk, true).value, Load(Background(disk, updates), true).value;
    NamedAlike(all, all', id);
    if DeviceIdOf(id).Some? { BleAlike(all, all', DeviceIdOf(id).value); }
  }

  /**
   * A `save_state` that found its record leaves, whatever a watch writes between its load and its write, exactly what
   * it would leave if all of that had come before it: the two accesses act as one.
   */
  lemma SaveStateIsAtomic(s: State, id: string, b: StoredBroadcast, meanwhile: seq<Update>, readOk: bool, writeOk: bool)
    requires Loads(Content(s.disk)) && UpdatesFit(meanwhile) && LoadStored(s.disk, true, id).Ok?
    ensures Perform(s, SaveState(id, b, true, meanwhile, readOk, writeOk))
         == Perform(Perform(s, Watch(meanwhile)).0, SaveState(id, b, true, [], readOk, writeOk))
  {
    FindsAlike(s.disk, meanwhile, id);
  }

  lemma LandedOnBle(disk: Option<Document>, updates: seq<Update>, i: nat, a: StoredAccessory)
    requires Loads(Content(disk)) && UpdatesFit(updates) && i < |updates| && Landed(disk, updates, i)
    requires Loaded(Content(disk), updates[i].id) == Some(a)
    ensures a.transport.Ble?
  {
    BackgroundKind(disk, updates[..i], updates[i].id);
  }

  lemma {:induction false} BackgroundKind(disk: Option<Document>, updates: seq<Update>, id: string)
    requires Loads(Content(disk)) && UpdatesFit(updates)
    ensures FoundAlike(Loaded(Content(disk), id), Loaded(Content(Background(disk, updates)), id))
    ensures Loads(Content(Background(disk, updates)))
    decreases |updates|
  {
    if updates != [] {
      var u := updates[0];
      ExecIsCellwise(disk, SaveBroadcast(u.id, u.b), u.readOk, u.writeOk, id);
      BackgroundKind(Exec(disk, SaveBroadcast(u.id, u.b), u.readOk, u.writeOk).0, updates[1..], id);
    }
  }

  /** What a `save_state` that succeeds leaves under each id. */
  lemma {:induction false} SaveStateLeaves(s: State, id: string, b: StoredBroadcast, meanwhile: seq<Update>, readOk: bool, writeOk: bool, x: string)
    requires Agree(s) && BroadcastFits(b) && UpdatesFit(meanwhile)
    requires Perform(s, SaveState(id, b, true, meanwhile, readOk, writeOk)).1.Ok?
    ensures LoadStored(s.disk, true, id).Ok?
    ensures var stored := LoadStored(s.disk, true, id).value;
            && Loaded(Content(s.disk), stored.id) == Some(stored)
            && Loaded(Content(Perform(s, SaveState(id, b, true, meanwhile, readOk, writeOk)).0.disk), x) ==
                 if x == stored.id then Some(Refreshed(stored, b)) else Loaded(Content(Background(s.disk, meanwhile)), x)
  {
    LoadIsStored(s.disk);
    var stored := LoadStored(s.disk, true, id).value;
    BackgroundKind(s.disk, meanwhile, stored.id);
    ExecIsCellwise(Background(s.disk, meanwhile), SavePairing(Refreshed(stored, b)), readOk, writeOk, x);
  }

  /**
   * What that costs: a `save_state` that succeeds loses exactly the updates of its accessory, written between its load
   * and its write, that carry another broadcast than its own, and leaves every other accessory as the watch left it.
   */
  lemma {:induction false} SaveStateLosesExactly(s: State, id: string, b: StoredBroadcast, meanwhile: seq<Update>, readOk: bool, writeOk: bool)
    requires Agree(s) && BroadcastFits(b) && UpdatesFit(meanwhile)
    requires Perform(s, SaveState(id, b, true, meanwhile, readOk, writeOk)).1.Ok?
    ensures LoadStored(s.disk, true, id).Ok?
    ensures var after := Perform(s, SaveState(id, b, true, meanwhile, readOk, writeOk)).0.disk;
            var own := LoadStored(s.disk, true, id).value.id;
            forall i: nat :: Lost(s.disk, meanwhile, own, after, i) <==>
              i < |meanwhile| && meanwhile[i].id == own && Landed(s.disk, meanwhile, i) && meanwhile[i].b != b
    ensures var after := Perform(s, SaveState(id, b, true, meanwhile, readOk, writeOk)).0.disk;
            forall x: string :: x != LoadStored(s.disk, true, id).value.id ==>
              Loaded(Content(after), x) == Loaded(Content(Background(s.disk, meanwhile)), x)
  {
    SaveStateLeaves(s, id, b, meanwhile, readOk, writeOk, id);
    var stored := LoadStored(s.disk, true, id).value;
    SaveStateLeaves(s, id, b, meanwhile, readOk, writeOk, stored.id);
    forall x: string | x != stored.id
      ensures Loaded(Content(Perform(s, SaveState(id, b, true, meanwhile, readOk, writeOk)).0.disk), x) == Loaded(Content(Background(s.disk, meanwhile)), x)
    {
      SaveStateLeaves(s, id, b, meanwhile, readOk, writeOk, x);
    }
    forall i: nat | i < |meanwhile| && meanwhile[i].id == stored.id && Landed(s.disk, meanwhile, i) ensures stored.transport.Ble? {
      LandedOnBle(s.disk, meanwhile, i, stored);
    }
  }
}
