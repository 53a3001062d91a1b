/** Every call of the controller: exactly when it succeeds, and what it leaves in the store. */
module ControllerCalls {
  import opened Bytes
  import opened Hex
  import opened Store
  import opened Controller

  // ---- Lookup ----

  /** Case is ignored for ASCII letters, and for nothing else. */
  lemma {:induction false} SameButForCase(a: string, b: string)
    ensures EqIgnoreCase(a, b) <==> |a| == |b| && forall i :: 0 <= i < |a| ==> SameLetter(a[i], b[i])
  {
    if EqIgnoreCase(a, b) {
      forall i | 0 <= i < |a| ensures SameLetter(a[i], b[i]) { assert LowerAll(a)[i] == LowerAll(b)[i]; }
    }
    if |a| == |b| && forall i :: 0 <= i < |a| ==> SameLetter(a[i], b[i]) { assert LowerAll(a) == LowerAll(b); }
  }

  predicate SameLetter(a: char, b: char)
  {
    a == b || ('A' <= a <= 'Z' && b as int == a as int + 32) || ('A' <= b <= 'Z' && a as int == b as int + 32)
  }

  predicate Named(a: StoredAccessory, id: string)
  {
    EqIgnoreCase(a.id, id)
  }

  predicate HasDevice(a: StoredAccessory, deviceId: bytes)
  {
    a.transport.Ble? && a.transport.deviceId == deviceId
  }

  /** The first accessory of that name, in any case, is found, whatever else matches. */
  lemma {:induction false} FindsNamed(all: seq<StoredAccessory>, id: string, i: nat)
    requires i < |all| && Named(all[i], id) && forall j :: 0 <= j < i ==> !Named(all[j], id)
    ensures Find(all, id) == Some(all[i])
  {
    FirstNamedAt(all, id, i);
  }

  lemma {:induction false} FirstNamedAt(all: seq<StoredAccessory>, id: string, i: nat)
    requires i < |all| && Named(all[i], id) && forall j :: 0 <= j < i ==> !Named(all[j], id)
    ensures FirstNamed(all, id) == Some(all[i])
  {
    if i > 0 { FirstNamedAt(all[1..], id, i - 1); }
  }

  /** Without one, an id that spells a device id finds the first BLE accessory with it, and any other finds none. */
  lemma {:induction false} FindsUnnamed(all: seq<StoredAccessory>, id: string)
    requires forall j :: 0 <= j < |all| ==> !Named(all[j], id)
    ensures DeviceIdOf(id).None? ==> Find(all, id) == None
    ensures DeviceIdOf(id).Some? ==>
              && ((forall j :: 0 <= j < |all| ==> !HasDevice(all[j], DeviceIdOf(id).value)) ==> Find(all, id) == None)
              && (forall i: nat :: i < |all| && HasDevice(all[i], DeviceIdOf(id).value) && (forall j :: 0 <= j < i ==> !HasDevice(all[j], DeviceIdOf(id).value)) ==>
                    Find(all, id) == Some(all[i]))
  {
    if DeviceIdOf(id).Some? { FirstBleExactly(all, DeviceIdOf(id).value); }
  }

  lemma {:induction false} FirstBleExactly(all: seq<StoredAccessory>, d: bytes)
    ensures (forall j :: 0 <= j < |all| ==> !HasDevice(all[j], d)) ==> FirstBle(all, d) == None
    ensures forall i: nat :: i < |all| && HasDevice(all[i], d) && (forall j :: 0 <= j < i ==> !HasDevice(all[j], d)) ==> FirstBle(all, d) == Some(all[i])
  {
    if all != [] {
      FirstBleExactly(all[1..], d);
      if forall j :: 0 <= j < |all| ==> !HasDevice(all[j], d) { assert forall j :: 0 <= j < |all[1..]| ==> all[1..][j] == all[j + 1]; }
      forall i: nat | i < |all| && HasDevice(all[i], d) && (forall j :: 0 <= j < i ==> !HasDevice(all[j], d)) ensures FirstBle(all, d) == Some(all[i]) {
        if i > 0 {
          assert all[1..][i - 1] == all[i] && forall j :: 0 <= j < i - 1 ==> all[1..][j] == all[j + 1];
        }
      }
    }
  }

  // ---- Results ----

  /** Which calls succeed: the store works, the accessory answers where it is asked, and the id is known where it must be. */
  ghost predicate Succeeds(s: State, call: Call)
  {
    match call
    case Pair(paired, readOk, writeOk) => paired.Some? && readOk && writeOk
    case Remove(id, loadOk, remoteOk, _, readOk, writeOk) => LoadStored(s.disk, loadOk, id).Ok? && remoteOk && readOk && writeOk
    case Forget(id, loadOk, _, readOk, writeOk) =>
      if LoadStored(s.disk, loadOk, id).Ok? then readOk && writeOk else LoadStored(s.disk, loadOk, id) == Err(UnknownAccessory)
    case SaveState(id, _, loadOk, _, readOk, writeOk) => LoadStored(s.disk, loadOk, id).Ok? && readOk && writeOk
    case Watch(_) => true
  }

  lemma {:induction false} StoreWorks(disk: Option<Document>, op: Op, readOk: bool, writeOk: bool)
    requires Loads(Content(disk)) && !op.SaveBroadcast?
    ensures Exec(disk, op, readOk, writeOk).1.Ok? <==> readOk && writeOk
    ensures Exec(disk, op, readOk, writeOk).1.Err? ==> Exec(disk, op, readOk, writeOk).0 == disk
  {
  }

  /** In a store that loads, a call succeeds exactly in those cases. */
  lemma {:induction false} SucceedsExactly(s: State, call: Call)
    requires Agree(s) && CallFits(call)
    ensures Perform(s, call).1.Ok? <==> Succeeds(s, call)
  {
    match call
    case Pair(paired, readOk, writeOk) => if paired.Some? { StoreWorks(s.disk, SavePairing(paired.value), readOk, writeOk); }
    case Remove(id, loadOk, remoteOk, meanwhile, readOk, writeOk) =>
      MeanwhileKeeps(s, meanwhile);
      var stored := LoadStored(s.disk, loadOk, id);
      if stored.Ok? { StoreWorks(Background(s.disk, meanwhile), DeletePairing(stored.value.id), readOk, writeOk); }
    case Forget(id, loadOk, meanwhile, readOk, writeOk) =>
      MeanwhileKeeps(s, meanwhile);
      var stored := LoadStored(s.disk, loadOk, id);
      if stored.Ok? { StoreWorks(Background(s.disk, meanwhile), DeletePairing(stored.value.id), readOk, writeOk); }
    case SaveState(id, b, loadOk, meanwhile, readOk, writeOk) =>
      MeanwhileKeeps(s, meanwhile);
      var stored := LoadStored(s.disk, loadOk, id);
      if stored.Ok? { StoreWorks(Background(s.disk, meanwhile), SavePairing(Refreshed(stored.value, b)), readOk, writeOk); }
    case Watch(_) =>
  }

  // ---- What is stored ----

  /** The disk a call's own write finds: with what a watch wrote meanwhile, once the call has got past its load. */
  ghost function Reached(s: State, call: Call): Option<Document>
  {
    match call
    case Pair(_, _, _) => s.disk
    case Remove(id, loadOk, _, meanwhile, _, _) => if LoadStored(s.disk, loadOk, id).Ok? then Background(s.disk, meanwhile) else s.disk
    case Forget(id, loadOk, meanwhile, _, _) => if LoadStored(s.disk, loadOk, id).Ok? then Background(s.disk, meanwhile) else s.disk
    case SaveState(id, _, loadOk, meanwhile, _, _) => if LoadStored(s.disk, loadOk, id).Ok? then Background(s.disk, meanwhile) else s.disk
    case Watch(updates) => Background(s.disk, updates)
  }

  /** What a call that succeeds makes of the accessory under an id. */
  ghost function Becomes(s: State, call: Call, id: string, was: Option<StoredAccessory>): Option<StoredAccessory>
  {
    match call
    case Pair(paired, _, _) => if paired.Some? && paired.value.id == id then paired else was
    case Remove(name, loadOk, _, _, _, _) => if LoadStored(s.disk, loadOk, name).Ok? && LoadStored(s.disk, loadOk, name).value.id == id then None else was
    case Forget(name, loadOk, _, _, _) => if LoadStored(s.disk, loadOk, name).Ok? && LoadStored(s.disk, loadOk, name).value.id == id then None else was
    case SaveState(name, b, loadOk, _, _, _) =>
      if LoadStored(s.disk, loadOk, name).Ok? && LoadStored(s.disk, loadOk, name).value.id == id
      then Some(Refreshed(LoadStored(s.disk, loadOk, name).value, b)) else was
    case Watch(_) => was
  }

  /** A call acts on the one accessory it names, and only if it succeeds. */
  lemma {:induction false} StoresExactly(s: State, call: Call, id: string)
    requires Agree(s) && CallFits(call)
    ensures var was := Loaded(Content(Reached(s, call)), id);
            Loaded(Content(Perform(s, call).0.disk), id) == if Succeeds(s, call) then Becomes(s, call, id, was) else was
  {
    SucceedsExactly(s, call);
    LoadIsStored(s.disk);
    match call
    case Pair(paired, readOk, writeOk) => if paired.Some? { ExecIsCellwise(s.disk, SavePairing(paired.value), readOk, writeOk, id); }
    case Remove(name, loadOk, remoteOk, meanwhile, readOk, writeOk) =>
      MeanwhileKeeps(s, meanwhile);
      var stored := LoadStored(s.disk, loadOk, name);
      if stored.Ok? { ExecIsCellwise(Background(s.disk, meanwhile), DeletePairing(stored.value.id), readOk, writeOk, id); }
    case Forget(name, loadOk, meanwhile, readOk, writeOk) =>
      MeanwhileKeeps(s, meanwhile);
      var stored := LoadStored(s.disk, loadOk, name);
      if stored.Ok? { ExecIsCellwise(Background(s.disk, meanwhile), DeletePairing(stored.value.id), readOk, writeOk, id); }
    case SaveState(name, b, loadOk, meanwhile, readOk, writeOk) =>
      MeanwhileKeeps(s, meanwhile);
      var stored := LoadStored(s.disk, loadOk, name);
      if stored.Ok? { ExecIsCellwise(Background(s.disk, meanwhile), SavePairing(Refreshed(stored.value, b)), readOk, writeOk, id); }
    case Watch(_) =>
  }
}
