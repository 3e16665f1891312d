/**
 * The upload handoff of the MTP responder: SendObjectInfo opens a write on a store, SendObject delivers the
 * bytes and closes it, and anything else in between abandons it.
 */
module Upload {
  import opened Bytes
  import Db = ObjectDb

  const HEADER_SIZE: nat := 12
  const DATA_CONTAINER: u16 := 2
  const PAYLOAD_BUF_SIZE: nat := 0x10_0000
  const UNKNOWN_SIZE: u32 := 0xFFFF_FFFF

  // ----- the stores and what they have been asked -----

  /** Which write operations a store has. */
  datatype StoreOps = StoreOps(canBegin: bool, canChunk: bool, canEnd: bool, canMkdir: bool)

  datatype Event =
    | Began(store: u32, declared: u32, ok: bool)
    | Wrote(store: u32, data: bytes, ok: bool)
    | Ended(store: u32, committed: bool)

  /** The registered stores, every write call so far, and whether the n-th of them works. */
  datatype World = World(stores: map<u32, StoreOps>, log: seq<Event>, works: nat -> bool)

  function Works(w: World): bool {
    w.works(|w.log|)
  }

  function Logged(w: World, e: Event): World {
    w.(log := w.log + [e])
  }

  // ----- the server -----

  datatype Server = Server(
    sessionOpen: bool,
    sessionId: u32,
    pendingSend: bool,
    pendingStorage: u32,
    pendingSize: u32,
    pendingHandle: nat,
    objects: Db.Table,
    world: World)

  datatype Response =
    | Done | SessionNotOpen | SessionAlreadyOpen | InvalidParameter | IncompleteTransfer | InvalidStorageId | StoreNotAvailable
    | StoreReadOnly | InvalidDataset | NotSupported | GeneralError | AccessDenied | NoValidObjectInfo | UsbFailed

  /** One transfer from the host. */
  datatype Read = Read(ok: bool, data: bytes)

  /** What a SendObjectInfo dataset comes to before any store is asked. */
  datatype Info =
    | Unreadable
    | BadParent
    | Malformed
    | Folder(path: bytes, parent: u32, made: bool)
    | File(path: bytes, parent: u32, declared: u32)

  datatype Command =
    | OpenSession(id: u32)
    | CloseSession
    | GetDeviceInfo
    | SendObjectInfo(storageId: u32, present: bool, info: Info, room: bool)
    | SendObject(usb: seq<Read>, mps: nat)
    | Other(objects: Db.Table)

  // ----- ending a pending upload -----

  function EndWrite(w: World, store: u32, committed: bool): World {
    if store in w.stores && w.stores[store].canEnd then Logged(w, Ended(store, committed)) else w
  }

  function Abandon(s: Server): Server {
    if !s.pendingSend then s
    else s.(world := EndWrite(s.world, s.pendingStorage, false), objects := Db.Invalidate(s.objects, s.pendingHandle), pendingSend := false)
  }

  function ResetSession(s: Server): Server {
    var w := if s.pendingSend then EndWrite(s.world, s.pendingStorage, false) else s.world;
    Server(false, 0, false, 0, 0, 0, [], w)
  }

  // ----- SendObjectInfo -----

  function HandleInfo(s: Server, storageId: u32, present: bool, info: Info, room: bool): (Server, Response) {
    if info.Unreadable? then (s, IncompleteTransfer)
    else if storageId !in s.world.stores then (s, InvalidStorageId)
    else if !present then (s, StoreNotAvailable)
    else if info.BadParent? then (s, InvalidParameter)
    else if !s.world.stores[storageId].canBegin then (s, StoreReadOnly)
    else
      match info
      case Malformed => (s, InvalidDataset)
      case Folder(path, parent, made) =>
        if !s.world.stores[storageId].canMkdir then (s, NotSupported)
        else if !made then (s, GeneralError)
        else
          var (objects, h) := Db.Intern(s.objects, storageId, parent, path, true, 0, room);
          (s.(objects := objects), if h == 0 then GeneralError else Done)
      case File(path, parent, declared) =>
        var (objects, h) := Db.Intern(s.objects, storageId, parent, path, false, 0, room);
        var t := s.(objects := objects);
        if h == 0 then (t, GeneralError)
        else
          var ok := Works(s.world);
          var u := t.(world := Logged(s.world, Began(storageId, declared, ok)));
          if !ok then (u.(objects := Db.Invalidate(objects, h)), AccessDenied)
          else (u.(pendingSend := true, pendingStorage := storageId, pendingSize := declared, pendingHandle := h), Done)
  }

  // ----- SendObject -----

  /** How a data phase ended: whether the transport and the sink worked, and what was delivered. */
  datatype Received = Received(ok: bool, total: nat, world: World)

  /** Hands a chunk to the store. */
  function Deliver(w: World, store: u32, data: bytes): (World, bool) {
    (Logged(w, Wrote(store, data, Works(w))), Works(w))
  }

  /** The loop of the data phase; `expected` is unknown when the container does not say. */
  function Stream(w: World, store: u32, usb: seq<Read>, delivered: nat, expected: Option<nat>, mps: nat): Received
    decreases |usb|
  {
    if expected.Some? && delivered >= expected.value then Received(true, delivered, w)
    else if usb == [] || !usb[0].ok then Received(false, 0, w)
    else
      var want := if expected.Some? then Min(expected.value - delivered, PAYLOAD_BUF_SIZE) else PAYLOAD_BUF_SIZE;
      var chunk := usb[0].data[..Min(|usb[0].data|, want)];
      if chunk == [] then Received(true, delivered, w)
      else
        var (after, ok) := Deliver(w, store, chunk);
        if !ok then Received(false, 0, after)
        else if expected.None? && mps != 0 && |chunk| % mps != 0 then Received(true, delivered + |chunk|, after)
        else Stream(after, store, usb[1..], delivered + |chunk|, expected, mps)
  }

  function Expected(header: bytes): Option<nat>
    requires |header| >= HEADER_SIZE
  {
    var length := RdU32(header, 0);
    if length != UNKNOWN_SIZE && length >= HEADER_SIZE then Some(length - HEADER_SIZE) else None
  }

  function Receive(w: World, store: u32, usb: seq<Read>, mps: nat): Received {
    if usb == [] || !usb[0].ok then Received(false, 0, w)
    else
      var got := usb[0].data[..Min(|usb[0].data|, PAYLOAD_BUF_SIZE)];
      if |got| < HEADER_SIZE || RdU16(got, 4) != DATA_CONTAINER then Received(false, 0, w)
      else
        var first := got[HEADER_SIZE..];
        if first == [] then Stream(w, store, usb[1..], 0, Expected(got), mps)
        else
          var (after, ok) := Deliver(w, store, first);
          if !ok then Received(false, 0, after) else Stream(after, store, usb[1..], |first|, Expected(got), mps)
  }

  function Short(declared: u32, received: nat): bool {
    declared != UNKNOWN_SIZE && received < declared
  }

  function HandleObject(s: Server, usb: seq<Read>, mps: nat): (Server, Response) {
    if !s.pendingSend then (s, NoValidObjectInfo)
    else if s.pendingStorage !in s.world.stores || !s.world.stores[s.pendingStorage].canChunk then
      (s.(pendingSend := false), StoreNotAvailable)
    else
      var r := Receive(s.world, s.pendingStorage, usb, mps);
      var short := Short(s.pendingSize, r.total);
      var t := s.(world := EndWrite(r.world, s.pendingStorage, r.ok && !short), pendingSend := false);
      if !r.ok then (t.(objects := Db.Invalidate(s.objects, s.pendingHandle)), GeneralError)
      else if short then (t.(objects := Db.Invalidate(s.objects, s.pendingHandle)), IncompleteTransfer)
      else (t, Done)
  }

  // ----- dispatch -----

  function Dispatch(s: Server, c: Command): (Server, Response) {
    match c
    case OpenSession(id) =>
      if id == 0 then (s, InvalidParameter)
      else if s.sessionOpen then (s, SessionAlreadyOpen)
      else (s.(sessionOpen := true, sessionId := id, objects := []), Done)
    case CloseSession => (ResetSession(s), Done)
    case GetDeviceInfo => (s, Done)
    case SendObjectInfo(storageId, present, info, room) => HandleInfo(s, storageId, present, info, room)
    case SendObject(usb, mps) => HandleObject(s, usb, mps)
    case Other(objects) => (s.(objects := objects), Done)
  }

  function Handle(s: Server, c: Command): (Server, Response) {
    if !s.sessionOpen && !c.GetDeviceInfo? && !c.OpenSession? then (s, SessionNotOpen)
    else Dispatch(if c.SendObject? then s else Abandon(s), c)
  }

  // ----- the order of write calls -----

  /** A write in progress: its store, the size announced, the bytes it has taken, and whether one was refused. */
  datatype Write = Write(store: u32, declared: u32, taken: bytes, failed: bool)

  datatype Order = Order(open: Option<Write>, legal: bool)

  /** What is in order: one write at a time, chunks and the end on its own store, committed only when complete. */
  predicate Allowed(open: Option<Write>, e: Event) {
    match e
    case Began(_, _, _) => open.None?
    case Wrote(store, _, _) => open.Some? && open.value.store == store
    case Ended(store, committed) =>
      open.Some? && open.value.store == store && (committed ==> !open.value.failed && !Short(open.value.declared, |open.value.taken|))
  }

  function Next(o: Order, e: Event): Order {
    var legal := o.legal && Allowed(o.open, e);
    match e
    case Began(store, declared, ok) => Order(if ok then Some(Write(store, declared, [], false)) else o.open, legal)
    case Wrote(_, data, ok) =>
      Order(if o.open.None? then None
            else if ok then Some(o.open.value.(taken := o.open.value.taken + data)) else Some(o.open.value.(failed := true)), legal)
    case Ended(_, _) => Order(None, legal)
  }

  function Run(log: seq<Event>): Order {
    if log == [] then Order(None, true) else Next(Run(log[..|log| - 1]), log[|log| - 1])
  }

  lemma RunStep(log: seq<Event>, e: Event)
    ensures Run(log + [e]) == Next(Run(log), e)
  {
    assert (log + [e])[..|log|] == log;
  }

  /** A store that can begin a write can also take its chunks and end it. */
  ghost predicate CanFinish(stores: map<u32, StoreOps>) {
    forall id :: id in stores && stores[id].canBegin ==> stores[id].canChunk && stores[id].canEnd
  }

  /** The server and the stores agree: a pending upload is the one open write, inside a session. */
  ghost predicate InStep(s: Server) {
    var o := Run(s.world.log);
    && o.legal
    && o.open.Some? == s.pendingSend
    && (s.pendingSend ==>
          && s.sessionOpen
          && s.pendingStorage in s.world.stores && s.world.stores[s.pendingStorage].canBegin
          && o.open.value == Write(s.pendingStorage, s.pendingSize, [], false))
  }

  lemma EndInStep(w: World, store: u32, committed: bool)
    requires store in w.stores && w.stores[store].canEnd
    requires var o := Run(w.log); o.legal && Allowed(o.open, Ended(store, committed))
    ensures var v := EndWrite(w, store, committed); Run(v.log) == Order(None, true) && v.stores == w.stores
  {
    hide Run;
    RunStep(w.log, Ended(store, committed));
  }

  lemma AbandonInStep(s: Server)
    requires InStep(s) && CanFinish(s.world.stores)
    ensures var t := Abandon(s); InStep(t) && !t.pendingSend && t.world.stores == s.world.stores && t.sessionOpen == s.sessionOpen
    ensures s.pendingSend ==> !Db.Live(Abandon(s).objects, s.pendingHandle)
  {
    hide Run;
    if s.pendingSend {
      EndInStep(s.world, s.pendingStorage, false);
    }
  }

  lemma ResetInStep(s: Server)
    requires InStep(s) && CanFinish(s.world.stores)
    ensures var t := ResetSession(s); InStep(t) && !t.pendingSend && !t.sessionOpen && t.world.stores == s.world.stores
  {
    hide Run;
    if s.pendingSend {
      EndInStep(s.world, s.pendingStorage, false);
    }
  }

  lemma InfoInStep(s: Server, storageId: u32, present: bool, info: Info, room: bool)
    requires InStep(s) && !s.pendingSend && s.sessionOpen
    ensures var t := HandleInfo(s, storageId, present, info, room).0; InStep(t) && t.world.stores == s.world.stores
  {
    hide Run, Db.Intern, Db.Invalidate;
    if info.File? {
      RunStep(s.world.log, Began(storageId, info.declared, Works(s.world)));
    }
  }

  /** While chunks are delivered the write stays open on its store and counts them. */
  ghost predicate Taking(w: World, store: u32, declared: u32, taken: bytes) {
    Run(w.log) == Order(Some(Write(store, declared, taken, false)), true)
  }

  ghost predicate TookChunks(w: World, store: u32, declared: u32, r: Received) {
    && r.world.stores == w.stores
    && (if r.ok then var o := Run(r.world.log); o.open.Some? && |o.open.value.taken| == r.total && Taking(r.world, store, declared, o.open.value.taken)
        else var o := Run(r.world.log); o.legal && o.open.Some? && o.open.value.store == store)
  }

  lemma DeliverTakes(w: World, store: u32, declared: u32, taken: bytes, data: bytes)
    requires Taking(w, store, declared, taken)
    ensures var (v, ok) := Deliver(w, store, data);
            && v.stores == w.stores
            && (if ok then Taking(v, store, declared, taken + data)
                else var o := Run(v.log); o.legal && o.open.Some? && o.open.value.store == store)
  {
    hide Run;
    RunStep(w.log, Wrote(store, data, Works(w)));
  }

  lemma {:induction false} StreamTakes(w: World, store: u32, declared: u32, taken: bytes, usb: seq<Read>,
                                       delivered: nat, expected: Option<nat>, mps: nat)
    requires Taking(w, store, declared, taken) && |taken| == delivered
    ensures TookChunks(w, store, declared, Stream(w, store, usb, delivered, expected, mps))
    decreases |usb|
  {
    hide Run, Deliver;
    if (expected.None? || delivered < expected.value) && usb != [] && usb[0].ok {
      var want := if expected.Some? then Min(expected.value - delivered, PAYLOAD_BUF_SIZE) else PAYLOAD_BUF_SIZE;
      var chunk := usb[0].data[..Min(|usb[0].data|, want)];
      if chunk != [] {
        DeliverTakes(w, store, declared, taken, chunk);
        var (after, ok) := Deliver(w, store, chunk);
        if ok {
          StreamTakes(after, store, declared, taken + chunk, usb[1..], delivered + |chunk|, expected, mps);
        }
      }
    }
  }

  lemma ReceiveTakes(w: World, store: u32, declared: u32, usb: seq<Read>, mps: nat)
    requires Taking(w, store, declared, [])
    ensures TookChunks(w, store, declared, Receive(w, store, usb, mps))
  {
    hide Run, Deliver, Stream, RdLe;
    if usb != [] && usb[0].ok {
      var got := usb[0].data[..Min(|usb[0].data|, PAYLOAD_BUF_SIZE)];
      if |got| >= HEADER_SIZE {
        var first := got[HEADER_SIZE..];
        DeliverTakes(w, store, declared, [], first);
        assert [] + first == first;
        var (after, ok) := Deliver(w, store, first);
        if first == [] {
          StreamTakes(w, store, declared, [], usb[1..], 0, Expected(got), mps);
        } else if ok {
          StreamTakes(after, store, declared, first, usb[1..], |first|, Expected(got), mps);
        }
      }
    }
  }

  lemma ObjectInStep(s: Server, usb: seq<Read>, mps: nat)
    requires InStep(s) && CanFinish(s.world.stores)
    ensures var t := HandleObject(s, usb, mps).0; InStep(t) && !t.pendingSend && t.world.stores == s.world.stores
    ensures s.pendingSend && HandleObject(s, usb, mps).1 != Done ==> !Db.Live(HandleObject(s, usb, mps).0.objects, s.pendingHandle)
  {
    hide Run, Receive, EndWrite;
    if s.pendingSend {
      ReceiveTakes(s.world, s.pendingStorage, s.pendingSize, usb, mps);
      var r := Receive(s.world, s.pendingStorage, usb, mps);
      EndInStep(r.world, s.pendingStorage, r.ok && !Short(s.pendingSize, r.total));
    }
  }

  lemma HandleInStep(s: Server, c: Command)
    requires InStep(s) && CanFinish(s.world.stores)
    ensures var t := Handle(s, c).0; InStep(t) && t.world.stores == s.world.stores
  {
    hide Run, HandleInfo, HandleObject, Abandon, ResetSession;
    AbandonInStep(s);
    var a := Abandon(s);
    match c
    case SendObjectInfo(storageId, present, info, room) =>
      if s.sessionOpen {
        InfoInStep(a, storageId, present, info, room);
      }
    case SendObject(usb, mps) => ObjectInStep(s, usb, mps);
    case CloseSession => ResetInStep(a);
    case _ =>
  }

  // ----- runs -----

  /** A command from the host, or the session being dropped when the cable goes. */
  datatype Step = Serve(command: Command) | Reset

  function Apply(s: Server, step: Step): Server {
    match step
    case Serve(c) => Handle(s, c).0
    case Reset => ResetSession(s)
  }

  function ApplyAll(s: Server, steps: seq<Step>): Server
    decreases |steps|
  {
    if steps == [] then s else ApplyAll(Apply(s, steps[0]), steps[1..])
  }

  function Start(stores: map<u32, StoreOps>, works: nat -> bool): Server {
    Server(false, 0, false, 0, 0, 0, [], World(stores, [], works))
  }

  lemma {:induction false} StepsInStep(s: Server, steps: seq<Step>)
    requires InStep(s) && CanFinish(s.world.stores)
    ensures InStep(ApplyAll(s, steps))
    decreases |steps|
  {
    hide InStep, Handle, ResetSession;
    if steps != [] {
      match steps[0]
      case Serve(c) => HandleInStep(s, c); StepsInStep(Handle(s, c).0, steps[1..]);
      case Reset => ResetInStep(s); StepsInStep(ResetSession(s), steps[1..]);
    }
  }

  /**
   * Over every run of commands and session resets, whatever the host sends and whatever fails: no write is
   * begun while another is open, every write begun is ended once and on its own store, an upload is pending
   * exactly while a write is open and only in a session, and a write is committed only when no chunk was
   * refused and the announced size arrived. This holds for a set of stores if and only if each one that can
   * begin a write can also take its chunks and end it.
   */
  lemma EveryUploadIsEnded(stores: map<u32, StoreOps>)
    ensures (forall works: nat -> bool, steps: seq<Step> :: InStep(ApplyAll(Start(stores, works), steps))) <==> CanFinish(stores)
  {
    hide ApplyAll, InStep;
    if CanFinish(stores) {
      forall works: nat -> bool, steps: seq<Step>
        ensures InStep(ApplyAll(Start(stores, works), steps))
      {
        StartInStep(stores, works);
        StepsInStep(Start(stores, works), steps);
      }
    } else {
      var id :| id in stores && stores[id].canBegin && !(stores[id].canChunk && stores[id].canEnd);
      HalfAStoreLeaks(stores, id, n => true);
    }
  }

  lemma StartInStep(stores: map<u32, StoreOps>, works: nat -> bool)
    ensures InStep(Start(stores, works))
  {
  }

  /** Opening a session and announcing a file begins a write. */
  lemma FileIsAnnounced(stores: map<u32, StoreOps>, id: u32, works: nat -> bool)
    requires id in stores && stores[id].canBegin && works(0)
    ensures var s := Handle(Handle(Start(stores, works), OpenSession(1)).0, SendObjectInfo(id, true, File([0x61], 0, 0), true)).0;
            s.sessionOpen && s.pendingSend && s.pendingStorage == id && s.world == World(stores, [Began(id, 0, true)], works)
  {
    hide Db.Intern;
    var s := Handle(Start(stores, works), OpenSession(1)).0;
    FirstHandle(id);
    assert s.world.log + [Began(id, 0, true)] == [Began(id, 0, true)];
  }

  /** What drops the upload without ending the write: SendObject when the store takes no chunks, else a session reset. */
  function LeakingStep(store: StoreOps): Step {
    if store.canChunk then Reset else Serve(SendObject([], 0))
  }

  /** A store that can begin a write but not finish it leaves the write open behind a run of three steps. */
  lemma HalfAStoreLeaks(stores: map<u32, StoreOps>, id: u32, works: nat -> bool)
    requires id in stores && stores[id].canBegin && !(stores[id].canChunk && stores[id].canEnd) && works(0)
    ensures var steps := [Serve(OpenSession(1)), Serve(SendObjectInfo(id, true, File([0x61], 0, 0), true)), LeakingStep(stores[id])];
            var t := ApplyAll(Start(stores, works), steps);
            !t.pendingSend && t.world.log == [Began(id, 0, true)] && !InStep(t)
  {
    hide Handle;
    var info := SendObjectInfo(id, true, File([0x61], 0, 0), true);
    var steps := [Serve(OpenSession(1)), Serve(info), LeakingStep(stores[id])];
    var s0 := Start(stores, works);
    var s1 := Handle(s0, OpenSession(1)).0;
    var s2 := Handle(s1, info).0;
    FileIsAnnounced(stores, id, works);
    var s3 := Apply(s2, LeakingStep(stores[id]));
    LeaksNow(s2);
    assert steps[1..] == [Serve(info), LeakingStep(stores[id])] && steps[1..][1..] == [LeakingStep(stores[id])] && steps[1..][1..][1..] == [];
    assert ApplyAll(s0, steps) == ApplyAll(s1, steps[1..]) == ApplyAll(s2, steps[1..][1..]) == ApplyAll(s3, []);
  }

  lemma LeaksNow(s: Server)
    requires s.sessionOpen && s.pendingSend && s.pendingStorage in s.world.stores && s.world.log == [Began(s.pendingStorage, 0, true)]
    requires var store := s.world.stores[s.pendingStorage]; !(store.canChunk && store.canEnd)
    ensures var t := Apply(s, LeakingStep(s.world.stores[s.pendingStorage]));
            !t.pendingSend && t.world.log == s.world.log && !InStep(t)
  {
    RunStep([], Began(s.pendingStorage, 0, true));
    assert [] + [Began(s.pendingStorage, 0, true)] == [Began(s.pendingStorage, 0, true)];
  }

  lemma FirstHandle(id: u32)
    ensures Db.Intern([], id, 0, [0x61], false, 0, true).1 == 1
  {
  }
}
