/** The responder object: its session fields, the handle table it keeps, and the loop of the data phase. */
module UploadServer {
  import opened Bytes
  import opened Upload
  import Db = ObjectDb

  lemma InStepIsOpen(s: Server)
    requires InStep(s)
    ensures Run(s.world.log).open.Some? == s.pendingSend
  {
    hide Run;
  }

  lemma HandleLeavesOpen(s: Server, c: Command)
    requires InStep(s) && CanFinish(s.world.stores)
    ensures var (t, r) := Handle(s, c); t.pendingSend ==> c.SendObjectInfo? && r == Done
  {
    hide Run, Receive, Db.Intern, Db.Invalidate;
  }

  class MtpServer {
    var sessionOpen: bool
    var sessionId: u32
    var pendingSend: bool
    var pendingStorage: u32
    var pendingSize: u32
    var pendingHandle: nat
    var objects: Db.Table
    var world: World

    function Abs(): Server
      reads this
    {
      Server(sessionOpen, sessionId, pendingSend, pendingStorage, pendingSize, pendingHandle, objects, world)
    }

    constructor (stores: map<u32, StoreOps>, works: nat -> bool)
      ensures Abs() == Start(stores, works)
    {
      sessionOpen, sessionId, pendingSend, pendingStorage, pendingSize, pendingHandle := false, 0, false, 0, 0, 0;
      objects, world := [], World(stores, [], works);
    }

    /** Drops the session. A write that was open is ended, not committed, and the order of write calls is kept. */
    method Reset()
      modifies this
      ensures Abs() == ResetSession(old(Abs()))
      ensures old(CanFinish(world.stores) && InStep(Abs())) ==> InStep(Abs()) && Run(world.log).open.None? && !sessionOpen
    {
      hide InStep, Run;
      ghost var s := Abs();
      if CanFinish(world.stores) && InStep(s) {
        ResetInStep(s);
        InStepIsOpen(ResetSession(s));
      }
      if pendingSend {
        world := EndWrite(world, pendingStorage, false);
      }
      sessionOpen, sessionId, pendingSend, pendingStorage, pendingSize, pendingHandle := false, 0, false, 0, 0, 0;
      objects := [];
    }

    /** Any operation but SendObject drops a pending upload. */
    method AbandonPending()
      modifies this
      ensures Abs() == Abandon(old(Abs()))
    {
      if pendingSend {
        world := EndWrite(world, pendingStorage, false);
        objects := Db.Invalidate(objects, pendingHandle);
        pendingSend := false;
      }
    }

    method Open(id: u32) returns (r: Response)
      modifies this
      ensures (Abs(), r) == Dispatch(old(Abs()), OpenSession(id))
    {
      if id == 0 {
        return InvalidParameter;
      }
      if sessionOpen {
        return SessionAlreadyOpen;
      }
      sessionOpen, sessionId, objects := true, id, [];
      return Done;
    }

    /** Announces a file: a write is open afterwards exactly when the answer is Done and it was a file. */
    method BeginUpload(storageId: u32, present: bool, info: Info, room: bool) returns (r: Response)
      modifies this
      ensures (Abs(), r) == HandleInfo(old(Abs()), storageId, present, info, room)
      ensures old(InStep(Abs())) && !old(pendingSend) && sessionOpen ==>
                InStep(Abs()) && (Run(world.log).open.Some? <==> r == Done && info.File?)
    {
      hide Db.Intern, Db.Invalidate, InStep, Run;
      ghost var s := Abs();
      if InStep(s) && !s.pendingSend && s.sessionOpen {
        InfoInStep(s, storageId, present, info, room);
        InStepIsOpen(HandleInfo(s, storageId, present, info, room).0);
      }
      if info.Unreadable? {
        return IncompleteTransfer;
      }
      if storageId !in world.stores {
        return InvalidStorageId;
      }
      if !present {
        return StoreNotAvailable;
      }
      if info.BadParent? {
        return InvalidParameter;
      }
      if !world.stores[storageId].canBegin {
        return StoreReadOnly;
      }
      match info
      case Folder(path, parent, made) =>
        if !world.stores[storageId].canMkdir {
          return NotSupported;
        }
        if !made {
          return GeneralError;
        }
        var (table, h) := Db.Intern(objects, storageId, parent, path, true, 0, room);
        objects := table;
        return if h == 0 then GeneralError else Done;
      case File(path, parent, declared) =>
        var (table, h) := Db.Intern(objects, storageId, parent, path, false, 0, room);
        objects := table;
        if h == 0 {
          return GeneralError;
        }
        var ok := Works(world);
        world := Logged(world, Began(storageId, declared, ok));
        if !ok {
          objects := Db.Invalidate(objects, h);
          return AccessDenied;
        }
        pendingSend, pendingStorage, pendingSize, pendingHandle := true, storageId, declared, h;
        return Done;
      case _ =>
        return InvalidDataset;
    }

    /** The data phase: every chunk goes to the store as it arrives. */
    method ReceiveStreamed(store: u32, usb: seq<Read>, mps: nat) returns (ok: bool, total: nat)
      modifies this`world
      ensures Received(ok, total, world) == Receive(old(world), store, usb, mps)
    {
      hide Deliver, RdLe;
      if usb == [] || !usb[0].ok {
        return false, 0;
      }
      var got := usb[0].data[..Min(|usb[0].data|, PAYLOAD_BUF_SIZE)];
      if |got| < HEADER_SIZE || RdU16(got, 4) != DATA_CONTAINER {
        return false, 0;
      }
      var first := got[HEADER_SIZE..];
      var delivered: nat := 0;
      if first != [] {
        var (after, taken) := Deliver(world, store, first);
        world := after;
        if !taken {
          return false, 0;
        }
        delivered := |first|;
      }
      var expected := Expected(got);
      var at := 1;
      assert usb[1..] == usb[at..];
      while expected.None? || delivered < expected.value
        invariant 1 <= at <= |usb|
        invariant Stream(world, store, usb[at..], delivered, expected, mps) == Receive(old(world), store, usb, mps)
        decreases |usb| - at
      {
        if at == |usb| || !usb[at].ok {
          return false, 0;
        }
        assert usb[at..][0] == usb[at] && usb[at..][1..] == usb[at + 1..];
        var want := if expected.Some? then Min(expected.value - delivered, PAYLOAD_BUF_SIZE) else PAYLOAD_BUF_SIZE;
        var chunk := usb[at].data[..Min(|usb[at].data|, want)];
        if chunk == [] {
          return true, delivered;
        }
        var (after, taken) := Deliver(world, store, chunk);
        world := after;
        if !taken {
          return false, 0;
        }
        delivered := delivered + |chunk|;
        if expected.None? && mps != 0 && |chunk| % mps != 0 {
          return true, delivered;
        }
        at := at + 1;
      }
      return true, delivered;
    }

    /** Takes the announced file: whatever happens the write is ended, and the handle only survives when it was whole. */
    method TakeUpload(usb: seq<Read>, mps: nat) returns (r: Response)
      modifies this
      ensures (Abs(), r) == HandleObject(old(Abs()), usb, mps)
      ensures old(CanFinish(world.stores) && InStep(Abs())) ==> InStep(Abs()) && Run(world.log).open.None?
      ensures old(CanFinish(world.stores) && InStep(Abs()) && pendingSend) && r != Done ==> !Db.Live(objects, pendingHandle)
    {
      hide Receive, EndWrite, Db.Invalidate, InStep, Run;
      ghost var s := Abs();
      if CanFinish(world.stores) && InStep(s) {
        ObjectInStep(s, usb, mps);
        InStepIsOpen(HandleObject(s, usb, mps).0);
      }
      if !pendingSend {
        return NoValidObjectInfo;
      }
      if pendingStorage !in world.stores || !world.stores[pendingStorage].canChunk {
        pendingSend := false;
        return StoreNotAvailable;
      }
      var ok, received := ReceiveStreamed(pendingStorage, usb, mps);
      var short := Short(pendingSize, received);
      world := EndWrite(world, pendingStorage, ok && !short);
      pendingSend := false;
      if !ok {
        objects := Db.Invalidate(objects, pendingHandle);
        return GeneralError;
      }
      if short {
        objects := Db.Invalidate(objects, pendingHandle);
        return IncompleteTransfer;
      }
      return Done;
    }

    /** One command: writes stay in order, and only an announced file leaves one open behind it. */
    method HandleCommand(c: Command) returns (r: Response)
      modifies this
      ensures (Abs(), r) == Handle(old(Abs()), c)
      ensures old(CanFinish(world.stores) && InStep(Abs())) ==>
                InStep(Abs()) && (Run(world.log).open.Some? ==> c.SendObjectInfo? && r == Done)
    {
      hide HandleInfo, HandleObject, ResetSession, Abandon, InStep, Run;
      ghost var s := Abs();
      if CanFinish(world.stores) && InStep(s) {
        HandleInStep(s, c);
        InStepIsOpen(Handle(s, c).0);
        HandleLeavesOpen(s, c);
      }
      if !sessionOpen && !c.GetDeviceInfo? && !c.OpenSession? {
        return SessionNotOpen;
      }
      if !c.SendObject? {
        AbandonPending();
      }
      match c
      case OpenSession(id) => r := Open(id);
      case CloseSession =>
        Reset();
        r := Done;
      case GetDeviceInfo => r := Done;
      case SendObjectInfo(storageId, present, info, room) => r := BeginUpload(storageId, present, info, room);
      case SendObject(usb, mps) => r := TakeUpload(usb, mps);
      case Other(table) =>
        objects := table;
        r := Done;
    }
  }
}
