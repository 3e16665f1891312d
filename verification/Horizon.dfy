/** The install backend over the console's services: what each hook does to the services and to the backend's own fields. */
module Horizon {
  import opened Bytes
  import opened InstallSpec
  import opened Services

  const MAX_REGISTERED: nat := 64

  /** The backend's fields, with the console they act on. */
  datatype Horizon = Horizon(
    console: Console,
    storageId: u8,
    placeholder: nat,
    contentId: bytes,
    writeOffset: u64,
    placeholderOpen: bool,
    registered: seq<bytes>,
    metaCommitted: bool,
    recordPushed: bool,
    saved: seq<Record>,
    savedValid: bool)

  function FreshBackend(console: Console, storageId: u8): Horizon {
    Horizon(console, storageId, 0, [], 0, false, [], false, false, [], false)
  }

  /** A number with one bit flipped. */
  function Flip(id: u64, bit: nat): u64
    requires bit == 0x800 || bit == 0x1000
  {
    if (id / bit) % 2 == 0 then id + bit else id - bit
  }

  /** The application a content meta belongs to. */
  function BaseApplicationId(id: u64, metaType: u8): u64 {
    if metaType == META_PATCH then Flip(id, 0x800)
    else if metaType == META_ADD_ON then Flip(id, 0x1000) / 0x1000 * 0x1000
    else id
  }

  function AppOf(meta: Meta): u64 {
    BaseApplicationId(meta.titleId, meta.metaType)
  }

  function KeyOf(meta: Meta): MetaKey {
    MetaKey(meta.titleId, meta.version, meta.metaType)
  }

  // ----- contents -----

  function ContentBegin(h: Horizon, id: bytes, size: u64): Reply<Horizon> {
    var named := h.(contentId := id, console := Called(h.console));
    if !Works(h.console, GeneratePlaceholder) then Reply(false, named)
    else
      var ph := h.console.out.placeholder(h.console.calls);
      var made := MakePlaceholder(DropPlaceholder(named.console, ph).user, ph, size);
      var t := named.(placeholder := ph, console := made.user);
      if made.ok then Reply(true, t.(writeOffset := 0, placeholderOpen := true)) else Reply(false, t)
  }

  function ContentWrite(h: Horizon, data: bytes): Reply<Horizon> {
    if !h.placeholderOpen then Reply(false, h)
    else
      var r := WriteAt(h.console, h.placeholder, h.writeOffset, data);
      if r.ok then Reply(true, h.(console := r.user, writeOffset := Advance(h.writeOffset, |data|)))
      else Reply(false, h.(console := r.user))
  }

  /** Registering refuses to overwrite, so a copy already there is deleted first. */
  function Cleared(h: Horizon): Console {
    var seen := Called(h.console);
    if Works(h.console, HasContent) && h.contentId in seen.contents then EraseContent(seen, h.contentId, false).user else seen
  }

  function ContentCommit(h: Horizon): Reply<Horizon> {
    if !h.placeholderOpen then Reply(false, h)
    else
      var r := StoreContent(Cleared(h), h.contentId, h.placeholder);
      var t := h.(console := r.user);
      if !r.ok then Reply(false, t)
      else
        Reply(true, t.(placeholderOpen := false,
                       registered := if |t.registered| < MAX_REGISTERED then t.registered + [t.contentId] else t.registered))
  }

  function ContentDiscard(h: Horizon): Horizon {
    if !h.placeholderOpen then h
    else h.(console := DropPlaceholder(h.console, h.placeholder).user, placeholderOpen := false)
  }

  function ReadCnmt(h: Horizon, id: bytes): ReadReply<Horizon> {
    var t := h.(console := Called(h.console));
    if !Works(h.console, ReadManifest) || id !in h.console.contents then ReadReply(false, [], t)
    else
      match h.console.out.manifestOf(h.console.contents[id])
      case None => ReadReply(false, [], t)
      case Some(data) => ReadReply(true, data, t)
  }

  function TicketImport(h: Horizon): Reply<Horizon> {
    Reply(Works(h.console, ImportTicket), h.(console := Called(h.console)))
  }

  // ----- the meta database and the application record -----

  function RegisterMeta(h: Horizon, meta: Meta): Reply<Horizon> {
    var staged := SetKey(h.console, KeyOf(meta), MetaRecord(meta.extHeader, meta.contents));
    if !staged.ok then Reply(false, h.(console := staged.user))
    else
      var r := Persist(staged.user, false);
      if r.ok then Reply(true, h.(console := r.user, metaCommitted := true)) else Reply(false, h.(console := r.user))
  }

  function NewRecord(h: Horizon, meta: Meta): Record {
    Record(KeyOf(meta), h.storageId)
  }

  function ReadSaved(h: Horizon, app: u64): Horizon {
    var (list, c) := ReadRecords(h.console, app, MAX_APP_RECORDS);
    h.(console := c, saved := list, savedValid := true)
  }

  /** Adds to what is attached to the application; what could not be pushed is put back. */
  function PushAppRecord(h: Horizon, meta: Meta): Reply<Horizon> {
    var app := AppOf(meta);
    var t := ReadSaved(h, app);
    var kept := Without(t.saved, meta.titleId, meta.metaType);
    if |kept| >= MAX_APP_RECORDS then Reply(false, t)
    else
      var dropped := DropRecord(t.console, app, false).user;
      var pushed := Push(dropped, app, kept + [NewRecord(h, meta)], false);
      if pushed.ok then Reply(true, t.(console := pushed.user, recordPushed := true))
      else Reply(false, t.(console := Push(pushed.user, app, t.saved, true).user))
  }

  // ----- undoing -----

  function DeleteAll(c: Console, ids: seq<bytes>): Console {
    if ids == [] then c else EraseContent(DeleteAll(c, ids[..|ids| - 1]), ids[|ids| - 1], true).user
  }

  function UndoRecord(h: Horizon, meta: Meta): Horizon {
    if !h.recordPushed then h
    else
      var dropped := DropRecord(h.console, AppOf(meta), true).user;
      var back := if h.savedValid then Push(dropped, AppOf(meta), h.saved, true).user else dropped;
      h.(console := back, recordPushed := false)
  }

  function UndoMeta(h: Horizon, meta: Meta): Horizon {
    if !h.metaCommitted then h
    else
      var r := RemoveKey(h.console, KeyOf(meta));
      h.(console := if r.ok then Persist(r.user, true).user else r.user, metaCommitted := false)
  }

  function Rollback(h: Horizon, meta: Meta): Horizon {
    var u := UndoMeta(UndoRecord(ContentDiscard(h), meta), meta);
    u.(console := DeleteAll(u.console, u.registered), registered := [])
  }

  /** The hook table. */
  function HorizonOps(): BackendOps<Horizon> {
    BackendOps(
      (h: Horizon, id, size) => ContentBegin(h, id, size),
      (h: Horizon, data) => ContentWrite(h, data),
      (h: Horizon) => ContentCommit(h),
      (h: Horizon) => ContentDiscard(h),
      (h: Horizon, id) => ReadCnmt(h, id),
      (h: Horizon, tik, cert) => TicketImport(h),
      (h: Horizon, m) => RegisterMeta(h, m),
      (h: Horizon, m) => PushAppRecord(h, m),
      (h: Horizon, m) => Rollback(h, m))
  }
}
