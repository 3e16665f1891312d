/** The backend object behind the hooks, with its arrays of remembered contents and records. */
module HorizonBackend {
  import opened Bytes
  import opened InstallSpec
  import opened Services
  import opened Horizon
  import opened HorizonSafety

  class Backend {
    const sys: System
    const storageId: u8
    const registered: array<bytes>
    const saved: array<Record>
    var placeholder: nat
    var contentId: bytes
    var writeOffset: u64
    var placeholderOpen: bool
    var registeredCount: nat
    var metaCommitted: bool
    var recordPushed: bool
    var savedCount: nat
    var savedValid: bool

    ghost predicate Shaped()
      reads this
    {
      && registered.Length == MAX_REGISTERED && saved.Length == MAX_APP_RECORDS
      && registeredCount <= MAX_REGISTERED && savedCount <= MAX_APP_RECORDS
    }

    ghost function Abs(): Horizon
      requires Shaped()
      reads this, sys, registered, saved
    {
      Horizon(sys.console, storageId, placeholder, contentId, writeOffset, placeholderOpen, registered[..registeredCount],
              metaCommitted, recordPushed, saved[..savedCount], savedValid)
    }

    constructor (sys: System, storageId: u8)
      ensures Shaped() && this.sys == sys && fresh(registered) && fresh(saved)
      ensures Abs() == FreshBackend(sys.console, storageId)
    {
      this.sys, this.storageId := sys, storageId;
      registered := new bytes[MAX_REGISTERED];
      saved := new Record[MAX_APP_RECORDS];
      placeholder, contentId, writeOffset, placeholderOpen := 0, [], 0, false;
      registeredCount, metaCommitted, recordPushed, savedCount, savedValid := 0, false, false, 0, false;
    }

    /** Opens an empty placeholder of the declared size. An install that could be undone still can. */
    method Begin(id: bytes, size: u64) returns (ok: bool)
      requires Shaped()
      modifies this, sys
      ensures Shaped() && Reply(ok, Abs()) == ContentBegin(old(Abs()), id, size)
      ensures ok ==> Holds(Abs(), [], size) && Abs().contentId == id
      ensures forall before :: Undoable(before, old(Abs())) && id !in before.contents ==> Undoable(before, Abs())
    {
      hide Undoable, Holds;
      ghost var h := Abs();
      forall before | Undoable(before, h) && id !in before.contents
        ensures Undoable(before, ContentBegin(h, id, size).user)
      {
        BeginKeeps(before, h, id, size);
      }
      if ContentBegin(h, id, size).ok {
        BeginHolds(h, id, size);
      }
      contentId := id;
      var c := sys.console;
      sys.console := Called(c);
      if !Works(c, GeneratePlaceholder) {
        return false;
      }
      placeholder := c.out.placeholder(c.calls);
      sys.console := DropPlaceholder(sys.console, placeholder).user;
      var made := MakePlaceholder(sys.console, placeholder, size);
      sys.console := made.user;
      if !made.ok {
        return false;
      }
      writeOffset := 0;
      placeholderOpen := true;
      return true;
    }

    /** Appends to what the placeholder holds. An install that could be undone still can. */
    method Write(data: bytes) returns (ok: bool)
      requires Shaped()
      modifies this, sys
      ensures Shaped() && Reply(ok, Abs()) == ContentWrite(old(Abs()), data)
      ensures forall so, size :: ok && Holds(old(Abs()), so, size) ==> Holds(Abs(), so + data, size)
      ensures forall before :: Undoable(before, old(Abs())) ==> Undoable(before, Abs())
    {
      hide Undoable, Holds;
      ghost var h := Abs();
      forall before | Undoable(before, h)
        ensures Undoable(before, ContentWrite(h, data).user)
      {
        WriteKeeps(before, h, data);
      }
      forall so, size | ContentWrite(h, data).ok && Holds(h, so, size)
        ensures Holds(ContentWrite(h, data).user, so + data, size)
      {
        WriteArrives(h, so, size, data);
      }
      if !placeholderOpen {
        return false;
      }
      var r := WriteAt(sys.console, placeholder, writeOffset, data);
      sys.console := r.user;
      if !r.ok {
        return false;
      }
      writeOffset := Advance(writeOffset, |data|);
      return true;
    }

    method Commit() returns (ok: bool)
      requires Shaped()
      modifies this, sys, registered
      ensures Shaped() && Reply(ok, Abs()) == ContentCommit(old(Abs()))
    {
      hide EraseContent, StoreContent, Works, Called;
      if !placeholderOpen {
        return false;
      }
      var c := sys.console;
      sys.console := Called(c);
      if Works(c, HasContent) && contentId in sys.console.contents {
        sys.console := EraseContent(sys.console, contentId, false).user;
      }
      var r := StoreContent(sys.console, contentId, placeholder);
      sys.console := r.user;
      if !r.ok {
        return false;
      }
      ghost var before := registered[..registeredCount];
      if registeredCount < MAX_REGISTERED {
        registered[registeredCount] := contentId;
        registeredCount := registeredCount + 1;
        assert registered[..registeredCount] == before + [contentId];
      }
      placeholderOpen := false;
      return true;
    }

    method Discard()
      requires Shaped()
      modifies this, sys
      ensures Shaped() && Abs() == ContentDiscard(old(Abs()))
    {
      if placeholderOpen {
        sys.console := DropPlaceholder(sys.console, placeholder).user;
        placeholderOpen := false;
      }
    }

    /** Registers a title version. When it is new, rolling back with the same record still restores everything. */
    method CommitMeta(meta: Meta) returns (ok: bool)
      requires Shaped()
      modifies this, sys
      ensures Shaped() && Reply(ok, Abs()) == RegisterMeta(old(Abs()), meta)
      ensures forall before :: Undoable(before, old(Abs())) && KeyOf(meta) !in before.persisted ==> UndoableAs(before, Abs(), meta)
      ensures ok ==> KeyOf(meta) in sys.console.persisted && sys.console.persisted[KeyOf(meta)] == MetaRecord(meta.extHeader, meta.contents)
    {
      hide Undoable, UndoableAs, KeyOf;
      ghost var h := Abs();
      forall before | Undoable(before, h) && KeyOf(meta) !in before.persisted
        ensures UndoableAs(before, RegisterMeta(h, meta).user, meta)
      {
        RegisterKeeps(before, h, meta);
      }
      var staged := SetKey(sys.console, KeyOf(meta), MetaRecord(meta.extHeader, meta.contents));
      sys.console := staged.user;
      if !staged.ok {
        return false;
      }
      var r := Persist(sys.console, false);
      sys.console := r.user;
      if !r.ok {
        return false;
      }
      metaCommitted := true;
      return true;
    }

    /** The union of what was attached and the new record. False when it would not fit. */
    method Merge(meta: Meta, merged: array<Record>) returns (ok: bool, count: nat)
      requires Shaped() && merged.Length == MAX_APP_RECORDS && merged != saved
      modifies merged
      ensures var kept := Without(saved[..savedCount], meta.titleId, meta.metaType);
              && (ok <==> |kept| < MAX_APP_RECORDS)
              && (ok ==> count <= MAX_APP_RECORDS && merged[..count] == kept + [Record(KeyOf(meta), storageId)])
    {
      hide Same;
      count := 0;
      ghost var list := saved[..savedCount];
      var i := 0;
      while i < savedCount
        invariant i <= savedCount && count <= i && count < MAX_APP_RECORDS
        invariant saved[..savedCount] == list && merged[..count] == Without(list[..i], meta.titleId, meta.metaType)
      {
        assert list[..i + 1][..i] == list[..i];
        if !Same(saved[i], meta.titleId, meta.metaType) {
          if count >= MAX_APP_RECORDS - 1 {
            WithoutGrows(list, i + 1, meta.titleId, meta.metaType);
            return false, count;
          }
          merged[count] := saved[i];
          count := count + 1;
        }
        i := i + 1;
      }
      assert list[..savedCount] == list;
      merged[count] := Record(KeyOf(meta), storageId);
      count := count + 1;
      return true, count;
    }

    method AddRecord(meta: Meta) returns (ok: bool)
      requires Shaped()
      modifies this, sys, saved
      ensures Shaped() && Reply(ok, Abs()) == PushAppRecord(old(Abs()), meta)
    {
      hide ReadRecords, Without, Push, DropRecord, AppOf;
      var app := AppOf(meta);
      savedCount := sys.ReadApplicationRecords(app, saved, MAX_APP_RECORDS);
      savedValid := true;
      var merged := new Record[MAX_APP_RECORDS];
      var fits, count := Merge(meta, merged);
      if !fits {
        return false;
      }
      sys.console := DropRecord(sys.console, app, false).user;
      var pushed := Push(sys.console, app, merged[..count], false);
      sys.console := pushed.user;
      if !pushed.ok {
        sys.console := Push(sys.console, app, saved[..savedCount], true).user;
        return false;
      }
      recordPushed := true;
      return true;
    }

    method RestoreRecord(meta: Meta)
      requires Shaped()
      modifies this, sys
      ensures Shaped() && Abs() == UndoRecord(old(Abs()), meta)
    {
      if recordPushed {
        sys.console := DropRecord(sys.console, AppOf(meta), true).user;
        if savedValid && savedCount > 0 {
          sys.console := Push(sys.console, AppOf(meta), saved[..savedCount], true).user;
        }
        recordPushed := false;
      }
    }

    method RemoveMeta(meta: Meta)
      requires Shaped()
      modifies this, sys
      ensures Shaped() && Abs() == UndoMeta(old(Abs()), meta)
    {
      if metaCommitted {
        var r := RemoveKey(sys.console, KeyOf(meta));
        sys.console := r.user;
        if r.ok {
          sys.console := Persist(sys.console, true).user;
        }
        metaCommitted := false;
      }
    }

    /** Rolls back: from every state an install of this record can be in, the console is as it was. */
    method Undo(meta: Meta)
      requires Shaped()
      modifies this, sys
      ensures Shaped() && Abs() == Rollback(old(Abs()), meta)
      ensures forall before :: UndoableAs(before, old(Abs()), meta) && CleanUpWorks(before.out) && NoEmptyRecord(before)
                               ==> Restored(before, sys.console)
    {
      hide ContentDiscard, UndoRecord, UndoMeta, DeleteAll, UndoableAs, CleanUpWorks, NoEmptyRecord, Restored;
      ghost var h := Abs();
      forall before | UndoableAs(before, h, meta) && CleanUpWorks(before.out) && NoEmptyRecord(before)
        ensures Restored(before, Rollback(h, meta).console)
      {
        RollbackRestoresAs(before, h, meta);
      }
      Discard();
      RestoreRecord(meta);
      RemoveMeta(meta);
      DeleteRegistered();
    }

    method DeleteRegistered()
      requires Shaped()
      modifies this`registeredCount, sys
      ensures Shaped()
      ensures var u := old(Abs()); Abs() == u.(console := DeleteAll(u.console, u.registered), registered := [])
    {
      hide EraseContent, DeleteAll;
      ghost var u := Abs();
      var i := 0;
      DeleteNone(u.console, u.registered);
      while i < registeredCount
        invariant i <= registeredCount == |u.registered| && Shaped()
        invariant Abs() == u.(console := DeleteAll(u.console, u.registered[..i]))
      {
        DeleteNext(u.console, u.registered, i);
        assert registered[i] == u.registered[i];
        sys.console := EraseContent(sys.console, registered[i], true).user;
        i := i + 1;
      }
      assert u.registered[..i] == u.registered;
      registeredCount := 0;
      assert registered[..0] == [];
    }
  }

  lemma DeleteNone(c: Console, ids: seq<bytes>)
    ensures DeleteAll(c, ids[..0]) == c
  {
  }

  lemma DeleteNext(c: Console, ids: seq<bytes>, i: nat)
    requires i < |ids|
    ensures DeleteAll(c, ids[..i + 1]) == EraseContent(DeleteAll(c, ids[..i]), ids[i], true).user
  {
    hide EraseContent;
    assert ids[..i + 1][..i] == ids[..i];
  }

  lemma {:induction false} WithoutGrows(list: seq<Record>, i: nat, id: u64, metaType: u8)
    requires i <= |list|
    ensures |Without(list[..i], id, metaType)| <= |Without(list, id, metaType)|
    decreases |list|
  {
    if i < |list| {
      assert list[..|list| - 1][..i] == list[..i];
      WithoutGrows(list[..|list| - 1], i, id, metaType);
    } else {
      assert list[..i] == list;
    }
  }
}
