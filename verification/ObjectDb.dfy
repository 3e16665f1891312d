/** The handle table of the MTP responder: stable handles for (storage, path) pairs. */
module ObjectDb {
  import opened Bytes

  const PATH_MAX: nat := 0x301
  const INITIAL_CAPACITY: nat := 256
  const SLASH: byte := 0x2F

  datatype Object = Object(handle: nat, storageId: u32, parent: u32, path: bytes, isDir: bool, size: int, valid: bool)

  type Table = seq<Object>

  // ----- the operations on the used part of the table -----

  predicate Matches(o: Object, storageId: u32, path: bytes) {
    o.valid && o.storageId == storageId && o.path == path
  }

  /** The handle of the first valid entry for the pair, or 0. */
  function Find(t: Table, storageId: u32, path: bytes): nat {
    if t == [] then 0
    else
      var h := Find(t[..|t| - 1], storageId, path);
      if h != 0 then h else if Matches(t[|t| - 1], storageId, path) then t[|t| - 1].handle else 0
  }

  /** The table after a path is interned, and the handle it has; 0 when the path is unusable or there is no room. */
  function Intern(t: Table, storageId: u32, parent: u32, path: bytes, isDir: bool, size: int, room: bool): (Table, nat) {
    if path == [] || |path| >= PATH_MAX then (t, 0)
    else
      var h := Find(t, storageId, path);
      var shown := if isDir then 0 else size;
      if 0 < h <= |t| then (t[h - 1 := t[h - 1].(isDir := isDir, size := shown, parent := parent)], h)
      else if !room then (t, 0)
      else (t + [Object(|t| + 1, storageId, parent, path, isDir, shown, true)], |t| + 1)
  }

  predicate Live(t: Table, h: nat) {
    0 < h <= |t| && t[h - 1].valid
  }

  function Invalidate(t: Table, h: nat): (r: Table)
    ensures |r| == |t|
  {
    if Live(t, h) then t[h - 1 := t[h - 1].(valid := false)] else t
  }

  /** Every entry for which `p` holds is marked invalid. */
  function Drop(t: Table, p: Object -> bool): (r: Table)
    ensures |r| == |t|
  {
    if t == [] then []
    else
      var last := t[|t| - 1];
      Drop(t[..|t| - 1], p) + [if last.valid && p(last) then last.(valid := false) else last]
  }

  function ClearStorage(t: Table, storageId: u32): Table {
    Drop(t, (o: Object) => o.storageId == storageId)
  }

  /** `path` lies below the directory `dir`. */
  predicate Below(path: bytes, dir: bytes) {
    |path| > |dir| && path[..|dir|] == dir && path[|dir|] == SLASH
  }

  predicate Descends(o: Object, e: Object) {
    o.handle != e.handle && o.storageId == e.storageId && Below(o.path, e.path)
  }

  /** Repoints a handle; what lay below a renamed directory is dropped. */
  function Rename(t: Table, h: nat, newPath: bytes): (Table, bool) {
    if |newPath| >= PATH_MAX || !Live(t, h) then (t, false)
    else
      var e := t[h - 1];
      var kept := if e.isDir then Drop(t, (o: Object) => Descends(o, e)) else t;
      (kept[h - 1 := kept[h - 1].(path := newPath)], true)
  }

  function LiveCount(t: Table): nat {
    if t == [] then 0 else LiveCount(t[..|t| - 1]) + (if t[|t| - 1].valid then 1 else 0)
  }

  // ----- what the table is: a bijection between live handles and pairs -----

  ghost predicate Numbered(t: Table) {
    forall i :: 0 <= i < |t| ==> t[i].handle == i + 1
  }

  ghost predicate Injective(t: Table) {
    forall i, j :: 0 <= i < j < |t| && t[i].valid && t[j].valid ==> t[i].storageId != t[j].storageId || t[i].path != t[j].path
  }

  /** Finding succeeds exactly for live pairs, and names an entry that has the pair. */
  lemma {:induction false} FindIsExact(t: Table, storageId: u32, path: bytes)
    requires Numbered(t)
    ensures var h := Find(t, storageId, path);
            && h <= |t|
            && (h != 0 ==> Matches(t[h - 1], storageId, path))
            && (h == 0 ==> forall i :: 0 <= i < |t| ==> !Matches(t[i], storageId, path))
    decreases |t|
  {
    hide Matches;
    if t != [] {
      var rest := t[..|t| - 1];
      FindIsExact(rest, storageId, path);
      var h := Find(rest, storageId, path);
      if h != 0 {
        assert rest[h - 1] == t[h - 1];
      } else {
        forall i | 0 <= i < |t| - 1
          ensures !Matches(t[i], storageId, path)
        {
          assert rest[i] == t[i];
        }
      }
    }
  }

  /** A handle is found for a pair exactly when it is live and has that pair. */
  lemma FindInvertsGet(t: Table, storageId: u32, path: bytes, h: nat)
    requires Numbered(t) && Injective(t) && h > 0
    ensures Find(t, storageId, path) == h <==> Live(t, h) && t[h - 1].storageId == storageId && t[h - 1].path == path
  {
    FindIsExact(t, storageId, path);
    var found := Find(t, storageId, path);
    if 0 < h <= |t| && Matches(t[h - 1], storageId, path) {
      OnePair(t, found - 1, h - 1, storageId, path);
    }
  }

  lemma OnePair(t: Table, i: nat, j: nat, storageId: u32, path: bytes)
    requires Injective(t) && i < |t| && j < |t| && Matches(t[i], storageId, path) && Matches(t[j], storageId, path)
    ensures i == j
  {
  }

  lemma {:induction false} DropIsExact(t: Table, p: Object -> bool)
    ensures forall i :: 0 <= i < |t| ==> Drop(t, p)[i] == if t[i].valid && p(t[i]) then t[i].(valid := false) else t[i]
    decreases |t|
  {
    if t != [] {
      DropIsExact(t[..|t| - 1], p);
    }
  }

  /** Interning keeps the bijection, leaves every other entry alone, and afterwards the pair has exactly that handle. */
  lemma InternKeeps(t: Table, storageId: u32, parent: u32, path: bytes, isDir: bool, size: int, room: bool)
    requires Numbered(t) && Injective(t)
    ensures var (u, h) := Intern(t, storageId, parent, path, isDir, size, room);
            && Numbered(u) && Injective(u) && |t| <= |u| <= |t| + 1
            && (h == 0 ==> u == t)
            && (h != 0 ==> Find(u, storageId, path) == h)
            && (forall i :: 0 <= i < |t| && i != h - 1 ==> u[i] == t[i])
            && (0 < h <= |t| ==> Live(t, h))
            && (h != 0 ==> u[h - 1] == Object(h, storageId, parent, path, isDir, if isDir then 0 else size, true))
  {
    FindIsExact(t, storageId, path);
    var (u, h) := Intern(t, storageId, parent, path, isDir, size, room);
    if h != 0 {
      assert Matches(u[h - 1], storageId, path);
      if h == |t| + 1 {
        forall i | 0 <= i < |t| && u[i].valid
          ensures u[i].storageId != storageId || u[i].path != path
        {
          assert !Matches(t[i], storageId, path);
        }
      }
      assert Injective(u);
      FindInvertsGet(u, storageId, path, h);
    }
  }

  /** Interning again returns the same handle and adds nothing. */
  lemma InternIsIdempotent(t: Table, storageId: u32, parent: u32, path: bytes, isDir: bool, size: int, room: bool,
                           parent2: u32, isDir2: bool, size2: int, room2: bool)
    requires Numbered(t) && Injective(t)
    ensures var (u, h) := Intern(t, storageId, parent, path, isDir, size, room);
            var (v, k) := Intern(u, storageId, parent2, path, isDir2, size2, room2);
            h != 0 ==> k == h && |v| == |u| && LiveCount(v) == LiveCount(u)
  {
    hide LiveCount, Find, Live;
    InternKeeps(t, storageId, parent, path, isDir, size, room);
    var (u, h) := Intern(t, storageId, parent, path, isDir, size, room);
    if h != 0 {
      FindIsExact(u, storageId, path);
      var shown := if isDir2 then 0 else size2;
      LiveCountUpdate(u, h - 1, u[h - 1].(isDir := isDir2, size := shown, parent := parent2));
    }
  }

  lemma {:induction false} LiveCountUpdate(t: Table, i: nat, o: Object)
    requires i < |t|
    ensures LiveCount(t[i := o]) == LiveCount(t) - (if t[i].valid then 1 else 0) + (if o.valid then 1 else 0)
    decreases |t|
  {
    var n := |t| - 1;
    if i == n {
      assert t[i := o][..n] == t[..n];
    } else {
      LiveCountUpdate(t[..n], i, o);
      assert t[i := o][..n] == t[..n][i := o];
    }
  }

  // ----- renaming -----

  lemma RenameSteps(t: Table, h: nat, newPath: bytes)
    requires Numbered(t) && Live(t, h) && |newPath| < PATH_MAX
    ensures var (u, ok) := Rename(t, h, newPath);
            && ok && |u| == |t| && Numbered(u)
            && u[h - 1] == t[h - 1].(path := newPath)
            && forall i :: 0 <= i < |t| && i != h - 1 ==>
                 u[i] == t[i].(valid := t[i].valid && !(t[h - 1].isDir && Descends(t[i], t[h - 1])))
  {
    hide Descends;
    var e := t[h - 1];
    DropIsExact(t, (o: Object) => Descends(o, e));
    assert !Descends(e, e) by { NotItself(e); }
  }

  /** The path is the directory's, a slash, and something behind it. */
  ghost predicate LiesIn(path: bytes, dir: bytes) {
    exists rest: bytes :: path == dir + [0x2F] + rest
  }

  lemma BelowIsIn(path: bytes, dir: bytes)
    ensures Below(path, dir) <==> LiesIn(path, dir)
  {
    if Below(path, dir) {
      assert path == dir + [0x2F] + path[|dir| + 1..];
    }
    if LiesIn(path, dir) {
      var rest: bytes :| path == dir + [0x2F] + rest;
    }
  }

  /**
   * What a rename does, entry by entry: its own handle keeps living under the new path, and of a directory exactly the
   * entries of its store die whose paths are the directory's with a slash and more behind it.
   */
  lemma RenameIsExact(t: Table, h: nat, newPath: bytes)
    requires Numbered(t) && Live(t, h) && |newPath| < 0x301
    ensures var (u, ok) := Rename(t, h, newPath);
            && ok && |u| == |t| && u[h - 1] == t[h - 1].(path := newPath)
            && forall i :: 0 <= i < |t| && i != h - 1 ==>
                 u[i] == t[i].(valid := t[i].valid && !(t[h - 1].isDir && t[i].storageId == t[h - 1].storageId && LiesIn(t[i].path, t[h - 1].path)))
  {
    hide Below, LiesIn, Rename;
    RenameSteps(t, h, newPath);
    forall i | 0 <= i < |t| && i != h - 1
      ensures Descends(t[i], t[h - 1]) <==> t[i].storageId == t[h - 1].storageId && LiesIn(t[i].path, t[h - 1].path)
    {
      BelowIsIn(t[i].path, t[h - 1].path);
    }
  }

  lemma NotItself(e: Object)
    ensures !Descends(e, e)
  {
  }

  /** The destination is taken: another entry of the same store lives there and will not be dropped. */
  ghost predicate Taken(t: Table, h: nat, newPath: bytes)
    requires Live(t, h)
  {
    exists i :: 0 <= i < |t| && i != h - 1 && Matches(t[i], t[h - 1].storageId, newPath) && !(t[h - 1].isDir && Descends(t[i], t[h - 1]))
  }

  /** A rename keeps the bijection exactly when its destination is not taken. */
  lemma RenameKeepsIffFree(t: Table, h: nat, newPath: bytes)
    requires Numbered(t) && Injective(t) && Live(t, h) && |newPath| < PATH_MAX
    ensures Injective(Rename(t, h, newPath).0) <==> !Taken(t, h, newPath)
  {
    hide Descends, Rename;
    RenameSteps(t, h, newPath);
    var u := Rename(t, h, newPath).0;
    if Taken(t, h, newPath) {
      var i :| 0 <= i < |t| && i != h - 1 && Matches(t[i], t[h - 1].storageId, newPath) && !(t[h - 1].isDir && Descends(t[i], t[h - 1]));
      assert u[i] == t[i] && u[i].valid && u[h - 1].valid;
      assert u[i].storageId == u[h - 1].storageId && u[i].path == u[h - 1].path;
    } else {
      forall i, j | 0 <= i < j < |u| && u[i].valid && u[j].valid
        ensures u[i].storageId != u[j].storageId || u[i].path != u[j].path
      {
        if i == h - 1 {
          NotTaken(t, h, newPath, j);
        } else if j == h - 1 {
          NotTaken(t, h, newPath, i);
        }
      }
    }
  }

  /**
   * The failing input: two files in one store, the first renamed to where the second is. Both handles stay live
   * with the same path, and looking the path up finds the first; the second can no longer be found.
   */
  lemma RenameOntoAnotherClashes(storageId: u32, parent: u32)
    ensures var a, b := [SLASH, 0x61], [SLASH, 0x62];
            var t := Intern(Intern([], storageId, parent, a, false, 0, true).0, storageId, parent, b, false, 0, true).0;
            var (u, ok) := Rename(t, 1, b);
            && Numbered(t) && Injective(t) && Find(t, storageId, b) == 2
            && ok && !Injective(u) && Live(u, 1) && Live(u, 2) && Find(u, storageId, b) == 1
  {
    var a, b := [SLASH, 0x61], [SLASH, 0x62];
    var first, second := Object(1, storageId, parent, a, false, 0, true), Object(2, storageId, parent, b, false, 0, true);
    var moved := first.(path := b);
    assert a[1] != b[1];
    FindInTwo(first, second, storageId, a);
    FindInTwo(first, second, storageId, b);
    FindInTwo(moved, second, storageId, b);
    assert Intern([], storageId, parent, a, false, 0, true) == ([] + [first], 1);
    assert [] + [first] == [first];
    assert Intern([first], storageId, parent, b, false, 0, true) == ([first] + [second], 2);
    var t := [first, second];
    assert [first] + [second] == t;
    assert Rename(t, 1, b) == (t[0 := moved], true);
    var u := [moved, second];
    assert t[0 := moved] == u;
    assert u[0].valid && u[1].valid && u[0].path == u[1].path;
  }

  lemma FindInTwo(o: Object, last: Object, storageId: u32, path: bytes)
    requires o.handle > 0
    ensures Find([], storageId, path) == 0
    ensures Find([o], storageId, path) == if Matches(o, storageId, path) then o.handle else 0
    ensures Find([o, last], storageId, path) == if Matches(o, storageId, path) then o.handle else if Matches(last, storageId, path) then last.handle else 0
  {
    hide Matches;
    assert [o][..0] == [] && [o, last][..1] == [o];
  }

  lemma NotTaken(t: Table, h: nat, newPath: bytes, i: nat)
    requires Live(t, h) && !Taken(t, h, newPath) && i < |t| && i != h - 1
    ensures Matches(t[i], t[h - 1].storageId, newPath) ==> t[h - 1].isDir && Descends(t[i], t[h - 1])
  {
    hide Matches, Descends;
  }

  // ----- runs -----

  datatype Op =
    | DoIntern(storageId: u32, parent: u32, path: bytes, isDir: bool, size: int, room: bool)
    | DoInvalidate(handle: nat)
    | DoRename(handle: nat, newPath: bytes)
    | DoClearStorage(storageId: u32)

  function Apply(t: Table, op: Op): Table {
    match op
    case DoIntern(storageId, parent, path, isDir, size, room) => Intern(t, storageId, parent, path, isDir, size, room).0
    case DoInvalidate(h) => Invalidate(t, h)
    case DoRename(h, newPath) => Rename(t, h, newPath).0
    case DoClearStorage(storageId) => ClearStorage(t, storageId)
  }

  function ApplyAll(t: Table, ops: seq<Op>): Table
    decreases |ops|
  {
    if ops == [] then t else ApplyAll(Apply(t, ops[0]), ops[1..])
  }

  /** A rename onto a path that another live entry keeps is the one operation a run must avoid. */
  ghost predicate Free(t: Table, op: Op) {
    op.DoRename? && Live(t, op.handle) && |op.newPath| < PATH_MAX ==> !Taken(t, op.handle, op.newPath)
  }

  ghost predicate AllFree(t: Table, ops: seq<Op>)
    decreases |ops|
  {
    ops == [] || (Free(t, ops[0]) && AllFree(Apply(t, ops[0]), ops[1..]))
  }

  /** Entries never move, never change store, and once dead stay dead. */
  ghost predicate Aged(t: Table, u: Table) {
    |t| <= |u| && forall i :: 0 <= i < |t| ==> u[i].storageId == t[i].storageId && (u[i].valid ==> t[i].valid)
  }

  lemma DropKeeps(t: Table, p: Object -> bool)
    requires Numbered(t)
    ensures var u := Drop(t, p); Numbered(u) && Aged(t, u) && (Injective(t) ==> Injective(u))
  {
    hide Drop;
    DropIsExact(t, p);
    var u := Drop(t, p);
    assert |u| == |t| by { DropLength(t, p); }
    assert forall i :: 0 <= i < |t| ==> u[i].storageId == t[i].storageId && u[i].path == t[i].path && (u[i].valid ==> t[i].valid);
  }

  lemma DropLength(t: Table, p: Object -> bool)
    ensures |Drop(t, p)| == |t|
  {
  }

  lemma StepKeeps(t: Table, op: Op)
    requires Numbered(t)
    ensures var u := Apply(t, op); Numbered(u) && Aged(t, u)
    ensures Injective(t) && Free(t, op) ==> Injective(Apply(t, op))
  {
    hide Find, Drop, Rename, Taken;
    match op
    case DoIntern(storageId, parent, path, isDir, size, room) =>
      FindIsExact(t, storageId, path);
      if Injective(t) {
        InternKeeps(t, storageId, parent, path, isDir, size, room);
      }
    case DoInvalidate(h) =>
    case DoRename(h, newPath) => RenameAges(t, h, newPath);
    case DoClearStorage(storageId) => DropKeeps(t, (o: Object) => o.storageId == storageId);
  }

  lemma RenameAges(t: Table, h: nat, newPath: bytes)
    requires Numbered(t)
    ensures var u := Rename(t, h, newPath).0;
            Numbered(u) && Aged(t, u) && (Injective(t) && (Live(t, h) && |newPath| < PATH_MAX ==> !Taken(t, h, newPath)) ==> Injective(u))
  {
    hide Rename, Taken, Descends;
    if Live(t, h) && |newPath| < PATH_MAX {
      RenameSteps(t, h, newPath);
      if Injective(t) {
        RenameKeepsIffFree(t, h, newPath);
      }
    } else {
      RenameFails(t, h, newPath);
    }
  }

  lemma RenameFails(t: Table, h: nat, newPath: bytes)
    requires !Live(t, h) || |newPath| >= PATH_MAX
    ensures Rename(t, h, newPath) == (t, false)
  {
  }

  /**
   * Over every run without a clear: handles are numbered in order, an entry that has died never lives again,
   * so a handle is never given to a second pair; and while no rename lands on a taken path, live handles and
   * pairs correspond one to one.
   */
  lemma {:induction false} EveryRunKeepsHandles(t: Table, ops: seq<Op>)
    requires Numbered(t)
    ensures var u := ApplyAll(t, ops); Numbered(u) && Aged(t, u)
    ensures Injective(t) && AllFree(t, ops) ==> Injective(ApplyAll(t, ops))
    decreases |ops|
  {
    hide Apply, Injective, Free;
    if ops != [] {
      StepKeeps(t, ops[0]);
      EveryRunKeepsHandles(Apply(t, ops[0]), ops[1..]);
    }
  }

  // ----- the table object -----

  class Db {
    var entries: array<Object>
    var used: nat
    var live: nat

    ghost predicate Shaped()
      reads this, entries
    {
      && 0 < entries.Length && used <= entries.Length
      && Numbered(entries[..used]) && live == LiveCount(entries[..used])
    }

    ghost function Abs(): Table
      requires used <= entries.Length
      reads this, entries
    {
      entries[..used]
    }

    constructor ()
      ensures Shaped() && Abs() == [] && fresh(entries)
    {
      entries := new Object[INITIAL_CAPACITY];
      used, live := 0, 0;
    }

    method Clear()
      requires Shaped()
      modifies this`used, this`live
      ensures Shaped() && Abs() == []
    {
      used, live := 0, 0;
      assert entries[..0] == [];
    }

    /** Doubles the capacity, keeping every entry. */
    method Grow()
      requires Shaped()
      modifies this`entries
      ensures Shaped() && fresh(entries) && entries.Length == 2 * old(entries.Length) && Abs() == old(Abs())
    {
      var grown := new Object[2 * entries.Length];
      for i := 0 to used
        invariant entries == old(entries) && used == old(used) <= entries.Length && live == old(live)
        invariant entries[..used] == old(entries[..used])
        invariant forall k :: 0 <= k < i ==> grown[k] == entries[k]
      {
        grown[i] := entries[i];
      }
      assert grown[..used] == entries[..used];
      entries := grown;
    }

    method Lookup(storageId: u32, path: bytes) returns (h: nat)
      requires Shaped()
      ensures h == Find(Abs(), storageId, path)
    {
      hide Matches;
      for i := 0 to used
        invariant Find(entries[..i], storageId, path) == 0
      {
        assert entries[..i + 1][..i] == entries[..i];
        if Matches(entries[i], storageId, path) {
          FindFirst(entries[..used], i + 1, storageId, path);
          assert entries[..used][..i + 1] == entries[..i + 1];
          assert entries[..used][i] == entries[i];
          return entries[i].handle;
        }
      }
      return 0;
    }

    method InternPath(storageId: u32, parent: u32, path: bytes, isDir: bool, size: int, canGrow: bool) returns (h: nat)
      requires Shaped()
      modifies this, entries
      ensures Shaped()
      ensures (Abs(), h) == Intern(old(Abs()), storageId, parent, path, isDir, size, old(used) < old(entries.Length) || canGrow)
    {
      hide Find, LiveCount;
      if path == [] || |path| >= PATH_MAX {
        return 0;
      }
      h := Lookup(storageId, path);
      ghost var t := Abs();
      FindIsExact(t, storageId, path);
      var shown := if isDir then 0 else size;
      if h != 0 {
        LiveCountUpdate(t, h - 1, t[h - 1].(isDir := isDir, size := shown, parent := parent));
        entries[h - 1] := entries[h - 1].(isDir := isDir, size := shown, parent := parent);
        assert entries[..used] == t[h - 1 := t[h - 1].(isDir := isDir, size := shown, parent := parent)];
        return h;
      }
      if used == entries.Length {
        if !canGrow {
          return 0;
        }
        Grow();
      }
      h := used + 1;
      var o := Object(h, storageId, parent, path, isDir, shown, true);
      entries[used] := o;
      used := used + 1;
      live := live + 1;
      assert entries[..used] == t + [o];
      LiveCountAppend(t, o);
    }

    method Kill(h: nat)
      requires Shaped()
      modifies this`live, entries
      ensures Shaped() && Abs() == Invalidate(old(Abs()), h)
    {
      hide LiveCount;
      ghost var t := Abs();
      if h != 0 && h <= used && entries[h - 1].valid {
        LiveCountUpdate(t, h - 1, t[h - 1].(valid := false));
        entries[h - 1] := entries[h - 1].(valid := false);
        LivePositive(t, h - 1);
        live := live - 1;
        assert entries[..used] == t[h - 1 := t[h - 1].(valid := false)];
      }
    }

    /** The loop that marks every entry for which `p` holds. */
    method DropWhere(p: Object -> bool)
      requires Shaped()
      modifies this`live, entries
      ensures Shaped() && Abs() == Drop(old(Abs()), p)
    {
      hide LiveCount;
      ghost var t := Abs();
      DropIsExact(t, p);
      for i := 0 to used
        invariant used == old(used) && entries == old(entries)
        invariant forall k :: 0 <= k < i ==> entries[k] == Drop(t, p)[k]
        invariant forall k :: i <= k < used ==> entries[k] == t[k]
        invariant live == LiveCount(entries[..used])
      {
        ghost var now := entries[..used];
        if entries[i].valid && p(entries[i]) {
          LiveCountUpdate(now, i, now[i].(valid := false));
          LivePositive(now, i);
          entries[i] := entries[i].(valid := false);
          live := live - 1;
          assert entries[..used] == now[i := now[i].(valid := false)];
        }
      }
      assert entries[..used] == Drop(t, p);
    }

    method RemoveStorage(storageId: u32)
      requires Shaped()
      modifies this`live, entries
      ensures Shaped() && Abs() == ClearStorage(old(Abs()), storageId)
    {
      DropWhere((o: Object) => o.storageId == storageId);
    }

    method Repoint(h: nat, newPath: bytes) returns (ok: bool)
      requires Shaped()
      modifies this`live, entries
      ensures Shaped() && (Abs(), ok) == Rename(old(Abs()), h, newPath)
    {
      hide LiveCount, Drop, Descends;
      if |newPath| >= PATH_MAX || h == 0 || h > used || !entries[h - 1].valid {
        return false;
      }
      var e := entries[h - 1];
      if e.isDir {
        DropWhere((o: Object) => Descends(o, e));
      }
      ghost var kept := Abs();
      LiveCountUpdate(kept, h - 1, kept[h - 1].(path := newPath));
      entries[h - 1] := entries[h - 1].(path := newPath);
      assert entries[..used] == kept[h - 1 := kept[h - 1].(path := newPath)];
      return true;
    }
  }

  lemma {:induction false} FindFirst(t: Table, i: nat, storageId: u32, path: bytes)
    requires i <= |t| && Find(t[..i], storageId, path) != 0
    ensures Find(t, storageId, path) == Find(t[..i], storageId, path)
    decreases |t|
  {
    if i < |t| {
      assert t[..|t| - 1][..i] == t[..i];
      FindFirst(t[..|t| - 1], i, storageId, path);
    } else {
      assert t[..i] == t;
    }
  }

  lemma LiveCountAppend(t: Table, o: Object)
    requires o.valid
    ensures LiveCount(t + [o]) == LiveCount(t) + 1
  {
    assert (t + [o])[..|t|] == t;
  }

  lemma {:induction false} LivePositive(t: Table, i: nat)
    requires i < |t| && t[i].valid
    ensures LiveCount(t) > 0
    decreases |t|
  {
    if i < |t| - 1 {
      LivePositive(t[..|t| - 1], i);
    }
  }
}
