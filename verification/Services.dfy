/**
 * The console's services as the installer sees them: content storage, the content meta database and the
 * application records. Every call may fail, and a call that fails changes nothing.
 */
module Services {
  import opened Bytes
  import opened InstallSpec

  const MAX_APP_RECORDS: nat := 320

  const META_PATCH: u8 := 0x81
  const META_ADD_ON: u8 := 0x82

  datatype MetaKey = MetaKey(id: u64, version: u32, metaType: u8)

  datatype MetaRecord = MetaRecord(extHeader: bytes, contents: seq<Content>)

  datatype Record = Record(key: MetaKey, storageId: u8)

  /** A service call; `undo` marks the ones that clean up after a failure. */
  datatype Call =
    | GeneratePlaceholder | CreatePlaceholder | DeletePlaceholder
    | HasContent | DeleteContent(undo: bool) | RegisterContent
    | SetMeta | RemoveMeta | CommitMeta(undo: bool)
    | ListRecords | DeleteRecord(undo: bool) | PushRecord(undo: bool)
    | ReadManifest | ImportTicket

  /**
   * What the installer cannot foresee: whether the n-th call works, page sizes, fresh identifiers. Writes are
   * not counted; `takes(n, k)` says whether byte `k` of a placeholder can be written after `n` calls.
   */
  datatype Outcomes = Outcomes(
    works: (Call, nat) -> bool,
    takes: (nat, nat) -> bool,
    page: nat -> nat,
    placeholder: nat -> nat,
    manifestOf: bytes -> Option<bytes>)

  datatype Console = Console(
    contents: map<bytes, bytes>,
    placeholders: map<nat, bytes>,
    staged: map<MetaKey, MetaRecord>,
    persisted: map<MetaKey, MetaRecord>,
    records: map<u64, seq<Record>>,
    calls: nat,
    out: Outcomes)

  function Called(c: Console): Console {
    c.(calls := c.calls + 1)
  }

  predicate Works(c: Console, call: Call) {
    c.out.works(call, c.calls)
  }

  // ----- content storage -----

  function MakePlaceholder(c: Console, ph: nat, size: nat): Reply<Console> {
    if Works(c, CreatePlaceholder) && ph !in c.placeholders
    then Reply(true, Called(c).(placeholders := c.placeholders[ph := Zeros(size)]))
    else Reply(false, Called(c))
  }

  /** A write works when each of its bytes can be written. */
  predicate Takes(c: Console, offset: nat, n: nat) {
    forall k :: offset <= k < offset + n ==> c.out.takes(c.calls, k)
  }

  /** Bytes past the declared size are refused. */
  function WriteAt(c: Console, ph: nat, offset: nat, data: bytes): Reply<Console> {
    if Takes(c, offset, |data|) && ph in c.placeholders && offset + |data| <= |c.placeholders[ph]| && offset + |data| < U64_LIMIT
    then Reply(true, c.(placeholders := c.placeholders[ph := Overwrite(c.placeholders[ph], offset, data)]))
    else Reply(false, c)
  }

  function DropPlaceholder(c: Console, ph: nat): Reply<Console> {
    if Works(c, DeletePlaceholder) && ph in c.placeholders
    then Reply(true, Called(c).(placeholders := c.placeholders - {ph}))
    else Reply(false, Called(c))
  }

  function EraseContent(c: Console, id: bytes, undo: bool): Reply<Console> {
    if Works(c, DeleteContent(undo)) && id in c.contents
    then Reply(true, Called(c).(contents := c.contents - {id}))
    else Reply(false, Called(c))
  }

  /** Registering refuses to overwrite. */
  function StoreContent(c: Console, id: bytes, ph: nat): Reply<Console> {
    if Works(c, RegisterContent) && id !in c.contents && ph in c.placeholders
    then Reply(true, Called(c).(contents := c.contents[id := c.placeholders[ph]], placeholders := c.placeholders - {ph}))
    else Reply(false, Called(c))
  }

  // ----- the content meta database -----

  function SetKey(c: Console, key: MetaKey, value: MetaRecord): Reply<Console> {
    if Works(c, SetMeta) then Reply(true, Called(c).(staged := c.staged[key := value])) else Reply(false, Called(c))
  }

  function RemoveKey(c: Console, key: MetaKey): Reply<Console> {
    if Works(c, RemoveMeta) && key in c.staged then Reply(true, Called(c).(staged := c.staged - {key})) else Reply(false, Called(c))
  }

  function Persist(c: Console, undo: bool): Reply<Console> {
    if Works(c, CommitMeta(undo)) then Reply(true, Called(c).(persisted := c.staged)) else Reply(false, Called(c))
  }

  // ----- application records -----

  /** One page of a record, at least one entry while there is one; a title with no record is an error. */
  function List(c: Console, app: u64, offset: nat, max: nat): (r: (Option<seq<Record>>, Console))
    ensures r.0.Some? ==> |r.0.value| <= max
  {
    if !Works(c, ListRecords) || app !in c.records then (None, Called(c))
    else
      var list := c.records[app];
      var n := if offset >= |list| then 0 else Min(Min(|list| - offset, max), 1 + c.out.page(c.calls));
      (Some(if n == 0 then [] else list[offset..offset + n]), Called(c))
  }

  function DropRecord(c: Console, app: u64, undo: bool): Reply<Console> {
    if Works(c, DeleteRecord(undo)) && app in c.records
    then Reply(true, Called(c).(records := c.records - {app}))
    else Reply(false, Called(c))
  }

  /** Pushing refuses an empty list and refuses to overwrite. */
  function Push(c: Console, app: u64, list: seq<Record>, undo: bool): Reply<Console> {
    if list == [] then Reply(false, c)
    else if Works(c, PushRecord(undo)) && app !in c.records
    then Reply(true, Called(c).(records := c.records[app := list]))
    else Reply(false, Called(c))
  }

  // ----- the record commands built on them -----

  function ReadFrom(c: Console, app: u64, got: seq<Record>, max: nat): (r: (seq<Record>, Console))
    requires |got| <= max
    ensures |r.0| <= max
    decreases max - |got|
  {
    if |got| >= max then (got, c)
    else
      var (page, d) := List(c, app, |got|, max - |got|);
      if page.None? || page.value == [] then (got, d) else ReadFrom(d, app, got + page.value, max)
  }

  /** Every record of an application, read page by page, up to `max`. */
  function ReadRecords(c: Console, app: u64, max: nat): (r: (seq<Record>, Console))
    ensures |r.0| <= max
  {
    ReadFrom(c, app, [], max)
  }

  predicate Same(r: Record, id: u64, metaType: u8) {
    r.key.id == id && r.key.metaType == metaType
  }

  /** The list without the records of one content meta, any version, in the old order. */
  function Without(list: seq<Record>, id: u64, metaType: u8): (r: seq<Record>)
    ensures |r| <= |list|
  {
    if list == [] then []
    else Without(list[..|list| - 1], id, metaType) + (if Same(list[|list| - 1], id, metaType) then [] else [list[|list| - 1]])
  }

  datatype Removal = Removal(ok: bool, remaining: Option<nat>, console: Console)

  function RemoveMetaFromRecord(c: Console, app: u64, id: u64, metaType: u8): Removal {
    var (list, d) := ReadRecords(c, app, MAX_APP_RECORDS);
    var kept := Without(list, id, metaType);
    if |kept| == |list| then Removal(true, Some(|list|), d)
    else
      var dropped := DropRecord(d, app, false);
      if !dropped.ok then Removal(false, None, dropped.user)
      else if kept == [] then Removal(true, Some(0), dropped.user)
      else
        var pushed := Push(dropped.user, app, kept, false);
        Removal(pushed.ok, Some(|kept|), pushed.user)
  }

  /** The service session, whose state the calls update. */
  class System {
    var console: Console

    constructor (console: Console)
      ensures this.console == console
    {
      this.console := console;
    }

    method ReadApplicationRecords(app: u64, out: array<Record>, max: nat) returns (total: nat)
      requires max <= out.Length
      modifies this, out
      ensures total <= max
      ensures (out[..total], console) == ReadRecords(old(console), app, max)
    {
      hide List;
      total := 0;
      ghost var whole := ReadRecords(console, app, max);
      assert out[..0] == [];
      while total < max
        invariant total <= max
        invariant whole == ReadFrom(console, app, out[..total], max)
        decreases max - total
      {
        ghost var got := out[..total];
        var (page, after) := List(console, app, total, max - total);
        console := after;
        if page.None? {
          assert whole == (got, console);
          return;
        }
        Copy(out, total, page.value);
        assert out[..total] == got;
        if page.value == [] {
          assert whole == (got, console);
          return;
        }
        assert out[..total + |page.value|] == got + page.value;
        total := total + |page.value|;
      }
    }

    /** Takes one content meta out of an application's record, leaving the rest attached. */
    method RemoveContentMetaFromRecord(app: u64, id: u64, metaType: u8) returns (r: Removal)
      modifies this
      ensures r == RemoveMetaFromRecord(old(console), app, id, metaType) && console == r.console
    {
      hide Without, List, ReadFrom, ReadRecords, Push, DropRecord;
      var records := new Record[MAX_APP_RECORDS];
      var count := ReadApplicationRecords(app, records, MAX_APP_RECORDS);
      var kept := Compact(records, count, id, metaType);
      if kept == count {
        return Removal(true, Some(count), console);
      }
      var dropped := DropRecord(console, app, false);
      console := dropped.user;
      if !dropped.ok {
        return Removal(false, None, console);
      }
      if kept == 0 {
        return Removal(true, Some(0), console);
      }
      var pushed := Push(console, app, records[..kept], false);
      console := pushed.user;
      return Removal(pushed.ok, Some(kept), console);
    }
  }

  /** The removal's compaction, in place. */
  method Compact(records: array<Record>, count: nat, id: u64, metaType: u8) returns (kept: nat)
    requires count <= records.Length
    modifies records
    ensures kept <= count && records[..kept] == Without(old(records[..count]), id, metaType)
  {
    hide Same;
    ghost var list := records[..count];
    kept := 0;
    for i := 0 to count
      invariant kept <= i
      invariant records[..kept] == Without(list[..i], id, metaType)
      invariant records[i..count] == list[i..]
    {
      assert list[..i + 1][..i] == list[..i];
      assert records[i] == records[i..count][0] == list[i];
      assert records[i + 1..count] == records[i..count][1..] == list[i + 1..];
      if !Same(records[i], id, metaType) {
        records[kept] := records[i];
        kept := kept + 1;
      }
    }
    assert list[..count] == list;
  }

  // ----- what reading a record returns -----

  function RecordOf(c: Console, app: u64): seq<Record> {
    if app in c.records then c.records[app] else []
  }

  /** No call but reading happened: the stores are as they were. */
  ghost predicate Untouched(c: Console, d: Console) {
    d == c.(calls := d.calls)
  }

  /** Whatever the page sizes and wherever reading stops, what is returned is a prefix of the list. */
  lemma {:induction false} ReadsAPrefix(c: Console, app: u64, got: seq<Record>, max: nat)
    requires |got| <= max && got <= RecordOf(c, app)
    ensures var (list, d) := ReadFrom(c, app, got, max); got <= list <= RecordOf(c, app) && Untouched(c, d)
    decreases max - |got|
  {
    if |got| < max {
      var (page, d) := List(c, app, |got|, max - |got|);
      if page.Some? && page.value != [] {
        assert got + page.value <= RecordOf(c, app);
        ReadsAPrefix(d, app, got + page.value, max);
      }
    }
  }

  /** While listing works the whole list is returned, up to the cap, for any page sizes. */
  lemma {:induction false} ReadsTheWhole(c: Console, app: u64, got: seq<Record>, max: nat)
    requires |got| <= max && got <= RecordOf(c, app)
    requires forall n :: c.out.works(ListRecords, n)
    ensures ReadFrom(c, app, got, max).0 == RecordOf(c, app)[..Min(max, |RecordOf(c, app)|)]
    decreases max - |got|
  {
    var all := RecordOf(c, app);
    if |got| < max {
      var (page, d) := List(c, app, |got|, max - |got|);
      if page.Some? && page.value != [] {
        assert got + page.value <= all;
        ReadsTheWhole(d, app, got + page.value, max);
      } else {
        assert |got| == |all|;
      }
    }
  }

  /** So what the backend reads is the whole list exactly when that fits what it can remember. */
  lemma ReadIsWhole(c: Console, app: u64)
    requires forall n :: c.out.works(ListRecords, n)
    ensures ReadRecords(c, app, MAX_APP_RECORDS).0 == RecordOf(c, app) <==> |RecordOf(c, app)| <= MAX_APP_RECORDS
  {
    hide ReadFrom;
    ReadsTheWhole(c, app, [], MAX_APP_RECORDS);
    var list := RecordOf(c, app);
    if |list| > MAX_APP_RECORDS {
      assert |list[..MAX_APP_RECORDS]| < |list|;
    }
  }

  // ----- what taking a content meta out does -----

  /** Exactly the records of that content meta go; the others keep their order and their number. */
  lemma {:induction false} WithoutIsExact(list: seq<Record>, id: u64, metaType: u8)
    ensures forall r :: r in Without(list, id, metaType) <==> r in list && !(r.key.id == id && r.key.metaType == metaType)
    ensures forall r: Record {:trigger multiset(list)[r]} :: !(r.key.id == id && r.key.metaType == metaType) ==> multiset(Without(list, id, metaType))[r] == multiset(list)[r]
  {
    if list != [] {
      var rest, last := list[..|list| - 1], list[|list| - 1];
      WithoutIsExact(rest, id, metaType);
      assert list == rest + [last];
    }
  }

  /** Taking out what is not there changes nothing. */
  lemma {:induction false} WithoutNothing(list: seq<Record>, id: u64, metaType: u8)
    ensures |Without(list, id, metaType)| == |list| <==> Without(list, id, metaType) == list
    ensures Without(list, id, metaType) == list <==> forall r :: r in list ==> !Same(r, id, metaType)
  {
    if list != [] {
      var rest, last := list[..|list| - 1], list[|list| - 1];
      WithoutNothing(rest, id, metaType);
      assert list == rest + [last];
    }
  }

  lemma {:induction false} WithoutTwice(list: seq<Record>, more: seq<Record>, id: u64, metaType: u8)
    ensures Without(list + more, id, metaType) == Without(list, id, metaType) + Without(more, id, metaType)
    decreases |more|
  {
    if more == [] {
      assert list + more == list;
    } else {
      var n := |more| - 1;
      assert (list + more)[..|list + more| - 1] == list + more[..n];
      WithoutTwice(list, more[..n], id, metaType);
    }
  }

  /**
   * What a removal that works leaves is the old list without that content meta, exactly when the part of the
   * list that was not read would not have changed the answer. One that fails leaves the record as it was, or
   * gone when the shorter list could not be pushed.
   */
  lemma RemovalIsExact(c: Console, app: u64, id: u64, metaType: u8)
    ensures var r := RemoveMetaFromRecord(c, app, id, metaType);
            var list, read := RecordOf(c, app), ReadRecords(c, app, MAX_APP_RECORDS).0;
            var kept := Without(read, id, metaType);
            && read <= list
            && r.console.contents == c.contents && r.console.persisted == c.persisted
            && r.console.records - {app} == c.records - {app}
            && (r.ok ==> r.remaining == Some(|kept|) && RecordOf(r.console, app) == if kept == read then list else kept)
            && (r.ok ==> var unread := list[|read|..];
                         RecordOf(r.console, app) == Without(list, id, metaType)
                         <==> Without(unread, id, metaType) == if kept == read then unread else [])
            && (r.remaining.None? ==> r.console.records == c.records)
            && (!r.ok && r.remaining.Some? ==> kept != [] && app !in r.console.records)
  {
    hide ReadRecords, Without;
    var list, read := RecordOf(c, app), ReadRecords(c, app, MAX_APP_RECORDS).0;
    assert read <= list && Untouched(c, ReadRecords(c, app, MAX_APP_RECORDS).1) by { ReadRecordsIs(c, app); }
    WithoutNothing(read, id, metaType);
    PartRead(list, read, id, metaType);
  }

  lemma ReadRecordsIs(c: Console, app: u64)
    ensures ReadRecords(c, app, MAX_APP_RECORDS).0 <= RecordOf(c, app) && Untouched(c, ReadRecords(c, app, MAX_APP_RECORDS).1)
  {
    ReadsAPrefix(c, app, [], MAX_APP_RECORDS);
  }

  /** What is left of a list when only its first part was looked at. */
  lemma PartRead(list: seq<Record>, read: seq<Record>, id: u64, metaType: u8)
    requires read <= list
    ensures var kept, unread := Without(read, id, metaType), list[|read|..];
            && (list == Without(list, id, metaType) <==> kept == read && Without(unread, id, metaType) == unread)
            && (kept == Without(list, id, metaType) <==> Without(unread, id, metaType) == [])
  {
    hide Without;
    var kept, unread := Without(read, id, metaType), list[|read|..];
    assert list == read + unread;
    WithoutTwice(read, unread, id, metaType);
    var rest := Without(unread, id, metaType);
    if list == kept + rest {
      assert |kept| == |read| && |rest| == |unread|;
      assert kept == list[..|read|] && rest == list[|read|..];
    }
    if kept == kept + rest {
      assert |rest| == 0;
    }
    if rest == [] {
      assert kept + rest == kept;
    }
  }
}
