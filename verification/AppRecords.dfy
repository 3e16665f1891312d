/** Which application a title is filed under, and what a run of installs leaves attached to it, in title ids. */
module AppRecords {
  import opened Bytes
  import opened Horizon
  import opened InstallSpec
  import opened Services

  /**
   * Application ids are multiples of 0x2000. The update of an application has the id 0x800 above it, its add-on
   * contents the 0x1000 ids from 0x1000 above it, and every other kind of title is its own application.
   */
  predicate Belongs(titleId: nat, metaType: u8, app: nat) {
    && app % 0x2000 == 0
    && if metaType == 0x81 then titleId == app + 0x800
       else if metaType == 0x82 then app + 0x1000 <= titleId < app + 0x2000
       else titleId == app
  }

  lemma MultipleHalves(app: nat)
    requires app % 0x2000 == 0
    ensures (app / 0x800) % 2 == 0 && (app / 0x1000) % 2 == 0 && app % 0x1000 == 0
  {
  }

  /** A title is filed under an application exactly when its id says that it belongs to it. */
  lemma FiledUnder(meta: Meta, app: u64)
    requires app % 0x2000 == 0
    ensures AppOf(meta) == app <==> Belongs(meta.titleId, meta.metaType, app)
  {
    var id := meta.titleId;
    MultipleHalves(app);
    if meta.metaType == META_PATCH {
      FlipTwice(id, 0x800);
      FlipTwice(app, 0x800);
    } else if meta.metaType == META_ADD_ON {
      AddOnRange(id, app);
    }
  }

  lemma FlipTwice(id: u64, bit: nat)
    requires bit == 0x800
    ensures Flip(Flip(id, bit), bit) == id
  {
  }

  lemma AddOnRange(id: u64, app: u64)
    requires app % 0x2000 == 0
    ensures Flip(id, 0x1000) / 0x1000 * 0x1000 == app <==> app + 0x1000 <= id < app + 0x2000
  {
    var page := id / 0x1000;
    assert id == page * 0x1000 + id % 0x1000;
    if page % 2 == 0 {
      assert Flip(id, 0x1000) / 0x1000 == page + 1;
    } else {
      assert Flip(id, 0x1000) / 0x1000 == page - 1;
    }
  }

  // ----- the list without one title -----

  /** `kept` is the list without the entries of one title, whatever their versions: the others stay, in their order. */
  ghost predicate DropsTitle(list: seq<Record>, kept: seq<Record>, id: u64, metaType: u8) {
    exists at: seq<nat> :: Keeps(list, kept, id, metaType, at)
  }

  ghost predicate Keeps(list: seq<Record>, kept: seq<Record>, id: u64, metaType: u8, at: seq<nat>) {
    && |at| == |kept|
    && (forall i, j :: 0 <= i < j < |at| ==> at[i] < at[j])
    && (forall i :: 0 <= i < |at| ==> at[i] < |list| && kept[i] == list[at[i]])
    && (forall k :: 0 <= k < |list| ==> (k in at <==> !(list[k].key.id == id && list[k].key.metaType == metaType)))
  }

  ghost function PlacesKept(list: seq<Record>, id: u64, metaType: u8): (at: seq<nat>)
    ensures forall i :: 0 <= i < |at| ==> at[i] < |list|
  {
    if list == [] then []
    else
      var n := |list| - 1;
      var before := PlacesKept(list[..n], id, metaType);
      if Same(list[n], id, metaType) then before else before + [n]
  }

  lemma {:induction false} WithoutDropsTitle(list: seq<Record>, id: u64, metaType: u8)
    ensures Keeps(list, Without(list, id, metaType), id, metaType, PlacesKept(list, id, metaType))
    ensures DropsTitle(list, Without(list, id, metaType), id, metaType)
  {
    hide Keeps;
    if list == [] {
      NothingKept(id, metaType);
    } else {
      var n := |list| - 1;
      WithoutDropsTitle(list[..n], id, metaType);
      assert list == list[..n] + [list[n]];
      KeepsOneMore(list[..n], Without(list[..n], id, metaType), id, metaType, PlacesKept(list[..n], id, metaType), list[n]);
    }
  }

  lemma NothingKept(id: u64, metaType: u8)
    ensures Keeps([], [], id, metaType, [])
  {
  }

  lemma KeepsOneMore(list: seq<Record>, kept: seq<Record>, id: u64, metaType: u8, at: seq<nat>, last: Record)
    requires Keeps(list, kept, id, metaType, at)
    ensures if Same(last, id, metaType) then Keeps(list + [last], kept + [], id, metaType, at)
            else Keeps(list + [last], kept + [last], id, metaType, at + [|list|])
  {
    var all, n := list + [last], |list|;
    assert kept + [] == kept;
    forall k | 0 <= k < n
      ensures all[k] == list[k] && (k in at + [n] <==> k in at)
    {
    }
    assert n !in at;
    assert n in at + [n];
  }

  // ----- one install -----

  ghost predicate AllWorking(c: Console) {
    forall call, n :: c.out.works(call, n)
  }

  function Entry(meta: Meta, storageId: u8): Record {
    Record(MetaKey(meta.titleId, meta.version, meta.metaType), storageId)
  }

  /** Nothing but the records of one application, and the number of calls made, is different. */
  ghost predicate OnlyRecord(c: Console, d: Console, app: u64, list: seq<Record>) {
    d == c.(records := c.records[app := list], calls := d.calls)
  }

  /**
   * While every call works, pushing a title that belongs to an application puts its entry behind what is attached to
   * that application without an older version of the title, if there is room; no other application's record changes.
   */
  lemma PushAddsTitle(h: Horizon, meta: Meta, app: u64)
    requires AllWorking(h.console) && Belongs(meta.titleId, meta.metaType, app) && |RecordOf(h.console, app)| < 320
    ensures var r := PushAppRecord(h, meta);
            exists kept :: DropsTitle(RecordOf(h.console, app), kept, meta.titleId, meta.metaType)
                           && r.ok && OnlyRecord(h.console, r.user.console, app, kept + [Entry(meta, h.storageId)])
  {
    hide Without, ReadRecords, ReadFrom, AppOf, Belongs, DropsTitle;
    assert app % 0x2000 == 0 by { BelongsToMultiple(meta, app); }
    FiledUnder(meta, app);
    var list := RecordOf(h.console, app);
    WithoutDropsTitle(list, meta.titleId, meta.metaType);
    ReadsTheWhole(h.console, app, [], MAX_APP_RECORDS);
    ReadRecordsIs(h.console, app);
    assert list[..|list|] == list;
    WholeIsRead(h.console, app);
    PushWorks(h, meta, app);
  }

  lemma BelongsToMultiple(meta: Meta, app: u64)
    requires Belongs(meta.titleId, meta.metaType, app)
    ensures app % 0x2000 == 0
  {
  }

  lemma WholeIsRead(c: Console, app: u64)
    requires AllWorking(c) && |RecordOf(c, app)| < 320
    ensures ReadRecords(c, app, MAX_APP_RECORDS).0 == RecordOf(c, app) && Untouched(c, ReadRecords(c, app, MAX_APP_RECORDS).1)
  {
    hide ReadFrom;
    ReadIsWhole(c, app);
    ReadRecordsIs(c, app);
  }

  lemma PushWorks(h: Horizon, meta: Meta, app: u64)
    requires AllWorking(h.console) && AppOf(meta) == app && |RecordOf(h.console, app)| < 320
    requires ReadRecords(h.console, app, MAX_APP_RECORDS).0 == RecordOf(h.console, app)
    requires Untouched(h.console, ReadRecords(h.console, app, MAX_APP_RECORDS).1)
    ensures var r := PushAppRecord(h, meta);
            r.ok && OnlyRecord(h.console, r.user.console, app, Without(RecordOf(h.console, app), meta.titleId, meta.metaType) + [Entry(meta, h.storageId)])
  {
    hide Without, ReadRecords, AppOf;
    var list := Without(RecordOf(h.console, app), meta.titleId, meta.metaType) + [Entry(meta, h.storageId)];
    assert list != [];
    assert h.console.records - {app} + map[app := list] == h.console.records[app := list];
  }

  // ----- a run of installs -----

  /** One install after another on one console, each with a backend of its own. */
  ghost function PushAll(c: Console, storageId: u8, metas: seq<Meta>): Reply<Console> {
    if metas == [] then Reply(true, c)
    else
      var n := |metas| - 1;
      var before := PushAll(c, storageId, metas[..n]);
      var r := PushAppRecord(FreshBackend(before.user, storageId), metas[n]);
      Reply(before.ok && r.ok, r.user.console)
  }

  ghost predicate HasApplication(m: Meta) {
    exists app: nat :: Belongs(m.titleId, m.metaType, app)
  }

  predicate SameTitle(a: Meta, b: Meta) {
    a.titleId == b.titleId && a.metaType == b.metaType
  }

  /** Install `k` is the last one of a title that belongs to the application. */
  predicate Stays(metas: seq<Meta>, app: nat, k: nat) {
    && k < |metas| && Belongs(metas[k].titleId, metas[k].metaType, app)
    && forall j :: k < j < |metas| ==> !SameTitle(metas[j], metas[k])
  }

  /** The list has the entries of the installs that stay, in the order of installation. */
  ghost predicate ListsInstalls(list: seq<Record>, metas: seq<Meta>, storageId: u8, app: nat) {
    exists at: seq<nat> :: Lists(list, metas, storageId, app, at)
  }

  ghost predicate Lists(list: seq<Record>, metas: seq<Meta>, storageId: u8, app: nat, at: seq<nat>) {
    && |at| == |list|
    && (forall i, j :: 0 <= i < j < |at| ==> at[i] < at[j])
    && (forall i :: 0 <= i < |at| ==> at[i] < |metas| && list[i] == Entry(metas[at[i]], storageId))
    && (forall k :: 0 <= k < |metas| ==> (k in at <==> Stays(metas, app, k)))
  }

  lemma ListsNothing(storageId: u8, app: nat)
    ensures ListsInstalls([], [], storageId, app)
  {
    assert Lists([], [], storageId, app, []);
  }

  /** A title belongs to one application only. */
  lemma BelongsToOne(titleId: nat, metaType: u8, a: nat, b: nat)
    requires Belongs(titleId, metaType, a) && Belongs(titleId, metaType, b)
    ensures a == b
  {
  }

  /** What stays of another application's titles is not touched by one more install. */
  lemma OthersStay(metas: seq<Meta>, m: Meta, a: nat, app: nat, k: nat)
    requires Belongs(m.titleId, m.metaType, a) && app != a
    ensures Stays(metas + [m], app, k) <==> Stays(metas, app, k)
    ensures Stays(metas, app, k) ==> k < |metas|
  {
    hide Belongs;
    var all := metas + [m];
    assert all[|metas|] == m;
    assert forall j :: 0 <= j < |metas| ==> all[j] == metas[j];
    if Stays(metas, app, k) && SameTitle(m, metas[k]) {
      BelongsToOne(m.titleId, m.metaType, a, app);
    }
    if Belongs(m.titleId, m.metaType, app) {
      BelongsToOne(m.titleId, m.metaType, a, app);
    }
  }

  lemma OtherListStays(list: seq<Record>, metas: seq<Meta>, storageId: u8, m: Meta, a: nat, app: nat)
    requires ListsInstalls(list, metas, storageId, app) && Belongs(m.titleId, m.metaType, a) && app != a
    ensures ListsInstalls(list, metas + [m], storageId, app)
  {
    hide Belongs, Stays, Entry;
    var at: seq<nat> :| Lists(list, metas, storageId, app, at);
    var all := metas + [m];
    forall k | 0 <= k < |all|
      ensures k in at <==> Stays(all, app, k)
    {
      OthersStay(metas, m, a, app, k);
    }
    assert Lists(list, all, storageId, app, at);
  }

  lemma OwnStays(metas: seq<Meta>, m: Meta, app: nat, k: nat)
    requires Belongs(m.titleId, m.metaType, app)
    ensures Stays(metas + [m], app, k) <==> k == |metas| || (Stays(metas, app, k) && !SameTitle(metas[k], m))
  {
    hide Belongs;
    var all := metas + [m];
    assert all[|metas|] == m;
    assert forall j :: 0 <= j < |metas| ==> all[j] == metas[j];
  }

  /** The list of the application itself: an older install of the same title goes, the new one comes last. */
  lemma OwnListGrows(list: seq<Record>, kept: seq<Record>, metas: seq<Meta>, storageId: u8, m: Meta, app: nat)
    requires ListsInstalls(list, metas, storageId, app) && Belongs(m.titleId, m.metaType, app)
    requires DropsTitle(list, kept, m.titleId, m.metaType)
    ensures ListsInstalls(kept + [Entry(m, storageId)], metas + [m], storageId, app)
  {
    hide Belongs, Stays;
    var at: seq<nat> :| Lists(list, metas, storageId, app, at);
    var places: seq<nat> :| Keeps(list, kept, m.titleId, m.metaType, places);
    var through: seq<nat> := seq(|places|, i requires 0 <= i < |places| => at[places[i]]);
    var all, now, to := metas + [m], kept + [Entry(m, storageId)], through + [|metas|];
    forall k | 0 <= k < |all|
      ensures k in to <==> Stays(all, app, k)
    {
      OwnStays(metas, m, app, k);
      if k < |metas| {
        ThroughKept(list, kept, metas, storageId, m, app, at, places, through, k);
      }
    }
    assert Lists(now, all, storageId, app, to);
  }

  lemma ThroughKept(list: seq<Record>, kept: seq<Record>, metas: seq<Meta>, storageId: u8, m: Meta, app: nat,
                    at: seq<nat>, places: seq<nat>, through: seq<nat>, k: nat)
    requires Lists(list, metas, storageId, app, at) && Keeps(list, kept, m.titleId, m.metaType, places) && k < |metas|
    requires |through| == |places| && forall i :: 0 <= i < |places| ==> through[i] == at[places[i]]
    ensures k in through <==> Stays(metas, app, k) && !SameTitle(metas[k], m)
  {
    hide Belongs, Stays;
    if k in through {
      var i :| 0 <= i < |through| && through[i] == k;
      assert places[i] in places && at[places[i]] in at;
    }
    if k in at && !SameTitle(metas[k], m) {
      var p :| 0 <= p < |at| && at[p] == k;
      assert p in places;
      var i :| 0 <= i < |places| && places[i] == p;
      assert through[i] == k;
    }
  }

  // ----- every run of installs -----

  /** After the installs the console has these records and is as it was otherwise. */
  ghost predicate HoldsInstalls(before: Console, c: Console, storageId: u8, metas: seq<Meta>) {
    && c == before.(records := c.records, calls := c.calls)
    && forall app: nat {:trigger InstalledThere(c, storageId, metas, app)} :: InstalledThere(c, storageId, metas, app)
  }

  ghost predicate InstalledThere(c: Console, storageId: u8, metas: seq<Meta>, app: nat) {
    var list := if app in c.records then c.records[app] else [];
    |list| <= |metas| && ListsInstalls(list, metas, storageId, app)
  }

  /**
   * Whatever titles are installed, one after another, on a console with no records on which every call works:
   * attached to each application are, in the order of installation, the last installed version of each of its titles.
   */
  lemma {:induction false} InstallsAddUp(c: Console, storageId: u8, metas: seq<Meta>)
    requires AllWorking(c) && c.records == map[] && |metas| <= 320
    requires forall i :: 0 <= i < |metas| ==> HasApplication(metas[i])
    ensures var r := PushAll(c, storageId, metas); r.ok && HoldsInstalls(c, r.user, storageId, metas)
  {
    hide Belongs, ListsInstalls, DropsTitle, PushAppRecord;
    if metas == [] {
      forall app: nat
        ensures InstalledThere(c, storageId, [], app)
      {
        ListsNothing(storageId, app);
      }
    } else {
      var n := |metas| - 1;
      var m, before := metas[n], PushAll(c, storageId, metas[..n]).user;
      assert forall i :: 0 <= i < n ==> metas[..n][i] == metas[i];
      InstallsAddUp(c, storageId, metas[..n]);
      assert HasApplication(m);
      var app: nat :| Belongs(m.titleId, m.metaType, app);
      assert InstalledThere(before, storageId, metas[..n], app);
      var h := FreshBackend(before, storageId);
      RangeOfApp(m, app);
      PushAddsTitle(h, m, app);
      var kept :| DropsTitle(RecordOf(before, app), kept, m.titleId, m.metaType)
                  && OnlyRecord(before, PushAppRecord(h, m).user.console, app, kept + [Entry(m, storageId)]);
      InstalledEverywhere(before, PushAppRecord(h, m).user.console, storageId, metas[..n], m, app, kept);
      assert metas == metas[..n] + [m];
    }
  }

  lemma RangeOfApp(m: Meta, app: nat)
    requires Belongs(m.titleId, m.metaType, app)
    ensures app < U64_LIMIT
  {
  }

  lemma InstalledEverywhere(before: Console, c: Console, storageId: u8, metas: seq<Meta>, m: Meta, app: u64, kept: seq<Record>)
    requires forall a: nat {:trigger InstalledThere(before, storageId, metas, a)} :: InstalledThere(before, storageId, metas, a)
    requires Belongs(m.titleId, m.metaType, app) && DropsTitle(RecordOf(before, app), kept, m.titleId, m.metaType)
    requires OnlyRecord(before, c, app, kept + [Entry(m, storageId)])
    ensures forall a: nat {:trigger InstalledThere(c, storageId, metas + [m], a)} :: InstalledThere(c, storageId, metas + [m], a)
  {
    hide Belongs, ListsInstalls, DropsTitle;
    forall a: nat
      ensures InstalledThere(c, storageId, metas + [m], a)
    {
      assert InstalledThere(before, storageId, metas, a);
      if a == app {
        KeptIsShorter(RecordOf(before, app), kept, m.titleId, m.metaType);
        OwnListGrows(RecordOf(before, app), kept, metas, storageId, m, app);
      } else {
        OtherListStays(if a in before.records then before.records[a] else [], metas, storageId, m, app, a);
      }
    }
  }

  lemma KeptIsShorter(list: seq<Record>, kept: seq<Record>, id: u64, metaType: u8)
    requires DropsTitle(list, kept, id, metaType)
    ensures |kept| <= |list|
  {
    var at: seq<nat> :| Keeps(list, kept, id, metaType, at);
    RisingIsShort(at, |list|);
  }

  lemma {:induction false} RisingIsShort(at: seq<nat>, n: nat)
    requires (forall i, j :: 0 <= i < j < |at| ==> at[i] < at[j]) && forall i :: 0 <= i < |at| ==> at[i] < n
    ensures |at| <= n
    decreases n
  {
    if at != [] {
      var last := |at| - 1;
      forall i | 0 <= i < last
        ensures at[..last][i] < n - 1
      {
        assert at[i] < at[last] < n;
      }
      assert at[last] < n;
      RisingIsShort(at[..last], n - 1);
    }
  }

  /**
   * An application, its update and one of its add-on contents, installed on a console with no records: the record of
   * the application lists exactly these three, and no other application has one.
   */
  lemma BaseUpdateAndAddOn(c: Console, storageId: u8, base: Meta, update: Meta, addOn: Meta, app: u64, k: nat)
    requires AllWorking(c) && c.records == map[] && app % 0x2000 == 0 && k < 0x1000
    requires base.titleId == app && base.metaType == 0x80
    requires update.titleId == app + 0x800 && update.metaType == 0x81
    requires addOn.titleId == app + 0x1000 + k && addOn.metaType == 0x82
    ensures var r := PushAll(c, storageId, [base, update, addOn]);
            r.ok && r.user.records == map[app := [Record(MetaKey(app, base.version, 0x80), storageId),
                                                  Record(MetaKey(app + 0x800, update.version, 0x81), storageId),
                                                  Record(MetaKey(app + 0x1000 + k, addOn.version, 0x82), storageId)]]
  {
    hide Without, AppOf, PushAll, Entry, AllWorking;
    ThreeAreFiled(base, update, addOn, app, k);
    EntriesAre(base, update, addOn, storageId);
    var one, two, three := Entry(base, storageId), Entry(update, storageId), Entry(addOn, storageId);
    OthersAreKept(one, two, base, update, addOn);
    BaseAndUpdate(c, storageId, base, update, app);
    OneMoreTitle(c, storageId, [base, update], [one, two], addOn, app);
    assert [base, update] + [addOn] == [base, update, addOn] && [one, two] + [three] == [one, two, three];
  }

  lemma BaseAndUpdate(c: Console, storageId: u8, base: Meta, update: Meta, app: u64)
    requires AllWorking(c) && c.records == map[] && AppOf(base) == AppOf(update) == app
    requires Without([], base.titleId, base.metaType) == []
    requires Without([Entry(base, storageId)], update.titleId, update.metaType) == [Entry(base, storageId)]
    ensures var r := PushAll(c, storageId, [base, update]);
            r.ok && AllWorking(r.user) && r.user.records == map[app := [Entry(base, storageId), Entry(update, storageId)]]
  {
    hide Without, AppOf, PushAll, Entry, AllWorking;
    var one, two := Entry(base, storageId), Entry(update, storageId);
    PushOneMore(c, storageId, [], base);
    OneMoreTitle(c, storageId, [], [], base, app);
    assert [] + [base] == [base] && [] + [one] == [one];
    OneMoreTitle(c, storageId, [base], [one], update, app);
    assert [base] + [update] == [base, update] && [one] + [two] == [one, two];
  }

  lemma OneMoreTitle(c: Console, storageId: u8, metas: seq<Meta>, list: seq<Record>, m: Meta, app: u64)
    requires var before := PushAll(c, storageId, metas);
             before.ok && AllWorking(before.user) && before.user.records == (if list == [] then map[] else map[app := list])
    requires AppOf(m) == app && Without(list, m.titleId, m.metaType) == list && |list| < 320
    ensures var r := PushAll(c, storageId, metas + [m]);
            r.ok && AllWorking(r.user) && r.user.records == map[app := list + [Entry(m, storageId)]]
  {
    hide PushAll, Without, AppOf, Entry, PushAppRecord;
    PushOneMore(c, storageId, metas, m);
    PushedOn(PushAll(c, storageId, metas).user, storageId, list, m, app);
  }

  lemma PushOneMore(c: Console, storageId: u8, metas: seq<Meta>, m: Meta)
    ensures PushAll(c, storageId, []) == Reply(true, c)
    ensures var before := PushAll(c, storageId, metas);
            var r := PushAppRecord(FreshBackend(before.user, storageId), m);
            PushAll(c, storageId, metas + [m]) == Reply(before.ok && r.ok, r.user.console)
  {
    hide PushAppRecord;
    assert (metas + [m])[..|metas|] == metas;
  }

  lemma EntriesAre(a: Meta, b: Meta, c: Meta, storageId: u8)
    ensures Entry(a, storageId) == Record(MetaKey(a.titleId, a.version, a.metaType), storageId)
    ensures Entry(b, storageId) == Record(MetaKey(b.titleId, b.version, b.metaType), storageId)
    ensures Entry(c, storageId) == Record(MetaKey(c.titleId, c.version, c.metaType), storageId)
  {
  }

  lemma ThreeAreFiled(base: Meta, update: Meta, addOn: Meta, app: u64, k: nat)
    requires app % 0x2000 == 0 && k < 0x1000 && base.titleId == app && base.metaType == 0x80
    requires update.titleId == app + 0x800 && update.metaType == 0x81 && addOn.titleId == app + 0x1000 + k && addOn.metaType == 0x82
    ensures AppOf(base) == AppOf(update) == AppOf(addOn) == app
  {
    FiledUnder(base, app);
    FiledUnder(update, app);
    FiledUnder(addOn, app);
  }

  lemma OthersAreKept(one: Record, two: Record, base: Meta, update: Meta, addOn: Meta)
    requires one.key.metaType != update.metaType && one.key.metaType != addOn.metaType && two.key.metaType != addOn.metaType
    ensures Without([], base.titleId, base.metaType) == [] && Without([one], update.titleId, update.metaType) == [one]
    ensures Without([one, two], addOn.titleId, addOn.metaType) == [one, two]
  {
    OtherTitlesStay([one], update);
    OtherTitlesStay([one, two], addOn);
  }

  lemma OtherTitlesStay(list: seq<Record>, m: Meta)
    requires forall r :: r in list ==> r.key.metaType != m.metaType
    ensures Without(list, m.titleId, m.metaType) == list
  {
    WithoutNothing(list, m.titleId, m.metaType);
  }

  lemma PushedOn(c: Console, storageId: u8, list: seq<Record>, m: Meta, app: u64)
    requires AllWorking(c) && c.records == (if list == [] then map[] else map[app := list]) && |list| < 320
    requires AppOf(m) == app && Without(list, m.titleId, m.metaType) == list
    ensures var r := PushAppRecord(FreshBackend(c, storageId), m);
            r.ok && AllWorking(r.user.console) && r.user.console.records == map[app := list + [Entry(m, storageId)]]
  {
    hide Without, PushAppRecord, AppOf, ReadRecords, Entry;
    var h := FreshBackend(c, storageId);
    WholeIsRead(c, app);
    PushWorks(h, m, app);
    assert c.records[app := list + [Entry(m, storageId)]] == map[app := list + [Entry(m, storageId)]];
  }
}
