/** The entry table: sorting it loses nothing, orders it, and keeps entries of equal offset in container order. */
module EntryTable {
  import opened Bytes
  import opened EntryNames
  import opened InstallSpec
  import opened ChunkIndependence
  import Pfs = PartitionFs

  ghost predicate Ordered(es: seq<Entry>) {
    forall i, j :: 0 <= i < j < |es| ==> es[i].absOffset <= es[j].absOffset
  }

  /** The entries at one offset, in table order. */
  ghost function AtOffset(es: seq<Entry>, off: u64): seq<Entry> {
    if es == [] then []
    else AtOffset(es[..|es| - 1], off) + (if es[|es| - 1].absOffset == off then [es[|es| - 1]] else [])
  }

  lemma {:induction false} InsertAdds(es: seq<Entry>, e: Entry)
    ensures multiset(Insert(es, e)) == multiset(es) + multiset{e}
  {
    if es != [] && es[|es| - 1].absOffset > e.absOffset {
      var rest, last := es[..|es| - 1], es[|es| - 1];
      InsertAdds(rest, e);
      assert es == rest + [last];
    }
  }

  lemma AppendOrdered(es: seq<Entry>, e: Entry)
    requires Ordered(es) && forall x :: x in es ==> x.absOffset <= e.absOffset
    ensures Ordered(es + [e])
  {
  }

  lemma {:induction false} InsertOrders(es: seq<Entry>, e: Entry)
    requires Ordered(es)
    ensures Ordered(Insert(es, e))
  {
    if es == [] || es[|es| - 1].absOffset <= e.absOffset {
      AppendOrdered(es, e);
    } else {
      var rest, last := es[..|es| - 1], es[|es| - 1];
      InsertOrders(rest, e);
      InsertAdds(rest, e);
      var inner := Insert(rest, e);
      forall x | x in inner
        ensures x.absOffset <= last.absOffset
      {
        assert x in multiset(inner);
        assert x == e || x in rest;
      }
      AppendOrdered(inner, last);
    }
  }

  lemma {:induction false} InsertIsStable(es: seq<Entry>, e: Entry, off: u64)
    requires Ordered(es)
    ensures AtOffset(Insert(es, e), off) == AtOffset(es, off) + (if e.absOffset == off then [e] else [])
  {
    if es == [] || es[|es| - 1].absOffset <= e.absOffset {
      assert (es + [e])[..|es|] == es;
    } else {
      var rest, last := es[..|es| - 1], es[|es| - 1];
      InsertIsStable(rest, e, off);
      var inner := Insert(rest, e);
      assert (inner + [last])[..|inner|] == inner;
      if e.absOffset == off {
        assert last.absOffset != off;
      }
    }
  }

  /** The sort is a permutation into offset order, and a stable one. */
  lemma {:induction false} SortIsStableSort(es: seq<Entry>)
    ensures Ordered(SortByOffset(es)) && multiset(SortByOffset(es)) == multiset(es)
    ensures forall off :: AtOffset(SortByOffset(es), off) == AtOffset(es, off)
  {
    hide Insert, Ordered;
    if es == [] {
      assert Ordered([]) by { NothingIsOrdered(); }
    } else {
      var rest, last := es[..|es| - 1], es[|es| - 1];
      SortIsStableSort(rest);
      InsertOrders(SortByOffset(rest), last);
      InsertAdds(SortByOffset(rest), last);
      assert es == rest + [last];
      forall off: u64
        ensures AtOffset(SortByOffset(es), off) == AtOffset(es, off)
      {
        InsertIsStable(SortByOffset(rest), last, off);
      }
    }
  }

  lemma NothingIsOrdered()
    ensures Ordered([])
  {
  }

  /** A table in offset order already is left as it is. */
  lemma {:induction false} SortOfOrdered(es: seq<Entry>)
    requires Ordered(es)
    ensures SortByOffset(es) == es
  {
    if es != [] {
      SortOfOrdered(es[..|es| - 1]);
    }
  }

  lemma SortKeepsMembers(es: seq<Entry>, e: Entry)
    requires e in es
    ensures e in SortByOffset(es)
  {
    SortIsStableSort(es);
    assert e in multiset(es);
  }

  lemma {:induction false} LastMetaIsMember(es: seq<Entry>)
    ensures LastMeta(es).Some? ==> LastMeta(es).value in es && IsMeta(LastMeta(es).value.kind)
  {
    if es != [] && !IsMeta(es[|es| - 1].kind) {
      LastMetaIsMember(es[..|es| - 1]);
    }
  }

  /** How much the entries of one kind declare together. */
  function SizeOf(kind: Kind, es: seq<Entry>): nat {
    if es == [] then 0 else SizeOf(kind, es[..|es| - 1]) + (if es[|es| - 1].kind == kind then es[|es| - 1].size else 0)
  }

  lemma {:induction false} SizeOfPrefix(kind: Kind, es: seq<Entry>, n: nat)
    requires n <= |es|
    ensures SizeOf(kind, es[..n]) <= SizeOf(kind, es)
  {
    if n < |es| {
      SizeOfPrefix(kind, es[..|es| - 1], n);
      assert es[..|es| - 1][..n] == es[..n];
    } else {
      assert es[..n] == es;
    }
  }

  lemma PeekNeedsHeader(stream: bytes)
    ensures Pfs.PeekHeaderSize(stream).Ok? ==> |stream| >= Pfs.HEADER_SIZE
  {
  }

  /** Only a header of its full size, with something in its table, describes a container. */
  lemma LayoutNeedsHeader(stream: bytes)
    requires Layout(stream).Some?
    ensures |stream| >= Pfs.HEADER_SIZE && Pfs.PeekHeaderSize(stream).Ok?
    ensures Pfs.HEADER_SIZE < Pfs.PeekHeaderSize(stream).value.1 <= |stream|
  {
    hide Pfs.PeekHeaderSize, Pfs.Parse, SortByOffset;
    PeekNeedsHeader(stream);
    PeekIsPositive(stream);
    var size := Pfs.PeekHeaderSize(stream).value.1;
    var ctx := Pfs.Parse(stream[..size]).value;
    Pfs.PeekIsLocal(stream, stream[..size]);
    if size == Pfs.HEADER_SIZE {
      NoEntriesNoTable(stream[..size]);
    }
  }

  lemma NoEntriesNoTable(h: bytes)
    requires Pfs.Parse(h).Ok? && Pfs.PeekHeaderSize(h).Ok? && Pfs.PeekHeaderSize(h).value.1 == Pfs.HEADER_SIZE
    ensures Collect(Pfs.Parse(h).value, 0, []) == ([], None)
  {
    hide Pfs.NameOk;
  }

  /** And there is an entry in it, for without a meta content it is refused. */
  lemma LayoutHasEntries(stream: bytes)
    requires Layout(stream).Some?
    ensures Layout(stream).value.0 != []
  {
    hide Pfs.PeekHeaderSize, Pfs.Parse, Collect, SortByOffset;
    var es := Collect(Pfs.Parse(stream[..Layout(stream).value.1]).value, 0, []).0;
    SortKeepsMembers(es, es[0]);
  }
}
