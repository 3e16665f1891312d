/** The console's backend does not look at the cuts, so an install ends in the same console however it is cut. */
module HorizonCuts {
  import opened Bytes
  import opened InstallSpec
  import opened Services
  import opened Horizon
  import opened ChunkIndependence

  /** Two pieces written one behind the other are one write of both. */
  lemma OverwriteTwice(prior: bytes, off: nat, a: bytes, b: bytes)
    requires off + |a| + |b| <= |prior|
    ensures Overwrite(Overwrite(prior, off, a), off + |a|, b) == Overwrite(prior, off, a + b)
  {
    var once := Overwrite(prior, off, a);
    assert once[..off + |a|] == prior[..off] + a;
    assert once[off + |a| + |b|..] == prior[off + |a| + |b|..];
  }

  lemma TakesTwice(c: Console, off: nat, m: nat, n: nat)
    ensures Takes(c, off, m + n) <==> Takes(c, off, m) && Takes(c, off + m, n)
  {
  }

  lemma WriteAtTwice(c: Console, ph: nat, off: nat, a: bytes, b: bytes)
    ensures var first, whole := WriteAt(c, ph, off, a), WriteAt(c, ph, off, a + b);
            var second := WriteAt(first.user, ph, off + |a|, b);
            && (whole.ok <==> first.ok && second.ok)
            && (whole.ok ==> whole.user == second.user)
            && (first.ok ==> off + |a| < U64_LIMIT)
  {
    hide Takes, Overwrite;
    TakesTwice(c, off, |a|, |b|);
    var first := WriteAt(c, ph, off, a);
    if first.ok {
      assert Takes(first.user, off + |a|, |b|) == Takes(c, off + |a|, |b|) by { TakesIsLocal(c, first.user, off + |a|, |b|); }
      if off + |a| + |b| <= |c.placeholders[ph]| {
        OverwriteTwice(c.placeholders[ph], off, a, b);
      }
    }
  }

  lemma TakesIsLocal(c: Console, d: Console, off: nat, n: nat)
    requires c.out == d.out && c.calls == d.calls
    ensures Takes(c, off, n) == Takes(d, off, n)
  {
  }

  /** Whichever bytes cannot be written, the content hooks of the console do not look at the cuts. */
  lemma ConsoleIsCutFree()
    ensures CutFreeBackend(HorizonOps())
  {
    hide WriteAt;
    forall h: Horizon, a: bytes, b: bytes | a != [] && b != []
      ensures WriteSplits(HorizonOps(), h, a, b)
    {
      WriteAtTwice(h.console, h.placeholder, h.writeOffset, a, b);
      AdvanceTwice(h.writeOffset, |a|, |b|);
      AdvanceTwice(h.writeOffset, |a|, 0);
    }
  }

  /** Any two cuttings of a stream leave the same console, or fail for the same reason. */
  lemma ConsoleIgnoresCuts<D(!new)>(env: Env<Horizon, D>, before: Console, storageId: u8, d: D, chunks: seq<bytes>,
                                    others: seq<bytes>)
    requires env.ops == HorizonOps()
    requires Joined(chunks) == Joined(others) && |Joined(chunks)| < U64_LIMIT
    requires CalmStream(Joined(chunks)) && SeamlessStream(env.ncz, Joined(chunks))
    ensures var s := Begin(env, FreshBackend(before, storageId), d);
            && Valid(env, s)
            && var t, u := FeedAll(env, s, chunks), FeedAll(env, s, others);
               t.stage == u.stage && (!t.stage.Failed? ==> t == u)
  {
    hide CutFreeBackend, FeedAll, CalmStream, SeamlessStream;
    ConsoleIsCutFree();
    ChunkBoundariesDoNotMatter(env, FreshBackend(before, storageId), d, chunks, others);
  }
}
