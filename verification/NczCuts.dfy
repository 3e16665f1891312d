/**
 * When do the cuts of a compressed entry matter? The feed loop stops at a frame that ends without output and
 * drops what is left of that buffer, and a decompressor may hold output back until the next feed. This says
 * exactly when what is made depends on the feeds, and for which entries the rebuilt file does not.
 */
module NczCuts {
  import opened Bytes
  import opened InstallSpec
  import opened Ncz
  import opened NczDecode
  import opened NczRebuild

  // ----- what a feed drops -----

  /** The decompressor at the first frame that ends without output, and the bytes the feed loop drops there. */
  ghost function LeftOver<Z(!new)>(zstd: Zstd<Z>, z: Z, input: bytes): (r: Option<(Z, bytes)>)
    requires Sound(zstd)
    ensures r.Some? ==> r.value.1 != [] && |r.value.1| <= |input|
    decreases |input|, zstd.backlog(z)
  {
    if input == [] then None
    else
      assert SoundStep(zstd, z, input);
      var r := zstd.step(z, input);
      if r.failed then None
      else if r.frameEnded && r.out == [] then (if r.used == |input| then None else Some((r.z, input[r.used..])))
      else LeftOver(zstd, r.z, input[r.used..])
  }

  /** Nothing is dropped, or what is dropped would have come to nothing. */
  ghost predicate NothingLost<Z(!new)>(zstd: Zstd<Z>, z: Z, input: bytes)
    requires Sound(zstd)
  {
    match LeftOver(zstd, z, input)
    case None => true
    case Some((y, rest)) => Inflate(zstd, y, rest, true) == Inflation([], true, y)
  }

  /** The loop that stops and the loop that runs on differ by what is made of the dropped bytes. */
  lemma {:induction false} LoopsDiffer<Z(!new)>(zstd: Zstd<Z>, z: Z, input: bytes)
    requires Sound(zstd)
    ensures var stops, runs := Inflate(zstd, z, input, false), Inflate(zstd, z, input, true);
            match LeftOver(zstd, z, input)
            case None => stops == runs
            case Some((y, rest)) =>
              var g := Inflate(zstd, y, rest, true);
              stops == Inflation(stops.out, true, y) && runs == Inflation(stops.out + g.out, g.ok, g.z)
    decreases |input|, zstd.backlog(z)
  {
    if input != [] {
      assert SoundStep(zstd, z, input);
      var r := zstd.step(z, input);
      if !r.failed {
        if r.frameEnded && r.out == [] {
          if r.used == |input| {
            assert r.out + [] == r.out;
          } else {
            var g := Inflate(zstd, r.z, input[r.used..], true);
            assert [] + g.out == g.out;
          }
        } else {
          LoopsDiffer(zstd, r.z, input[r.used..]);
          var left := LeftOver(zstd, r.z, input[r.used..]);
          if left.Some? {
            var g := Inflate(zstd, left.value.0, left.value.1, true);
            var so := Inflate(zstd, r.z, input[r.used..], false).out;
            assert r.out + (so + g.out) == r.out + so + g.out;
          }
        }
      }
    }
  }

  /** The two loops make the same of a buffer exactly when nothing is lost. */
  lemma LoopsAgreeIff<Z(!new)>(zstd: Zstd<Z>, z: Z, input: bytes)
    requires Sound(zstd)
    ensures Inflate(zstd, z, input, true) == Inflate(zstd, z, input, false) <==> NothingLost(zstd, z, input)
  {
    hide Inflate, LeftOver;
    LoopsDiffer(zstd, z, input);
    var left := LeftOver(zstd, z, input);
    if left.Some? {
      var so, g := Inflate(zstd, z, input, false).out, Inflate(zstd, left.value.0, left.value.1, true);
      assert |so + g.out| == |so| <==> g.out == [];
      assert so + [] == so;
    }
  }

  // ----- what the bytes mean -----

  /**
   * What a decompressor makes of bytes, whatever buffers they come in: what it has understood so far, what it has
   * decompressed and not handed out yet, what one more byte adds, and whether a frame has just ended.
   */
  datatype Meaning<!Z, !Y> = Meaning(core: Z -> Y, held: Z -> bytes, read: (Y, byte) -> Option<(Y, bytes)>, between: Y -> bool)

  /** Reading byte after byte; nothing when some byte cannot follow. */
  function Reads<Z, Y>(m: Meaning<Z, Y>, y: Y, data: bytes): Option<(Y, bytes)> {
    if data == [] then Some((y, []))
    else
      match m.read(y, data[0])
      case None => None
      case Some((next, w)) => After(w, Reads(m, next, data[1..]))
  }

  function After<Y>(w: bytes, rest: Option<(Y, bytes)>): Option<(Y, bytes)> {
    match rest
    case None => None
    case Some((y, more)) => Some((y, w + more))
  }

  lemma {:induction false} ReadsBoth<Z, Y>(m: Meaning<Z, Y>, y: Y, a: bytes, b: bytes)
    ensures Reads(m, y, a + b) == match Reads(m, y, a) case None => None case Some((mid, w)) => After(w, Reads(m, mid, b))
    decreases |a|
  {
    if a == [] {
      assert a + b == b;
      var rest := Reads(m, y, b);
      if rest.Some? {
        assert [] + rest.value.1 == rest.value.1;
      }
    } else {
      assert (a + b)[1..] == a[1..] + b;
      var next := m.read(y, a[0]);
      if next.Some? {
        ReadsBoth(m, next.value.0, a[1..], b);
        var first := Reads(m, next.value.0, a[1..]);
        if first.Some? && Reads(m, first.value.0, b).Some? {
          var w, w1, w2 := next.value.1, first.value.1, Reads(m, first.value.0, b).value.1;
          assert w + (w1 + w2) == w + w1 + w2;
        }
      }
    }
  }

  /** A step fails only on bytes that cannot follow; otherwise what it hands out and holds back is what it has read. */
  ghost predicate SteadyStep<Z, Y>(zstd: Zstd<Z>, m: Meaning<Z, Y>, z: Z, input: bytes) {
    var r := zstd.step(z, input);
    if r.failed then Reads(m, m.core(z), input).None?
    else
      && r.used <= |input|
      && (r.frameEnded ==> m.between(m.core(r.z)))
      && match Reads(m, m.core(z), input[..r.used])
         case None => false
         case Some((y, w)) => m.core(r.z) == y && m.held(z) + w == r.out + m.held(r.z)
  }

  /** How output is spread over the steps is up to the decompressor, but at the end of a frame nothing is held back. */
  ghost predicate Steady<Z(!new), Y>(zstd: Zstd<Z>, m: Meaning<Z, Y>) {
    && m.held(zstd.start) == []
    && (forall z: Z :: m.between(m.core(z)) ==> m.held(z) == [])
    && (forall z: Z, input: bytes {:trigger SteadyStep(zstd, m, z, input)} :: input != [] ==> SteadyStep(zstd, m, z, input))
  }

  /** What is made of `data` is what it means, but for what is held back. */
  ghost predicate Means<Z, Y>(m: Meaning<Z, Y>, z: Z, data: bytes, f: Inflation<Z>) {
    match Reads(m, m.core(z), data)
    case None => !f.ok
    case Some((y, w)) => f.ok && m.core(f.z) == y && m.held(z) + w == f.out + m.held(f.z)
  }

  /** A loop that runs on makes what the bytes mean. */
  lemma {:induction false} RunMeans<Z(!new), Y>(zstd: Zstd<Z>, m: Meaning<Z, Y>, z: Z, input: bytes)
    requires Sound(zstd) && Steady(zstd, m)
    ensures Means(m, z, input, Inflate(zstd, z, input, true))
    decreases |input|, zstd.backlog(z)
  {
    if input == [] {
      assert m.held(z) + [] == [] + m.held(z);
    } else {
      assert SoundStep(zstd, z, input) && SteadyStep(zstd, m, z, input);
      var r := zstd.step(z, input);
      if !r.failed {
        var used, rest := input[..r.used], input[r.used..];
        assert used + rest == input;
        RunMeans(zstd, m, r.z, rest);
        ReadsBoth(m, m.core(z), used, rest);
        ThenMeans(m, z, used, Inflation(r.out, true, r.z), rest, Inflate(zstd, r.z, rest, true));
      }
    }
  }

  /** One stretch behind another. */
  lemma ThenMeans<Z, Y>(m: Meaning<Z, Y>, z: Z, a: bytes, f: Inflation<Z>, b: bytes, g: Inflation<Z>)
    requires Means(m, z, a, f) && (f.ok ==> Means(m, f.z, b, g))
    ensures Means(m, z, a + b, if f.ok then Inflation(f.out + g.out, g.ok, g.z) else f)
  {
    hide Reads;
    ReadsBoth(m, m.core(z), a, b);
    if f.ok && g.ok {
      var w1, w2 := Reads(m, m.core(z), a).value.1, Reads(m, m.core(f.z), b).value.1;
      assert m.held(z) + (w1 + w2) == m.held(z) + w1 + w2 == f.out + (m.held(f.z) + w2) == f.out + g.out + m.held(g.z);
    }
  }

  // ----- a decompressor that does not look ahead -----

  ghost predicate LocalStep<Z(!new)>(zstd: Zstd<Z>, z: Z, input: bytes, n: nat)
    requires n <= |input|
  {
    var r := zstd.step(z, input);
    !r.failed && r.used <= n ==> zstd.step(z, input[..n]) == r && (r.frameEnded && r.out == [] ==> r.used > 0)
  }

  /** A step is the same with less input, if that still holds what it uses; and a frame does not end on nothing at all. */
  ghost predicate Local<Z(!new)>(zstd: Zstd<Z>) {
    forall z: Z, input: bytes, n: nat {:trigger LocalStep(zstd, z, input, n)} :: 0 < n <= |input| ==> LocalStep(zstd, z, input, n)
  }

  /** The bytes before the dropped ones, fed alone, are all used. */
  lemma {:induction false} StopsAlone<Z(!new)>(zstd: Zstd<Z>, z: Z, input: bytes)
    requires Sound(zstd) && Local(zstd) && LeftOver(zstd, z, input).Some?
    ensures var (y, rest) := LeftOver(zstd, z, input).value;
            var n := |input| - |rest|;
            && 0 < n < |input| && input[n..] == rest
            && Inflate(zstd, z, input[..n], false) == Inflate(zstd, z, input[..n], true) == Inflate(zstd, z, input, false)
    decreases |input|, zstd.backlog(z)
  {
    assert SoundStep(zstd, z, input);
    var r := zstd.step(z, input);
    assert LocalStep(zstd, z, input, |input|);
    var (y, rest) := LeftOver(zstd, z, input).value;
    var n := |input| - |rest|;
    if r.frameEnded && r.out == [] {
      assert LocalStep(zstd, z, input, n);
      assert input[..n][n..] == [];
    } else {
      var more := input[r.used..];
      StopsAlone(zstd, r.z, more);
      assert |more| - |rest| == n - r.used;
      assert LocalStep(zstd, z, input, n);
      assert input[..n][r.used..] == more[..n - r.used];
      assert input[n..] == more[n - r.used..];
    }
  }

  /** Where a feed stops, nothing is held back. */
  lemma {:induction false} NothingHeldThere<Z(!new), Y>(zstd: Zstd<Z>, m: Meaning<Z, Y>, z: Z, input: bytes)
    requires Sound(zstd) && Steady(zstd, m) && LeftOver(zstd, z, input).Some?
    ensures var y := LeftOver(zstd, z, input).value.0; m.between(m.core(y)) && m.held(y) == []
    decreases |input|, zstd.backlog(z)
  {
    assert SoundStep(zstd, z, input) && SteadyStep(zstd, m, z, input);
    var r := zstd.step(z, input);
    if !(r.frameEnded && r.out == []) {
      NothingHeldThere(zstd, m, r.z, input[r.used..]);
    }
  }

  /** A feed that drops nothing makes what it means; one that stops makes what it means up to there. */
  lemma FeedMeans<Z(!new), Y>(zstd: Zstd<Z>, m: Meaning<Z, Y>, z: Z, input: bytes)
    requires Sound(zstd) && Steady(zstd, m) && Local(zstd)
    ensures match LeftOver(zstd, z, input)
            case None => Means(m, z, input, Inflate(zstd, z, input, false))
            case Some((y, rest)) =>
              var n := |input| - |rest|;
              && 0 < n < |input| && input[n..] == rest
              && Inflate(zstd, z, input[..n], false) == Inflate(zstd, z, input, false)
              && Inflate(zstd, z, input, false).ok && Inflate(zstd, z, input, false).z == y
              && Means(m, z, input[..n], Inflate(zstd, z, input, false))
              && m.between(m.core(y)) && m.held(y) == []
  {
    hide Inflate, LeftOver, Means;
    LoopsDiffer(zstd, z, input);
    var left := LeftOver(zstd, z, input);
    if left.None? {
      RunMeans(zstd, m, z, input);
    } else {
      StopsAlone(zstd, z, input);
      RunMeans(zstd, m, z, input[..|input| - |left.value.1|]);
      NothingHeldThere(zstd, m, z, input);
    }
  }

  // ----- exactly when cuts do not matter -----

  /** From `y` on it comes to nothing. */
  ghost predicate Nothing<Z, Y>(m: Meaning<Z, Y>, y: Z, g: Inflation<Z>) {
    g.ok && g.out == [] && m.held(g.z) == [] && m.core(g.z) == m.core(y)
  }

  /** A chunk fed behind these feeds drops nothing, or what it drops would have come to nothing. */
  ghost predicate KeepsAll<Z(!new), Y>(zstd: Zstd<Z>, m: Meaning<Z, Y>, packed: bytes, feeds: seq<bytes>, chunk: bytes)
    requires Sound(zstd)
  {
    var f := Made(zstd, packed, feeds);
    f.ok ==>
      match LeftOver(zstd, f.z, chunk)
      case None => true
      case Some((y, rest)) => Nothing(m, y, Inflate(zstd, y, rest, false))
  }

  /** No byte of the payload follows a silent frame end inside a buffer, or what follows comes to nothing. */
  ghost predicate NothingFollows<Z(!new), Y>(zstd: Zstd<Z>, m: Meaning<Z, Y>, p: bytes)
    requires Sound(zstd)
  {
    forall packed, feeds, chunk {:trigger KeepsAll(zstd, m, packed, feeds, chunk)} ::
      MAGIC_SIZE <= |packed| && packed + Joined(feeds) + chunk <= p ==> KeepsAll(zstd, m, packed, feeds, chunk)
  }

  /** Two ways of cutting the same bytes come to the same, but for what is still held back. */
  ghost predicate SameMade<Z(!new), Y>(zstd: Zstd<Z>, m: Meaning<Z, Y>, packed: bytes, feeds: seq<bytes>, other: bytes,
                                       others: seq<bytes>)
    requires Sound(zstd)
  {
    var f, g := Made(zstd, packed, feeds), Made(zstd, other, others);
    f.ok == g.ok && (f.ok ==> m.core(f.z) == m.core(g.z) && f.out + m.held(f.z) == g.out + m.held(g.z))
  }

  /** However the payload, or any first part of it, is cut, the decompressor comes to the same. */
  ghost predicate AllCutsAgree<Z(!new), Y>(zstd: Zstd<Z>, m: Meaning<Z, Y>, p: bytes)
    requires Sound(zstd)
  {
    forall packed, feeds, other, others {:trigger SameMade(zstd, m, packed, feeds, other, others)} ::
      MAGIC_SIZE <= |packed| && MAGIC_SIZE <= |other| && packed + Joined(feeds) == other + Joined(others) <= p
      ==> SameMade(zstd, m, packed, feeds, other, others)
  }

  /** A feed that stops stands where the part of it that was used leads alone. */
  lemma StopsThere<Z(!new)>(zstd: Zstd<Z>, packed: bytes, feeds: seq<bytes>, chunk: bytes)
    requires Sound(zstd) && Local(zstd) && Made(zstd, packed, feeds).ok
    requires LeftOver(zstd, Made(zstd, packed, feeds).z, chunk).Some?
    ensures var (y, rest) := LeftOver(zstd, Made(zstd, packed, feeds).z, chunk).value;
            var n := |chunk| - |rest|;
            && 0 < n < |chunk| && chunk[n..] == rest
            && Made(zstd, packed, feeds + [chunk[..n]]) == Made(zstd, packed, feeds + [chunk])
            && Made(zstd, packed, feeds + [chunk]).ok && Made(zstd, packed, feeds + [chunk]).z == y
            && packed + Joined(feeds + [chunk[..n]]) + rest == packed + Joined(feeds) + chunk
  {
    hide Inflate, LeftOver, Made, Local;
    var z := Made(zstd, packed, feeds).z;
    var (y, rest) := LeftOver(zstd, z, chunk).value;
    LoopsDiffer(zstd, z, chunk);
    StopsAlone(zstd, z, chunk);
    var n := |chunk| - |rest|;
    MadeMore(zstd, packed, feeds, chunk);
    MadeMore(zstd, packed, feeds, chunk[..n]);
    JoinedMore(feeds, chunk[..n]);
    assert packed + (Joined(feeds) + chunk[..n]) + chunk[n..] == packed + Joined(feeds) + chunk;
  }

  /** What is dropped means nothing. */
  lemma {:induction false} DroppedMeansNothing<Z(!new), Y>(zstd: Zstd<Z>, m: Meaning<Z, Y>, p: bytes, packed: bytes,
                                                           feeds: seq<bytes>, chunk: bytes)
    requires Sound(zstd) && Steady(zstd, m) && Local(zstd) && NothingFollows(zstd, m, p)
    requires MAGIC_SIZE <= |packed| && packed + Joined(feeds) + chunk <= p && Made(zstd, packed, feeds).ok
    requires LeftOver(zstd, Made(zstd, packed, feeds).z, chunk).Some?
    ensures var (y, rest) := LeftOver(zstd, Made(zstd, packed, feeds).z, chunk).value; Reads(m, m.core(y), rest) == Some((m.core(y), []))
    decreases |LeftOver(zstd, Made(zstd, packed, feeds).z, chunk).value.1|
  {
    hide Inflate, LeftOver, Made, Reads, NothingFollows, Local, Steady, Joined;
    assert KeepsAll(zstd, m, packed, feeds, chunk) by { KeepsThis(zstd, m, p, packed, feeds, chunk); }
    StopsThere(zstd, packed, feeds, chunk);
    var z := Made(zstd, packed, feeds).z;
    FeedMeans(zstd, m, z, chunk);
    var (y, rest) := LeftOver(zstd, z, chunk).value;
    var more := feeds + [chunk[..|chunk| - |rest|]];
    FeedMeans(zstd, m, y, rest);
    var again := LeftOver(zstd, y, rest);
    if again.Some? {
      var (y2, rest2) := again.value;
      DroppedMeansNothing(zstd, m, p, packed, more, rest);
      var n := |rest| - |rest2|;
      ReadsBoth(m, m.core(y), rest[..n], rest[n..]);
      assert rest[..n] + rest[n..] == rest;
    }
  }

  lemma KeepsThis<Z(!new), Y>(zstd: Zstd<Z>, m: Meaning<Z, Y>, p: bytes, packed: bytes, feeds: seq<bytes>, chunk: bytes)
    requires Sound(zstd) && NothingFollows(zstd, m, p) && MAGIC_SIZE <= |packed| && packed + Joined(feeds) + chunk <= p
    ensures KeepsAll(zstd, m, packed, feeds, chunk)
  {
    hide KeepsAll;
  }

  /** Where nothing follows, what any feeds make is what the bytes mean, but for what is held back. */
  lemma {:induction false} MadeMeans<Z(!new), Y>(zstd: Zstd<Z>, m: Meaning<Z, Y>, p: bytes, packed: bytes, feeds: seq<bytes>)
    requires Sound(zstd) && Steady(zstd, m) && Local(zstd) && NothingFollows(zstd, m, p)
    requires MAGIC_SIZE <= |packed| && packed + Joined(feeds) <= p
    ensures Means(m, zstd.start, packed + Joined(feeds), Made(zstd, packed, feeds))
    decreases |feeds|
  {
    hide Inflate, LeftOver, Reads, NothingFollows, Local, Steady, Means;
    if feeds == [] {
      assert packed + [] == packed;
      RunMeans(zstd, m, zstd.start, packed);
    } else {
      var n := |feeds| - 1;
      var before, chunk := feeds[..n], feeds[n];
      assert feeds == before + [chunk];
      JoinedMore(before, chunk);
      assert packed + Joined(before) + chunk == packed + Joined(feeds);
      MadeMeans(zstd, m, p, packed, before);
      var f := Made(zstd, packed, before);
      if f.ok {
        ChunkMeans(zstd, m, p, packed, before, chunk);
      }
      ThenMeans(m, zstd.start, packed + Joined(before), f, chunk, Inflate(zstd, f.z, chunk, false));
    }
  }

  lemma ChunkMeans<Z(!new), Y>(zstd: Zstd<Z>, m: Meaning<Z, Y>, p: bytes, packed: bytes, feeds: seq<bytes>, chunk: bytes)
    requires Sound(zstd) && Steady(zstd, m) && Local(zstd) && NothingFollows(zstd, m, p)
    requires MAGIC_SIZE <= |packed| && packed + Joined(feeds) + chunk <= p && Made(zstd, packed, feeds).ok
    ensures var z := Made(zstd, packed, feeds).z; Means(m, z, chunk, Inflate(zstd, z, chunk, false))
  {
    hide Inflate, LeftOver, Made, Reads, NothingFollows, Local, Steady;
    var z := Made(zstd, packed, feeds).z;
    FeedMeans(zstd, m, z, chunk);
    var left := LeftOver(zstd, z, chunk);
    if left.Some? {
      var (y, rest) := left.value;
      DroppedMeansNothing(zstd, m, p, packed, feeds, chunk);
      var n := |chunk| - |rest|;
      ReadsBoth(m, m.core(z), chunk[..n], chunk[n..]);
      assert chunk[..n] + chunk[n..] == chunk;
      var w := Reads(m, m.core(z), chunk[..n]).value.1;
      assert w + [] == w;
    }
  }

  /** Cutting a chunk where the feed would stop tells whether what it drops comes to nothing. */
  lemma AgreeingKeepsAll<Z(!new), Y>(zstd: Zstd<Z>, m: Meaning<Z, Y>, p: bytes, packed: bytes, feeds: seq<bytes>, chunk: bytes)
    requires Sound(zstd) && Steady(zstd, m) && Local(zstd) && AllCutsAgree(zstd, m, p)
    requires MAGIC_SIZE <= |packed| && packed + Joined(feeds) + chunk <= p
    ensures KeepsAll(zstd, m, packed, feeds, chunk)
  {
    hide Inflate, LeftOver, Made, Local, Steady, Joined;
    var f := Made(zstd, packed, feeds);
    if f.ok && LeftOver(zstd, f.z, chunk).Some? {
      var (y, rest) := LeftOver(zstd, f.z, chunk).value;
      StopsThere(zstd, packed, feeds, chunk);
      NothingHeldThere(zstd, m, f.z, chunk);
      var more := feeds + [chunk[..|chunk| - |rest|]];
      MadeMore(zstd, packed, more, rest);
      JoinedMore(feeds, chunk);
      JoinedMore(more, rest);
      assert packed + Joined(more + [rest]) == packed + Joined(more) + rest;
      assert packed + Joined(feeds + [chunk]) == packed + Joined(feeds) + chunk;
      assert SameMade(zstd, m, packed, feeds + [chunk], packed, more + [rest]);
      var so, g := Made(zstd, packed, more).out, Inflate(zstd, y, rest, false);
      assert |so + g.out + m.held(g.z)| == |so| + |g.out| + |m.held(g.z)|;
    }
  }

  /**
   * For a decompressor that does not look ahead, hold back what it may between the feeds: all ways of cutting a
   * payload come to the same if and only if inside no buffer a byte follows a frame that ends without output,
   * unless the bytes that follow come to nothing.
   */
  lemma CutsAgreeIffNothingFollows<Z(!new), Y>(zstd: Zstd<Z>, m: Meaning<Z, Y>, p: bytes)
    requires Sound(zstd) && Steady(zstd, m) && Local(zstd)
    ensures AllCutsAgree(zstd, m, p) <==> NothingFollows(zstd, m, p)
  {
    hide Local, Steady, Made, Joined, KeepsAll, Reads;
    if NothingFollows(zstd, m, p) {
      forall packed, feeds, other, others | MAGIC_SIZE <= |packed| && MAGIC_SIZE <= |other| && packed + Joined(feeds) == other + Joined(others) <= p
        ensures SameMade(zstd, m, packed, feeds, other, others)
      {
        MadeMeans(zstd, m, p, packed, feeds);
        MadeMeans(zstd, m, p, other, others);
      }
    }
    if AllCutsAgree(zstd, m, p) {
      forall packed, feeds, chunk | MAGIC_SIZE <= |packed| && packed + Joined(feeds) + chunk <= p
        ensures KeepsAll(zstd, m, packed, feeds, chunk)
      {
        AgreeingKeepsAll(zstd, m, p, packed, feeds, chunk);
      }
    }
  }

  // ----- finished entries -----

  /** The file an entry describes: what its payload means, exactly as long as its table says. No feeds come into it. */
  ghost function Rebuild<Z(!new), Y>(zstd: Zstd<Z>, m: Meaning<Z, Y>, aes: BlockCipher, x: bytes): Option<File> {
    if !TableBuffered(x) || Parse(x[HEADER_OFFSET..]).Err? then None
    else
      var table := TableOf(x);
      match Reads(m, m.core(zstd.start), Payload(x))
      case None => None
      case Some((y, w)) =>
        if HEADER_OFFSET + |w| == table.decompressedSize
        then Some(File(table.decompressedSize, x[..HEADER_OFFSET] + Rebuilt(aes, table, HEADER_OFFSET, w)))
        else None
  }

  /** Where these bytes end the decompressor has nothing to hold back, as between frames or if it never does. */
  ghost predicate HandedOut<Z(!new), Y>(zstd: Zstd<Z>, m: Meaning<Z, Y>, data: bytes) {
    match Reads(m, m.core(zstd.start), data)
    case None => true
    case Some((y, w)) => forall z: Z :: m.core(z) == y ==> m.held(z) == []
  }

  /** Nothing of the payload is dropped in any cut, and nothing is held back at its end. */
  ghost predicate Clean<Z(!new), Y>(zstd: Zstd<Z>, m: Meaning<Z, Y>, x: bytes)
    requires Sound(zstd)
  {
    NothingFollows(zstd, m, Payload(x)) && (TableBuffered(x) ==> HandedOut(zstd, m, Payload(x)))
  }

  /** A payload of whole frames leaves nothing held back. */
  lemma BetweenIsHandedOut<Z(!new), Y>(zstd: Zstd<Z>, m: Meaning<Z, Y>, data: bytes)
    requires Steady(zstd, m)
    requires Reads(m, m.core(zstd.start), data).Some? ==> m.between(Reads(m, m.core(zstd.start), data).value.0)
    ensures HandedOut(zstd, m, data)
  {
    hide Reads, SteadyStep;
  }

  /** With nothing held back, what is out is what was meant. */
  lemma WholeIsOut<Z(!new), Y>(zstd: Zstd<Z>, m: Meaning<Z, Y>, data: bytes, f: Inflation<Z>)
    requires Steady(zstd, m) && Means(m, zstd.start, data, f) && HandedOut(zstd, m, data)
    ensures var r := Reads(m, m.core(zstd.start), data); f.ok == r.Some? && (f.ok ==> f.out == r.value.1 && m.held(f.z) == [])
  {
    hide Reads, SteadyStep;
    if f.ok {
      var w := Reads(m, m.core(zstd.start), data).value.1;
      assert [] + w == w && f.out + [] == f.out;
    }
  }

  /** However a clean entry is cut, it rebuilds to the file it describes, or in no cut to anything. */
  lemma CleanCutsRebuild<Z(!new), Y>(zstd: Zstd<Z>, m: Meaning<Z, Y>, aes: BlockCipher, feeds: seq<bytes>)
    requires Sound(zstd) && Steady(zstd, m) && Local(zstd) && Clean(zstd, m, Joined(feeds))
    ensures RebuildAlong(zstd, aes, feeds) == Rebuild(zstd, m, aes, Joined(feeds))
  {
    hide Local, Made, Joined, Parse, HeaderSizeFor, Reads, NothingFollows, Rebuilt, HandedOut;
    HistoryIsEntry(feeds);
    var h, x := HistoryOf(feeds), Joined(feeds);
    if h.Opened? {
      TableStays(h.x, Joined(h.feeds));
      PayloadGrows(h.x, Joined(h.feeds));
      if Parse(h.x[HEADER_OFFSET..]).Ok? {
        MadeMeans(zstd, m, Payload(x), Payload(h.x), h.feeds);
        WholeIsOut(zstd, m, Payload(x), MadeBehind(zstd, h.x, h.feeds));
      }
    }
  }

  /** What the decompressor still holds back when these feeds of an entry are over. */
  ghost function HeldBack<Z(!new), Y>(zstd: Zstd<Z>, m: Meaning<Z, Y>, feeds: seq<bytes>): bytes
    requires Sound(zstd)
  {
    match HistoryOf(feeds)
    case Closed => []
    case Opened(x, fs) => m.held(MadeBehind(zstd, x, fs).z)
  }

  /** An entry that describes a file and loses no bytes rebuilds to it in exactly those cuts that leave nothing held back. */
  lemma RebuildsIffHandedOut<Z(!new), Y>(zstd: Zstd<Z>, m: Meaning<Z, Y>, aes: BlockCipher, feeds: seq<bytes>)
    requires Sound(zstd) && Steady(zstd, m) && Local(zstd) && NothingFollows(zstd, m, Payload(Joined(feeds)))
    requires Rebuild(zstd, m, aes, Joined(feeds)).Some?
    ensures RebuildAlong(zstd, aes, feeds).Some? <==> HeldBack(zstd, m, feeds) == []
    ensures RebuildAlong(zstd, aes, feeds).Some? ==> RebuildAlong(zstd, aes, feeds) == Rebuild(zstd, m, aes, Joined(feeds))
  {
    hide Local, Made, Joined, Parse, HeaderSizeFor, Reads, NothingFollows, Rebuilt;
    HistoryIsEntry(feeds);
    var h, x := HistoryOf(feeds), Joined(feeds);
    PayloadGrows(h.x, Joined(h.feeds));
    MadeMeans(zstd, m, Payload(x), Payload(h.x), h.feeds);
    var f := MadeBehind(zstd, h.x, h.feeds);
    var w := Reads(m, m.core(zstd.start), Payload(x)).value.1;
    assert [] + w == w;
    assert |f.out + m.held(f.z)| == |f.out| + |m.held(f.z)|;
    if m.held(f.z) == [] {
      assert f.out + [] == f.out;
    }
  }

  /** The payload is whole frames that end where it ends: no frame ends inside it, but for its first bytes. */
  ghost predicate Sealed<Z, Y>(zstd: Zstd<Z>, m: Meaning<Z, Y>, p: bytes) {
    && (Reads(m, m.core(zstd.start), p).Some? ==> m.between(Reads(m, m.core(zstd.start), p).value.0))
    && (forall k {:trigger p[..k]} :: MAGIC_SIZE < k < |p| ==> EndsInside(zstd, m, p[..k]))
  }

  ghost predicate EndsInside<Z, Y>(zstd: Zstd<Z>, m: Meaning<Z, Y>, p: bytes) {
    var r := Reads(m, m.core(zstd.start), p);
    r.Some? ==> !m.between(r.value.0)
  }

  /** No feed of such a payload stops before its end. */
  lemma {:induction false} SealedMeans<Z(!new), Y>(zstd: Zstd<Z>, m: Meaning<Z, Y>, p: bytes, packed: bytes, feeds: seq<bytes>)
    requires Sound(zstd) && Steady(zstd, m) && Local(zstd) && Sealed(zstd, m, p)
    requires MAGIC_SIZE <= |packed| && packed + Joined(feeds) <= p
    ensures Means(m, zstd.start, packed + Joined(feeds), Made(zstd, packed, feeds))
    decreases |feeds|
  {
    hide Inflate, LeftOver, Reads, Local, Steady, Means, Sealed;
    if feeds == [] {
      assert packed + [] == packed;
      RunMeans(zstd, m, zstd.start, packed);
    } else {
      var n := |feeds| - 1;
      var before, chunk := feeds[..n], feeds[n];
      assert feeds == before + [chunk];
      JoinedMore(before, chunk);
      assert packed + Joined(before) + chunk == packed + Joined(feeds);
      SealedMeans(zstd, m, p, packed, before);
      var f := Made(zstd, packed, before);
      if f.ok {
        SealedStopsNowhere(zstd, m, p, packed + Joined(before), f, chunk);
        FeedMeans(zstd, m, f.z, chunk);
      }
      ThenMeans(m, zstd.start, packed + Joined(before), f, chunk, Inflate(zstd, f.z, chunk, false));
    }
  }

  lemma SealedStopsNowhere<Z(!new), Y>(zstd: Zstd<Z>, m: Meaning<Z, Y>, p: bytes, before: bytes, f: Inflation<Z>, chunk: bytes)
    requires Sound(zstd) && Steady(zstd, m) && Local(zstd) && Sealed(zstd, m, p)
    requires MAGIC_SIZE <= |before| && before + chunk <= p && f.ok && Means(m, zstd.start, before, f)
    ensures LeftOver(zstd, f.z, chunk).None?
  {
    hide Inflate, LeftOver, Reads, Local, Steady, Sealed;
    var left := LeftOver(zstd, f.z, chunk);
    if left.Some? {
      var k := |before| + |chunk| - |left.value.1|;
      StopsBetween(zstd, m, p, before, f, chunk);
      NeverBetween(zstd, m, p, k);
    }
  }

  lemma StopsBetween<Z(!new), Y>(zstd: Zstd<Z>, m: Meaning<Z, Y>, p: bytes, before: bytes, f: Inflation<Z>, chunk: bytes)
    requires Sound(zstd) && Steady(zstd, m) && Local(zstd)
    requires before + chunk <= p && f.ok && Means(m, zstd.start, before, f) && LeftOver(zstd, f.z, chunk).Some?
    ensures var k := |before| + |chunk| - |LeftOver(zstd, f.z, chunk).value.1|;
            |before| < k < |p| && !EndsInside(zstd, m, p[..k])
  {
    hide Inflate, LeftOver, Reads, Local, Steady;
    FeedMeans(zstd, m, f.z, chunk);
    var n := |chunk| - |LeftOver(zstd, f.z, chunk).value.1|;
    assert before + chunk[..n] == p[..|before| + n];
    ReadsBoth(m, m.core(zstd.start), before, chunk[..n]);
  }

  lemma NeverBetween<Z, Y>(zstd: Zstd<Z>, m: Meaning<Z, Y>, p: bytes, k: nat)
    requires Sealed(zstd, m, p) && MAGIC_SIZE < k < |p|
    ensures EndsInside(zstd, m, p[..k])
  {
    hide EndsInside;
  }

  /** Such an entry is clean, whatever steps its decompressor takes. */
  lemma SealedIsClean<Z(!new), Y>(zstd: Zstd<Z>, m: Meaning<Z, Y>, x: bytes)
    requires Sound(zstd) && Steady(zstd, m) && Local(zstd) && Sealed(zstd, m, Payload(x))
    ensures Clean(zstd, m, x)
  {
    hide Reads, Local, Steady, Payload, Made, Means, LeftOver, Joined, HandedOut, HeaderSizeFor;
    var p := Payload(x);
    BetweenIsHandedOut(zstd, m, p);
    forall packed, feeds, chunk | MAGIC_SIZE <= |packed| && packed + Joined(feeds) + chunk <= p
      ensures KeepsAll(zstd, m, packed, feeds, chunk)
    {
      assert packed + Joined(feeds) <= p by { PrefixOfPrefix(packed + Joined(feeds), chunk, p); }
      SealedMeans(zstd, m, p, packed, feeds);
      var f := Made(zstd, packed, feeds);
      if f.ok {
        SealedStopsNowhere(zstd, m, p, packed + Joined(feeds), f, chunk);
      }
    }
  }

  lemma PrefixOfPrefix(a: bytes, b: bytes, p: bytes)
    requires a + b <= p
    ensures a <= p
  {
  }
}
