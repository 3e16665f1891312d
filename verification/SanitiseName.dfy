/** Making a title's name fit for hosts and file systems: whole UTF-8 sequences, no forbidden byte, nothing trailing. */
module SanitiseName {
  import opened Bytes

  const SPACE: byte := 0x20
  const DOT: byte := 0x2E

  /** The bytes a name may not hold: control characters and those Windows forbids. */
  predicate Forbidden(c: byte) {
    c < 0x20 || c == 0x2F || c == 0x5C || c == 0x3A || c == 0x2A || c == 0x3F || c == 0x22 || c == 0x3C || c == 0x3E || c == 0x7C
  }

  /** The length a lead byte announces; 0 for a continuation byte or no lead at all. */
  function SeqLen(c: byte): (n: nat)
    ensures n <= 4
  {
    if c < 0x80 then 1
    else if 0xC0 <= c < 0xE0 then 2
    else if 0xE0 <= c < 0xF0 then 3
    else if 0xF0 <= c < 0xF8 then 4
    else 0
  }

  /** The sequence at the front is all there. */
  predicate WholeAt(s: bytes)
    requires s != []
  {
    var n := SeqLen(s[0]);
    0 < n <= |s| && forall k :: 1 <= k < n ==> IsTail(s[k])
  }

  /** What is copied of a name into `room` bytes. */
  function Copied(s: bytes, room: nat): (r: bytes)
    ensures |r| <= room
    decreases |s|
  {
    if s == [] then []
    else
      var n := SeqLen(s[0]);
      if n == 0 then Copied(s[1..], room)
      else if !WholeAt(s) then []
      else if n == 1 && Forbidden(s[0]) then Copied(s[1..], room)
      else if n > room then []
      else s[..n] + Copied(s[n..], room - n)
  }

  predicate Trims(c: byte) {
    c == SPACE || c == DOT
  }

  function Trimmed(s: bytes): (r: bytes)
    ensures r <= s && (r == [] || !Trims(r[|r| - 1]))
  {
    if s != [] && Trims(s[|s| - 1]) then Trimmed(s[..|s| - 1]) else s
  }

  /** The whole function, for a buffer of `size` bytes with its terminator. */
  function Sanitised(s: bytes, size: nat): bytes
    requires size > 0
  {
    Trimmed(Copied(s, size - 1))
  }

  method Sanitise(s: bytes, out: array<byte>) returns (w: nat)
    requires out.Length > 0
    modifies out
    ensures w < out.Length && out[..w] == Sanitised(s, out.Length) && out[w] == 0
  {
    hide Copied;
    w := CopyInto(s, out);
    ghost var whole := out[..w];
    while w > 0 && Trims(out[w - 1])
      invariant w < out.Length && Trimmed(out[..w]) == Trimmed(whole)
      decreases w
    {
      assert out[..w][..w - 1] == out[..w - 1];
      w := w - 1;
    }
    assert Trimmed(out[..w]) == out[..w];
    ghost var name := out[..w];
    out[w] := 0;
    assert out[..w] == name;
  }

  /** The copying loop; it stops at a broken sequence and before one that does not fit. */
  method CopyInto(s: bytes, out: array<byte>) returns (w: nat)
    requires out.Length > 0
    modifies out
    ensures w < out.Length && out[..w] == Copied(s, out.Length - 1)
  {
    hide Forbidden, SeqLen, WholeAt, Copied;
    w := 0;
    var i: nat := 0;
    ghost var whole := Copied(s, out.Length - 1);
    assert s[0..] == s && out[..0] == [] && [] + whole == whole;
    while i < |s|
      invariant i <= |s| && w < out.Length
      invariant whole == out[..w] + Copied(s[i..], out.Length - 1 - w)
      decreases |s| - i
    {
      ghost var rest, done := s[i..], out[..w];
      assert rest[0] == s[i] && rest[1..] == s[i + 1..];
      CopiedStep(rest, out.Length - 1 - w);
      var n := SeqLen(s[i]);
      if n == 0 {
        i := i + 1;
      } else if !WholeAt(s[i..]) {
        assert done + [] == done;
        return;
      } else if n == 1 && Forbidden(s[i]) {
        i := i + 1;
      } else if w + n + 1 > out.Length {
        assert done + [] == done;
        return;
      } else {
        Copy(out, w, s[i..i + n]);
        assert rest[..n] == s[i..i + n] && rest[n..] == s[i + n..];
        assert out[..w + n] == done + rest[..n];
        assert done + (rest[..n] + Copied(rest[n..], out.Length - 1 - w - n)) == done + rest[..n] + Copied(rest[n..], out.Length - 1 - w - n);
        w := w + n;
        i := i + n;
      }
    }
    CopiedNothing(out.Length - 1 - w);
    assert s[i..] == [] && out[..w] + [] == out[..w];
  }

  lemma CopiedNothing(room: nat)
    ensures Copied([], room) == []
  {
  }

  lemma CopiedStep(s: bytes, room: nat)
    requires s != []
    ensures var n := SeqLen(s[0]);
            if n == 0 then Copied(s, room) == Copied(s[1..], room)
            else if !WholeAt(s) then Copied(s, room) == []
            else
              && n <= |s|
              && if n == 1 && Forbidden(s[0]) then Copied(s, room) == Copied(s[1..], room)
                 else if n > room then Copied(s, room) == []
                 else Copied(s, room) == s[..n] + Copied(s[n..], room - n)
  {
  }

  // ----- what a sanitised name is -----

  /** Whole sequences one behind the other, none of them a forbidden byte. */
  predicate Units(s: bytes)
    decreases |s|
  {
    s == [] || (WholeAt(s) && !(SeqLen(s[0]) == 1 && Forbidden(s[0])) && Units(s[SeqLen(s[0])..]))
  }

  lemma UnitFirst(u: bytes, rest: bytes)
    requires u != [] && |u| == SeqLen(u[0]) && WholeAt(u) && !(|u| == 1 && Forbidden(u[0])) && Units(rest)
    ensures Units(u + rest)
  {
    hide Forbidden, SeqLen;
    var s := u + rest;
    assert s[0] == u[0] && s[|u|..] == rest;
    assert forall k :: 1 <= k < |u| ==> s[k] == u[k];
  }

  lemma {:induction false} CopiedIsUnits(s: bytes, room: nat)
    ensures Units(Copied(s, room))
    decreases |s|
  {
    hide Forbidden, SeqLen, Copied;
    if s == [] {
      CopiedNothing(room);
    } else {
      CopiedStep(s, room);
      var n := SeqLen(s[0]);
      if n == 0 {
        CopiedIsUnits(s[1..], room);
      } else if WholeAt(s) {
        if n == 1 && Forbidden(s[0]) {
          CopiedIsUnits(s[1..], room);
        } else if n <= room {
          CopiedIsUnits(s[n..], room - n);
          UnitFirst(s[..n], Copied(s[n..], room - n));
        }
      }
    }
  }

  lemma LoneUnit(s: bytes)
    requires s != [] && WholeAt(s) && SeqLen(s[0]) == |s| && s[|s| - 1] < 0x80
    ensures |s| == 1
  {
  }

  /** A trailing single-byte character can be taken off without breaking a sequence. */
  lemma {:induction false} UnitsDropLast(s: bytes)
    requires s != [] && Units(s) && s[|s| - 1] < 0x80
    ensures Units(s[..|s| - 1])
    decreases |s|
  {
    hide Forbidden;
    var n := SeqLen(s[0]);
    if n == |s| {
      LoneUnit(s);
    } else {
      var rest := s[n..];
      UnitsDropLast(rest);
      assert s[..|s| - 1] == s[..n] + rest[..|rest| - 1];
      UnitFirst(s[..n], rest[..|rest| - 1]);
    }
  }

  lemma {:induction false} TrimmedIsUnits(s: bytes)
    requires Units(s)
    ensures Units(Trimmed(s))
    decreases |s|
  {
    hide Units;
    if s != [] && Trims(s[|s| - 1]) {
      UnitsDropLast(s);
      TrimmedIsUnits(s[..|s| - 1]);
    }
  }

  /** A name that is already whole and fits is copied as it is. */
  lemma {:induction false} CopiedKeepsUnits(s: bytes, room: nat)
    requires Units(s) && |s| <= room
    ensures Copied(s, room) == s
    decreases |s|
  {
    hide Forbidden, SeqLen, Copied;
    if s == [] {
      CopiedNothing(room);
    } else {
      var n := SeqLen(s[0]);
      CopiedStep(s, room);
      CopiedKeepsUnits(s[n..], room - n);
      assert s[..n] + s[n..] == s;
    }
  }

  /** More room only lengthens the copy. */
  lemma {:induction false} CopiedGrows(s: bytes, a: nat, b: nat)
    requires a <= b
    ensures Copied(s, a) <= Copied(s, b)
    decreases |s|
  {
    hide Forbidden, SeqLen, WholeAt, Copied;
    if s == [] {
      CopiedNothing(a);
      CopiedNothing(b);
    } else {
      CopiedStep(s, a);
      CopiedStep(s, b);
      var n := SeqLen(s[0]);
      if n == 0 || (WholeAt(s) && n == 1 && Forbidden(s[0])) {
        CopiedGrows(s[1..], a, b);
      } else if WholeAt(s) && n <= a {
        CopiedGrows(s[n..], a - n, b - n);
      }
    }
  }

  lemma {:induction false} TrimmedGrows(p: bytes, q: bytes)
    requires p <= q
    ensures Trimmed(p) <= Trimmed(q)
    decreases |q|
  {
    if |p| < |q| && Trims(q[|q| - 1]) {
      assert p <= q[..|q| - 1];
      TrimmedGrows(p, q[..|q| - 1]);
    } else if |p| == |q| {
      assert p == q;
    }
  }

  /**
   * A sanitised name is whole UTF-8 sequences without a forbidden byte, fits its buffer with the terminator,
   * and does not end in a space or a dot.
   */
  lemma SanitisedIsClean(s: bytes, size: nat)
    requires size > 0
    ensures var r := Sanitised(s, size);
            Units(r) && |r| < size && (r == [] || !Trims(r[|r| - 1]))
  {
    hide Units, Copied;
    CopiedIsUnits(s, size - 1);
    TrimmedIsUnits(Copied(s, size - 1));
  }

  /** Sanitising again changes nothing, in any buffer the name fits. */
  lemma SanitisingIsIdempotent(s: bytes, size: nat, again: nat)
    requires size > 0 && |Sanitised(s, size)| < again
    ensures Sanitised(Sanitised(s, size), again) == Sanitised(s, size)
  {
    hide Units, Copied;
    SanitisedIsClean(s, size);
    CopiedKeepsUnits(Sanitised(s, size), again - 1);
  }

  /** A smaller buffer gives a prefix of what a larger one gives. */
  lemma SmallerIsPrefix(s: bytes, size: nat, larger: nat)
    requires 0 < size <= larger
    ensures Sanitised(s, size) <= Sanitised(s, larger)
  {
    hide Copied, Trimmed;
    CopiedGrows(s, size - 1, larger - 1);
    TrimmedGrows(Copied(s, size - 1), Copied(s, larger - 1));
  }
}
