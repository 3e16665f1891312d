/** What sanitising does to a name that is text: stated in characters, not in bytes. */
module NameText {
  import opened Bytes
  import opened JsonText
  import opened SanitiseName

  /** Characters a name may hold: no control character, and none of / \ : * ? " < > |. */
  predicate Allowed(cp: nat) {
    cp >= 0x20 && (cp < 0x80 ==> cp as char !in "/\\:*?\"<>|")
  }

  ghost predicate Text(cps: seq<nat>) {
    forall i :: 0 <= i < |cps| ==> cps[i] <= 0x10_FFFF
  }

  /** The characters that are allowed, in their order. */
  function OnlyAllowed(cps: seq<nat>): (r: seq<nat>) {
    if cps == [] then [] else (if Allowed(cps[0]) then [cps[0]] else []) + OnlyAllowed(cps[1..])
  }

  /** The longest start of the text whose bytes fit. */
  ghost predicate LongestFitting(cps: seq<nat>, room: nat, n: nat)
    requires Text(cps)
  {
    n <= |cps| && |Utf8All(cps[..n])| <= room && (n < |cps| ==> |Utf8All(cps[..n + 1])| > room)
  }

  /** What is left when the spaces and dots at the end are taken off. */
  ghost predicate WithoutEnd(cps: seq<nat>, n: nat) {
    && n <= |cps| && (n > 0 ==> cps[n - 1] != ' ' as nat && cps[n - 1] != '.' as nat)
    && forall k :: n <= k < |cps| ==> cps[k] == ' ' as nat || cps[k] == '.' as nat
  }

  // ----- one character -----

  lemma AllowedIs(cp: nat)
    requires cp < 0x80
    ensures Allowed(cp) <==> !Forbidden(cp)
  {
    var row := "/\\:*?\"<>|";
    assert row == ['/', '\\', ':', '*', '?', '"', '<', '>', '|'];
  }

  lemma CharacterIsUnit(cp: nat, rest: bytes)
    requires cp <= 0x10_FFFF
    ensures var u := Utf8(cp);
            && SeqLen((u + rest)[0]) == |u| && WholeAt(u + rest) && (u + rest)[..|u|] == u && (u + rest)[|u|..] == rest
            && (|u| == 1 <==> cp < 0x80) && (cp < 0x80 ==> u == [cp]) && (cp >= 0x80 ==> u[|u| - 1] >= 0x80)
  {
    var u := Utf8(cp);
    assert forall k :: 1 <= k < |u| ==> IsTail(u[k]) && (u + rest)[k] == u[k];
  }

  lemma CharacterCopied(cp: nat, rest: bytes, room: nat)
    requires cp <= 0x10_FFFF
    ensures var u := Utf8(cp);
            Copied(u + rest, room) == if !Allowed(cp) then Copied(rest, room) else if |u| > room then [] else u + Copied(rest, room - |u|)
  {
    hide Forbidden, SeqLen, WholeAt, Copied, Utf8, Allowed;
    CharacterIsUnit(cp, rest);
    CopiedStep(Utf8(cp) + rest, room);
    if cp < 0x80 {
      AllowedIs(cp);
    } else {
      assert Allowed(cp) by { HighIsAllowed(cp); }
    }
  }

  lemma HighIsAllowed(cp: nat)
    requires cp >= 0x80
    ensures Allowed(cp)
  {
  }

  // ----- copying -----

  lemma OnlyIsText(cps: seq<nat>)
    requires Text(cps)
    ensures Text(OnlyAllowed(cps))
  {
    hide Allowed;
    if cps != [] {
      OnlyIsText(cps[1..]);
    }
  }

  lemma Utf8First(cps: seq<nat>, n: nat)
    requires Text(cps) && 0 < n <= |cps|
    ensures Utf8All(cps[..n]) == Utf8(cps[0]) + Utf8All(cps[1..][..n - 1])
  {
    hide Utf8;
    assert cps[..n][0] == cps[0] && cps[..n][1..] == cps[1..][..n - 1];
  }

  lemma {:induction false} TextIsCopied(cps: seq<nat>, room: nat) returns (n: nat)
    requires Text(cps)
    ensures Text(OnlyAllowed(cps)) && LongestFitting(OnlyAllowed(cps), room, n) && Copied(Utf8All(cps), room) == Utf8All(OnlyAllowed(cps)[..n])
    decreases |cps|
  {
    hide Copied, Utf8, Allowed;
    OnlyIsText(cps);
    if cps == [] {
      CopiedNothing(room);
      n := 0;
    } else {
      var cp, rest := cps[0], cps[1..];
      CharacterCopied(cp, Utf8All(rest), room);
      if !Allowed(cp) {
        n := TextIsCopied(rest, room);
        assert OnlyAllowed(cps) == OnlyAllowed(rest);
      } else if |Utf8(cp)| > room {
        n := 0;
        Utf8First(OnlyAllowed(cps), 1);
        assert OnlyAllowed(cps)[..0] == [];
      } else {
        var m := TextIsCopied(rest, room - |Utf8(cp)|);
        n := m + 1;
        OneMoreFits(cp, OnlyAllowed(rest), room, m);
        assert OnlyAllowed(cps) == [cp] + OnlyAllowed(rest);
      }
    }
  }

  lemma OneMoreFits(cp: nat, only: seq<nat>, room: nat, m: nat)
    requires cp <= 0x10_FFFF && Text(only) && |Utf8(cp)| <= room && LongestFitting(only, room - |Utf8(cp)|, m)
    ensures Text([cp] + only) && LongestFitting([cp] + only, room, m + 1) && Utf8All(([cp] + only)[..m + 1]) == Utf8(cp) + Utf8All(only[..m])
  {
    hide Utf8;
    var all := [cp] + only;
    assert all[1..] == only;
    Utf8First(all, m + 1);
    if m < |only| {
      Utf8First(all, m + 2);
    }
  }

  // ----- trimming -----

  lemma {:induction false} Utf8Last(cps: seq<nat>)
    requires Text(cps) && cps != []
    ensures Utf8All(cps) == Utf8All(cps[..|cps| - 1]) + Utf8(cps[|cps| - 1])
    decreases |cps|
  {
    hide Utf8;
    var n := |cps| - 1;
    if n == 0 {
      assert Utf8All(cps) == Utf8(cps[0]) + Utf8All(cps[1..]) && cps[1..] == [] && cps[..0] == [];
      assert Utf8(cps[0]) + [] == [] + Utf8(cps[0]);
    } else {
      var rest := cps[1..];
      Utf8Last(rest);
      assert rest[|rest| - 1] == cps[n] && cps[..n][0] == cps[0] && cps[..n][1..] == rest[..|rest| - 1];
      assert Utf8(cps[0]) + (Utf8All(rest[..|rest| - 1]) + Utf8(cps[n])) == Utf8(cps[0]) + Utf8All(rest[..|rest| - 1]) + Utf8(cps[n]);
    }
  }

  lemma {:induction false} TextIsTrimmed(cps: seq<nat>) returns (n: nat)
    requires Text(cps)
    ensures WithoutEnd(cps, n) && Trimmed(Utf8All(cps)) == Utf8All(cps[..n])
    decreases |cps|
  {
    hide Utf8;
    n := |cps|;
    assert cps[..n] == cps;
    if cps != [] {
      var last, front := cps[|cps| - 1], cps[..|cps| - 1];
      Utf8Last(cps);
      CharacterIsUnit(last, []);
      assert Utf8(last) + [] == Utf8(last);
      var b := Utf8All(cps);
      assert b[|b| - 1] == Utf8(last)[|Utf8(last)| - 1];
      if last == 0x20 || last == 0x2E {
        assert b[..|b| - 1] == Utf8All(front);
        n := TextIsTrimmed(front);
        assert cps[..n] == front[..n];
      }
    }
  }

  /**
   * Sanitising text: the characters that are not allowed go, as many of the others are kept from the front as fit the
   * buffer with its terminator, and of these the spaces and dots at the end are taken off.
   */
  lemma TextIsSanitised(cps: seq<nat>, size: nat) returns (fit: nat, kept: nat)
    requires Text(cps) && size > 0
    ensures Text(OnlyAllowed(cps)) && LongestFitting(OnlyAllowed(cps), size - 1, fit)
    ensures WithoutEnd(OnlyAllowed(cps)[..fit], kept)
    ensures Sanitised(Utf8All(cps), size) == Utf8All(OnlyAllowed(cps)[..kept])
  {
    hide Copied, Trimmed, OnlyAllowed;
    fit := TextIsCopied(cps, size - 1);
    kept := TextIsTrimmed(OnlyAllowed(cps)[..fit]);
    assert OnlyAllowed(cps)[..fit][..kept] == OnlyAllowed(cps)[..kept];
  }
}
