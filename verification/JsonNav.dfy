/** Walking a parsed document: every link leads forward, so the walks end, and they find what the tree says. */
module JsonNav {
  import opened Bytes
  import opened Json
  import opened JsonParse
  import opened JsonLayout
  import opened JsonDoc

  // ----- links lead forward, spans lie in the text -----

  predicate ForwardLink(link: nat, from: nat, end: nat) {
    link == 0 || from < link < end
  }

  /** Nodes numbered from `at`: every link leads to a later node below `end`. */
  ghost predicate Forward(r: seq<Node>, at: nat, end: nat) {
    forall i :: 0 <= i < |r| ==> ForwardLink(r[i].firstChild, at + i, end) && ForwardLink(r[i].nextSibling, at + i, end)
  }

  lemma ForwardJoin(a: seq<Node>, b: seq<Node>, at: nat, end: nat)
    requires Forward(a, at, end) && Forward(b, at + |a|, end)
    ensures Forward(a + b, at, end)
  {
    forall i | 0 <= i < |a + b|
      ensures ForwardLink((a + b)[i].firstChild, at + i, end) && ForwardLink((a + b)[i].nextSibling, at + i, end)
    {
      if i >= |a| {
        assert (a + b)[i] == b[i - |a|];
      }
    }
  }

  lemma {:induction false} FlatIsForward(v: Tree, at: nat, sibling: nat, end: nat)
    requires at + Size(v) <= end && (sibling == 0 || at + Size(v) <= sibling < end)
    ensures Forward(Flat(v, at, sibling), at, end)
    decreases v, 1
  {
    hide ItemsSize, MembersSize, FlatItems, FlatMembers;
    match v
    case Arr(items) =>
      ItemsAreForward(items, at + 1, end);
      NoneIsNothing(items, []);
      ForwardJoin([Head(v, at, sibling)], FlatItems(items, at + 1), at, end);
    case Obj(members) =>
      MembersAreForward(members, at + 1, end);
      NoneIsNothing([], members);
      ForwardJoin([Head(v, at, sibling)], FlatMembers(members, at + 1), at, end);
    case _ =>
  }

  lemma NoneIsNothing(items: seq<Tree>, members: seq<Member>)
    ensures items != [] ==> ItemsSize(items) > 0
    ensures members != [] ==> MembersSize(members) > 0
  {
  }

  lemma {:induction false} ItemsAreForward(items: seq<Tree>, at: nat, end: nat)
    requires at + ItemsSize(items) <= end
    ensures Forward(FlatItems(items, at), at, end)
    decreases items
  {
    hide Flat, Size, Forward;
    if items == [] {
      assert Forward([], at, end) by { EmptyIsForward(at, end); }
    } else {
      var next := at + Size(items[0]);
      NoneIsNothing(items[1..], []);
      FlatIsForward(items[0], at, if |items| == 1 then 0 else next, end);
      ItemsAreForward(items[1..], next, end);
      ForwardJoin(Flat(items[0], at, if |items| == 1 then 0 else next), FlatItems(items[1..], next), at, end);
    }
  }

  lemma EmptyIsForward(at: nat, end: nat)
    ensures Forward([], at, end)
  {
  }

  lemma {:induction false} MembersAreForward(members: seq<Member>, at: nat, end: nat)
    requires at + MembersSize(members) <= end
    ensures Forward(FlatMembers(members, at), at, end)
    decreases members
  {
    hide FlatMember, MemberSize, Forward;
    if members == [] {
      assert Forward([], at, end) by { EmptyIsForward(at, end); }
    } else {
      var next := at + MemberSize(members[0]);
      NoneIsNothing([], members[1..]);
      MemberIsForward(members[0], at, if |members| == 1 then 0 else next, end);
      MembersAreForward(members[1..], next, end);
      ForwardJoin(FlatMember(members[0], at, if |members| == 1 then 0 else next), FlatMembers(members[1..], next), at, end);
    }
  }

  lemma {:induction false} MemberIsForward(m: Member, at: nat, sibling: nat, end: nat)
    requires at + MemberSize(m) <= end && (sibling == 0 || at + MemberSize(m) <= sibling < end)
    ensures Forward(FlatMember(m, at, sibling), at, end)
    decreases m
  {
    hide Flat, Size;
    FlatIsForward(m.value, at + 1, 0, end);
    ForwardJoin([KeyHead(m, at, sibling)], Flat(m.value, at + 1, 0), at, end);
  }

  /** Every span of a value lies in a text of `n` bytes. */
  ghost predicate Inside(r: seq<Node>, n: nat) {
    forall i :: 0 <= i < |r| ==> r[i].start + r[i].len <= n
  }

  lemma InsideJoin(a: seq<Node>, b: seq<Node>, n: nat)
    requires Inside(a, n) && Inside(b, n)
    ensures Inside(a + b, n)
  {
  }

  lemma ClipShrinks(n: nat)
    ensures Clip(n) <= n
  {
  }

  lemma {:induction false} TokenIsInside(t: bytes, k: nat, j: nat, v: Tree, at: nat, sibling: nat)
    requires Token(t, k, j, v)
    ensures Inside(Flat(v, at, sibling), |t|)
    decreases v, 0
  {
    hide Clip, Items, Members, FlatItems, FlatMembers, Body;
    match v
    case Arr(items) =>
      if items != [] {
        ItemsAreInside(t, k + 1, j - 1, items, at + 1);
      } else {
        NoItemsInside(at + 1, |t|);
      }
      InsideJoin([Head(v, at, sibling)], FlatItems(items, at + 1), |t|);
    case Obj(members) =>
      if members != [] {
        MembersAreInside(t, k + 1, j - 1, members, at + 1);
      } else {
        NoItemsInside(at + 1, |t|);
      }
      InsideJoin([Head(v, at, sibling)], FlatMembers(members, at + 1), |t|);
    case Bool(s, l) => ClipShrinks(s); ClipShrinks(l);
    case Number(s, l) => ClipShrinks(s); ClipShrinks(l);
    case Str(s, l) => ClipShrinks(s); ClipShrinks(l);
    case Null =>
  }

  lemma NoItemsInside(at: nat, n: nat)
    ensures Inside(FlatItems([], at), n) && Inside(FlatMembers([], at), n)
  {
  }

  lemma {:induction false} ValueIsInside(t: bytes, i: nat, j: nat, v: Tree, at: nat, sibling: nat)
    requires Derives(t, i, j, v)
    ensures Inside(Flat(v, at, sibling), |t|)
    decreases v, 1
  {
    hide Token, Flat;
    var k: nat :| Ws(t, i, k) && Token(t, k, j, v);
    TokenIsInside(t, k, j, v, at, sibling);
  }

  lemma {:induction false} ItemsAreInside(t: bytes, i: nat, j: nat, items: seq<Tree>, at: nat)
    requires items != [] && Items(t, i, j, items)
    ensures Inside(FlatItems(items, at), |t|)
    decreases items
  {
    hide Derives, Flat, Size, Inside;
    var m: nat :| Derives(t, i, m, items[0]) && ItemsAfter(t, m, j, items);
    var next := at + Size(items[0]);
    var sibling := if |items| == 1 then 0 else next;
    ValueIsInside(t, i, m, items[0], at, sibling);
    if |items| == 1 {
      assert items[1..] == [];
      NoItemsInside(next, |t|);
    } else {
      var n: nat :| Ws(t, m, n) && n < j && CharAt(t, n, COMMA) && Items(t, n + 1, j, items[1..]);
      ItemsAreInside(t, n + 1, j, items[1..], next);
    }
    InsideJoin(Flat(items[0], at, sibling), FlatItems(items[1..], next), |t|);
  }

  lemma {:induction false} MembersAreInside(t: bytes, i: nat, j: nat, members: seq<Member>, at: nat)
    requires members != [] && Members(t, i, j, members)
    ensures Inside(FlatMembers(members, at), |t|)
    decreases members
  {
    hide Pair, FlatMember, MemberSize, Inside;
    var m: nat :| Pair(t, i, m, members[0]) && MembersAfter(t, m, j, members);
    var next := at + MemberSize(members[0]);
    var sibling := if |members| == 1 then 0 else next;
    PairIsInside(t, i, m, members[0], at, sibling);
    if |members| == 1 {
      assert members[1..] == [];
      NoItemsInside(next, |t|);
    } else {
      var n: nat :| Ws(t, m, n) && n < j && CharAt(t, n, COMMA) && Members(t, n + 1, j, members[1..]);
      MembersAreInside(t, n + 1, j, members[1..], next);
    }
    InsideJoin(FlatMember(members[0], at, sibling), FlatMembers(members[1..], next), |t|);
  }

  lemma {:induction false} PairIsInside(t: bytes, i: nat, j: nat, m: Member, at: nat, sibling: nat)
    requires Pair(t, i, j, m)
    ensures Inside(FlatMember(m, at, sibling), |t|)
    decreases m
  {
    hide Derives, Flat, Clip, Body;
    var k: nat, e: nat, c: nat :|
      && Ws(t, i, k) && k < |t| && Quoted(t, k, m.start, m.len, e)
      && Ws(t, e, c) && CharAt(t, c, COLON) && Derives(t, c + 1, j, m.value);
    ValueIsInside(t, c + 1, j, m.value, at + 1, 0);
    ClipShrinks(m.start);
    ClipShrinks(m.len);
    InsideJoin([KeyHead(m, at, sibling)], Flat(m.value, at + 1, 0), |t|);
  }

  /** What the accessors rely on. */
  ghost predicate Good(doc: Doc)
    reads doc, doc.nodes
  {
    && doc.nodes.Length == MAX_NODES && 1 <= doc.nodeCount <= MAX_NODES
    && Forward(doc.nodes[1..doc.nodeCount], 1, doc.nodeCount)
    && Inside(doc.nodes[1..doc.nodeCount], |doc.text|)
  }

  /** A document as the parser leaves it is good, accepted or not. */
  lemma ParsedIsGood(doc: Doc)
    requires doc.nodes.Length == MAX_NODES
    requires match ParseDocument(doc.text)
             case None => doc.nodeCount == 1
             case Some(v) => doc.nodeCount == 1 + Size(v) <= MAX_NODES && doc.nodes[1..doc.nodeCount] == Flat(v, 1, 0)
    ensures Good(doc)
  {
    hide ParseDocument, Flat, Size, Reads;
    var r := ParseDocument(doc.text);
    if r.Some? {
      AcceptsExactlyTheGrammar(doc.text, r.value);
      DocumentIsInside(doc.text, r.value);
      FlatIsForward(r.value, 1, 0, doc.nodeCount);
    }
  }

  lemma DocumentIsInside(t: bytes, v: Tree)
    requires Reads(t, v)
    ensures Inside(Flat(v, 1, 0), |t|)
  {
    hide Derives, Flat;
    var j: nat :| Derives(t, 0, j, v) && Ws(t, j, |t|);
    ValueIsInside(t, 0, j, v, 1, 0);
  }

  // ----- walking the chains -----

  /** The `n`-th node of a sibling chain, or 0 behind its end. */
  function Walk(s: seq<Node>, child: nat, n: nat): nat
    decreases n
  {
    if child == 0 || n == 0 then child
    else if child >= |s| then 0
    else Walk(s, s[child].nextSibling, n - 1)
  }

  predicate KeyEquals(text: bytes, n: Node, key: bytes) {
    n.len == |key| && n.start + n.len <= |text| && text[n.start..n.start + n.len] == key
  }

  /** The value of the first key in the chain that equals `key`, or 0. */
  function FindKey(s: seq<Node>, text: bytes, k: nat, key: bytes): nat
    decreases |s| - k
  {
    if k == 0 || k >= |s| then 0
    else if KeyEquals(text, s[k], key) then s[k].firstChild
    else if s[k].nextSibling <= k then 0
    else FindKey(s, text, s[k].nextSibling, key)
  }

  method At(doc: Doc, node: nat, index: nat) returns (child: nat)
    requires Good(doc)
    ensures child == if node == 0 || node >= doc.nodeCount then 0
                     else Walk(doc.nodes[..doc.nodeCount], doc.nodes[node].firstChild, index)
    ensures child < doc.nodeCount
  {
    if node == 0 || node >= doc.nodeCount {
      return 0;
    }
    ghost var s := doc.nodes[..doc.nodeCount];
    LinksAreForward(doc, node);
    child := doc.nodes[node].firstChild;
    var i := 0;
    while child != 0 && i < index
      invariant child < doc.nodeCount && i <= index
      invariant Walk(s, child, index - i) == Walk(s, doc.nodes[node].firstChild, index)
      decreases index - i
    {
      LinksAreForward(doc, child);
      child := doc.nodes[child].nextSibling;
      i := i + 1;
    }
  }

  lemma LinksAreForward(doc: Doc, node: nat)
    requires Good(doc) && 0 < node < doc.nodeCount
    ensures ForwardLink(doc.nodes[node].firstChild, node, doc.nodeCount) && ForwardLink(doc.nodes[node].nextSibling, node, doc.nodeCount)
    ensures doc.nodes[node].start + doc.nodes[node].len <= |doc.text|
  {
    assert doc.nodes[1..doc.nodeCount][node - 1] == doc.nodes[node];
  }

  method ObjectGet(doc: Doc, node: nat, key: bytes) returns (value: nat)
    requires Good(doc)
    ensures value == if node == 0 || node >= doc.nodeCount || !doc.nodes[node].kind.ObjectNode? then 0
                     else FindKey(doc.nodes[..doc.nodeCount], doc.text, doc.nodes[node].firstChild, key)
    ensures value < doc.nodeCount
  {
    if node == 0 || node >= doc.nodeCount || !doc.nodes[node].kind.ObjectNode? {
      return 0;
    }
    ghost var s := doc.nodes[..doc.nodeCount];
    LinksAreForward(doc, node);
    var k := doc.nodes[node].firstChild;
    while k != 0
      invariant k < doc.nodeCount
      invariant FindKey(s, doc.text, k, key) == FindKey(s, doc.text, doc.nodes[node].firstChild, key)
      decreases if k == 0 then 0 else doc.nodeCount - k
    {
      LinksAreForward(doc, k);
      if KeyEquals(doc.text, doc.nodes[k], key) {
        return doc.nodes[k].firstChild;
      }
      k := doc.nodes[k].nextSibling;
    }
    return 0;
  }

  // ----- the walks find what the tree says -----

  /** The nodes of `v` lie in `s` from node `at` on. */
  ghost predicate Lies(s: seq<Node>, at: nat, v: Tree) {
    0 < at && at + Size(v) <= |s| && exists sibling: nat :: s[at..at + Size(v)] == Flat(v, at, sibling)
  }

  /** `a + b` lies at `at` exactly when its parts lie one behind the other. */
  lemma SplitAt(s: seq<Node>, at: nat, a: seq<Node>, b: seq<Node>)
    requires at + |a| + |b| <= |s| && s[at..at + |a| + |b|] == a + b
    ensures s[at..at + |a|] == a && s[at + |a|..at + |a| + |b|] == b
  {
    assert s[at..at + |a| + |b|][..|a|] == s[at..at + |a|];
    assert s[at..at + |a| + |b|][|a|..] == s[at + |a|..at + |a| + |b|];
  }

  /** The first node of a value is its head. */
  lemma HeadLies(s: seq<Node>, at: nat, v: Tree, sibling: nat)
    requires at + Size(v) <= |s| && s[at..at + Size(v)] == Flat(v, at, sibling)
    ensures s[at] == Head(v, at, sibling)
  {
    assert s[at] == s[at..at + Size(v)][0];
  }

  lemma {:induction false} ItemsLie(s: seq<Node>, at: nat, items: seq<Tree>, k: nat)
    requires 0 < at && at + ItemsSize(items) <= |s| && s[at..at + ItemsSize(items)] == FlatItems(items, at) && items != []
    ensures if k < |items| then Walk(s, at, k) == at + ItemsSize(items[..k]) && Lies(s, at + ItemsSize(items[..k]), items[k])
            else Walk(s, at, k) == 0
    decreases |items|
  {
    hide Flat, Size, FlatItems, ItemsSize, Lies;
    var h, rest := items[0], items[1..];
    var next := at + Size(h);
    FirstItemLies(s, at, items);
    if k == 0 {
      assert ItemsSize(items[..0]) == 0 by { NoItems(items); }
    } else if rest == [] {
      assert Walk(s, 0, k - 1) == 0 by { WalkNowhere(s, k - 1); }
    } else {
      ItemsLie(s, next, rest, k - 1);
      if k < |items| {
        PrefixSize(items, k);
      }
    }
  }

  lemma NoItems(items: seq<Tree>)
    ensures ItemsSize(items[..0]) == 0
  {
  }

  /** The first item lies at the front, linked to the next one, and the others behind it. */
  lemma FirstItemLies(s: seq<Node>, at: nat, items: seq<Tree>)
    requires 0 < at && at + ItemsSize(items) <= |s| && s[at..at + ItemsSize(items)] == FlatItems(items, at) && items != []
    ensures var next, rest := at + Size(items[0]), items[1..];
            && at < next && next + ItemsSize(rest) <= |s| && Lies(s, at, items[0])
            && s[at].nextSibling == (if |items| == 1 then 0 else next)
            && s[next..next + ItemsSize(rest)] == FlatItems(rest, next)
  {
    hide Flat, Size;
    var h, rest := items[0], items[1..];
    var next := at + Size(h);
    var sibling := if |items| == 1 then 0 else next;
    SplitAt(s, at, Flat(h, at, sibling), FlatItems(rest, next));
    HeadLies(s, at, h, sibling);
  }

  lemma PrefixSize(items: seq<Tree>, k: nat)
    requires 0 < k <= |items|
    ensures ItemsSize(items[..k]) == Size(items[0]) + ItemsSize(items[1..][..k - 1])
  {
    hide Size;
    assert items[..k][1..] == items[1..][..k - 1];
  }

  /** The i-th item of an array is found at its own nodes, and nothing is found behind the last. */
  lemma ArrayItemsAreFound(s: seq<Node>, at: nat, items: seq<Tree>, k: nat)
    requires Lies(s, at, Arr(items))
    ensures s[at].childCount == |items|
    ensures var found := Walk(s, s[at].firstChild, k);
            if k < |items| then Lies(s, found, items[k]) else found == 0
  {
    hide Flat, Size, FlatItems, Walk, Lies;
    ArrayLies(s, at, items);
    if items == [] {
      assert Walk(s, 0, k) == 0 by { WalkNowhere(s, k); }
    } else {
      ItemsLie(s, at + 1, items, k);
    }
  }

  lemma WalkNowhere(s: seq<Node>, k: nat)
    ensures Walk(s, 0, k) == 0
  {
  }

  lemma ArrayLies(s: seq<Node>, at: nat, items: seq<Tree>)
    requires Lies(s, at, Arr(items))
    ensures s[at].childCount == |items| && s[at].firstChild == if items == [] then 0 else at + 1
    ensures at + 1 + ItemsSize(items) <= |s| && s[at + 1..at + 1 + ItemsSize(items)] == FlatItems(items, at + 1)
  {
    var sibling: nat :| s[at..at + Size(Arr(items))] == Flat(Arr(items), at, sibling);
    var h, inside := [Head(Arr(items), at, sibling)], FlatItems(items, at + 1);
    assert Flat(Arr(items), at, sibling) == h + inside;
    assert at + |h| + |inside| == at + Size(Arr(items));
    SplitAt(s, at, h, inside);
    HeadLies(s, at, Arr(items), sibling);
  }

  // ----- keys -----

  predicate SpanIs(text: bytes, m: Member, key: bytes) {
    m.len == |key| && m.start + m.len <= |text| && text[m.start..m.start + m.len] == key
  }

  /** The first member with that key. */
  function FirstMember(members: seq<Member>, text: bytes, key: bytes): (r: Option<nat>)
    ensures r.Some? ==> r.value < |members| && SpanIs(text, members[r.value], key)
    ensures r.Some? ==> forall i :: 0 <= i < r.value ==> !SpanIs(text, members[i], key)
    ensures r.None? ==> forall m :: m in members ==> !SpanIs(text, m, key)
  {
    if members == [] then None
    else if SpanIs(text, members[0], key) then Some(0)
    else
      match FirstMember(members[1..], text, key)
      case None => None
      case Some(i) => Some(i + 1)
  }

  lemma MemberLies(s: seq<Node>, at: nat, m: Member, sibling: nat)
    requires 0 < at && at + MemberSize(m) <= |s| && s[at..at + MemberSize(m)] == FlatMember(m, at, sibling)
    ensures s[at] == KeyHead(m, at, sibling) && Lies(s, at + 1, m.value)
  {
    hide Flat, Size;
    SplitAt(s, at, [KeyHead(m, at, sibling)], Flat(m.value, at + 1, 0));
    assert s[at] == s[at..at + 1][0];
  }

  /** A stored key equals a string exactly when the member's span does, in a text below 4 GiB. */
  lemma KeyIsSpan(text: bytes, m: Member, at: nat, sibling: nat, key: bytes)
    requires |text| < U32_LIMIT && m.start + m.len <= |text|
    ensures KeyEquals(text, KeyHead(m, at, sibling), key) <==> SpanIs(text, m, key)
  {
  }

  lemma {:induction false} MembersLie(s: seq<Node>, text: bytes, at: nat, members: seq<Member>, key: bytes)
    requires 0 < at && at + MembersSize(members) <= |s| && s[at..at + MembersSize(members)] == FlatMembers(members, at) && members != []
    requires |text| < U32_LIMIT && forall m :: m in members ==> m.start + m.len <= |text|
    ensures var found := FindKey(s, text, at, key);
            match FirstMember(members, text, key)
            case None => found == 0
            case Some(i) => Lies(s, found, members[i].value)
    decreases |members|
  {
    hide FlatMember, MemberSize, KeyEquals, SpanIs, Lies, KeyHead;
    var h, rest := members[0], members[1..];
    var next := at + MemberSize(h);
    var sibling := if |members| == 1 then 0 else next;
    SplitAt(s, at, FlatMember(h, at, sibling), FlatMembers(rest, next));
    MemberLies(s, at, h, sibling);
    KeyIsSpan(text, h, at, sibling, key);
    KeyLinks(h, at, sibling);
    MemberTakesSpace(h);
    if SpanIs(text, h, key) {
    } else if rest == [] {
    } else {
      NoneIsNothing([], rest);
      MembersLie(s, text, next, rest, key);
    }
  }

  lemma KeyLinks(m: Member, at: nat, sibling: nat)
    ensures KeyHead(m, at, sibling).firstChild == at + 1 && KeyHead(m, at, sibling).nextSibling == sibling
  {
  }

  lemma MemberTakesSpace(m: Member)
    ensures MemberSize(m) > 0
  {
  }

  /** Looking a key up finds the value of the first member with that key, or nothing when there is none. */
  lemma ObjectMembersAreFound(s: seq<Node>, text: bytes, at: nat, members: seq<Member>, key: bytes)
    requires Lies(s, at, Obj(members))
    requires |text| < U32_LIMIT && forall m :: m in members ==> m.start + m.len <= |text|
    ensures s[at].kind.ObjectNode? && s[at].childCount == |members|
    ensures var found := FindKey(s, text, s[at].firstChild, key);
            match FirstMember(members, text, key)
            case None => found == 0
            case Some(i) => Lies(s, found, members[i].value)
  {
    hide Flat, Size, FlatMembers, FindKey, Lies, FirstMember;
    ObjectLies(s, at, members);
    if members == [] {
      assert FindKey(s, text, 0, key) == 0 && FirstMember([], text, key) == None by { FindNowhere(s, text, key); }
    } else {
      MembersLie(s, text, at + 1, members, key);
    }
  }

  lemma FindNowhere(s: seq<Node>, text: bytes, key: bytes)
    ensures FindKey(s, text, 0, key) == 0 && FirstMember([], text, key) == None
  {
  }

  lemma ObjectLies(s: seq<Node>, at: nat, members: seq<Member>)
    requires Lies(s, at, Obj(members))
    ensures s[at].kind.ObjectNode? && s[at].childCount == |members| && s[at].firstChild == if members == [] then 0 else at + 1
    ensures at + 1 + MembersSize(members) <= |s| && s[at + 1..at + 1 + MembersSize(members)] == FlatMembers(members, at + 1)
  {
    var sibling: nat :| s[at..at + Size(Obj(members))] == Flat(Obj(members), at, sibling);
    var h, inside := [Head(Obj(members), at, sibling)], FlatMembers(members, at + 1);
    assert Flat(Obj(members), at, sibling) == h + inside;
    assert at + |h| + |inside| == at + Size(Obj(members));
    SplitAt(s, at, h, inside);
    HeadLies(s, at, Obj(members), sibling);
  }

  /** The root of an accepted document is node 1, where its tree lies. */
  lemma RootLies(s: seq<Node>, v: Tree)
    requires |s| == 1 + Size(v) && s[1..] == Flat(v, 1, 0)
    ensures Lies(s, 1, v)
  {
    hide Flat, Size;
    assert s[1..1 + Size(v)] == s[1..];
  }

  // ----- parse, then look up -----

  lemma {:induction false} KeysAreInside(t: bytes, i: nat, j: nat, members: seq<Member>)
    requires members != [] && Members(t, i, j, members)
    ensures forall m :: m in members ==> m.start + m.len <= |t|
    decreases members
  {
    hide Pair;
    var n: nat :| Pair(t, i, n, members[0]) && MembersAfter(t, n, j, members);
    KeyIsInside(t, i, n, members[0]);
    if |members| > 1 {
      var c: nat :| Ws(t, n, c) && c < j && CharAt(t, c, COMMA) && Members(t, c + 1, j, members[1..]);
      KeysAreInside(t, c + 1, j, members[1..]);
    }
    forall m | m in members
      ensures m == members[0] || m in members[1..]
    {
    }
  }

  lemma KeyIsInside(t: bytes, i: nat, j: nat, m: Member)
    requires Pair(t, i, j, m)
    ensures m.start + m.len <= |t|
  {
    hide Derives, Body;
  }

  lemma RootKeysAreInside(t: bytes, members: seq<Member>)
    requires Reads(t, Obj(members))
    ensures forall m :: m in members ==> m.start + m.len <= |t|
  {
    hide Members;
    var j: nat :| Derives(t, 0, j, Obj(members)) && Ws(t, j, |t|);
    var k: nat :| Ws(t, 0, k) && Token(t, k, j, Obj(members));
    if members != [] {
      KeysAreInside(t, k + 1, j - 1, members);
    }
  }

  /**
   * Parsing a document and looking up in its root: an object answers with the first member of that key, an
   * array with the item of that index, and each with nothing when the text has none.
   */
  lemma LookUpInParsed(text: bytes, s: seq<Node>, v: Tree, key: bytes, k: nat)
    requires ParseDocument(text) == Some(v) && |s| == 1 + Size(v) && s[1..] == Flat(v, 1, 0)
    ensures v.Obj? && |text| < U32_LIMIT ==>
              var found := FindKey(s, text, s[1].firstChild, key);
              match FirstMember(v.members, text, key)
              case None => found == 0
              case Some(i) => Lies(s, found, v.members[i].value)
    ensures v.Arr? ==>
              var found := Walk(s, s[1].firstChild, k);
              if k < |v.items| then Lies(s, found, v.items[k]) else found == 0
  {
    hide Flat, Size, ParseDocument, FindKey, Walk, FirstMember, Lies, Reads;
    AcceptsExactlyTheGrammar(text, v);
    RootLies(s, v);
    if v.Obj? && |text| < U32_LIMIT {
      RootKeysAreInside(text, v.members);
      ObjectMembersAreFound(s, text, 1, v.members, key);
    }
    if v.Arr? {
      ArrayItemsAreFound(s, 1, v.items, k);
    }
  }
}
