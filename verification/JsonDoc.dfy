/** The parser object: it walks the text and fills the node array, patching links as children are attached. */
module JsonDoc {
  import opened Bytes
  import opened Json
  import opened JsonParse
  import opened JsonLayout

  /** The node list after `child` has been put at the end of `parent`'s chain, whose last node was `last` (0 for none). */
  function Attached(s: seq<Node>, parent: nat, child: nat, last: nat): (r: seq<Node>)
    requires parent < |s| && last < |s|
    ensures |r| == |s|
  {
    var t := if last == 0 then s[parent := s[parent].(firstChild := child)] else s[last := s[last].(nextSibling := child)];
    t[parent := t[parent].(childCount := t[parent].childCount + 1)]
  }

  /** Attaching only touches the nodes from the parent on. */
  lemma AttachedFrom(s: seq<Node>, parent: nat, child: nat, last: nat, end: nat)
    requires parent < end <= |s| && (last == 0 || parent < last < end)
    ensures Attached(s, parent, child, last)[..parent] == s[..parent]
    ensures Attached(s, parent, child, last)[parent..end]
            == Attached(s[parent..end], 0, child, if last == 0 then 0 else last - parent)
  {
    var at := if last == 0 then parent else last;
    var n := if last == 0 then s[parent].(firstChild := child) else s[last].(nextSibling := child);
    UpdateSlice(s, at, n, parent, end);
    var t := s[at := n];
    UpdateSlice(t, parent, t[parent].(childCount := t[parent].childCount + 1), parent, end);
    assert t[parent..end][0] == t[parent];
  }

  lemma UpdateSlice(s: seq<Node>, i: nat, n: Node, lo: nat, hi: nat)
    requires lo <= i < hi <= |s|
    ensures s[i := n][lo..hi] == s[lo..hi][i - lo := n] && s[i := n][..lo] == s[..lo]
    ensures s[lo..hi][i - lo] == s[i]
  {
  }

  lemma AttachOnto(h: Node, body: seq<Node>, more: seq<Node>, child: nat, k: nat)
    requires k < |body|
    ensures Attached([h] + body + more, 0, child, 1 + k) == [h.(childCount := h.childCount + 1)] + (Linked(body, k, child) + more)
  {
  }

  lemma AttachFirst(h: Node, more: seq<Node>, child: nat)
    ensures Attached([h] + more, 0, child, 0) == [h.(firstChild := child, childCount := h.childCount + 1)] + more
  {
  }

  /** An array's nodes, then a new item's: attaching the item gives the longer array's nodes. */
  lemma ArrayGrows(items: seq<Tree>, x: Tree, me: nat)
    ensures var a := Flat(Arr(items), me, 0);
            var child := me + |a|;
            var last := if items == [] then 0 else 1 + LastItem(items);
            && last < |a|
            && Attached(a + Flat(x, child, 0), 0, child, last) == Flat(Arr(items + [x]), me, 0)
            && 1 + LastItem(items + [x]) == |a|
  {
    if items == [] {
      ArrayGrowsFirst(x, me);
      assert items + [x] == [x];
    } else {
      ArrayGrowsMore(items, x, me);
    }
  }

  lemma ArrayGrowsFirst(x: Tree, me: nat)
    ensures var a := Flat(Arr([]), me, 0);
            |a| == 1 && Attached(a + Flat(x, me + 1, 0), 0, me + 1, 0) == Flat(Arr([x]), me, 0) && LastItem([x]) == 0
  {
    hide Flat, Attached;
    ArrayIsFlat([], me);
    ArrayIsFlat([x], me);
    OneItem(x, me + 1);
    assert Flat(Arr([]), me, 0) == [Head(Arr([]), me, 0)];
    AttachFirst(Head(Arr([]), me, 0), Flat(x, me + 1, 0), me + 1);
  }

  lemma ArrayGrowsMore(items: seq<Tree>, x: Tree, me: nat)
    requires items != []
    ensures var a := Flat(Arr(items), me, 0);
            var child := me + |a|;
            && 1 + LastItem(items) < |a|
            && Attached(a + Flat(x, child, 0), 0, child, 1 + LastItem(items)) == Flat(Arr(items + [x]), me, 0)
            && 1 + LastItem(items + [x]) == |a|
  {
    hide Size, ItemsSize, LastItem, FlatItems, Flat, Inside, FlatMember, Attached, Linked;
    var child := me + 1 + ItemsSize(items);
    ArrayIsFlat(items, me);
    ArrayIsFlat(items + [x], me);
    AppendItem(items, x, me + 1);
    AttachOnto(Head(Arr(items), me, 0), FlatItems(items, me + 1), Flat(x, child, 0), child, LastItem(items));
  }

  lemma ArrayIsFlat(items: seq<Tree>, me: nat)
    ensures Flat(Arr(items), me, 0) == [Head(Arr(items), me, 0)] + FlatItems(items, me + 1)
    ensures Size(Arr(items)) == 1 + ItemsSize(items)
    ensures items == [] ==> FlatItems(items, me + 1) == [] && ItemsSize(items) == 0
  {
  }

  lemma ObjectGrows(members: seq<Member>, x: Member, me: nat)
    ensures var a := Flat(Obj(members), me, 0);
            var child := me + |a|;
            var last := if members == [] then 0 else 1 + LastMember(members);
            && last < |a|
            && Attached(a + FlatMember(x, child, 0), 0, child, last) == Flat(Obj(members + [x]), me, 0)
            && 1 + LastMember(members + [x]) == |a|
  {
    if members == [] {
      ObjectGrowsFirst(x, me);
      assert members + [x] == [x];
    } else {
      ObjectGrowsMore(members, x, me);
    }
  }

  lemma ObjectGrowsFirst(x: Member, me: nat)
    ensures var a := Flat(Obj([]), me, 0);
            |a| == 1 && Attached(a + FlatMember(x, me + 1, 0), 0, me + 1, 0) == Flat(Obj([x]), me, 0) && LastMember([x]) == 0
  {
    hide FlatMember, Attached;
    ObjectIsFlat([], me);
    ObjectIsFlat([x], me);
    OneMember(x, me + 1);
    assert Flat(Obj([]), me, 0) == [Head(Obj([]), me, 0)];
    AttachFirst(Head(Obj([]), me, 0), FlatMember(x, me + 1, 0), me + 1);
  }

  lemma ObjectGrowsMore(members: seq<Member>, x: Member, me: nat)
    requires members != []
    ensures var a := Flat(Obj(members), me, 0);
            var child := me + |a|;
            && 1 + LastMember(members) < |a|
            && Attached(a + FlatMember(x, child, 0), 0, child, 1 + LastMember(members)) == Flat(Obj(members + [x]), me, 0)
            && 1 + LastMember(members + [x]) == |a|
  {
    hide Size, MemberSize, MembersSize, LastMember, FlatMembers, Flat, Inside, FlatMember, Attached, Linked;
    var child := me + 1 + MembersSize(members);
    ObjectIsFlat(members, me);
    ObjectIsFlat(members + [x], me);
    AppendMember(members, x, me + 1);
    AttachOnto(Head(Obj(members), me, 0), FlatMembers(members, me + 1), FlatMember(x, child, 0), child, LastMember(members));
  }

  lemma ObjectIsFlat(members: seq<Member>, me: nat)
    ensures Flat(Obj(members), me, 0) == [Head(Obj(members), me, 0)] + FlatMembers(members, me + 1)
    ensures Size(Obj(members)) == 1 + MembersSize(members)
    ensures members == [] ==> FlatMembers(members, me + 1) == [] && MembersSize(members) == 0
  {
  }

  class Doc {
    const text: bytes
    const nodes: array<Node>
    var nodeCount: nat
    var pos: nat
    var failed: bool

    ghost predicate Shaped()
      reads this
    {
      nodes.Length == MAX_NODES && 1 <= nodeCount <= MAX_NODES && pos <= |text|
    }

    constructor (text: bytes)
      ensures Shaped() && this.text == text && fresh(nodes) && nodeCount == 1 && pos == 0 && !failed
    {
      this.text := text;
      nodes := new Node[MAX_NODES];
      nodeCount, pos, failed := 1, 0, false;
    }

    method SkipWhitespace()
      requires Shaped()
      modifies this`pos
      ensures Shaped() && pos == SkipWs(text, old(pos))
    {
      while pos < |text| && IsWs(text[pos])
        invariant pos <= |text| && SkipWs(text, pos) == SkipWs(text, old(pos))
        decreases |text| - pos
      {
        pos := pos + 1;
      }
    }

    /** Takes the next node; 0 when there is none left. */
    method Alloc(node: Node) returns (me: nat)
      requires Shaped()
      modifies this`nodeCount, this`failed, nodes
      ensures Shaped()
      ensures if old(nodeCount) >= MAX_NODES then me == 0 && failed && nodeCount == old(nodeCount)
              else me == old(nodeCount) && failed == old(failed) && nodeCount == me + 1 && nodes[me] == node
      ensures nodes[..old(nodeCount)] == old(nodes[..nodeCount])
    {
      if nodeCount >= MAX_NODES {
        failed := true;
        return 0;
      }
      me := nodeCount;
      nodeCount := nodeCount + 1;
      nodes[me] := node;
    }

    /** Reads a quoted string; on success the position is behind it. */
    method ScanQuoted() returns (ok: bool, start: nat, len: nat)
      requires Shaped()
      modifies this`pos
      ensures Shaped()
      ensures match ScanString(text, old(pos))
              case None => !ok
              case Some(end) => ok && start == old(pos) + 1 && start + len == end && pos == end + 1
    {
      hide Body;
      start, len := 0, 0;
      if !CharAt(text, pos, QUOTE) {
        return false, start, len;
      }
      ghost var end := ScanString(text, pos);
      pos := pos + 1;
      start := pos;
      while pos < |text|
        invariant start <= pos <= |text| && Closing(text, pos) == end
        decreases |text| - pos
      {
        if text[pos] == BACKSLASH {
          if pos + 2 > |text| {
            return false, start, len;
          }
          pos := pos + 2;
        } else if text[pos] == QUOTE {
          len := pos - start;
          pos := pos + 1;
          return true, start, len;
        } else {
          pos := pos + 1;
        }
      }
      return false, start, len;
    }

    /** Puts a child at the end of its parent's chain. */
    method Attach(parent: nat, child: nat, last: nat) returns (newLast: nat)
      requires Shaped() && 0 < parent < nodeCount && last < nodeCount
      modifies nodes
      ensures newLast == child && nodes[..] == Attached(old(nodes[..]), parent, child, last)
    {
      if last == 0 {
        nodes[parent] := nodes[parent].(firstChild := child);
      } else {
        nodes[last] := nodes[last].(nextSibling := child);
      }
      nodes[parent] := nodes[parent].(childCount := nodes[parent].childCount + 1);
      newLast := child;
    }

    /** Attaches a parsed item, whose nodes are the last ones, to the array being built. */
    method AttachItem(me: nat, child: nat, last: nat, ghost items: seq<Tree>, ghost x: Tree) returns (newLast: nat)
      requires Shaped() && 0 < me < child < nodeCount
      requires nodes[me..child] == Flat(Arr(items), me, 0) && nodes[child..nodeCount] == Flat(x, child, 0)
      requires last == if items == [] then 0 else me + 1 + LastItem(items)
      modifies nodes
      ensures nodes[me..nodeCount] == Flat(Arr(items + [x]), me, 0) && nodes[..me] == old(nodes[..me])
      ensures newLast == child == me + 1 + LastItem(items + [x])
    {
      hide Flat, Attached, LastItem;
      ghost var s := nodes[..];
      ArrayGrows(items, x, me);
      assert nodes[me..nodeCount] == nodes[me..child] + nodes[child..nodeCount];
      AttachedFrom(s, me, child, last, nodeCount);
      newLast := Attach(me, child, last);
      assert nodes[me..nodeCount] == nodes[..][me..nodeCount];
      assert nodes[..me] == nodes[..][..me];
    }

    method AttachMember(me: nat, child: nat, last: nat, ghost members: seq<Member>, ghost x: Member) returns (newLast: nat)
      requires Shaped() && 0 < me < child < nodeCount
      requires nodes[me..child] == Flat(Obj(members), me, 0) && nodes[child..nodeCount] == FlatMember(x, child, 0)
      requires last == if members == [] then 0 else me + 1 + LastMember(members)
      modifies nodes
      ensures nodes[me..nodeCount] == Flat(Obj(members + [x]), me, 0) && nodes[..me] == old(nodes[..me])
      ensures newLast == child == me + 1 + LastMember(members + [x])
    {
      hide Flat, FlatMember, Attached, LastMember;
      ghost var s := nodes[..];
      ObjectGrows(members, x, me);
      assert nodes[me..nodeCount] == nodes[me..child] + nodes[child..nodeCount];
      AttachedFrom(s, me, child, last, nodeCount);
      newLast := Attach(me, child, last);
      assert nodes[me..nodeCount] == nodes[..][me..nodeCount];
      assert nodes[..me] == nodes[..][..me];
    }
  
    /** What a parsing method owes: the value the function finds, its nodes in place, and nothing before them touched. */
    twostate predicate Parses(outcome: Option<Parsed>, me: nat)
      reads this, nodes
    {
      && Shaped() && old(nodeCount) <= nodeCount
      && nodes[..old(nodeCount)] == old(nodes[..nodeCount])
      && match outcome
         case None => failed && me == 0
         case Some(p) =>
           && !failed && me == old(nodeCount) && pos == p.next && nodeCount == p.count
           && nodes[me..nodeCount] == Flat(p.tree, me, 0)
    }

    /** Takes a node without children and moves on by `n` bytes. */
    method Leaf(node: Node, n: nat, ghost v: Tree) returns (me: nat)
      requires Shaped() && !failed && pos + n <= |text| && IsLeaf(v) && node == Head(v, nodeCount, 0)
      modifies this, nodes
      ensures Parses(if old(nodeCount) >= MAX_NODES then None else Some(Parsed(v, old(pos) + n, old(nodeCount) + 1)), me)
    {
      hide Flat, Size, Head;
      LeafIsFlat(v, nodeCount);
      me := Alloc(node);
      if me == 0 {
        return;
      }
      pos := pos + n;
      assert nodes[me..nodeCount] == [node];
    }

    method ParseNode(depth: nat) returns (me: nat)
      requires Shaped() && !failed
      modifies this, nodes
      ensures Parses(ParseValue(text, old(pos), depth, old(nodeCount)), me)
      decreases |text| - pos, 2
    {
      hide ParseToken, Flat;
      if depth > MAX_DEPTH {
        failed := true;
        return 0;
      }
      SkipWhitespace();
      if pos >= |text| {
        failed := true;
        return 0;
      }
      me := ParseTokenNode(depth);
    }

    method ParseTokenNode(depth: nat) returns (me: nat)
      requires Shaped() && !failed && pos < |text|
      modifies this, nodes
      ensures Parses(ParseToken(text, old(pos), depth, old(nodeCount)), me)
      decreases |text| - pos, 1
    {
      hide ParseObject, ParseArray, ParseToken, Flat;
      ByFirstByte(text, pos, depth, nodeCount);
      if text[pos] == OPEN_BRACE {
        me := ParseObjectNode(depth);
      } else if text[pos] == OPEN_BRACKET {
        me := ParseArrayNode(depth);
      } else if text[pos] == QUOTE {
        me := ParseStringNode(depth);
      } else {
        me := ParsePlainNode(depth);
      }
    }

    method ParseStringNode(depth: nat) returns (me: nat)
      requires Shaped() && !failed && pos < |text| && text[pos] == QUOTE
      modifies this, nodes
      ensures Parses(ParseToken(text, old(pos), depth, old(nodeCount)), me)
    {
      hide ParseObject, ParseArray, ScanString, Flat;
      var ok, start, len := ScanQuoted();
      if !ok {
        failed := true;
        return 0;
      }
      me := Leaf(Node(StringNode, Clip(start), Clip(len), 0, 0, 0), 0, Str(start, len));
    }

    /** A literal or a number. */
    method ParsePlainNode(depth: nat) returns (me: nat)
      requires Shaped() && !failed && pos < |text| && text[pos] != OPEN_BRACE && text[pos] != OPEN_BRACKET && text[pos] != QUOTE
      modifies this, nodes
      ensures Parses(ParseToken(text, old(pos), depth, old(nodeCount)), me)
    {
      hide ParseObject, ParseArray, NumberEnd, IsNumberChar, Flat;
      var c := text[pos];
      if Lit(text, pos, TRUE) || Lit(text, pos, FALSE) {
        LitFits(text, pos);
        var n := if c == TRUE[0] then |TRUE| else |FALSE|;
        me := Leaf(Node(BoolNode, Clip(pos), n, 0, 0, 0), n, Bool(pos, n));
      } else if Lit(text, pos, NULL) {
        me := Leaf(Node(NullNode, 0, 0, 0, 0, 0), |NULL|, Null);
      } else if IsNumberChar(c) {
        var end := ScanNumber();
        me := Leaf(Node(NumberNode, Clip(pos), Clip(end - pos), 0, 0, 0), end - pos, Number(pos, end - pos));
      } else {
        failed := true;
        me := 0;
      }
    }

    method ScanNumber() returns (end: nat)
      requires Shaped()
      ensures end == NumberEnd(text, pos)
    {
      end := pos;
      while end < |text| && IsNumberChar(text[end])
        invariant pos <= end <= |text| && NumberEnd(text, end) == NumberEnd(text, pos)
        decreases |text| - end
      {
        end := end + 1;
      }
    }

    method ParseArrayNode(depth: nat) returns (me: nat)
      requires Shaped() && !failed && pos < |text|
      modifies this, nodes
      ensures Parses(ParseArray(text, old(pos), depth, old(nodeCount)), me)
      decreases |text| - pos, 0
    {
      hide ParseItems, Flat, SkipWs;
      me := Alloc(Node(ArrayNode, 0, 0, 0, 0, 0));
      if me == 0 {
        return;
      }
      pos := pos + 1;
      SkipWhitespace();
      EmptyContainers(me);
      assert nodes[me..nodeCount] == [nodes[me]];
      if CharAt(text, pos, CLOSE_BRACKET) {
        pos := pos + 1;
        return;
      }
      me := ParseRestOfArray(me, depth);
    }

    static lemma FrontStays(now: seq<Node>, before: seq<Node>, list: nat, count: nat)
      requires list <= count <= |now| && now[..count] == before
      ensures now[..list] == before[..list] && now[list..count] == before[list..]
    {
    }

    /** The loop over an array's values. */
    method ParseRestOfArray(list: nat, depth: nat) returns (me: nat)
      requires Shaped() && !failed && 0 < list && nodeCount == list + 1 && nodes[list..nodeCount] == Flat(Arr([]), list, 0)
      modifies this, nodes
      ensures Shaped() && list < nodeCount && nodes[..list] == old(nodes[..list])
      ensures match ParseItems(text, old(pos), depth, old(nodeCount))
              case None => failed && me == 0
              case Some(p) => !failed && me == list && pos == p.next && nodeCount == p.count
                              && nodes[list..nodeCount] == Flat(Arr(p.items), list, 0)
      decreases |text| - pos, 3
    {
      hide ParseValue, ParseItems, ItemsBehind, Flat, LastItem, JoinedItems, SkipWs;
      ghost var items: seq<Tree> := [];
      ghost var whole := ParseItems(text, pos, depth, nodeCount);
      JoinsNothing(whole);
      var last := 0;
      while true
        invariant Shaped() && !failed && list < nodeCount && nodes[..list] == old(nodes[..list])
        invariant nodes[list..nodeCount] == Flat(Arr(items), list, 0)
        invariant last == if items == [] then 0 else list + 1 + LastItem(items)
        invariant whole == JoinedItems(items, ParseItems(text, pos, depth, nodeCount))
        invariant old(pos) <= pos
        decreases |text| - pos
      {
        ghost var from, count, before := pos, nodeCount, nodes[..nodeCount];
        ItemsByValue(text, from, depth, count, items);
        var value := ParseNode(depth + 1);
        if failed {
          return 0;
        }
        ghost var v := ParseValue(text, from, depth + 1, count).value;
        FrontStays(nodes[..], before, list, count);
        last := AttachItem(list, value, last, items, v.tree);
        ItemsByComma(text, depth, items, v);
        items := items + [v.tree];
        SkipWhitespace();
        if CharAt(text, pos, COMMA) {
          pos := pos + 1;
        } else if CharAt(text, pos, CLOSE_BRACKET) {
          pos := pos + 1;
          return list;
        } else {
          failed := true;
          return 0;
        }
      }
    }

    method ParseObjectNode(depth: nat) returns (me: nat)
      requires Shaped() && !failed && pos < |text|
      modifies this, nodes
      ensures Parses(ParseObject(text, old(pos), depth, old(nodeCount)), me)
      decreases |text| - pos, 0
    {
      hide ParseMembers, Flat, SkipWs;
      me := Alloc(Node(ObjectNode, 0, 0, 0, 0, 0));
      if me == 0 {
        return;
      }
      pos := pos + 1;
      SkipWhitespace();
      EmptyContainers(me);
      assert nodes[me..nodeCount] == [nodes[me]];
      if CharAt(text, pos, CLOSE_BRACE) {
        pos := pos + 1;
        return;
      }
      me := ParseRestOfObject(me, depth);
    }

    /** A key, its node, and the colon. */
    method ParseKeyNode() returns (key: nat, ghost start: nat, ghost len: nat)
      requires Shaped() && !failed
      modifies this, nodes
      ensures Shaped() && nodes[..old(nodeCount)] == old(nodes[..nodeCount]) && old(nodeCount) <= nodeCount
      ensures match ParseKey(text, old(pos), old(nodeCount))
              case None => failed && key == 0
              case Some((s, l, after)) =>
                !failed && key == old(nodeCount) && nodeCount == key + 1 && pos == after && start == s && len == l
                && nodes[key] == Node(StringNode, Clip(s), Clip(l), 0, 0, 0)
    {
      hide ScanString, SkipWs;
      SkipWhitespace();
      var ok, s, l := ScanQuoted();
      start, len := s, l;
      if !ok {
        failed := true;
        return 0, start, len;
      }
      key := Alloc(Node(StringNode, Clip(s), Clip(l), 0, 0, 0));
      if key == 0 {
        return;
      }
      SkipWhitespace();
      if !CharAt(text, pos, COLON) {
        failed := true;
        return 0, start, len;
      }
      pos := pos + 1;
    }

    /** A key and its value; the key's node points at the value's. */
    method ParseMemberNode(depth: nat) returns (key: nat, ghost member: Member)
      requires Shaped() && !failed
      modifies this, nodes
      ensures Shaped() && nodes[..old(nodeCount)] == old(nodes[..nodeCount]) && old(nodeCount) <= nodeCount
      ensures match ParsePair(text, old(pos), depth, old(nodeCount))
              case None => failed
              case Some(p) =>
                !failed && key == old(nodeCount) && member == p.0 && pos == p.1 && nodeCount == p.2
                && nodes[key..nodeCount] == FlatMember(member, key, 0)
      decreases |text| - pos, 2
    {
      hide ParseKey, ParseValue, Flat;
      ghost var start, len;
      ghost var count := nodeCount;
      member := Member(0, 0, Null);
      key, start, len := ParseKeyNode();
      if failed {
        return;
      }
      ghost var from, before := pos, nodes[..nodeCount];
      var value := ParseNode(depth + 1);
      if failed {
        return;
      }
      member := Member(start, len, ParseValue(text, from, depth + 1, count + 1).value.tree);
      assert nodes[key] == nodes[..key + 1][key] == before[key];
      assert nodes[..count] == nodes[..key + 1][..count] == before[..count];
      nodes[key] := nodes[key].(firstChild := value);
      assert nodes[key..nodeCount] == [nodes[key]] + nodes[value..nodeCount];
    }

    /** The loop over an object's members. */
    method ParseRestOfObject(list: nat, depth: nat) returns (me: nat)
      requires Shaped() && !failed && 0 < list && nodeCount == list + 1 && nodes[list..nodeCount] == Flat(Obj([]), list, 0)
      modifies this, nodes
      ensures Shaped() && list < nodeCount && nodes[..list] == old(nodes[..list])
      ensures match ParseMembers(text, old(pos), depth, old(nodeCount))
              case None => failed && me == 0
              case Some(p) => !failed && me == list && pos == p.next && nodeCount == p.count
                              && nodes[list..nodeCount] == Flat(Obj(p.members), list, 0)
      decreases |text| - pos, 3
    {
      hide ParsePair, ParseMembers, MembersBehind, Flat, FlatMember, LastMember, JoinedMembers, SkipWs;
      ghost var members: seq<Member> := [];
      ghost var whole := ParseMembers(text, pos, depth, nodeCount);
      JoinsNoMember(whole);
      var last := 0;
      while true
        invariant Shaped() && !failed && list < nodeCount && nodes[..list] == old(nodes[..list])
        invariant nodes[list..nodeCount] == Flat(Obj(members), list, 0)
        invariant last == if members == [] then 0 else list + 1 + LastMember(members)
        invariant whole == JoinedMembers(members, ParseMembers(text, pos, depth, nodeCount))
        invariant old(pos) <= pos
        decreases |text| - pos
      {
        ghost var from, count, before := pos, nodeCount, nodes[..nodeCount];
        MembersByPair(text, from, depth, count, members);
        ghost var member;
        var key;
        key, member := ParseMemberNode(depth);
        if failed {
          return 0;
        }
        FrontStays(nodes[..], before, list, count);
        last := AttachMember(list, key, last, members, member);
        MembersByComma(text, depth, members, member, pos, nodeCount);
        members := members + [member];
        SkipWhitespace();
        if CharAt(text, pos, COMMA) {
          pos := pos + 1;
        } else if CharAt(text, pos, CLOSE_BRACE) {
          pos := pos + 1;
          return list;
        } else {
          failed := true;
          return 0;
        }
      }
    }

    /** A whole document. On failure the node list is empty again. */
    method Parse() returns (ok: bool)
      requires Shaped() && nodeCount == 1 && pos == 0 && !failed
      modifies this, nodes
      ensures nodes.Length == MAX_NODES
      ensures match ParseDocument(text)
              case None => !ok && nodeCount == 1
              case Some(v) => ok && nodeCount == 1 + Size(v) <= MAX_NODES && nodes[1..nodeCount] == Flat(v, 1, 0)
    {
      hide ParseValue, Flat, SkipWs;
      var root := ParseNode(0);
      if failed || root == 0 {
        nodeCount := 1;
        return false;
      }
      SkipWhitespace();
      if pos < |text| {
        nodeCount := 1;
        return false;
      }
      ghost var v := ParseValue(text, 0, 0, 1).value.tree;
      assert |nodes[1..nodeCount]| == |Flat(v, 1, 0)|;
      return true;
    }
  }

  // ----- steps of the recursion -----

  predicate IsLeaf(v: Tree) {
    !v.Arr? && !v.Obj?
  }

  lemma LeafIsFlat(v: Tree, at: nat)
    requires IsLeaf(v)
    ensures Size(v) == 1 && Flat(v, at, 0) == [Head(v, at, 0)]
  {
  }

  lemma EmptyContainers(at: nat)
    ensures Flat(Arr([]), at, 0) == [Node(ArrayNode, 0, 0, 0, 0, 0)]
    ensures Flat(Obj([]), at, 0) == [Node(ObjectNode, 0, 0, 0, 0, 0)]
  {
  }

  lemma ByFirstByte(t: bytes, k: nat, depth: nat, count: nat)
    requires k < |t| && count <= MAX_NODES
    ensures t[k] == OPEN_BRACE ==> ParseToken(t, k, depth, count) == ParseObject(t, k, depth, count)
    ensures t[k] == OPEN_BRACKET ==> ParseToken(t, k, depth, count) == ParseArray(t, k, depth, count)
  {
    hide ParseObject, ParseArray;
  }

  lemma LitFits(t: bytes, k: nat)
    requires Lit(t, k, TRUE) || Lit(t, k, FALSE)
    ensures k + (if t[k] == TRUE[0] then |TRUE| else |FALSE|) <= |t|
  {
    if Lit(t, k, TRUE) {
      LitStarts(t, k, TRUE);
    } else {
      LitStarts(t, k, FALSE);
    }
  }

  /** Values found before those of a list still to be parsed. */
  function JoinedItems(items: seq<Tree>, rest: Option<ParsedItems>): Option<ParsedItems> {
    match rest
    case None => None
    case Some(p) => Some(ParsedItems(items + p.items, p.next, p.count))
  }

  lemma JoinsNothing(o: Option<ParsedItems>)
    ensures JoinedItems([], o) == o
  {
    if o.Some? {
      assert [] + o.value.items == o.value.items;
    }
  }

  lemma ItemsByValue(t: bytes, i: nat, depth: nat, count: nat, items: seq<Tree>)
    requires i <= |t| && count <= MAX_NODES
    ensures var v := ParseValue(t, i, depth + 1, count);
            JoinedItems(items, ParseItems(t, i, depth, count)) == if v.None? then None else JoinedItems(items, ItemsBehind(t, v.value, depth))
  {
    hide ParseValue, ItemsBehind;
  }

  lemma ItemsByComma(t: bytes, depth: nat, items: seq<Tree>, v: Parsed)
    requires v.next <= |t| && v.count <= MAX_NODES
    ensures var j := SkipWs(t, v.next);
            JoinedItems(items, ItemsBehind(t, v, depth))
            == if CharAt(t, j, COMMA) then JoinedItems(items + [v.tree], ParseItems(t, j + 1, depth, v.count))
               else if CharAt(t, j, CLOSE_BRACKET) then Some(ParsedItems(items + [v.tree], j + 1, v.count))
               else None
  {
    hide ParseItems, SkipWs;
    var j := SkipWs(t, v.next);
    if CharAt(t, j, COMMA) {
      var rest := ParseItems(t, j + 1, depth, v.count);
      if rest.Some? {
        assert items + ([v.tree] + rest.value.items) == items + [v.tree] + rest.value.items;
      }
    }
  }

  /** A key with its value, as the parser reads them. */
  function ParsePair(t: bytes, i: nat, depth: nat, count: nat): (r: Option<(Member, nat, nat)>)
    requires i <= |t| && count <= MAX_NODES
    ensures r.Some? ==> i < r.value.1 <= |t| && count < r.value.2 <= MAX_NODES
  {
    match ParseKey(t, i, count)
    case None => None
    case Some((start, len, after)) =>
      match ParseValue(t, after, depth + 1, count + 1)
      case None => None
      case Some(v) => Some((Member(start, len, v.tree), v.next, v.count))
  }

  function JoinedMembers(members: seq<Member>, rest: Option<ParsedMembers>): Option<ParsedMembers> {
    match rest
    case None => None
    case Some(p) => Some(ParsedMembers(members + p.members, p.next, p.count))
  }

  lemma JoinsNoMember(o: Option<ParsedMembers>)
    ensures JoinedMembers([], o) == o
  {
    if o.Some? {
      assert [] + o.value.members == o.value.members;
    }
  }

  lemma MembersByPair(t: bytes, i: nat, depth: nat, count: nat, members: seq<Member>)
    requires i <= |t| && count <= MAX_NODES
    ensures var p := ParsePair(t, i, depth, count);
            JoinedMembers(members, ParseMembers(t, i, depth, count))
            == if p.None? then None else JoinedMembers(members, MembersBehind(t, p.value.0, p.value.1, depth, p.value.2))
  {
    hide ParseValue, MembersBehind, ParseKey;
  }

  lemma MembersByComma(t: bytes, depth: nat, members: seq<Member>, m: Member, next: nat, count: nat)
    requires next <= |t| && count <= MAX_NODES
    ensures var j := SkipWs(t, next);
            JoinedMembers(members, MembersBehind(t, m, next, depth, count))
            == if CharAt(t, j, COMMA) then JoinedMembers(members + [m], ParseMembers(t, j + 1, depth, count))
               else if CharAt(t, j, CLOSE_BRACE) then Some(ParsedMembers(members + [m], j + 1, count))
               else None
  {
    hide ParseMembers, SkipWs;
    var j := SkipWs(t, next);
    if CharAt(t, j, COMMA) {
      var rest := ParseMembers(t, j + 1, depth, count);
      if rest.Some? {
        assert members + ([m] + rest.value.members) == members + [m] + rest.value.members;
      }
    }
  }
}
