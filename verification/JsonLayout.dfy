/** How a parsed document lies in the node array: in preorder, children chained by sibling links. */
module JsonLayout {
  import opened Bytes
  import opened Json

  datatype NodeType = NullNode | BoolNode | NumberNode | StringNode | ArrayNode | ObjectNode

  /** Links are node indices; 0 is no node. A key is a string node whose first child is the member's value. */
  datatype Node = Node(kind: NodeType, start: u32, len: u32, firstChild: nat, nextSibling: nat, childCount: nat)

  /** Offsets are stored in 32 bits. */
  function Clip(n: nat): u32 {
    n % U32_LIMIT
  }

  function Head(v: Tree, at: nat, sibling: nat): Node {
    match v
    case Null => Node(NullNode, 0, 0, 0, sibling, 0)
    case Bool(s, l) => Node(BoolNode, Clip(s), Clip(l), 0, sibling, 0)
    case Number(s, l) => Node(NumberNode, Clip(s), Clip(l), 0, sibling, 0)
    case Str(s, l) => Node(StringNode, Clip(s), Clip(l), 0, sibling, 0)
    case Arr(items) => Node(ArrayNode, 0, 0, if items == [] then 0 else at + 1, sibling, |items|)
    case Obj(members) => Node(ObjectNode, 0, 0, if members == [] then 0 else at + 1, sibling, |members|)
  }

  function KeyHead(m: Member, at: nat, sibling: nat): Node {
    Node(StringNode, Clip(m.start), Clip(m.len), at + 1, sibling, 0)
  }

  /** The nodes of a value whose own node is number `at`. */
  function Flat(v: Tree, at: nat, sibling: nat): (r: seq<Node>)
    ensures |r| == Size(v)
    decreases v
  {
    [Head(v, at, sibling)] + Inside(v, at)
  }

  function Inside(v: Tree, at: nat): (r: seq<Node>)
    ensures |r| == Size(v) - 1
    decreases v, 0
  {
    match v
    case Arr(items) => FlatItems(items, at + 1)
    case Obj(members) => FlatMembers(members, at + 1)
    case _ => []
  }

  function FlatItems(items: seq<Tree>, at: nat): (r: seq<Node>)
    ensures |r| == ItemsSize(items)
    decreases items
  {
    if items == [] then []
    else
      var next := at + Size(items[0]);
      Flat(items[0], at, if |items| == 1 then 0 else next) + FlatItems(items[1..], next)
  }

  function FlatMember(m: Member, at: nat, sibling: nat): (r: seq<Node>)
    ensures |r| == MemberSize(m)
    decreases m
  {
    [KeyHead(m, at, sibling)] + Flat(m.value, at + 1, 0)
  }

  function FlatMembers(members: seq<Member>, at: nat): (r: seq<Node>)
    ensures |r| == MembersSize(members)
    decreases members
  {
    if members == [] then []
    else
      var next := at + MemberSize(members[0]);
      FlatMember(members[0], at, if |members| == 1 then 0 else next) + FlatMembers(members[1..], next)
  }

  // ----- appending a child -----

  /** A list of nodes with one node's sibling link set. */
  function Linked(nodes: seq<Node>, k: nat, sibling: nat): (r: seq<Node>)
    requires k < |nodes|
    ensures |r| == |nodes|
  {
    nodes[k := nodes[k].(nextSibling := sibling)]
  }

  lemma FlatLinked(v: Tree, at: nat, sibling: nat)
    ensures Flat(v, at, sibling) == Linked(Flat(v, at, 0), 0, sibling)
  {
    hide Inside;
  }

  lemma FlatMemberLinked(m: Member, at: nat, sibling: nat)
    ensures FlatMember(m, at, sibling) == Linked(FlatMember(m, at, 0), 0, sibling)
  {
    hide Flat;
  }

  lemma LinkedBehind(a: seq<Node>, b: seq<Node>, k: nat, sibling: nat)
    requires k < |b|
    ensures a + Linked(b, k, sibling) == Linked(a + b, |a| + k, sibling)
  {
  }

  /** Where the last child of a list starts, counted from the first. */
  function LastItem(items: seq<Tree>): (k: nat)
    requires items != []
    ensures k < ItemsSize(items)
    decreases |items|
  {
    if |items| == 1 then 0 else Size(items[0]) + LastItem(items[1..])
  }

  function LastMember(members: seq<Member>): (k: nat)
    requires members != []
    ensures k < MembersSize(members)
    decreases |members|
  {
    if |members| == 1 then 0 else MemberSize(members[0]) + LastMember(members[1..])
  }

  /** Appending to the chain: the last child's link is set, the new child's nodes follow. */
  lemma {:induction false} AppendItem(items: seq<Tree>, x: Tree, at: nat)
    requires items != []
    ensures FlatItems(items + [x], at) == Linked(FlatItems(items, at), LastItem(items), at + ItemsSize(items)) + Flat(x, at + ItemsSize(items), 0)
    ensures LastItem(items + [x]) == ItemsSize(items) && ItemsSize(items + [x]) == ItemsSize(items) + Size(x)
    decreases |items|
  {
    hide Flat, Size, FlatItems, ItemsSize, LastItem;
    ItemsFold(items, at);
    ItemsFold(items + [x], at);
    var h, rest := items[0], items[1..];
    var next := at + Size(h);
    var more := items + [x];
    assert more[0] == h && more[1..] == rest + [x];
    FlatLinked(h, at, next);
    OneItem(x, next);
    if rest == [] {
      OneItem(h, at);
      assert items == [h] && rest + [x] == [x];
      assert FlatItems(more, at) == Flat(h, at, next) + FlatItems([x], next);
    } else {
      AppendItem(rest, x, next);
      LinkedBehind(Flat(h, at, next), FlatItems(rest, next), LastItem(rest), next + ItemsSize(rest));
      assert FlatItems(more, at) == Flat(h, at, next) + FlatItems(rest + [x], next);
    }
  }

  lemma OneItem(x: Tree, at: nat)
    ensures FlatItems([x], at) == Flat(x, at, 0) && ItemsSize([x]) == Size(x) && LastItem([x]) == 0
  {
    hide Flat, Size;
    assert [x][1..] == [];
  }

  lemma {:induction false} AppendMember(members: seq<Member>, x: Member, at: nat)
    requires members != []
    ensures FlatMembers(members + [x], at)
            == Linked(FlatMembers(members, at), LastMember(members), at + MembersSize(members)) + FlatMember(x, at + MembersSize(members), 0)
    ensures LastMember(members + [x]) == MembersSize(members) && MembersSize(members + [x]) == MembersSize(members) + MemberSize(x)
    decreases |members|
  {
    hide FlatMember, MemberSize, FlatMembers, MembersSize, LastMember;
    MembersFold(members, at);
    MembersFold(members + [x], at);
    var h, rest := members[0], members[1..];
    var next := at + MemberSize(h);
    var more := members + [x];
    assert more[0] == h && more[1..] == rest + [x];
    FlatMemberLinked(h, at, next);
    OneMember(x, next);
    if rest == [] {
      OneMember(h, at);
      assert members == [h] && rest + [x] == [x];
      assert FlatMembers(more, at) == FlatMember(h, at, next) + FlatMembers([x], next);
    } else {
      AppendMember(rest, x, next);
      LinkedBehind(FlatMember(h, at, next), FlatMembers(rest, next), LastMember(rest), next + MembersSize(rest));
      assert FlatMembers(more, at) == FlatMember(h, at, next) + FlatMembers(rest + [x], next);
    }
  }

  lemma OneMember(x: Member, at: nat)
    ensures FlatMembers([x], at) == FlatMember(x, at, 0) && MembersSize([x]) == MemberSize(x) && LastMember([x]) == 0
  {
    hide FlatMember, MemberSize;
    assert [x][1..] == [];
  }

  lemma ItemsFold(items: seq<Tree>, at: nat)
    requires items != []
    ensures var next := at + Size(items[0]);
            FlatItems(items, at) == Flat(items[0], at, if |items| == 1 then 0 else next) + FlatItems(items[1..], next)
    ensures ItemsSize(items) == Size(items[0]) + ItemsSize(items[1..])
    ensures LastItem(items) == if |items| == 1 then 0 else Size(items[0]) + LastItem(items[1..])
  {
    hide Flat, Size;
  }

  lemma MembersFold(members: seq<Member>, at: nat)
    requires members != []
    ensures var next := at + MemberSize(members[0]);
            FlatMembers(members, at) == FlatMember(members[0], at, if |members| == 1 then 0 else next) + FlatMembers(members[1..], next)
    ensures MembersSize(members) == MemberSize(members[0]) + MembersSize(members[1..])
    ensures LastMember(members) == if |members| == 1 then 0 else MemberSize(members[0]) + LastMember(members[1..])
  {
    hide FlatMember, MemberSize;
  }
}
