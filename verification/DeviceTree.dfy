/** The walks over the device tree in USBPcapCMD/enum.c: iterative depth-first
    searches by child, sibling and parent queries, against the recursive preorder. */
module DeviceTree {
  import opened Wrappers
  import opened Bytes
  import Sequences

  const LOOP_SANITY_LIMIT := 10000

  /** A registry property; Failed is any error other than "no such value". */
  datatype Property = Value(text: string) | NoSuchValue | Failed

  datatype Node = Node(friendlyName: Property, description: Property, driver: Property, children: seq<Node>)

  /** A DEVINST: a position in the tree. */
  datatype DevInst = Root(tree: Node) | ChildOf(parent: DevInst, index: nat)

  predicate Valid(d: DevInst)
    decreases d, 0
  {
    d.ChildOf? ==> Valid(d.parent) && d.index < |NodeOf(d.parent).children|
  }

  function NodeOf(d: DevInst): Node
    requires Valid(d)
    decreases d, 1
  {
    match d
    case Root(tree) => tree
    case ChildOf(p, i) => NodeOf(p).children[i]
  }

  function Width(d: DevInst): nat
    requires Valid(d)
  {
    |NodeOf(d).children|
  }

  // CM_Get_Child, CM_Get_Sibling and CM_Get_Parent; None is CR_NO_SUCH_DEVNODE.
  function GetChild(d: DevInst): (c: Option<DevInst>)
    requires Valid(d)
    ensures c.Some? ==> Valid(c.value)
  {
    if Width(d) > 0 then Some(ChildOf(d, 0)) else None
  }

  function GetSibling(d: DevInst): (c: Option<DevInst>)
    requires Valid(d)
    ensures c.Some? ==> Valid(c.value)
  {
    if d.ChildOf? && d.index + 1 < Width(d.parent) then Some(ChildOf(d.parent, d.index + 1)) else None
  }

  function GetParent(d: DevInst): (c: Option<DevInst>)
    requires Valid(d)
    ensures c.Some? ==> Valid(c.value)
  {
    if d.ChildOf? then Some(d.parent) else None
  }

  function Depth(d: DevInst): nat {
    if d.Root? then 0 else Depth(d.parent) + 1
  }

  /** The friendly name, or the description where reading it fails. */
  function Display(d: DevInst): (s: string)
    requires Valid(d)
  {
    var p := if NodeOf(d).friendlyName.Value? then NodeOf(d).friendlyName else NodeOf(d).description;
    if p.Value? then p.text else ""
  }

  /** What a node is called: its friendly name, if that can be read; otherwise its
      description; and nothing if neither can. */
  lemma DisplayMeaning(d: DevInst, name: string)
    requires Valid(d)
    ensures NodeOf(d).friendlyName == Value(name) ==> Display(d) == name
    ensures !NodeOf(d).friendlyName.Value? && NodeOf(d).description == Value(name) ==> Display(d) == name
    ensures !NodeOf(d).friendlyName.Value? && !NodeOf(d).description.Value? ==> Display(d) == ""
  {}

  // ---------- recursive preorder ----------

  /** The positions below d from its child i on, in preorder. */
  function Below(d: DevInst, i: nat): seq<DevInst>
    requires Valid(d)
    decreases NodeOf(d), Width(d) - i
  {
    if i >= Width(d) then [] else [ChildOf(d, i)] + Below(ChildOf(d, i), 0) + Below(d, i + 1)
  }

  function Preorder(d: DevInst): seq<DevInst>
    requires Valid(d)
  {
    [d] + Below(d, 0)
  }

  /** A node met by the walk and the numbers it is reported with. */
  datatype Visit = Visit(at: DevInst, level: nat, node: nat, parentNode: nat)

  /** The recursive numbering: children of d from i on, the next free number, and the
      number of d itself. */
  function Walk(d: DevInst, i: nat, level: nat, next: nat, number: nat): (vs: seq<Visit>)
    requires Valid(d)
    decreases NodeOf(d), Width(d) - i
  {
    if i >= Width(d) then []
    else
      var c := ChildOf(d, i);
      var sub := Walk(c, 0, level + 1, next + 1, next);
      [Visit(c, level, next, number)] + sub + Walk(d, i + 1, level, next + 1 + |sub|, number)
  }

  function Positions(vs: seq<Visit>): (ds: seq<DevInst>)
    ensures |ds| == |vs| && forall k :: 0 <= k < |vs| ==> ds[k] == vs[k].at
  {
    seq(|vs|, k requires 0 <= k < |vs| => vs[k].at)
  }

  /** Number j belongs to the visit of d, or is that of top. */
  predicate NumberedBefore(vs: seq<Visit>, k: nat, d: DevInst, number: nat)
    requires k <= |vs|
  {
    exists j :: 0 <= j < k && vs[j].at == d && vs[j].node == number
  }

  /** What the numbers of a visit mean: its place in the order, its parent's number,
      and its depth. */
  predicate Numbered(vs: seq<Visit>, k: nat, top: DevInst, level: nat, next: nat, number: nat)
    requires k < |vs|
  {
    var v := vs[k];
    && v.at.ChildOf? && v.node == next + k
    && Depth(v.at) > Depth(top) && v.level == level + (Depth(v.at) - Depth(top) - 1)
    && if v.at.parent == top then v.parentNode == number else NumberedBefore(vs, k, v.at.parent, v.parentNode)
  }

  lemma PositionsConcat(v: Visit, sub: seq<Visit>, more: seq<Visit>)
    ensures Positions([v] + sub + more) == [v.at] + Positions(sub) + Positions(more)
  {}

  /** The walk meets every node below d once, in preorder. */
  lemma {:induction false} WalkIsPreorder(d: DevInst, i: nat, level: nat, next: nat, number: nat)
    requires Valid(d)
    ensures Positions(Walk(d, i, level, next, number)) == Below(d, i)
    decreases NodeOf(d), Width(d) - i
  {
    if i < Width(d) {
      var c := ChildOf(d, i);
      var sub := Walk(c, 0, level + 1, next + 1, next);
      var more := Walk(d, i + 1, level, next + 1 + |sub|, number);
      WalkIsPreorder(c, 0, level + 1, next + 1, next);
      WalkIsPreorder(d, i + 1, level, next + 1 + |sub|, number);
      PositionsConcat(Visit(c, level, next, number), sub, more);
      assert Walk(d, i, level, next, number) == [Visit(c, level, next, number)] + sub + more;
    }
  }

  lemma ShiftNumbered(front: seq<Visit>, vs: seq<Visit>, back: seq<Visit>, k: nat, top: DevInst, level: nat,
                      next: nat, number: nat)
    requires k < |vs| && Numbered(vs, k, top, level, next, number)
    ensures var all := front + vs + back;
      && all[|front| + k] == vs[k]
      && (vs[k].at.parent == top || NumberedBefore(all, |front| + k, vs[k].at.parent, vs[k].parentNode))
  {
    var all := front + vs + back;
    if vs[k].at.parent != top {
      var j :| 0 <= j < k && vs[j].at == vs[k].at.parent && vs[j].node == vs[k].parentNode;
      assert all[|front| + j] == vs[j];
    }
  }

  lemma WalkStep(d: DevInst, i: nat, level: nat, next: nat, number: nat, k: nat)
    requires Valid(d) && i < Width(d)
    requires var c := ChildOf(d, i);
             var sub := Walk(c, 0, level + 1, next + 1, next);
             var more := Walk(d, i + 1, level, next + 1 + |sub|, number);
      && k < 1 + |sub| + |more|
      && (1 <= k <= |sub| ==> Numbered(sub, k - 1, c, level + 1, next + 1, next))
      && (k > |sub| ==> Numbered(more, k - 1 - |sub|, d, level, next + 1 + |sub|, number))
    ensures k < |Walk(d, i, level, next, number)| &&
            Numbered(Walk(d, i, level, next, number), k, d, level, next, number)
  {
    var c := ChildOf(d, i);
    var sub := Walk(c, 0, level + 1, next + 1, next);
    var more := Walk(d, i + 1, level, next + 1 + |sub|, number);
    var first := Visit(c, level, next, number);
    var all := Walk(d, i, level, next, number);
    assert all == [first] + sub + more == ([first] + sub) + more + [];
    if 1 <= k <= |sub| {
      ShiftNumbered([first], sub, more, k - 1, c, level + 1, next + 1, next);
      if all[k].at.parent == c {
        assert all[0].at == c && all[0].node == all[k].parentNode;
        assert NumberedBefore(all, k, c, all[k].parentNode);
      }
    } else if k > |sub| {
      ShiftNumbered([first] + sub, more, [], k - 1 - |sub|, d, level, next + 1 + |sub|, number);
    }
  }

  /** In the walk, a node's number is its place in preorder, its parent number that of
      its parent, and its level its depth. */
  lemma {:induction false} WalkNumbers(d: DevInst, i: nat, level: nat, next: nat, number: nat, k: nat)
    requires Valid(d) && k < |Walk(d, i, level, next, number)|
    ensures Numbered(Walk(d, i, level, next, number), k, d, level, next, number)
    decreases NodeOf(d), Width(d) - i
  {
    var c := ChildOf(d, i);
    var sub := Walk(c, 0, level + 1, next + 1, next);
    if 1 <= k <= |sub| {
      WalkNumbers(c, 0, level + 1, next + 1, next, k - 1);
    } else if k > |sub| {
      WalkNumbers(d, i + 1, level, next + 1 + |sub|, number, k - 1 - |sub|);
    }
    WalkStep(d, i, level, next, number, k);
  }

  // ---------- what is left for the iterative walk ----------

  /** The node stack. */
  datatype Stack = Empty | Push(value: nat, below: Stack)

  function Height(s: Stack): nat {
    if s.Empty? then 0 else Height(s.below) + 1
  }

  /** d is top or lies below it, and the stack has an entry for each level between. */
  predicate Under(d: DevInst, top: DevInst, stack: Stack) {
    if d == top then stack.Empty?
    else d.ChildOf? && stack.Push? && Under(d.parent, top, stack.below)
  }

  /** The visits after the whole subtree of d has been visited. */
  function After(d: DevInst, top: DevInst, level: nat, next: nat, stack: Stack): seq<Visit>
    requires Valid(d) && Under(d, top, stack)
    requires level >= Height(stack)
    decreases d
  {
    if d == top then []
    else
      var right := Walk(d.parent, d.index + 1, level, next, stack.value);
      right + After(d.parent, top, level - 1, next + |right|, stack.below)
  }

  /** The visits from d on, d not having been visited. */
  function From(d: DevInst, top: DevInst, level: nat, next: nat, stack: Stack): seq<Visit>
    requires Valid(d) && Under(d, top, stack) && d != top
    requires level >= Height(stack)
  {
    var sub := Walk(d, 0, level + 1, next + 1, next);
    [Visit(d, level, next, stack.value)] + sub + After(d, top, level, next + 1 + |sub|, stack)
  }

  lemma AfterChild(d: DevInst, top: DevInst, level: nat, next: nat, number: nat, stack: Stack, more: seq<Visit>,
                   rest: seq<Visit>)
    requires Valid(d) && Under(d, top, stack) && level >= Height(stack) && Width(d) > 0 && ChildOf(d, 0) != top
    requires more == Walk(d, 1, level + 1, next, number) && rest == After(d, top, level, next + |more|, stack)
    ensures After(ChildOf(d, 0), top, level + 1, next, Push(number, stack)) == more + rest
  {}

  lemma FromChild(d: DevInst, top: DevInst, level: nat, next: nat, stack: Stack)
    requires Valid(d) && Under(d, top, stack) && d != top && level >= Height(stack) && Width(d) > 0
    requires ChildOf(d, 0) != top
    ensures From(d, top, level, next, stack)
         == [Visit(d, level, next, stack.value)] + From(ChildOf(d, 0), top, level + 1, next + 1, Push(next, stack))
  {
    var c := ChildOf(d, 0);
    var sub := Walk(c, 0, level + 2, next + 2, next + 1);
    var more := Walk(d, 1, level + 1, next + 2 + |sub|, next);
    var all := Walk(d, 0, level + 1, next + 1, next);
    var rest := After(d, top, level, next + 1 + |all|, stack);
    var v, vc := [Visit(d, level, next, stack.value)], [Visit(c, level + 1, next + 1, next)];
    assert all == vc + sub + more;
    assert From(d, top, level, next, stack) == v + all + rest;
    AfterChild(d, top, level, next + 2 + |sub|, next, stack, more, rest);
    assert From(c, top, level + 1, next + 1, Push(next, stack)) == vc + sub + (more + rest);
    Regroup4(v, vc + sub, more, rest);
  }

  lemma Regroup4<T>(a: seq<T>, b: seq<T>, c: seq<T>, d: seq<T>)
    ensures a + (b + c) + d == a + (b + (c + d))
  {}

  lemma FromLeaf(d: DevInst, top: DevInst, level: nat, next: nat, stack: Stack)
    requires Valid(d) && Under(d, top, stack) && d != top && level >= Height(stack) && Width(d) == 0
    ensures From(d, top, level, next, stack)
         == [Visit(d, level, next, stack.value)] + After(d, top, level, next + 1, stack)
  {}

  lemma AfterSibling(d: DevInst, top: DevInst, level: nat, next: nat, stack: Stack)
    requires Valid(d) && Under(d, top, stack) && d != top && level >= Height(stack)
    ensures d.index + 1 < Width(d.parent) && ChildOf(d.parent, d.index + 1) != top ==>
              After(d, top, level, next, stack) == From(ChildOf(d.parent, d.index + 1), top, level, next, stack)
    ensures d.index + 1 >= Width(d.parent) ==>
              After(d, top, level, next, stack) == After(d.parent, top, level - 1, next, stack.below)
  {
    if d.index + 1 < Width(d.parent) {
      var c := ChildOf(d.parent, d.index + 1);
      var sub := Walk(c, 0, level + 1, next + 1, next);
      var more := Walk(d.parent, d.index + 2, level, next + 1 + |sub|, stack.value);
      if c != top {
        assert After(c, top, level, next + 1 + |sub|, stack) ==
               more + After(d.parent, top, level - 1, next + 1 + |sub| + |more|, stack.below);
      }
    }
  }

  lemma {:induction false} NotAbove(d: DevInst, top: DevInst, stack: Stack)
    requires Under(d, top, stack)
    ensures Depth(d) == Depth(top) + Height(stack)
    decreases d
  {
    if d != top {
      NotAbove(d.parent, top, stack.below);
    }
  }

  // ---------- the iterative walk ----------

  /** The arguments of the callback. */
  datatype Report = Report(level: nat, index: nat, display: string, deviceAddress: nat, parentAddress: nat,
                           node: nat, parentNode: nat)

  predicate AllValid(vs: seq<Visit>) {
    forall k :: 0 <= k < |vs| ==> Valid(vs[k].at)
  }

  /** One report for every visited node that has a name. */
  function Reports(vs: seq<Visit>, deviceAddress: nat): seq<Report>
    requires AllValid(vs)
  {
    if vs == [] then []
    else
      var before := Reports(vs[..|vs| - 1], deviceAddress);
      var v := vs[|vs| - 1];
      if Display(v.at) == "" then before
      else before + [Report(v.level, 0, Display(v.at), deviceAddress, deviceAddress, v.node, v.parentNode)]
  }

  lemma {:induction false} BelowValid(d: DevInst, i: nat, level: nat, next: nat, number: nat)
    requires Valid(d)
    ensures AllValid(Walk(d, i, level, next, number))
    decreases NodeOf(d), Width(d) - i
  {
    if i < Width(d) {
      var sub := Walk(ChildOf(d, i), 0, level + 1, next + 1, next);
      BelowValid(ChildOf(d, i), 0, level + 1, next + 1, next);
      BelowValid(d, i + 1, level, next + 1 + |sub|, number);
    }
  }

  /** The reports made so far. */
  ghost predicate Reported(done: seq<Visit>, all: seq<Visit>, deviceAddress: nat, reports: seq<Report>) {
    && AllValid(all) && |done| <= |all| && done == all[..|done|]
    && reports == Reports(done, deviceAddress)
  }

  lemma ReportedStep(done: seq<Visit>, all: seq<Visit>, deviceAddress: nat, reports: seq<Report>)
    requires Reported(done, all, deviceAddress, reports) && |done| < |all|
    ensures var v := all[|done|];
      && Valid(v.at)
      && Reported(done + [v], all, deviceAddress,
                  if Display(v.at) == "" then reports
                  else reports + [Report(v.level, 0, Display(v.at), deviceAddress, deviceAddress, v.node,
                                         v.parentNode)])
  {}

  /** The state of the walk in front of its next node: done has been visited. */
  ghost predicate InFront(current: DevInst, top: DevInst, indent: nat, level: nat, nextNode: nat, stack: Stack,
                          done: seq<Visit>, all: seq<Visit>)
  {
    && Valid(current) && Under(current, top, stack) && current != top
    && level == indent + Height(stack) && nextNode == |done| + 1
    && done + From(current, top, level, nextNode, stack) == all
  }

  /** The state behind a node whose subtree has been visited. */
  ghost predicate Behind(current: DevInst, top: DevInst, indent: nat, level: nat, nextNode: nat, stack: Stack,
                         done: seq<Visit>, all: seq<Visit>)
  {
    && Valid(current) && Under(current, top, stack) && current != top
    && level == indent + Height(stack) && nextNode == |done|
    && done + After(current, top, level, nextNode + 1, stack) == all
  }

  /** The state at a node that has been visited, whose children have not. */
  ghost predicate At(current: DevInst, top: DevInst, indent: nat, level: nat, nextNode: nat, stack: Stack,
                     done: seq<Visit>, all: seq<Visit>)
  {
    && Valid(current)
    && (Width(current) > 0 ==>
          InFront(ChildOf(current, 0), top, indent, level + 1, nextNode + 1, Push(nextNode, stack), done, all))
    && (Width(current) == 0 ==> Behind(current, top, indent, level, nextNode, stack, done, all))
  }

  lemma Start(top: DevInst, indent: nat)
    requires Valid(top) && Width(top) > 0
    ensures InFront(ChildOf(top, 0), top, indent, indent + 1, 1, Push(0, Empty), [], Walk(top, 0, indent + 1, 1, 0))
  {
    NotAbove(top, top, Empty);
    var c := ChildOf(top, 0);
    assert Depth(c) > Depth(top);
    var all := Walk(top, 0, indent + 1, 1, 0);
    var sub := Walk(c, 0, indent + 2, 2, 1);
    var more := Walk(top, 1, indent + 1, 2 + |sub|, 0);
    assert After(c, top, indent + 1, 2 + |sub|, Push(0, Empty)) == more + [] == more;
    assert [] + all == all;
  }

  lemma Next<T>(done: seq<T>, v: T, rest: seq<T>)
    ensures var all := done + ([v] + rest);
      && all[|done|] == v && (done + [v]) + rest == all
  {}

  lemma StepDown(current: DevInst, top: DevInst, indent: nat, level: nat, nextNode: nat, stack: Stack,
                 done: seq<Visit>, all: seq<Visit>)
    requires InFront(current, top, indent, level, nextNode, stack, done, all)
    ensures |done| < |all| && all[|done|] == Visit(current, level, nextNode, stack.value)
    ensures At(current, top, indent, level, nextNode, stack, done + [all[|done|]], all)
  {
    NotAbove(current, top, stack);
    var v := Visit(current, level, nextNode, stack.value);
    if Width(current) > 0 {
      var c := ChildOf(current, 0);
      assert Depth(c) > Depth(top);
      FromChild(current, top, level, nextNode, stack);
      Next(done, v, From(c, top, level + 1, nextNode + 1, Push(nextNode, stack)));
    } else {
      FromLeaf(current, top, level, nextNode, stack);
      Next(done, v, After(current, top, level, nextNode + 1, stack));
    }
  }

  lemma StepAcross(current: DevInst, top: DevInst, indent: nat, level: nat, nextNode: nat, stack: Stack,
                   done: seq<Visit>, all: seq<Visit>)
    requires Behind(current, top, indent, level, nextNode, stack, done, all) && GetSibling(current).Some?
    ensures InFront(GetSibling(current).value, top, indent, level, nextNode + 1, stack, done, all)
  {
    NotAbove(current, top, stack);
    AfterSibling(current, top, level, nextNode + 1, stack);
    assert Depth(GetSibling(current).value) == Depth(current) > Depth(top);
  }

  lemma StepUp(current: DevInst, top: DevInst, indent: nat, level: nat, nextNode: nat, stack: Stack,
               done: seq<Visit>, all: seq<Visit>)
    requires Behind(current, top, indent, level, nextNode, stack, done, all) && GetSibling(current).None?
    ensures current.ChildOf? && Valid(current.parent) && level > 0 && stack.Push?
    ensures current.parent == top ==> done == all && level - 1 == indent
    ensures current.parent != top ==>
              level - 1 > indent && Behind(current.parent, top, indent, level - 1, nextNode, stack.below, done, all)
  {
    NotAbove(current, top, stack);
    AfterSibling(current, top, level, nextNode + 1, stack);
    if current.parent == top {
      assert done + [] == done;
    } else {
      assert Under(current.parent, top, stack.below);
    }
  }

  /** The loop of PrintDevinstChildren that goes across or up to the next node. None:
      the walk is back at its starting point. */
  method Advance(start: DevInst, parent: DevInst, indent: nat, startLevel: nat, startNode: nat, startStack: Stack,
                 ghost done: seq<Visit>, ghost all: seq<Visit>)
    returns (current: Option<DevInst>, level: nat, nextNode: nat, stack: Stack)
    requires Behind(start, parent, indent, startLevel, startNode, startStack, done, all)
    ensures current.None? ==> done == all
    ensures current.Some? ==> InFront(current.value, parent, indent, level, nextNode, stack, done, all)
  {
    var here := start;
    level, nextNode, stack := startLevel, startNode, startStack;
    var next := GetSibling(here);
    while next.None?
      invariant Valid(here) && next == GetSibling(here)
      invariant Behind(here, parent, indent, level, nextNode, stack, done, all)
      decreases here
    {
      StepUp(here, parent, indent, level, nextNode, stack, done, all);
      var up := GetParent(here);
      if up.None? {
        return None, level, nextNode, Empty;
      }
      here, level, stack := up.value, level - 1, stack.below;
      if here == parent || level == indent {
        return None, level, nextNode, stack;
      }
      next := GetSibling(here);
    }
    StepAcross(here, parent, indent, level, nextNode, stack, done, all);
    return next, level, nextNode + 1, stack;
  }

  lemma BelowIndent(current: DevInst, top: DevInst, indent: nat, level: nat, nextNode: nat, stack: Stack,
                    done: seq<Visit>, all: seq<Visit>)
    requires InFront(current, top, indent, level, nextNode, stack, done, all)
    ensures level > indent
  {}

  /** The move to the next node: down to the first child, else across or up. */
  method Forward(start: DevInst, parent: DevInst, indent: nat, startLevel: nat, startNode: nat, startStack: Stack,
                 ghost done: seq<Visit>, ghost all: seq<Visit>)
    returns (current: Option<DevInst>, level: nat, nextNode: nat, stack: Stack)
    requires At(start, parent, indent, startLevel, startNode, startStack, done, all)
    ensures current.None? ==> done == all
    ensures current.Some? ==> InFront(current.value, parent, indent, level, nextNode, stack, done, all)
    ensures current.Some? ==> level > indent
  {
    var child := GetChild(start);
    if child.Some? {
      BelowIndent(child.value, parent, indent, startLevel + 1, startNode + 1, Push(startNode, startStack), done, all);
      return child, startLevel + 1, startNode + 1, Push(startNode, startStack);
    }
    current, level, nextNode, stack := Advance(start, parent, indent, startLevel, startNode, startStack, done, all);
    if current.Some? {
      BelowIndent(current.value, parent, indent, level, nextNode, stack, done, all);
    }
  }

  /** What the walk reports: the first nodes of the preorder walk that have a name. */
  ghost predicate IsListing(parent: DevInst, indent: nat, deviceAddress: nat, reports: seq<Report>)
    requires Valid(parent)
  {
    BelowValid(parent, 0, indent + 1, 1, 0);
    var all := Walk(parent, 0, indent + 1, 1, 0);
    Reported(all[..Min(|all|, LOOP_SANITY_LIMIT)], all, deviceAddress, reports)
  }

  /** The loop of PrintDevinstChildren from its first node on. */
  method ReportFrom(first: DevInst, parent: DevInst, indent: nat, deviceAddress: nat, ghost all: seq<Visit>)
    returns (reports: seq<Report>)
    requires AllValid(all) && InFront(first, parent, indent, indent + 1, 1, Push(0, Empty), [], all)
    ensures Reported(all[..Min(|all|, LOOP_SANITY_LIMIT)], all, deviceAddress, reports)
  {
    var level: nat, nextNode, sanityCounter := indent + 1, 1, 0;
    var stack := Push(0, Empty);
    var current := first;
    ghost var done: seq<Visit> := [];
    reports := [];
    while level > indent
      invariant InFront(current, parent, indent, level, nextNode, stack, done, all) && level > indent
      invariant sanityCounter == |done| <= LOOP_SANITY_LIMIT
      invariant Reported(done, all, deviceAddress, reports)
      decreases |all| - |done|
    {
      StepDown(current, parent, indent, level, nextNode, stack, done, all);
      sanityCounter := sanityCounter + 1;
      if sanityCounter > LOOP_SANITY_LIMIT {
        return;
      }
      ReportedStep(done, all, deviceAddress, reports);
      var name := Display(current);
      if name != "" {
        var parentNode := if stack.Push? then stack.value else 0;
        reports := reports + [Report(level, 0, name, deviceAddress, deviceAddress, nextNode, parentNode)];
      }
      var next;
      done := done + [all[|done|]];
      next, level, nextNode, stack := Forward(current, parent, indent, level, nextNode, stack, done, all);
      if next.None? {
        return;
      }
      current := next.value;
    }
  }

  method PrintDevinstChildren(parent: DevInst, indent: nat, deviceAddress: nat) returns (reports: seq<Report>)
    requires Valid(parent)
    ensures IsListing(parent, indent, deviceAddress, reports)
  {
    BelowValid(parent, 0, indent + 1, 1, 0);
    var child := GetChild(parent);
    if child.None? {
      return [];
    }
    Start(parent, indent);
    reports := ReportFrom(child.value, parent, indent, deviceAddress, Walk(parent, 0, indent + 1, 1, 0));
  }

  // ---------- what the listing means ----------

  function AncestorAt(d: DevInst, depth: nat): DevInst {
    if Depth(d) <= depth then d else AncestorAt(d.parent, depth)
  }

  predicate UnderChild(e: DevInst, d: DevInst, i: nat) {
    && Depth(e) > Depth(d)
    && (var a := AncestorAt(e, Depth(d) + 1); a.ChildOf? && a.parent == d && a.index >= i)
  }

  lemma {:induction false} AncestorTrans(e: DevInst, d: DevInst, depth: nat)
    requires Depth(e) >= Depth(d) >= depth && AncestorAt(e, Depth(d)) == d
    ensures AncestorAt(e, depth) == AncestorAt(d, depth)
    decreases e
  {
    if Depth(e) > Depth(d) {
      AncestorTrans(e.parent, d, depth);
    }
  }

  lemma {:induction false} ParentAncestor(e: DevInst, n: nat)
    requires Depth(e) > n
    ensures var a := AncestorAt(e, n + 1); a.ChildOf? && AncestorAt(e, n) == a.parent && Depth(a) == n + 1
    decreases e
  {
    if Depth(e) > n + 1 {
      ParentAncestor(e.parent, n);
    } else {
      assert Depth(e.parent) == n;
    }
  }

  lemma DeeperUnder(e: DevInst, d: DevInst, i: nat)
    requires UnderChild(e, ChildOf(d, i), 0)
    ensures UnderChild(e, d, i) && AncestorAt(e, Depth(d) + 1) == ChildOf(d, i)
  {
    ParentAncestor(e, Depth(d) + 1);
  }

  lemma {:induction false} BelowUnder(d: DevInst, i: nat, k: nat)
    requires Valid(d) && k < |Below(d, i)|
    ensures UnderChild(Below(d, i)[k], d, i)
    decreases NodeOf(d), Width(d) - i
  {
    var c := ChildOf(d, i);
    var sub, more := Below(c, 0), Below(d, i + 1);
    if k == 0 {
      assert Depth(c) == Depth(d) + 1;
    } else if k <= |sub| {
      BelowUnder(c, 0, k - 1);
      DeeperUnder(sub[k - 1], d, i);
    } else {
      BelowUnder(d, i + 1, k - 1 - |sub|);
    }
  }

  /** No node comes twice. */
  lemma {:induction false} BelowDistinct(d: DevInst, i: nat, j: nat, k: nat)
    requires Valid(d) && j < k < |Below(d, i)|
    ensures Below(d, i)[j] != Below(d, i)[k]
    decreases NodeOf(d), Width(d) - i
  {
    var c := ChildOf(d, i);
    var sub, more := Below(c, 0), Below(d, i + 1);
    assert Below(d, i) == [c] + sub + more;
    if k <= |sub| {
      if j > 0 {
        BelowDistinct(c, 0, j - 1, k - 1);
      } else {
        BelowUnder(c, 0, k - 1);
      }
    } else {
      BelowUnder(d, i + 1, k - 1 - |sub|);
      if j > |sub| {
        BelowDistinct(d, i + 1, j - 1 - |sub|, k - 1 - |sub|);
      } else if j > 0 {
        BelowUnder(c, 0, j - 1);
        DeeperUnder(sub[j - 1], d, i);
      } else {
        assert AncestorAt(c, Depth(d) + 1) == c;
      }
    }
  }

  /** Where d first occurs, the length of the order if it does not. */
  function IndexOf(order: seq<DevInst>, d: DevInst): (k: nat)
    ensures k <= |order| && (k < |order| ==> order[k] == d) && forall j :: 0 <= j < k ==> order[j] != d
  {
    if order == [] || order[0] == d then 0 else 1 + IndexOf(order[1..], d)
  }

  /** What should be said of the k-th node in preorder: its place, counted from one,
      as its number; its parent's place, or zero for a direct child; its depth. */
  function Expected(parent: DevInst, indent: nat, deviceAddress: nat, order: seq<DevInst>, k: nat): Report
    requires k < |order| && Valid(order[k]) && order[k].ChildOf? && Depth(order[k]) > Depth(parent)
  {
    var p := order[k].parent;
    Report(indent + (Depth(order[k]) - Depth(parent)), 0, Display(order[k]), deviceAddress, deviceAddress,
           k + 1, if p == parent then 0 else IndexOf(order, p) + 1)
  }

  ghost predicate Sound(parent: DevInst, order: seq<DevInst>) {
    forall k :: 0 <= k < |order| ==> Valid(order[k]) && order[k].ChildOf? && Depth(order[k]) > Depth(parent)
  }

  function Listing(parent: DevInst, indent: nat, deviceAddress: nat, order: seq<DevInst>, n: nat): seq<Report>
    requires n <= |order| && Sound(parent, order)
  {
    if n == 0 then []
    else
      var before := Listing(parent, indent, deviceAddress, order, n - 1);
      if Display(order[n - 1]) == "" then before else before + [Expected(parent, indent, deviceAddress, order, n - 1)]
  }

  lemma VisitExpected(parent: DevInst, indent: nat, deviceAddress: nat, k: nat)
    requires Valid(parent) && k < |Walk(parent, 0, indent + 1, 1, 0)|
    ensures var v, order := Walk(parent, 0, indent + 1, 1, 0)[k], Below(parent, 0);
      && k < |order| && v.at == order[k] && Valid(v.at) && v.at.ChildOf? && Depth(v.at) > Depth(parent)
      && Expected(parent, indent, deviceAddress, order, k)
         == Report(v.level, 0, Display(v.at), deviceAddress, deviceAddress, v.node, v.parentNode)
  {
    var all, order := Walk(parent, 0, indent + 1, 1, 0), Below(parent, 0);
    WalkIsPreorder(parent, 0, indent + 1, 1, 0);
    WalkNumbers(parent, 0, indent + 1, 1, 0, k);
    BelowValid(parent, 0, indent + 1, 1, 0);
    var v := all[k];
    if v.at.parent != parent {
      var j :| 0 <= j < k && all[j].at == v.at.parent && all[j].node == v.parentNode;
      WalkNumbers(parent, 0, indent + 1, 1, 0, j);
      PlaceOf(parent, j);
    }
  }

  lemma PlaceOf(parent: DevInst, j: nat)
    requires Valid(parent) && j < |Below(parent, 0)|
    ensures IndexOf(Below(parent, 0), Below(parent, 0)[j]) == j
  {
    var i := IndexOf(Below(parent, 0), Below(parent, 0)[j]);
    if i < j {
      BelowDistinct(parent, 0, i, j);
    }
  }

  lemma BelowSound(parent: DevInst, indent: nat, deviceAddress: nat)
    requires Valid(parent)
    ensures Sound(parent, Below(parent, 0)) && |Walk(parent, 0, indent + 1, 1, 0)| == |Below(parent, 0)|
    ensures AllValid(Walk(parent, 0, indent + 1, 1, 0))
  {
    WalkIsPreorder(parent, 0, indent + 1, 1, 0);
    BelowValid(parent, 0, indent + 1, 1, 0);
    forall k | 0 <= k < |Below(parent, 0)|
      ensures Valid(Below(parent, 0)[k]) && Below(parent, 0)[k].ChildOf? && Depth(Below(parent, 0)[k]) > Depth(parent)
    {
      VisitExpected(parent, indent, deviceAddress, k);
    }
  }

  lemma {:induction false} ReportsAreExpected(parent: DevInst, indent: nat, deviceAddress: nat,
                                              all: seq<Visit>, order: seq<DevInst>, n: nat)
    requires Valid(parent) && all == Walk(parent, 0, indent + 1, 1, 0) && order == Below(parent, 0)
    requires AllValid(all) && Sound(parent, order) && n <= |all| == |order|
    ensures Reports(all[..n], deviceAddress) == Listing(parent, indent, deviceAddress, order, n)
  {
    if n > 0 {
      ReportsAreExpected(parent, indent, deviceAddress, all, order, n - 1);
      VisitExpected(parent, indent, deviceAddress, n - 1);
      assert all[..n][..n - 1] == all[..n - 1];
    }
  }

  /** The iterative walk lists the named ones among the first 10000 nodes below parent,
      each once, in preorder, with its numbers and level as expected. */
  lemma ListingIsPreorder(parent: DevInst, indent: nat, deviceAddress: nat, reports: seq<Report>)
    requires Valid(parent) && IsListing(parent, indent, deviceAddress, reports)
    ensures var order := Below(parent, 0);
      && Sound(parent, order)
      && (forall j, k :: 0 <= j < k < |order| ==> order[j] != order[k])
      && reports == Listing(parent, indent, deviceAddress, order, Min(|order|, LOOP_SANITY_LIMIT))
  {
    var order := Below(parent, 0);
    BelowSound(parent, indent, deviceAddress);
    ReportsAreExpected(parent, indent, deviceAddress, Walk(parent, 0, indent + 1, 1, 0), order,
                       Min(|order|, LOOP_SANITY_LIMIT));
    forall j, k | 0 <= j < k < |order| ensures order[j] != order[k] {
      BelowDistinct(parent, 0, j, k);
    }
  }

  // ---------- the search for a driver ----------

  function Lower(c: char): char {
    if 'A' <= c <= 'Z' then c - 'A' + 'a' else c
  }

  /** _tcsicmp(a, b) == 0 */
  predicate SameName(a: string, b: string) {
    |a| == |b| && forall i :: 0 <= i < |a| ==> Lower(a[i]) == Lower(b[i])
  }

  /** The same letters, of either case, and otherwise the same characters. */
  lemma SameNameMeaning(a: string, b: string)
    ensures SameName(a, b) <==> |a| == |b| && forall i :: 0 <= i < |a| ==>
              a[i] == b[i]
              || ('A' <= a[i] <= 'Z' && b[i] as int == a[i] as int + 32)
              || ('A' <= b[i] <= 'Z' && a[i] as int == b[i] as int + 32)
  {
    if |a| == |b| {
      forall i | 0 <= i < |a|
        ensures Lower(a[i]) == Lower(b[i]) <==>
                  a[i] == b[i]
                  || ('A' <= a[i] <= 'Z' && b[i] as int == a[i] as int + 32)
                  || ('A' <= b[i] <= 'Z' && a[i] as int == b[i] as int + 32)
      {
        LowerMeaning(a[i], b[i]);
      }
    }
  }

  lemma LowerMeaning(c: char, d: char)
    ensures Lower(c) == Lower(d) <==>
              c == d || ('A' <= c <= 'Z' && d as int == c as int + 32) || ('A' <= d <= 'Z' && c as int == d as int + 32)
  {}

  predicate Stops(d: DevInst, driverName: string)
    requires Valid(d)
  {
    match NodeOf(d).driver
    case Value(text) => SameName(driverName, text)
    case NoSuchValue => false
    case Failed => true
  }

  /** The positions after the whole subtree of d. */
  function Later(d: DevInst): seq<DevInst>
    requires Valid(d)
    decreases d
  {
    if d.Root? then [] else Below(d.parent, d.index + 1) + Later(d.parent)
  }

  lemma BelowSplit(d: DevInst, i: nat)
    requires Valid(d) && i < Width(d)
    ensures Below(d, i) == Preorder(ChildOf(d, i)) + Below(d, i + 1)
  {}

  lemma LaterChild(d: DevInst)
    requires Valid(d) && Width(d) > 0
    ensures Preorder(d) + Later(d) == [d] + (Preorder(ChildOf(d, 0)) + Later(ChildOf(d, 0)))
  {
    var pre, below, later := Preorder(ChildOf(d, 0)), Below(d, 1), Later(d);
    BelowSplit(d, 0);
    LaterIs(d, 0, below, later);
    Regroup4([d], pre, below, later);
  }

  lemma LaterLeaf(d: DevInst)
    requires Valid(d) && Width(d) == 0
    ensures Preorder(d) + Later(d) == [d] + Later(d)
  {}

  lemma LaterIs(p: DevInst, i: nat, below: seq<DevInst>, later: seq<DevInst>)
    requires Valid(p) && i < Width(p) && below == Below(p, i + 1) && later == Later(p)
    ensures Later(ChildOf(p, i)) == below + later
  {}

  lemma LaterSibling(d: DevInst)
    requires Valid(d) && d.ChildOf?
    ensures GetSibling(d).Some? ==> Later(d) == Preorder(GetSibling(d).value) + Later(GetSibling(d).value)
    ensures GetSibling(d).None? ==> Later(d) == Later(d.parent)
  {
    var p, i := d.parent, d.index + 1;
    var later := Later(p);
    LaterIs(p, d.index, Below(p, i), later);
    if i < Width(p) {
      var below := Below(p, i + 1);
      LaterIs(p, i, below, later);
      BelowSplit(p, i);
      Sequences.Regroup(Preorder(ChildOf(p, i)), below, later);
    } else {
      Sequences.Empty(later);
    }
  }

  /** The move to the node after d's subtree; the sanity counter of this loop cannot
      trip while the depth is within the limit. */
  method NextAfter(start: DevInst) returns (next: Option<DevInst>, tripped: bool)
    requires Valid(start)
    ensures Depth(start) < LOOP_SANITY_LIMIT ==> !tripped
    ensures !tripped && next.None? ==> Later(start) == []
    ensures !tripped && next.Some? ==>
      && Valid(next.value) && Depth(next.value) <= Depth(start)
      && Later(start) == Preorder(next.value) + Later(next.value)
  {
    var here := start;
    var sanityInner := 0;
    while true
      invariant Valid(here) && Later(here) == Later(start)
      invariant sanityInner + Depth(here) == Depth(start)
      decreases here
    {
      sanityInner := sanityInner + 1;
      if sanityInner > LOOP_SANITY_LIMIT {
        return None, true;
      }
      if here.ChildOf? {
        LaterSibling(here);
      }
      next := GetSibling(here);
      if next.Some? {
        return next, false;
      }
      var up := GetParent(here);
      if up.None? {
        return None, false;
      }
      here := up.value;
    }
  }

  predicate AllReal(order: seq<DevInst>) {
    forall j :: 0 <= j < |order| ==> Valid(order[j])
  }

  /** The first node of order that ends the search, among the first limit of them. */
  function FirstStop(order: seq<DevInst>, driverName: string, limit: nat): (k: nat)
    requires AllReal(order)
    ensures k <= Min(|order|, limit)
    ensures k < Min(|order|, limit) ==> Stops(order[k], driverName)
    ensures forall j :: 0 <= j < k ==> !Stops(order[j], driverName)
  {
    if order == [] || limit == 0 || Stops(order[0], driverName) then 0
    else 1 + FirstStop(order[1..], driverName, limit - 1)
  }

  /** The search passes over a node without a driver value, or with another one. */
  predicate PassedOver(d: DevInst, driverName: string)
    requires Valid(d)
  {
    var p := NodeOf(d).driver;
    p == NoSuchValue || (p.Value? && !SameName(driverName, p.text))
  }

  /** The wanted node comes at place k, in reach, and all before it are passed over. */
  predicate FoundAt(order: seq<DevInst>, driverName: string, k: nat)
    requires AllReal(order)
  {
    && k < |order| && k < LOOP_SANITY_LIMIT
    && NodeOf(order[k]).driver.Value? && SameName(driverName, NodeOf(order[k]).driver.text)
    && forall j :: 0 <= j < k ==> PassedOver(order[j], driverName)
  }

  /** Where the search ends: at the wanted node when it is found, and otherwise at one
      whose driver property cannot be read, or nowhere. */
  lemma FirstStopMeaning(order: seq<DevInst>, driverName: string, k: nat)
    requires AllReal(order)
    ensures FoundAt(order, driverName, k) ==> FirstStop(order, driverName, LOOP_SANITY_LIMIT) == k
    ensures var s := FirstStop(order, driverName, LOOP_SANITY_LIMIT);
      && (forall j :: 0 <= j < s ==> PassedOver(order[j], driverName))
      && (s < Min(|order|, LOOP_SANITY_LIMIT) ==> FoundAt(order, driverName, s) || NodeOf(order[s]).driver == Failed)
  {
    if FoundAt(order, driverName, k) {
      assert forall j :: 0 <= j < k ==> PassedOver(order[j], driverName) && !Stops(order[j], driverName);
    }
  }

  lemma {:induction false} PreorderValid(d: DevInst, i: nat)
    requires Valid(d)
    ensures forall j :: 0 <= j < |Below(d, i)| ==> Valid(Below(d, i)[j])
    decreases NodeOf(d), Width(d) - i
  {
    if i < Width(d) {
      PreorderValid(ChildOf(d, i), 0);
      PreorderValid(d, i + 1);
    }
  }

  /** The part of PrintDeviceDesc that reports a node whose driver name matches. */
  method ReportDevice(d: DevInst, index: nat, level: nat, printAllChildren: bool, deviceAddress: nat,
                      parentAddress: nat)
    returns (reports: seq<Report>)
    requires Valid(d)
    ensures IsDevice(d, index, level, printAllChildren, deviceAddress, parentAddress, reports)
  {
    reports := [];
    var p := NodeOf(d).description;
    if p.Value? {
      reports := [Report(level, index, p.text, deviceAddress, parentAddress, 0, 0)];
      if printAllChildren {
        var more := PrintDevinstChildren(d, level, deviceAddress);
        reports := reports + more;
      }
    }
  }

  ghost predicate IsDevice(d: DevInst, index: nat, level: nat, printAllChildren: bool, deviceAddress: nat,
                           parentAddress: nat, reports: seq<Report>)
    requires Valid(d)
  {
    var p := NodeOf(d).description;
    if !p.Value? then reports == []
    else
      && reports != [] && reports[0] == Report(level, index, p.text, deviceAddress, parentAddress, 0, 0)
      && if printAllChildren then IsListing(d, level, deviceAddress, reports[1..]) else |reports| == 1
  }

  /** seen has been looked at, devInst comes next, and nothing seen ended the search. */
  ghost predicate Searched(devInst: DevInst, seen: seq<DevInst>, order: seq<DevInst>, driverName: string) {
    && Valid(devInst) && Depth(devInst) <= |seen|
    && seen + (Preorder(devInst) + Later(devInst)) == order
    && AllReal(order)
    && (forall j :: 0 <= j < |seen| ==> Valid(seen[j]) && !Stops(seen[j], driverName))
  }

  lemma SearchedStop(devInst: DevInst, seen: seq<DevInst>, order: seq<DevInst>, driverName: string)
    requires Searched(devInst, seen, order, driverName)
    ensures |seen| < |order| && order[|seen|] == devInst
    ensures var k := FirstStop(order, driverName, LOOP_SANITY_LIMIT);
      && (|seen| >= LOOP_SANITY_LIMIT ==> k == LOOP_SANITY_LIMIT)
      && (|seen| < LOOP_SANITY_LIMIT && Stops(devInst, driverName) ==> k == |seen|)
  {}

  lemma SearchedDown(devInst: DevInst, seen: seq<DevInst>, order: seq<DevInst>, driverName: string)
    requires Searched(devInst, seen, order, driverName) && !Stops(devInst, driverName) && Width(devInst) > 0
    ensures Searched(ChildOf(devInst, 0), seen + [devInst], order, driverName)
  {
    LaterChild(devInst);
    var c := ChildOf(devInst, 0);
    Sequences.Regroup(seen, [devInst], Preorder(c) + Later(c));
  }

  lemma SearchedOn(devInst: DevInst, seen: seq<DevInst>, order: seq<DevInst>, driverName: string, next: Option<DevInst>)
    requires Searched(devInst, seen, order, driverName) && !Stops(devInst, driverName) && Width(devInst) == 0
    requires next.None? ==> Later(devInst) == []
    requires next.Some? ==> Valid(next.value) && Depth(next.value) <= Depth(devInst)
                            && Later(devInst) == Preorder(next.value) + Later(next.value)
    ensures next.None? ==>
            |order| == |seen| + 1 && FirstStop(order, driverName, LOOP_SANITY_LIMIT) == Min(|order|, LOOP_SANITY_LIMIT)
    ensures next.Some? ==> Searched(next.value, seen + [devInst], order, driverName)
  {
    LaterLeaf(devInst);
    Sequences.Regroup(seen, [devInst], Later(devInst));
    if next.None? {
      Sequences.Empty(seen + [devInst]);
    }
  }

  /** The depth-first search of PrintDeviceDesc: the node it stops at. */
  method Search(root: DevInst, driverName: string) returns (found: Option<DevInst>)
    requires root.Root?
    ensures AllReal(Preorder(root))
    ensures var order := Preorder(root);
            var k := FirstStop(order, driverName, LOOP_SANITY_LIMIT);
      found == if k < Min(|order|, LOOP_SANITY_LIMIT) then Some(order[k]) else None
  {
    var devInst := root;
    ghost var order := Preorder(devInst);
    PreorderValid(devInst, 0);
    Sequences.Empty(order);
    ghost var seen: seq<DevInst> := [];
    var sanityOuter := 0;
    while true
      invariant Searched(devInst, seen, order, driverName)
      invariant sanityOuter == |seen| <= LOOP_SANITY_LIMIT
      decreases |order| - |seen|
    {
      SearchedStop(devInst, seen, order, driverName);
      sanityOuter := sanityOuter + 1;
      if sanityOuter > LOOP_SANITY_LIMIT {
        return None;
      }
      if Stops(devInst, driverName) {
        return Some(devInst);
      }
      var child := GetChild(devInst);
      if child.Some? {
        SearchedDown(devInst, seen, order, driverName);
        seen, devInst := seen + [devInst], child.value;
      } else {
        var next, tripped := NextAfter(devInst);
        SearchedOn(devInst, seen, order, driverName, next);
        if next.None? {
          return None;
        }
        seen, devInst := seen + [devInst], next.value;
      }
    }
  }

  /** The search looks at the nodes in preorder and at most 10000 of them. It ends at
      the first whose driver name is the wanted one, which it reports, or whose driver
      property cannot be read. */
  method PrintDeviceDesc(root: Option<Node>, driverName: string, index: nat, level: nat, printAllChildren: bool,
                         deviceAddress: nat, parentAddress: nat)
    returns (reports: seq<Report>)
    ensures root.None? ==> reports == []
    ensures root.Some? ==> AllReal(Preorder(Root(root.value)))
    ensures root.Some? ==>
      var order := Preorder(Root(root.value));
      && (forall k: nat :: FoundAt(order, driverName, k) ==>
            IsDevice(order[k], index, level, printAllChildren, deviceAddress, parentAddress, reports))
      && ((forall k: nat :: !FoundAt(order, driverName, k)) ==> reports == [])
  {
    if root.None? {
      return [];
    }
    var found := Search(Root(root.value), driverName);
    ghost var order := Preorder(Root(root.value));
    ghost var s := FirstStop(order, driverName, LOOP_SANITY_LIMIT);
    forall k: nat {
      FirstStopMeaning(order, driverName, k);
    }
    assert s < Min(|order|, LOOP_SANITY_LIMIT) ==> FoundAt(order, driverName, s) || NodeOf(order[s]).driver == Failed;
    if found.None? || !NodeOf(found.value).driver.Value? {
      return [];
    }
    reports := ReportDevice(found.value, index, level, printAllChildren, deviceAddress, parentAddress);
  }
}
