/**
 The bounded accessibility-tree reader and the paths that address its nodes
 (desktopbee-helper/Sources/DesktopBeeHelper/AX.swift).
 */
module AccessTree {
  import opened Wrappers
  import opened Text

  datatype Attributes = Attributes(
    role: Option<string>,
    title: Option<string>,
    value: Option<string>,
    labelText: Option<string>,
    actions: Option<seq<string>>)

  /** A live element; an element whose children cannot be read has none. */
  datatype Element = Element(attributes: Attributes, children: seq<Element>)

  /** What is reported of an element: empty texts and empty action lists are left out. */
  datatype Description = Description(
    role: string,
    title: Option<string>,
    value: Option<string>,
    labelText: Option<string>,
    actions: Option<seq<string>>)

  datatype Node = Node(path: string, description: Description, children: seq<Node>)

  function Shown<T(==)>(text: Option<seq<T>>): Option<seq<T>> {
    if text.Some? && text.value == [] then None else text
  }

  function Describe(a: Attributes): Description {
    Description(if a.role.Some? then a.role.value else "?",
                Shown(a.title), Shown(a.value), Shown(a.labelText), Shown(a.actions))
  }

  // ---- addresses

  type Address = seq<nat>

  function PathText(address: Address): string {
    if address == [] then ""
    else PathText(address[..|address| - 1]) + "/" + Decimal(address[|address| - 1])
  }

  lemma {:induction false} PathTextExtend(address: Address, i: nat)
    ensures PathText(address + [i]) == PathText(address) + "/" + Decimal(i)
  {
    assert (address + [i])[..|address|] == address;
  }

  /** What each part reads as, if it is an integer. */
  function Numbers(parts: seq<string>): (ns: seq<Option<int>>)
    ensures |ns| == |parts|
    ensures forall i :: 0 <= i < |ns| ==> ns[i] == ReadInt(parts[i])
  {
    seq(|parts|, i requires 0 <= i < |parts| => ReadInt(parts[i]))
  }

  /** The numbers that are there, in order. */
  function Present(ns: seq<Option<int>>): seq<int> {
    if ns == [] then []
    else (match ns[0] case None => [] case Some(n) => [n]) + Present(ns[1..])
  }

  /** The integers among the parts, in order; parts that are none are skipped. */
  function Integers(parts: seq<string>): seq<int> {
    Present(Numbers(parts))
  }

  function Indices(path: string): seq<int> {
    Integers(Pieces(path, '/'))
  }

  function Descend(el: Element, indices: seq<int>): Option<Element>
    decreases |indices|
  {
    if indices == [] then Some(el)
    else if 0 <= indices[0] < |el.children| then Descend(el.children[indices[0]], indices[1..])
    else None
  }

  method Resolve(app: Element, path: string) returns (r: Option<Element>)
    ensures r == Descend(app, Indices(path))
  {
    var el := app;
    var parts := Indices(path);
    for i := 0 to |parts|
      invariant Descend(app, Indices(path)) == Descend(el, parts[i..])
    {
      var idx := parts[i];
      assert parts[i..][1..] == parts[i + 1..];
      if !(0 <= idx < |el.children|) {
        return None;
      }
      el := el.children[idx];
    }
    return Some(el);
  }

  // ---- the preorder of the tree cut at a depth

  datatype Visit = Visit(address: Address, el: Element)

  function Visits(el: Element, address: Address, depth: int, maxDepth: int): (vs: seq<Visit>)
    ensures vs != [] && vs[0] == Visit(address, el)
    decreases el, |el.children| + 1
  {
    [Visit(address, el)] + (if depth < maxDepth then ChildVisits(el, address, 0, depth + 1, maxDepth) else [])
  }

  /** The visits of the children from number i on. */
  function ChildVisits(el: Element, address: Address, i: nat, depth: int, maxDepth: int): seq<Visit>
    requires i <= |el.children|
    decreases el, |el.children| - i
  {
    if i == |el.children| then []
    else Visits(el.children[i], address + [i], depth, maxDepth) + ChildVisits(el, address, i + 1, depth, maxDepth)
  }

  datatype Emitted = Emitted(path: string, description: Description)

  function Emit(v: Visit): Emitted {
    Emitted(PathText(v.address), Describe(v.el.attributes))
  }

  function EmitAll(vs: seq<Visit>): (es: seq<Emitted>)
    ensures |es| == |vs|
    ensures forall i :: 0 <= i < |es| ==> es[i] == Emit(vs[i])
  {
    seq(|vs|, i requires 0 <= i < |vs| => Emit(vs[i]))
  }

  /** The nodes of a reported tree, parents first. */
  function Flat(n: Node): seq<Emitted> {
    [Emitted(n.path, n.description)] + FlatAll(n.children)
  }

  function FlatAll(ns: seq<Node>): seq<Emitted> {
    if ns == [] then [] else Flat(ns[0]) + FlatAll(ns[1..])
  }

  lemma {:induction false} FlatAllAppend(ns: seq<Node>, n: Node)
    ensures FlatAll(ns + [n]) == FlatAll(ns) + Flat(n)
  {
    if ns == [] {
      assert ns + [n] == [n];
      assert FlatAll([n]) == Flat(n) + FlatAll([n][1..]);
    } else {
      assert (ns + [n])[1..] == ns[1..] + [n];
      FlatAllAppend(ns[1..], n);
    }
  }

  /** The reported node sits where the element sits, and its children are the element's first ones. */
  ghost predicate Mirrors(n: Node, el: Element, address: Address)
    decreases n
  {
    && n.path == PathText(address)
    && n.description == Describe(el.attributes)
    && MirrorAll(n.children, el, address)
  }

  ghost predicate MirrorAll(ns: seq<Node>, el: Element, address: Address)
    decreases ns
  {
    && |ns| <= |el.children|
    && forall i :: 0 <= i < |ns| ==> Mirrors(ns[i], el.children[i], address + [i])
  }

  lemma {:induction false} MirrorAppend(ns: seq<Node>, n: Node, el: Element, address: Address)
    requires MirrorAll(ns, el, address) && |ns| < |el.children|
    requires Mirrors(n, el.children[|ns|], address + [|ns|])
    ensures MirrorAll(ns + [n], el, address)
  {
  }

  /** The nodes report the first visits of a list. */
  ghost predicate Reports(ns: seq<Node>, below: seq<Visit>) {
    |FlatAll(ns)| <= |below| && FlatAll(ns) == EmitAll(below[..|FlatAll(ns)|])
  }

  function Min(a: int, b: int): int { if a < b then a else b }
  function Max(a: int, b: int): int { if a < b then b else a }

  /** The first visits that fit, at least one. */
  function Fitting(vs: seq<Visit>, budget: int): seq<Visit>
    requires vs != []
  {
    vs[..Min(|vs|, Max(1, budget))]
  }

  /** What the nodes do not report is rest. */
  ghost predicate Remain(ns: seq<Node>, below: seq<Visit>, rest: seq<Visit>) {
    |FlatAll(ns)| <= |below| && below == below[..|FlatAll(ns)|] + rest
  }

  class TreeReader {
    const maxDepth: int
    const maxNodes: int
    var count: int

    constructor (maxDepth: int, maxNodes: int)
      ensures this.maxDepth == maxDepth && this.maxNodes == maxNodes && count == 0
    {
      this.maxDepth, this.maxNodes, count := maxDepth, maxNodes, 0;
    }

    method Read(el: Element, depth: int, path: string, ghost address: Address) returns (n: Node)
      requires path == PathText(address)
      modifies this
      ensures Flat(n) == EmitAll(Fitting(Visits(el, address, depth, maxDepth), maxNodes - old(count)))
      ensures count == old(count) + |Flat(n)|
      ensures Mirrors(n, el, address)
      decreases el, 1
    {
      count := count + 1;
      var description := Describe(el.attributes);
      ghost var below := if depth < maxDepth then ChildVisits(el, address, 0, depth + 1, maxDepth) else [];
      ghost var left := maxNodes - count;
      var kids: seq<Node> := [];
      if depth < maxDepth && count < maxNodes && el.children != [] {
        kids := ReadChildren(el, depth, path, address);
      }
      n := Node(path, description, kids);
      Assemble(n, Visit(address, el), below, left);
    }

    /** The children in order, until the budget is used up. */
    method ReadChildren(el: Element, depth: int, path: string, ghost address: Address) returns (kids: seq<Node>)
      requires path == PathText(address) && count < maxNodes
      modifies this
      ensures var below := ChildVisits(el, address, 0, depth + 1, maxDepth);
              FlatAll(kids) == EmitAll(below[..Min(|below|, maxNodes - old(count))])
      ensures count == old(count) + |FlatAll(kids)|
      ensures MirrorAll(kids, el, address)
      decreases el, 0
    {
      kids := [];
      ghost var below := ChildVisits(el, address, 0, depth + 1, maxDepth);
      for i := 0 to |el.children|
        invariant MirrorAll(kids, el, address)
        invariant count == old(count) + |FlatAll(kids)| <= maxNodes
        invariant Reports(kids, below)
        invariant count < maxNodes ==>
                    |kids| == i && Remain(kids, below, ChildVisits(el, address, i, depth + 1, maxDepth))
      {
        if count >= maxNodes {
          break;
        }
        PathTextExtend(address, i);
        ghost var left := maxNodes - count;
        var kid := Read(el.children[i], depth + 1, path + "/" + Decimal(i), address + [i]);
        TakeChild(kids, kid, below, Visits(el.children[i], address + [i], depth + 1, maxDepth),
                  ChildVisits(el, address, i + 1, depth + 1, maxDepth), left);
        MirrorAppend(kids, kid, el, address);
        kids := kids + [kid];
      }
    }
  }

  /** One child's visits are the next ones below; as many are taken as are left. */
  lemma {:induction false} TakeChild(kids: seq<Node>, kid: Node, below: seq<Visit>, child: seq<Visit>, others: seq<Visit>, left: int)
    requires Reports(kids, below) && Remain(kids, below, child + others)
    requires child != [] && left > 0
    requires Flat(kid) == EmitAll(Fitting(child, left))
    ensures |FlatAll(kids + [kid])| == |FlatAll(kids)| + |Flat(kid)|
    ensures |Flat(kid)| <= left
    ensures Reports(kids + [kid], below)
    ensures |Flat(kid)| < left ==> Remain(kids + [kid], below, others)
  {
    FlatAllAppend(kids, kid);
    var done, taken := |FlatAll(kids)|, |Flat(kid)|;
    TakeShape(below, done, child, others, taken);
    EmitConcat(below[..done], child[..taken]);
  }

  lemma {:induction false} TakeShape<T>(all: seq<T>, n: nat, a: seq<T>, b: seq<T>, k: nat)
    requires n <= |all| && all == all[..n] + (a + b) && k <= |a|
    ensures n + k <= |all| && all[..n + k] == all[..n] + a[..k]
    ensures k == |a| ==> all == all[..n + k] + b
  {
    assert all[n..] == a + b;
  }

  lemma {:induction false} EmitConcat(a: seq<Visit>, b: seq<Visit>)
    ensures EmitAll(a + b) == EmitAll(a) + EmitAll(b)
  {
  }

  lemma {:induction false} Assemble(n: Node, first: Visit, below: seq<Visit>, left: int)
    requires Emitted(n.path, n.description) == Emit(first)
    requires FlatAll(n.children) == EmitAll(below[..Max(0, Min(|below|, left))])
    ensures Flat(n) == EmitAll(Fitting([first] + below, left + 1))
  {
    var vs := [first] + below;
    var k := Max(0, Min(|below|, left));
    assert Fitting(vs, left + 1) == [first] + below[..k];
  }

  /**
   The tree of an application: its nodes, parents first, are the first maxNodes of the
   tree cut at maxDepth, and at least the root; it is flagged as truncated exactly when
   that tree has maxNodes nodes or more, and complete when it is not flagged.
   */
  method Tree(app: Element, maxDepth: int, maxNodes: int) returns (root: Node, truncated: bool)
    ensures var all := Visits(app, [], 0, maxDepth);
            && Flat(root) == EmitAll(Fitting(all, maxNodes))
            && truncated == (|all| >= maxNodes)
            && (!truncated ==> Flat(root) == EmitAll(all))
    ensures Mirrors(root, app, [])
  {
    var reader := new TreeReader(maxDepth, maxNodes);
    root := reader.Read(app, 0, "", []);
    truncated := reader.count >= maxNodes;
    ghost var all := Visits(app, [], 0, maxDepth);
    assert all[..|all|] == all;
  }

  // ---- paths lead back to their elements

  /** No list of children is longer than the platform's integers can count. */
  ghost predicate Countable(el: Element) {
    |el.children| < INT_LIMIT && forall i :: 0 <= i < |el.children| ==> Countable(el.children[i])
  }

  ghost predicate InRange(address: Address) {
    forall i :: 0 <= i < |address| ==> address[i] < INT_LIMIT
  }

  function Components(address: Address): (parts: seq<string>)
    ensures |parts| == |address|
    ensures forall i :: 0 <= i < |parts| ==> parts[i] == Decimal(address[i])
  {
    seq(|address|, i requires 0 <= i < |address| => Decimal(address[i]))
  }

  lemma {:induction false} DecimalPiece(n: nat)
    ensures Pieces(Decimal(n), '/') == [Decimal(n)]
  {
    forall c | c in Decimal(n) ensures c != '/' {
      var i :| 0 <= i < |Decimal(n)| && Decimal(n)[i] == c;
      assert IsDigitChar(c);
    }
    PiecesOfPiece(Decimal(n), '/');
  }

  lemma {:induction false} PathPieces(address: Address)
    ensures Pieces(PathText(address), '/') == Components(address)
  {
    if address == [] {
      PiecesJoin([], '/');
    } else {
      var front, last := address[..|address| - 1], address[|address| - 1];
      PathPieces(front);
      PiecesConcat(PathText(front), Decimal(last), '/');
      assert PathText(front) + ['/'] + Decimal(last) == PathText(address);
      DecimalPiece(last);
      assert Components(address) == Components(front) + [Decimal(last)];
    }
  }

  lemma {:induction false} IntegersOfComponents(address: Address)
    requires InRange(address)
    ensures Integers(Components(address)) == address
  {
    forall i | 0 <= i < |address| ensures Numbers(Components(address))[i] == Some(address[i]) {
      ReadIntDecimal(address[i]);
    }
    AllPresent(Numbers(Components(address)), address);
  }

  lemma {:induction false} AllPresent(ns: seq<Option<int>>, values: seq<int>)
    requires |ns| == |values| && forall i :: 0 <= i < |ns| ==> ns[i] == Some(values[i])
    ensures Present(ns) == values
  {
    if ns != [] {
      AllPresent(ns[1..], values[1..]);
      assert values == [values[0]] + values[1..];
    }
  }

  /** The printed path of an address is read as that address. */
  lemma {:induction false} PathRoundTrip(address: Address)
    requires InRange(address)
    ensures Indices(PathText(address)) == address
  {
    PathPieces(address);
    IntegersOfComponents(address);
  }

  /** The visit is reached from el by some steps after the address of el. */
  ghost predicate Reached(v: Visit, el: Element, address: Address) {
    && |address| <= |v.address|
    && v.address[..|address|] == address
    && InRange(v.address[|address|..])
    && Descend(el, v.address[|address|..]) == Some(v.el)
  }

  lemma {:induction false} ReachedBelow(v: Visit, el: Element, address: Address, i: nat)
    requires i < |el.children| && i < INT_LIMIT
    requires Reached(v, el.children[i], address + [i])
    ensures Reached(v, el, address)
    ensures |v.address| > |address| && v.address[|address|] == i
  {
    var n := |address|;
    assert v.address[..n + 1] == address + [i];
    assert v.address[..n] == v.address[..n + 1][..n] == address;
    assert v.address[n] == v.address[..n + 1][n];
    assert v.address[n..] == [i] + v.address[n + 1..];
  }

  lemma {:induction false} VisitsReached(el: Element, address: Address, depth: int, maxDepth: int)
    requires Countable(el)
    ensures forall v :: v in Visits(el, address, depth, maxDepth) ==> Reached(v, el, address)
    decreases el, |el.children| + 1
  {
    assert address[..|address|] == address && address[|address|..] == [];
    if depth < maxDepth {
      ChildVisitsReached(el, address, 0, depth + 1, maxDepth);
    }
  }

  lemma {:induction false} ChildVisitsReached(el: Element, address: Address, i: nat, depth: int, maxDepth: int)
    requires Countable(el) && i <= |el.children|
    ensures forall v :: v in ChildVisits(el, address, i, depth, maxDepth) ==>
              Reached(v, el, address) && |v.address| > |address| && v.address[|address|] >= i
    decreases el, |el.children| - i
  {
    if i < |el.children| {
      VisitsReached(el.children[i], address + [i], depth, maxDepth);
      ChildVisitsReached(el, address, i + 1, depth, maxDepth);
      forall v | v in Visits(el.children[i], address + [i], depth, maxDepth)
        ensures Reached(v, el, address) && |v.address| > |address| && v.address[|address|] == i
      {
        ReachedBelow(v, el, address, i);
      }
    }
  }

  /** Every path in a reported tree resolves, on the same tree, to the element it was emitted for. */
  lemma {:induction false} PathsResolve(app: Element, maxDepth: int, maxNodes: int, k: nat)
    requires Countable(app)
    requires k < |Fitting(Visits(app, [], 0, maxDepth), maxNodes)|
    ensures var all := Visits(app, [], 0, maxDepth);
            && EmitAll(Fitting(all, maxNodes))[k].path == PathText(all[k].address)
            && Descend(app, Indices(PathText(all[k].address))) == Some(all[k].el)
  {
    var all := Visits(app, [], 0, maxDepth);
    VisitsReached(app, [], 0, maxDepth);
    assert all[k] in all;
    assert Reached(all[k], app, []);
    assert all[k].address[0..] == all[k].address;
    PathRoundTrip(all[k].address);
  }

  // ---- what is reported of an element

  /** A text or list is reported exactly as it is, unless it is missing or empty. */
  ghost predicate ReportedAs<T(!new)>(reported: Option<seq<T>>, actual: Option<seq<T>>) {
    forall t :: reported == Some(t) <==> actual == Some(t) && |t| > 0
  }

  /** Each reported node tells the role, or "?", and the title, value, label and actions of its own element. */
  lemma {:induction false} NodeSays(app: Element, maxDepth: int, maxNodes: int, k: nat)
    requires k < |Fitting(Visits(app, [], 0, maxDepth), maxNodes)|
    ensures var a := Visits(app, [], 0, maxDepth)[k].el.attributes;
            var d := EmitAll(Fitting(Visits(app, [], 0, maxDepth), maxNodes))[k].description;
            && (a.role.Some? ==> d.role == a.role.value) && (a.role.None? ==> d.role == "?")
            && ReportedAs(d.title, a.title) && ReportedAs(d.value, a.value)
            && ReportedAs(d.labelText, a.labelText) && ReportedAs(d.actions, a.actions)
  {
    var a := Visits(app, [], 0, maxDepth)[k].el.attributes;
    ShownAs(a.title);
    ShownAs(a.value);
    ShownAs(a.labelText);
    ShownAs(a.actions);
  }

  lemma {:induction false} ShownAs<T>(text: Option<seq<T>>)
    ensures forall t :: Shown(text) == Some(t) <==> text == Some(t) && |t| > 0
  {
  }

  // ---- other paths

  /** Path by path: a component that is an integer is followed, and any other passed over. */
  lemma {:induction false} OneMoreComponent(path: string, part: string)
    requires IsPiece(part, '/')
    ensures Indices(path + "/" + part) == Indices(path) + (if ReadInt(part).Some? then [ReadInt(part).value] else [])
  {
    PiecesConcat(path, part, '/');
    assert path + ['/'] + part == path + "/" + part;
    PiecesOfPiece(part, '/');
    assert Numbers(Pieces(path, '/') + [part]) == Numbers(Pieces(path, '/')) + [ReadInt(part)];
    PresentOneMore(Numbers(Pieces(path, '/')), ReadInt(part));
  }

  lemma {:induction false} PresentOneMore(ns: seq<Option<int>>, last: Option<int>)
    ensures Present(ns + [last]) == Present(ns) + (if last.Some? then [last.value] else [])
  {
    if ns == [] {
      var none: seq<Option<int>> := [];
      assert ns + [last] == [last] && [last][1..] == none;
      assert Present([last]) == (match last case None => [] case Some(n) => [n]) + Present(none);
    } else {
      assert (ns + [last])[1..] == ns[1..] + [last];
      PresentOneMore(ns[1..], last);
    }
  }

  // ---- what the preorder is, said of the addresses alone

  /** a comes before b: it leads to an ancestor, or turns off earlier where the two part. */
  ghost predicate Precedes(a: Address, b: Address) {
    exists k :: 0 <= k <= |a| && PartsAt(a, b, k)
  }

  predicate PartsAt(a: Address, b: Address, k: nat) {
    k <= |a| && k < |b| && a[..k] == b[..k] && (k == |a| || a[k] < b[k])
  }

  ghost predicate InOrder(vs: seq<Visit>) {
    forall i, j :: 0 <= i < j < |vs| ==> Precedes(vs[i].address, vs[j].address)
  }

  lemma {:induction false} InOrderConcat(a: seq<Visit>, b: seq<Visit>)
    requires InOrder(a) && InOrder(b)
    requires forall v, w :: v in a && w in b ==> Precedes(v.address, w.address)
    ensures InOrder(a + b)
  {
    forall i, j | 0 <= i < j < |a + b| ensures Precedes((a + b)[i].address, (a + b)[j].address) {
      if i < |a| && j >= |a| {
        assert (a + b)[i] in a && (a + b)[j] in b;
      }
    }
  }

  lemma {:induction false} VisitsInOrder(el: Element, address: Address, depth: int, maxDepth: int)
    requires Countable(el)
    ensures InOrder(Visits(el, address, depth, maxDepth))
    decreases el, |el.children| + 1
  {
    if depth < maxDepth {
      ChildVisitsInOrder(el, address, 0, depth + 1, maxDepth);
      ChildVisitsReached(el, address, 0, depth + 1, maxDepth);
      var below := ChildVisits(el, address, 0, depth + 1, maxDepth);
      forall w | w in below ensures Precedes(address, w.address) {
        assert PartsAt(address, w.address, |address|);
      }
      InOrderConcat([Visit(address, el)], below);
    }
  }

  lemma {:induction false} ChildVisitsInOrder(el: Element, address: Address, i: nat, depth: int, maxDepth: int)
    requires Countable(el) && i <= |el.children|
    ensures InOrder(ChildVisits(el, address, i, depth, maxDepth))
    decreases el, |el.children| - i
  {
    if i < |el.children| {
      var first, others := Visits(el.children[i], address + [i], depth, maxDepth), ChildVisits(el, address, i + 1, depth, maxDepth);
      VisitsInOrder(el.children[i], address + [i], depth, maxDepth);
      ChildVisitsInOrder(el, address, i + 1, depth, maxDepth);
      VisitsReached(el.children[i], address + [i], depth, maxDepth);
      ChildVisitsReached(el, address, i + 1, depth, maxDepth);
      forall v, w | v in first && w in others ensures Precedes(v.address, w.address) {
        ReachedBelow(v, el, address, i);
        assert PartsAt(v.address, w.address, |address|);
      }
      InOrderConcat(first, others);
    }
  }

  /** How many levels below the element may still be visited. */
  function Room(depth: int, maxDepth: int): nat {
    if depth < maxDepth then maxDepth - depth else 0
  }

  lemma {:induction false} VisitsWithin(el: Element, address: Address, depth: int, maxDepth: int)
    ensures forall v :: v in Visits(el, address, depth, maxDepth) ==> |v.address| <= |address| + Room(depth, maxDepth)
    decreases el, |el.children| + 1
  {
    if depth < maxDepth {
      ChildVisitsWithin(el, address, 0, depth + 1, maxDepth);
    }
  }

  lemma {:induction false} ChildVisitsWithin(el: Element, address: Address, i: nat, depth: int, maxDepth: int)
    requires i <= |el.children|
    ensures forall v :: v in ChildVisits(el, address, i, depth, maxDepth) ==> |v.address| <= |address| + 1 + Room(depth, maxDepth)
    decreases el, |el.children| - i
  {
    if i < |el.children| {
      VisitsWithin(el.children[i], address + [i], depth, maxDepth);
      ChildVisitsWithin(el, address, i + 1, depth, maxDepth);
    }
  }

  lemma {:induction false} ChildVisited(el: Element, address: Address, i: nat, j: nat, depth: int, maxDepth: int, v: Visit)
    requires i <= j < |el.children| && v in Visits(el.children[j], address + [j], depth, maxDepth)
    ensures v in ChildVisits(el, address, i, depth, maxDepth)
    decreases j - i
  {
    if i < j {
      ChildVisited(el, address, i + 1, j, depth, maxDepth, v);
    }
  }

  /** Whatever lies within the depth is visited. */
  lemma {:induction false} AllVisited(el: Element, address: Address, below: Address, depth: int, maxDepth: int, target: Element)
    requires |below| <= Room(depth, maxDepth) && Descend(el, below) == Some(target)
    ensures Visit(address + below, target) in Visits(el, address, depth, maxDepth)
    decreases |below|
  {
    if below == [] {
      assert address + below == address;
    } else {
      var i := below[0];
      AllVisited(el.children[i], address + [i], below[1..], depth + 1, maxDepth, target);
      assert address + [i] + below[1..] == address + below;
      ChildVisited(el, address, 0, i, depth + 1, maxDepth, Visit(address + below, target));
    }
  }

  /**
   The preorder the reader follows: the elements that some address of at most maxDepth
   steps leads to, each under that address, in the order of the addresses.
   */
  lemma {:induction false} PreorderExactly(app: Element, maxDepth: int, v: Visit)
    requires Countable(app)
    ensures InOrder(Visits(app, [], 0, maxDepth))
    ensures v in Visits(app, [], 0, maxDepth)
       <==> |v.address| <= Room(0, maxDepth) && Descend(app, v.address) == Some(v.el)
  {
    VisitsInOrder(app, [], 0, maxDepth);
    VisitsReached(app, [], 0, maxDepth);
    VisitsWithin(app, [], 0, maxDepth);
    assert v.address[0..] == v.address && [] + v.address == v.address;
    if |v.address| <= Room(0, maxDepth) && Descend(app, v.address) == Some(v.el) {
      AllVisited(app, [], v.address, 0, maxDepth, v.el);
    }
  }

  /** Two nodes of a reported tree never have the same path. */
  lemma {:induction false} PathsDistinct(app: Element, maxDepth: int, i: nat, j: nat)
    requires Countable(app)
    requires i < j < |Visits(app, [], 0, maxDepth)|
    ensures var all := Visits(app, [], 0, maxDepth);
            PathText(all[i].address) != PathText(all[j].address)
  {
    var all := Visits(app, [], 0, maxDepth);
    VisitsInOrder(app, [], 0, maxDepth);
    VisitsReached(app, [], 0, maxDepth);
    assert all[i] in all && all[j] in all;
    assert all[i].address[0..] == all[i].address && all[j].address[0..] == all[j].address;
    PathRoundTrip(all[i].address);
    PathRoundTrip(all[j].address);
    assert Precedes(all[i].address, all[j].address);
  }
}
