/** The walk down a chain of `back` chunks and the stack of OIDs it keeps. */
module BackupWalks {
  import opened Bytes
  import opened Oids
  import opened Chunks
  import opened Decoders
  import opened Spelling

  // "back"
  const BACK: Kind := [98, 97, 99, 107]

  /** How a call ends; all but Normal are exceptions that reach the caller. */
  datatype Ending = Normal | Missing | Unsupported | BadBlock

  /** What the pool holds, and how property values convert. */
  datatype Store = Store(fetch: Oid -> Option<Content>, conv: Converters)

  /** What a backup node holds. */
  function NodeFields(store: Store, oid: Oid): Option<Fields> {
    var c := store.fetch(oid);
    if c.None? || c.value.kind != BACK then None
    else
      var block := DecodeBlock(c.value.data);
      if block.None? then None else AllAdded(block.value.props, store.conv)
  }

  /** The child that a backup node names. */
  function Child(store: Store, oid: Oid): Option<Oid> {
    var fields := NodeFields(store, oid);
    if fields.None? then None else Some(fields.value.oid)
  }

  /** The chain from root ends within so many nodes: it does not come back to
      itself. */
  ghost predicate EndsWithin(store: Store, depth: nat, root: Oid) {
    Child(store, root).Some? ==> depth > 0 && EndsWithin(store, depth - 1, Child(store, root).value)
  }

  /** The backup nodes from root downwards, as far as they can be decoded. */
  ghost function Chain(store: Store, depth: nat, root: Oid): seq<Oid>
    requires EndsWithin(store, depth, root)
    decreases depth
  {
    var child := Child(store, root);
    if child.None? then [] else [root] + Chain(store, depth - 1, child.value)
  }

  /** The position of the first node whose callback prunes, or the length. */
  ghost function FirstPrune(chain: seq<Oid>, prunes: Oid -> bool): (i: nat)
    ensures i <= |chain|
    ensures i < |chain| ==> prunes(chain[i])
    ensures forall j | 0 <= j < i :: !prunes(chain[j])
  {
    if chain == [] || prunes(chain[0]) then 0 else 1 + FirstPrune(chain[1..], prunes)
  }

  /** A callback: the OID on top of the stack, and what it was given: the child,
      the date and the properties. */
  datatype Call = Call(top: Oid, fields: Fields)

  class Visitor {
    const prunes: Oid -> bool
    var oids: seq<Oid>  // front first
    var calls: seq<Call>

    constructor (prunes: Oid -> bool)
      ensures oids == [] && calls == [] && this.prunes == prunes
    {
      this.prunes, oids, calls := prunes, [], [];
    }

    method PushOid(oid: Oid)
      modifies this`oids
      ensures oids == [oid] + old(oids)
    {
      oids := [oid] + oids;
    }

    method PopOid()
      requires oids != []
      modifies this`oids
      ensures oids == old(oids)[1..]
    {
      oids := oids[1..];
    }

    /** The callback of a backup node; whether it throws Prune depends on the
        OID it sees with `peek_oid`. */
    method Backup(fields: Fields) returns (pruned: bool)
      requires oids != []
      modifies this`calls
      ensures calls == old(calls) + [Call(oids[0], fields)]
      ensures pruned == prunes(oids[0])
    {
      calls := calls + [Call(oids[0], fields)];
      pruned := prunes(oids[0]);
    }
  }

  ghost function Reversed(s: seq<Oid>): seq<Oid> {
    if s == [] then [] else Reversed(s[1..]) + [s[0]]
  }

  /** The callback of a node that sees it on top and is given what it holds. */
  ghost function CallFor(store: Store, node: Oid): Call
    requires Child(store, node).Some?
  {
    Call(node, NodeFields(store, node).value)
  }

  ghost function CallsFor(store: Store, nodes: seq<Oid>): seq<Call>
    requires forall i | 0 <= i < |nodes| :: Child(store, nodes[i]).Some?
  {
    if nodes == [] then []
    else [CallFor(store, nodes[0])] + CallsFor(store, nodes[1..])
  }

  /** The node at which the chain ends: not there, of another kind, or not
      decodable. */
  ghost function EndNode(store: Store, depth: nat, root: Oid): Oid
    requires EndsWithin(store, depth, root)
    decreases depth
  {
    var child := Child(store, root);
    if child.None? then root else EndNode(store, depth - 1, child.value)
  }

  /** How the walk would end if nothing pruned. */
  function Breakdown(store: Store, oid: Oid): Ending {
    var c := store.fetch(oid);
    if c.None? then Missing else if c.value.kind != BACK then Unsupported else BadBlock
  }

  /** The nodes whose callbacks run: down to the first that prunes. */
  ghost function Visited(store: Store, depth: nat, root: Oid, prunes: Oid -> bool): (nodes: seq<Oid>)
    requires EndsWithin(store, depth, root)
    ensures forall i | 0 <= i < |nodes| :: Child(store, nodes[i]).Some?
  {
    var chain := Chain(store, depth, root);
    var k := FirstPrune(chain, prunes);
    ChainNodes(store, depth, root);
    if k < |chain| then chain[..k + 1] else chain
  }

  ghost predicate SomePrunes(chain: seq<Oid>, prunes: Oid -> bool) {
    exists i :: 0 <= i < |chain| && prunes(chain[i])
  }

  lemma SomePrunesCons(oid: Oid, chain: seq<Oid>, prunes: Oid -> bool)
    ensures SomePrunes([oid] + chain, prunes) <==> prunes(oid) || SomePrunes(chain, prunes)
  {
    var all := [oid] + chain;
    if prunes(oid) {
      assert prunes(all[0]);
    }
    if i :| 0 <= i < |chain| && prunes(chain[i]) {
      assert prunes(all[i + 1]);
    }
    if i :| 0 <= i < |all| && prunes(all[i]) {
      assert i > 0 ==> prunes(chain[i - 1]);
    }
  }

  /** The whole effect of a walk. It returns normally exactly when some node of
      the chain prunes, and then the stack is as it was; an exception leaves
      the nodes entered on the stack. */
  ghost predicate Walked(store: Store, depth: nat, root: Oid, prunes: Oid -> bool, ending: Ending,
                         oids: seq<Oid>, oids': seq<Oid>, calls: seq<Call>, calls': seq<Call>)
    requires EndsWithin(store, depth, root)
  {
    var chain := Chain(store, depth, root);
    var end := EndNode(store, depth, root);
    && calls' == calls + CallsFor(store, Visited(store, depth, root, prunes))
    && (if SomePrunes(chain, prunes) then ending == Normal && oids' == oids
        else
          && ending == Breakdown(store, end)
          && oids' == (if ending.BadBlock? then [end] else []) + Reversed(chain) + oids)
  }

  lemma {:induction false} ChainNodes(store: Store, depth: nat, root: Oid)
    requires EndsWithin(store, depth, root)
    ensures forall i | 0 <= i < |Chain(store, depth, root)| :: Child(store, Chain(store, depth, root)[i]).Some?
    decreases depth
  {
    hide Child, EndsWithin;
    if Child(store, root).Some? {
      ChildEnds(store, depth, root);
      ChainNodes(store, depth - 1, Child(store, root).value);
    }
  }

  lemma ChildEnds(store: Store, depth: nat, oid: Oid)
    requires EndsWithin(store, depth, oid) && Child(store, oid).Some?
    ensures depth > 0 && EndsWithin(store, depth - 1, Child(store, oid).value)
  {
  }

  lemma {:induction false} CallsSeeOwnNode(store: Store, nodes: seq<Oid>, i: nat)
    requires forall j | 0 <= j < |nodes| :: Child(store, nodes[j]).Some?
    requires i < |nodes|
    ensures |CallsFor(store, nodes)| == |nodes|
    ensures CallsFor(store, nodes)[i] == CallFor(store, nodes[i])
  {
    hide Child;
    if |nodes| > 1 {
      CallsSeeOwnNode(store, nodes[1..], if i > 0 then i - 1 else 0);
    }
  }

  ghost function After(chain: seq<Oid>, end: Oid, i: nat): Oid {
    if i < |chain| then chain[i] else end
  }

  /** The chain starts at the root, each node names the next, the last names
      the end node, and that names none. */
  ghost predicate Linked(store: Store, root: Oid, chain: seq<Oid>, end: Oid) {
    && After(chain, end, 0) == root && Child(store, end).None?
    && forall i: nat | i < |chain| :: Child(store, chain[i]) == Some(After(chain, end, i + 1))
  }

  lemma LinkedCons(store: Store, root: Oid, child: Oid, below: seq<Oid>, end: Oid)
    requires Linked(store, child, below, end) && Child(store, root) == Some(child)
    ensures Linked(store, root, [root] + below, end)
  {
    hide Child;
    var chain := [root] + below;
    forall i: nat | i < |chain|
      ensures Child(store, chain[i]) == Some(After(chain, end, i + 1))
    {
      assert After(chain, end, i + 1) == After(below, end, i);
      assert i > 0 ==> chain[i] == below[i - 1];
    }
  }

  lemma {:induction false} ChainLinks(store: Store, depth: nat, root: Oid)
    requires EndsWithin(store, depth, root)
    ensures Linked(store, root, Chain(store, depth, root), EndNode(store, depth, root))
    decreases depth
  {
    hide Child, EndsWithin;
    if Child(store, root).Some? {
      ChildEnds(store, depth, root);
      var child := Child(store, root).value;
      ChainLinks(store, depth - 1, child);
      hide Linked;
      LinkedCons(store, root, child, Chain(store, depth - 1, child), EndNode(store, depth - 1, child));
    }
  }

  /** The nodes visited: the chain down to its first node that prunes. */
  lemma VisitedIs(store: Store, depth: nat, root: Oid, prunes: Oid -> bool)
    requires EndsWithin(store, depth, root)
    ensures var nodes, chain := Visited(store, depth, root, prunes), Chain(store, depth, root);
            && nodes <= chain && (forall i | 0 <= i < |nodes| - 1 :: !prunes(nodes[i]))
            && (if SomePrunes(chain, prunes) then nodes != [] && prunes(nodes[|nodes| - 1])
                else nodes == chain && forall i | 0 <= i < |nodes| :: !prunes(nodes[i]))
  {
    hide Child, EndsWithin, Chain;
    var chain := Chain(store, depth, root);
    var k := FirstPrune(chain, prunes);
    if i :| 0 <= i < |chain| && prunes(chain[i]) {
      assert k <= i;
    }
  }

  lemma {:induction false} ReversedAt(s: seq<Oid>, i: nat)
    requires i < |s|
    ensures |Reversed(s)| == |s| && Reversed(s)[|s| - 1 - i] == s[i]
  {
    if |s| > 1 {
      ReversedAt(s[1..], if i > 0 then i - 1 else 0);
    }
  }

  /** The callbacks of these nodes, in order, and no others. */
  ghost predicate CalledBack(store: Store, nodes: seq<Oid>, calls: seq<Call>, calls': seq<Call>) {
    && |calls'| == |calls| + |nodes| && calls'[..|calls|] == calls
    && forall i | 0 <= i < |nodes| ::
         NodeFields(store, nodes[i]).Some?
         && calls'[|calls| + i] == Call(nodes[i], NodeFields(store, nodes[i]).value)
  }

  /** The chain lies on the stack, the root lowest, and the end node above it if
      it was entered. */
  ghost predicate LeftBehind(chain: seq<Oid>, end: seq<Oid>, oids: seq<Oid>, oids': seq<Oid>) {
    var n := |end|;
    && |oids'| == n + |chain| + |oids| && oids'[..n] == end && oids'[n + |chain|..] == oids
    && forall i | 0 <= i < |chain| :: oids'[n + |chain| - 1 - i] == chain[i]
  }

  ghost predicate IsBack(kind: Kind) {
    kind == Ascii("back")
  }

  lemma BackIs()
    ensures forall kind: Kind :: IsBack(kind) <==> kind == BACK
  {
  }

  /** What a caller sees of a walk: how it ended and why, the stack, and the
      callbacks of the visited nodes, each with its own node on top and what
      that node holds. */
  lemma WalkDiscipline(store: Store, depth: nat, root: Oid, prunes: Oid -> bool, ending: Ending,
                       oids: seq<Oid>, oids': seq<Oid>, calls: seq<Call>, calls': seq<Call>)
    requires EndsWithin(store, depth, root)
    requires Walked(store, depth, root, prunes, ending, oids, oids', calls, calls')
    ensures var chain, end := Chain(store, depth, root), EndNode(store, depth, root);
            && (ending.Normal? <==> SomePrunes(chain, prunes))
            && (ending.Missing? ==> store.fetch(end).None?)
            && (ending.Unsupported? ==> store.fetch(end).Some? && !IsBack(store.fetch(end).value.kind))
            && (ending.BadBlock? ==> store.fetch(end).Some? && IsBack(store.fetch(end).value.kind))
            && (ending.Normal? ==> oids' == oids)
            && (!ending.Normal? ==> LeftBehind(chain, if ending.BadBlock? then [end] else [], oids, oids'))
    ensures CalledBack(store, Visited(store, depth, root, prunes), calls, calls')
  {
    BackIs();
    hide IsBack, Child, EndsWithin, Chain, Visited, SomePrunes, Reversed, NodeFields;
    var nodes, chain := Visited(store, depth, root, prunes), Chain(store, depth, root);
    AllCalledBack(store, nodes, calls);
    BreakdownIsNotNormal(store, EndNode(store, depth, root));
    StackLeft(chain, if ending.BadBlock? then [EndNode(store, depth, root)] else [], oids);
  }

  lemma StackLeft(chain: seq<Oid>, end: seq<Oid>, oids: seq<Oid>)
    ensures LeftBehind(chain, end, oids, end + Reversed(chain) + oids)
  {
    hide Reversed;
    ReversedSize(chain);
    forall i | 0 <= i < |chain|
      ensures Reversed(chain)[|chain| - 1 - i] == chain[i]
    {
      ReversedAt(chain, i);
    }
  }

  lemma {:induction false} ReversedSize(s: seq<Oid>)
    ensures |Reversed(s)| == |s|
  {
    if s != [] {
      ReversedSize(s[1..]);
    }
  }

  lemma AllCalledBack(store: Store, nodes: seq<Oid>, calls: seq<Call>)
    requires forall i | 0 <= i < |nodes| :: Child(store, nodes[i]).Some?
    ensures CalledBack(store, nodes, calls, calls + CallsFor(store, nodes))
  {
    hide NodeFields, CallsFor;
    var made := CallsFor(store, nodes);
    if nodes == [] {
      NoCalls(store);
    } else {
      CallsSeeOwnNode(store, nodes, 0);
    }
    assert (calls + made)[..|calls|] == calls;
    assert forall i | 0 <= i < |made| :: (calls + made)[|calls| + i] == made[i];
    forall i | 0 <= i < |nodes|
      ensures |CallsFor(store, nodes)| == |nodes| && NodeFields(store, nodes[i]).Some?
      ensures CallsFor(store, nodes)[i] == CallFor(store, nodes[i])
    {
      CallsSeeOwnNode(store, nodes, i);
    }
  }

  lemma NoCalls(store: Store)
    ensures CallsFor(store, []) == []
  {
  }

  /** A chain that stops at its root. */
  lemma WalkedNowhere(store: Store, depth: nat, root: Oid, prunes: Oid -> bool,
                      oids: seq<Oid>, calls: seq<Call>)
    requires EndsWithin(store, depth, root) && Child(store, root).None?
    ensures var ending := Breakdown(store, root);
            Walked(store, depth, root, prunes, ending,
                   oids, (if ending.BadBlock? then [root] else []) + oids, calls, calls)
  {
    hide Child, EndsWithin, Breakdown;
    assert calls + [] == calls;
    assert [root] + [] + oids == [root] + oids;
    assert [] + [] + oids == oids;
  }

  /** A node that prunes. */
  lemma WalkedPruned(store: Store, depth: nat, root: Oid, prunes: Oid -> bool,
                     oids: seq<Oid>, calls: seq<Call>)
    requires EndsWithin(store, depth, root) && Child(store, root).Some? && prunes(root)
    ensures Walked(store, depth, root, prunes, Normal, oids, oids,
                   calls, calls + [CallFor(store, root)])
  {
    hide Child, EndsWithin;
    ChildEnds(store, depth, root);
    SomePrunesCons(root, Chain(store, depth - 1, Child(store, root).value), prunes);
    assert Visited(store, depth, root, prunes) == [root];
    assert CallsFor(store, [root]) == [CallFor(store, root)] + [];
  }

  /** A node that does not, followed by the walk from its child. */
  lemma WalkedOn(store: Store, depth: nat, root: Oid, prunes: Oid -> bool, ending: Ending,
                 oids: seq<Oid>, oids': seq<Oid>, calls: seq<Call>, calls': seq<Call>)
    requires EndsWithin(store, depth, root) && Child(store, root).Some? && !prunes(root)
    requires var child := Child(store, root).value;
             Walked(store, depth - 1, child, prunes, ending, [root] + oids, oids', calls + [CallFor(store, root)], calls')
    ensures Walked(store, depth, root, prunes, ending, oids,
                   if ending.Normal? then oids else oids', calls, calls')
    ensures ending.Normal? ==> oids' == [root] + oids
  {
    hide Child, EndsWithin, Breakdown, SomePrunes, Visited, CallsFor, Reversed;
    ChildEnds(store, depth, root);
    var child := Child(store, root).value;
    var below, chain := Chain(store, depth - 1, child), Chain(store, depth, root);
    assert chain == [root] + below;
    SomePrunesCons(root, below, prunes);
    OnwardVisits(store, depth, root, prunes);
    BreakdownIsNotNormal(store, EndNode(store, depth, root));
    var end := EndNode(store, depth, root);
    ReversedCons(if ending.BadBlock? then [end] else [], root, below, oids);
  }

  lemma ReversedCons(front: seq<Oid>, oid: Oid, below: seq<Oid>, oids: seq<Oid>)
    ensures front + Reversed([oid] + below) + oids == front + Reversed(below) + ([oid] + oids)
  {
    assert ([oid] + below)[1..] == below;
    assert Reversed([oid] + below) == Reversed(below) + [oid];
  }

  lemma OnwardVisits(store: Store, depth: nat, root: Oid, prunes: Oid -> bool)
    requires EndsWithin(store, depth, root) && Child(store, root).Some? && !prunes(root)
    ensures var child := Child(store, root).value;
            && Visited(store, depth, root, prunes) == [root] + Visited(store, depth - 1, child, prunes)
            && CallsFor(store, Visited(store, depth, root, prunes))
               == [CallFor(store, root)] + CallsFor(store, Visited(store, depth - 1, child, prunes))
  {
    hide Child, EndsWithin;
    ChildEnds(store, depth, root);
    var child := Child(store, root).value;
    var below := Visited(store, depth - 1, child, prunes);
    assert Chain(store, depth, root)[1..] == Chain(store, depth - 1, child);
    assert ([root] + below)[1..] == below;
  }

  lemma BreakdownIsNotNormal(store: Store, oid: Oid)
    ensures Breakdown(store, oid) != Normal
  {
  }

  /** `BackupWalk::operator()`. */
  method Walk(store: Store, ghost depth: nat, visitor: Visitor, root: Oid) returns (ending: Ending)
    requires EndsWithin(store, depth, root)
    modifies visitor
    ensures Walked(store, depth, root, visitor.prunes, ending,
                   old(visitor.oids), visitor.oids, old(visitor.calls), visitor.calls)
    decreases depth, 1
  {
    hide EndsWithin, Walked;
    var ch := store.fetch(root);
    if ch.None? || ch.value.kind != BACK {
      WalkedNowhere(store, depth, root, visitor.prunes, visitor.oids, visitor.calls);
      assert [] + visitor.oids == visitor.oids;
      return if ch.None? then Missing else Unsupported;
    }
    visitor.PushOid(root);
    var pruned;
    ending, pruned := WalkBack(store, depth, ch.value, visitor, root);
    if ending.Normal? || pruned {
      visitor.PopOid();
      ending := Normal;
    }
  }

  /** `walk_back`: `pruned` is the Prune exception. */
  method WalkBack(store: Store, ghost depth: nat, chunk: Content, visitor: Visitor, ghost self: Oid)
    returns (ending: Ending, pruned: bool)
    requires EndsWithin(store, depth, self) && store.fetch(self) == Some(chunk) && chunk.kind == BACK
    requires visitor.oids != [] && visitor.oids[0] == self
    modifies visitor
    ensures ending.Normal? || pruned ==> visitor.oids == old(visitor.oids)
    ensures Walked(store, depth, self, visitor.prunes, if pruned then Normal else ending, old(visitor.oids)[1..],
                   if ending.Normal? || pruned then visitor.oids[1..] else visitor.oids,
                   old(visitor.calls), visitor.calls)
    decreases depth, 0
  {
    hide EndsWithin, Walked, DecodeBlock, AllAdded;
    ghost var oids, calls := visitor.oids, visitor.calls;
    assert oids == [self] + oids[1..];
    ending, pruned := BadBlock, false;
    var bn := new BackNode(store.conv);
    var ok := DecodeProperty(chunk.data, bn);
    if !ok {
      WalkedNowhere(store, depth, self, visitor.prunes, oids[1..], calls);
      return;
    }
    var child := bn.fields.oid;
    assert Child(store, self) == Some(child);
    pruned := visitor.Backup(bn.fields);
    if pruned {
      WalkedPruned(store, depth, self, visitor.prunes, oids[1..], calls);
      return;
    }
    ChildEnds(store, depth, self);
    ending := Walk(store, depth - 1, visitor, child);
    WalkedOn(store, depth, self, visitor.prunes, ending, oids[1..], visitor.oids, calls, visitor.calls);
  }
}
