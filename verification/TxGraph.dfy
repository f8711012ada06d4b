/**
 * The token graphs and their ancestor search (src/txgraph.cpp). A node is referred to by its token
 * and its transaction id, where the source holds a pointer to it.
 */
module TxGraph {
  import opened Transactions

  type TokenId = Txid

  datatype GraphNode = GraphNode(inputs: seq<Txid>, txdata: seq<Byte>)

  type Graph = map<Txid, GraphNode>

  datatype NodeRef = NodeRef(token: TokenId, txid: Txid)

  datatype SearchStatus = Ok | NotFound | NotInTokenGraph

  // ----- Ancestors -----

  /** Input links stay inside the graph. */
  ghost predicate Linked(g: Graph) {
    forall x, k :: x in g && 0 <= k < |g[x].inputs| ==> g[x].inputs[k] in g
  }

  /** `x` spends from `z`, which is not to be avoided. */
  ghost predicate Edge(g: Graph, avoid: set<Txid>, x: Txid, z: Txid) {
    x in g && z in g[x].inputs && z !in avoid
  }

  /** A walk along inputs whose nodes after the first avoid `avoid`. */
  ghost predicate Path(g: Graph, avoid: set<Txid>, p: seq<Txid>) {
    && |p| >= 1
    && (|p| > 1 ==> Edge(g, avoid, p[|p| - 2], p[|p| - 1]) && Path(g, avoid, p[..|p| - 1]))
  }

  ghost predicate Reaches(g: Graph, avoid: set<Txid>, x: Txid, y: Txid) {
    exists p :: Path(g, avoid, p) && p[0] == x && p[|p| - 1] == y
  }

  /** `y` is `x` or one of its ancestors. */
  ghost predicate Ancestor(g: Graph, x: Txid, y: Txid) {
    Reaches(g, {}, x, y)
  }

  /** With a node the set holds everything the node spends from. */
  ghost predicate Closed(g: Graph, s: set<Txid>) {
    forall x, k :: x in s && x in g && 0 <= k < |g[x].inputs| ==> g[x].inputs[k] in s
  }

  lemma ReachesSelf(g: Graph, avoid: set<Txid>, x: Txid)
    ensures Reaches(g, avoid, x, x)
  {
    assert Path(g, avoid, [x]);
  }

  lemma ReachesStep(g: Graph, avoid: set<Txid>, x: Txid, y: Txid, z: Txid)
    requires Reaches(g, avoid, x, y) && Edge(g, avoid, y, z)
    ensures Reaches(g, avoid, x, z)
  {
    var p :| Path(g, avoid, p) && p[0] == x && p[|p| - 1] == y;
    var q := p + [z];
    assert q[..|q| - 1] == p;
    assert Path(g, avoid, q);
  }

  /** A set that holds `x` and everything spent from outside `avoid` holds all that `x` reaches. */
  lemma {:induction false} PathInside(g: Graph, avoid: set<Txid>, inside: set<Txid>, p: seq<Txid>)
    requires Path(g, avoid, p) && p[0] in inside
    requires forall x, z :: x in inside && Edge(g, avoid, x, z) ==> z in inside
    ensures p[|p| - 1] in inside
    decreases |p|
  {
    if |p| > 1 {
      PathInside(g, avoid, inside, p[..|p| - 1]);
    }
  }

  /** Nothing outside a closed set has been cut off by avoiding the set. */
  lemma {:induction false} AvoidingClosed(g: Graph, avoid: set<Txid>, p: seq<Txid>)
    requires Closed(g, avoid) && Path(g, {}, p) && p[|p| - 1] !in avoid
    ensures Path(g, avoid, p)
    decreases |p|
  {
    if |p| > 1 {
      AvoidingClosed(g, avoid, p[..|p| - 1]);
    }
  }

  lemma {:induction false} AvoidingLess(g: Graph, avoid: set<Txid>, p: seq<Txid>)
    requires Path(g, avoid, p)
    ensures Path(g, {}, p)
    decreases |p|
  {
    if |p| > 1 {
      AvoidingLess(g, avoid, p[..|p| - 1]);
    }
  }

  lemma ReachesIsAncestor(g: Graph, avoid: set<Txid>, x: Txid, y: Txid)
    requires Closed(g, avoid) && y !in avoid
    ensures Reaches(g, avoid, x, y) <==> Ancestor(g, x, y)
  {
    if Reaches(g, avoid, x, y) {
      var p :| Path(g, avoid, p) && p[0] == x && p[|p| - 1] == y;
      AvoidingLess(g, avoid, p);
    }
    if Ancestor(g, x, y) {
      var p :| Path(g, {}, p) && p[0] == x && p[|p| - 1] == y;
      AvoidingClosed(g, avoid, p);
    }
  }

  // ----- The search -----

  ghost function Elements(s: seq<Txid>): set<Txid> {
    set i | 0 <= i < |s| :: s[i]
  }

  /** The nodes of one token in a set of node references. */
  function OfToken(seen: set<NodeRef>, token: TokenId): set<Txid> {
    set n | n in seen && n.token == token :: n.txid
  }

  /** What the search has found so far; `found` lists it in order of discovery. */
  ghost predicate Found(g: Graph, avoid: set<Txid>, start: Txid, found: seq<Txid>) {
    && |found| >= 1 && found[0] == start
    && (forall i, j :: 0 <= i < j < |found| ==> found[i] != found[j])
    && (forall i :: 0 <= i < |found| ==> found[i] in g && Reaches(g, avoid, start, found[i]))
    && (forall i :: 1 <= i < |found| ==> found[i] !in avoid)
  }

  /** Everything `x` spends from has been found or was to be avoided. */
  ghost predicate Handled(g: Graph, avoid: set<Txid>, found: seq<Txid>, x: Txid) {
    x in g && forall k :: 0 <= k < |g[x].inputs| ==> g[x].inputs[k] in avoid || g[x].inputs[k] in found
  }

  lemma FoundMore(g: Graph, avoid: set<Txid>, start: Txid, found: seq<Txid>, x: Txid, z: Txid)
    requires Found(g, avoid, start, found) && x in found && z in g[x].inputs && z in g
    requires z !in avoid && z !in found
    ensures Found(g, avoid, start, found + [z])
  {
    var i :| 0 <= i < |found| && found[i] == x;
    ReachesStep(g, avoid, start, x, z);
  }

  /** When every found node is handled, exactly what `start` reaches has been found. */
  lemma FoundAll(g: Graph, avoid: set<Txid>, start: Txid, found: seq<Txid>, y: Txid)
    requires Found(g, avoid, start, found) && forall x :: x in found ==> Handled(g, avoid, found, x)
    ensures y in found <==> Reaches(g, avoid, start, y)
  {
    if Reaches(g, avoid, start, y) {
      var p :| Path(g, avoid, p) && p[0] == start && p[|p| - 1] == y;
      forall x, z | x in Elements(found) && Edge(g, avoid, x, z)
        ensures z in Elements(found)
      {
        assert Handled(g, avoid, found, x);
      }
      PathInside(g, avoid, Elements(found), p);
    }
  }

  /** The returned data and the seen set keep step with what was found. */
  ghost predicate InStep(g: Graph, token: TokenId, seen0: set<NodeRef>, found: seq<Txid>, ret: seq<seq<Byte>>, seen: set<NodeRef>)
    requires forall i :: 0 <= i < |found| ==> found[i] in g
  {
    && |ret| == |found| && (forall i :: 0 <= i < |ret| ==> ret[i] == g[found[i]].txdata)
    && seen == seen0 + set y | y in Elements(found) :: NodeRef(token, y)
  }

  /** Found nodes are on the stack, under expansion (`busy`) or handled. */
  ghost predicate Sorted(g: Graph, avoid: set<Txid>, found: seq<Txid>, stack: seq<Txid>, busy: set<Txid>) {
    && (forall x :: x in stack ==> x in found)
    && (forall x :: x in found && x !in stack && x !in busy ==> Handled(g, avoid, found, x))
  }

  lemma StepOne(g: Graph, token: TokenId, seen0: set<NodeRef>, start: Txid, found: seq<Txid>, ret: seq<seq<Byte>>, seen: set<NodeRef>, x: Txid, z: Txid)
    requires Found(g, OfToken(seen0, token), start, found) && InStep(g, token, seen0, found, ret, seen)
    requires x in found && z in g && z in g[x].inputs
    ensures NodeRef(token, z) in seen <==> z in OfToken(seen0, token) || z in found
    ensures NodeRef(token, z) !in seen ==>
      && Found(g, OfToken(seen0, token), start, found + [z])
      && InStep(g, token, seen0, found + [z], ret + [g[z].txdata], seen + {NodeRef(token, z)})
  {
    if NodeRef(token, z) !in seen {
      FoundMore(g, OfToken(seen0, token), start, found, x, z);
      ElementsPush(found, z);
    }
  }

  lemma PushKeepsSorted(g: Graph, avoid: set<Txid>, found: seq<Txid>, stack: seq<Txid>, busy: set<Txid>, z: Txid)
    requires Sorted(g, avoid, found, stack, busy)
    ensures Sorted(g, avoid, found + [z], stack + [z], busy)
  {
    forall x | x in found + [z] && x !in stack + [z] && x !in busy
      ensures Handled(g, avoid, found + [z], x)
    {
      assert z in stack + [z];
      assert x in found && x !in stack;
    }
  }

  /**
   * The explicit-stack traversal that both entry points share. It ends because every pop either
   * shortens the stack or has found new nodes.
   */
  method Traverse(g: Graph, token: TokenId, start: Txid, seen0: set<NodeRef>) returns (ret: seq<seq<Byte>>, seen: set<NodeRef>, ghost found: seq<Txid>)
    requires Linked(g) && start in g
    ensures Found(g, OfToken(seen0, token), start, found)
    ensures forall y :: y in found <==> Reaches(g, OfToken(seen0, token), start, y)
    ensures InStep(g, token, seen0, found, ret, seen)
  {
    ghost var avoid := OfToken(seen0, token);
    seen := seen0 + {NodeRef(token, start)};
    var stack := [start];
    ret := [g[start].txdata];
    found := [start];
    ReachesSelf(g, avoid, start);
    while |stack| > 0
      invariant Found(g, avoid, start, found) && InStep(g, token, seen0, found, ret, seen)
      invariant Sorted(g, avoid, found, stack, {})
      decreases g.Keys - Elements(found), |stack|
    {
      var x := stack[|stack| - 1];
      assert x in found;
      assert x in g;
      stack := stack[..|stack| - 1];
      ghost var before := found;
      stack, ret, seen, found := Expand(g, token, start, seen0, x, stack, ret, seen, found);
      GrowthDecreases(g, before, found);
    }
    forall y
      ensures y in found <==> Reaches(g, avoid, start, y)
    {
      FoundAll(g, avoid, start, found, y);
    }
  }

  lemma GrowthDecreases(g: Graph, before: seq<Txid>, after: seq<Txid>)
    requires before <= after && forall i :: 0 <= i < |after| ==> after[i] in g
    requires forall i, j :: 0 <= i < j < |after| ==> after[i] != after[j]
    ensures g.Keys - Elements(after) <= g.Keys - Elements(before)
    ensures before != after ==> g.Keys - Elements(after) < g.Keys - Elements(before)
  {
    forall i | 0 <= i < |before|
      ensures before[i] in Elements(after)
    {
      assert after[i] == before[i];
    }
    if before != after {
      var z := after[|before|];
      assert z in Elements(after) && z !in Elements(before);
      assert z in g.Keys - Elements(before) && z !in g.Keys - Elements(after);
    }
  }

  /** The inner loop: pushes the inputs of `x` that have not been seen. */
  method Expand(g: Graph, token: TokenId, ghost start: Txid, ghost seen0: set<NodeRef>, x: Txid,
                stack0: seq<Txid>, ret0: seq<seq<Byte>>, seen1: set<NodeRef>, ghost found0: seq<Txid>)
    returns (stack: seq<Txid>, ret: seq<seq<Byte>>, seen: set<NodeRef>, ghost found: seq<Txid>)
    requires Linked(g) && Found(g, OfToken(seen0, token), start, found0) && x in found0 && x in g
    requires InStep(g, token, seen0, found0, ret0, seen1) && Sorted(g, OfToken(seen0, token), found0, stack0, {x})
    ensures found0 <= found && Found(g, OfToken(seen0, token), start, found)
    ensures found == found0 ==> stack == stack0
    ensures InStep(g, token, seen0, found, ret, seen) && Sorted(g, OfToken(seen0, token), found, stack, {})
  {
    ghost var avoid := OfToken(seen0, token);
    stack, ret, seen, found := stack0, ret0, seen1, found0;
    for k := 0 to |g[x].inputs|
      invariant found0 <= found && Found(g, avoid, start, found) && x in found
      invariant found == found0 ==> stack == stack0
      invariant InStep(g, token, seen0, found, ret, seen) && Sorted(g, avoid, found, stack, {x})
      invariant forall m :: 0 <= m < k ==> g[x].inputs[m] in avoid || g[x].inputs[m] in found
    {
      var z := g[x].inputs[k];
      StepOne(g, token, seen0, start, found, ret, seen, x, z);
      if NodeRef(token, z) !in seen {
        PushKeepsSorted(g, avoid, found, stack, {x}, z);
        seen := seen + {NodeRef(token, z)};
        stack := stack + [z];
        ret := ret + [g[z].txdata];
        found := found + [z];
      }
    }
    assert Handled(g, avoid, found, x);
  }

  lemma ElementsPush(s: seq<Txid>, z: Txid)
    ensures Elements(s + [z]) == Elements(s) + {z}
  {
    var t := s + [z];
    assert forall i :: 0 <= i < |s| ==> t[i] == s[i];
    assert t[|s|] == z;
  }

  // ----- Insertion -----

  /** The transactions of a list that are new: not known before and not earlier in the list. */
  function Fresh(txs: seq<Transaction>, known: set<Txid>): seq<Transaction> {
    if |txs| == 0 then []
    else
      var rest, tx := Fresh(txs[..|txs| - 1], known), txs[|txs| - 1];
      if tx.txid in known || Occurs(rest, tx.txid) then rest else rest + [tx]
  }

  predicate Occurs(txs: seq<Transaction>, x: Txid) {
    exists i :: 0 <= i < |txs| && txs[i].txid == x
  }

  lemma {:induction false} FreshFacts(txs: seq<Transaction>, known: set<Txid>)
    ensures forall i :: 0 <= i < |Fresh(txs, known)| ==> Fresh(txs, known)[i] in txs && Fresh(txs, known)[i].txid !in known
    ensures forall i, j :: 0 <= i < j < |Fresh(txs, known)| ==> Fresh(txs, known)[i].txid != Fresh(txs, known)[j].txid
    decreases |txs|
  {
    if |txs| > 0 {
      FreshFacts(txs[..|txs| - 1], known);
    }
  }

  /** The inputs that lead to nodes of the graph. */
  function LinkedInputs(inputs: seq<Txid>, keys: set<Txid>): seq<Txid> {
    if |inputs| == 0 then []
    else
      var rest, x := LinkedInputs(inputs[..|inputs| - 1], keys), inputs[|inputs| - 1];
      if x in keys then rest + [x] else rest
  }

  /** An id is among the links iff it is among the inputs and in the graph, and as often. */
  lemma {:induction false} LinkedExactly(inputs: seq<Txid>, keys: set<Txid>, x: Txid)
    ensures x in LinkedInputs(inputs, keys) <==> x in inputs && x in keys
    ensures multiset(LinkedInputs(inputs, keys))[x] == if x in keys then multiset(inputs)[x] else 0
    decreases |inputs|
  {
    if |inputs| > 0 {
      LinkedExactly(inputs[..|inputs| - 1], keys, x);
      assert inputs == inputs[..|inputs| - 1] + [inputs[|inputs| - 1]];
    }
  }

  /** An id is new iff it is on the list and was not known, and then its first transaction on the list is taken. */
  lemma {:induction false} FreshExactly(txs: seq<Transaction>, known: set<Txid>, x: Txid)
    ensures Occurs(Fresh(txs, known), x) <==> x !in known && Occurs(txs, x)
    decreases |txs|
  {
    if |txs| > 0 {
      var n := |txs| - 1;
      FreshExactly(txs[..n], known, x);
      OccursPush(txs[..n], txs[n]);
      OccursPush(Fresh(txs[..n], known), txs[n]);
      assert txs == txs[..n] + [txs[n]];
    }
  }

  lemma {:induction false} FreshIsFirst(txs: seq<Transaction>, known: set<Txid>, i: nat)
    requires i < |txs| && txs[i].txid !in known && !Occurs(txs[..i], txs[i].txid)
    ensures txs[i] in Fresh(txs, known)
    decreases |txs|
  {
    var n := |txs| - 1;
    if i < n {
      assert txs[..n][..i] == txs[..i];
      FreshIsFirst(txs[..n], known, i);
    } else {
      FreshExactly(txs[..n], known, txs[n].txid);
    }
  }

  function InputTxids(tx: Transaction): seq<Txid> {
    seq(|tx.inputs|, i requires 0 <= i < |tx.inputs| => tx.inputs[i].txid)
  }

  /** An id is computed from the serialized bytes, so equal bytes mean equal ids. */
  ghost predicate IdsFromData(txs: seq<Transaction>) {
    forall s, t :: s in txs && t in txs && s.serialized == t.serialized ==> s.txid == t.txid
  }

  function NodeFor(tx: Transaction, linked: bool, keys: set<Txid>): GraphNode {
    GraphNode(if linked then LinkedInputs(InputTxids(tx), keys) else [], tx.serialized)
  }

  /** The graph `g` with nodes for the added transactions, linked from number `linked` on not yet. */
  ghost predicate Extended(g: Graph, added: seq<Transaction>, linked: nat, g': Graph) {
    && (forall x :: x in g' <==> x in g || Occurs(added, x))
    && (forall x :: x in g ==> g'[x] == g[x])
    && (forall i :: 0 <= i < |added| ==> added[i].txid in g' && g'[added[i].txid] == NodeFor(added[i], i < linked, g'.Keys))
  }

  /** Inputs by serialized bytes, as the first pass records them. */
  ghost predicate Recorded(inputMap: map<seq<Byte>, seq<Txid>>, added: seq<Transaction>) {
    forall i :: 0 <= i < |added| ==> added[i].serialized in inputMap && inputMap[added[i].serialized] == InputTxids(added[i])
  }

  /** The index after the first pass. */
  ghost predicate Indexed(index: map<Txid, TokenId>, tokenid: TokenId, added: seq<Transaction>, index': map<Txid, TokenId>) {
    && (forall x :: x in index' <==> x in index || Occurs(added, x))
    && (forall x :: x in index' ==> index'[x] == if x in index then index[x] else tokenid)
  }

  /** Nothing is recorded but the bytes of the new transactions, whose ids are listed in order. */
  ghost predicate Listed(inputMap: map<seq<Byte>, seq<Txid>>, latest: seq<Txid>, added: seq<Transaction>) {
    && (forall s :: s in inputMap ==> exists k :: 0 <= k < |added| && added[k].serialized == s)
    && |latest| == |added| && (forall k :: 0 <= k < |added| ==> latest[k] == added[k].txid)
  }

  /** The first pass: nodes without links for the new transactions. */
  method AddNodes(g0: Graph, index0: map<Txid, TokenId>, tokenid: TokenId, txs: seq<Transaction>)
    returns (g: Graph, index: map<Txid, TokenId>, inputMap: map<seq<Byte>, seq<Txid>>, latest: seq<Txid>)
    requires IdsFromData(txs) && forall x :: x in g0 ==> x in index0
    ensures FirstPass(g0, index0, tokenid, Fresh(txs, index0.Keys), g, index, inputMap, latest)
  {
    g, index, inputMap, latest := g0, index0, map[], [];
    assert Fresh(txs[..0], index0.Keys) == [];
    StartPass(g0, index0, tokenid);
    for i := 0 to |txs|
      invariant FirstPass(g0, index0, tokenid, Fresh(txs[..i], index0.Keys), g, index, inputMap, latest)
    {
      var tx := txs[i];
      FreshStep(txs, i, index0, tokenid, index);
      if tx.txid !in index {
        AddOne(txs, i, g0, index0, tokenid, g, index, inputMap, latest);
        g := g[tx.txid := GraphNode([], tx.serialized)];
        index := index[tx.txid := tokenid];
        inputMap := inputMap[tx.serialized := InputTxids(tx)];
        latest := latest + [tx.txid];
      }
    }
    assert txs[..|txs|] == txs;
  }

  /** The state of the first pass when the transactions `added` are in. */
  ghost predicate FirstPass(g0: Graph, index0: map<Txid, TokenId>, tokenid: TokenId, added: seq<Transaction>,
                            g: Graph, index: map<Txid, TokenId>, inputMap: map<seq<Byte>, seq<Txid>>, latest: seq<Txid>) {
    Extended(g0, added, 0, g) && Recorded(inputMap, added) && Indexed(index0, tokenid, added, index) && Listed(inputMap, latest, added)
  }

  lemma StartPass(g0: Graph, index0: map<Txid, TokenId>, tokenid: TokenId)
    ensures FirstPass(g0, index0, tokenid, [], g0, index0, map[], [])
  {
  }

  lemma FreshStep(txs: seq<Transaction>, i: nat, index0: map<Txid, TokenId>, tokenid: TokenId, index: map<Txid, TokenId>)
    requires i < |txs| && Indexed(index0, tokenid, Fresh(txs[..i], index0.Keys), index)
    ensures txs[i].txid in index ==> Fresh(txs[..i + 1], index0.Keys) == Fresh(txs[..i], index0.Keys)
    ensures txs[i].txid !in index ==> Fresh(txs[..i + 1], index0.Keys) == Fresh(txs[..i], index0.Keys) + [txs[i]]
  {
    assert txs[..i + 1][..i] == txs[..i];
  }

  lemma AddOne(txs: seq<Transaction>, i: nat, g0: Graph, index0: map<Txid, TokenId>, tokenid: TokenId,
               g: Graph, index: map<Txid, TokenId>, inputMap: map<seq<Byte>, seq<Txid>>, latest: seq<Txid>)
    requires i < |txs| && IdsFromData(txs) && txs[i].txid !in index && forall x :: x in g0 ==> x in index0
    requires FirstPass(g0, index0, tokenid, Fresh(txs[..i], index0.Keys), g, index, inputMap, latest)
    ensures
      var tx := txs[i];
      FirstPass(g0, index0, tokenid, Fresh(txs[..i], index0.Keys) + [tx], g[tx.txid := GraphNode([], tx.serialized)],
                index[tx.txid := tokenid], inputMap[tx.serialized := InputTxids(tx)], latest + [tx.txid])
  {
    var before, tx := Fresh(txs[..i], index0.Keys), txs[i];
    assert tx.txid !in g0 && !Occurs(before, tx.txid);
    NotRecorded(txs, index0.Keys, i, inputMap);
    ExtendOne(g0, before, g, tx);
    RecordOne(before, inputMap, latest, tx);
    IndexOne(index0, tokenid, before, index, tx);
  }

  lemma IndexOne(index0: map<Txid, TokenId>, tokenid: TokenId, added: seq<Transaction>, index: map<Txid, TokenId>, tx: Transaction)
    requires Indexed(index0, tokenid, added, index) && tx.txid !in index
    ensures Indexed(index0, tokenid, added + [tx], index[tx.txid := tokenid])
  {
    OccursPush(added, tx);
  }

  lemma RecordOne(added: seq<Transaction>, inputMap: map<seq<Byte>, seq<Txid>>, latest: seq<Txid>, tx: Transaction)
    requires Recorded(inputMap, added) && Listed(inputMap, latest, added) && tx.serialized !in inputMap
    ensures Recorded(inputMap[tx.serialized := InputTxids(tx)], added + [tx])
    ensures Listed(inputMap[tx.serialized := InputTxids(tx)], latest + [tx.txid], added + [tx])
  {
    var after := added + [tx];
    assert after[|added|] == tx;
    var recorded := inputMap[tx.serialized := InputTxids(tx)];
    forall s | s in recorded
      ensures exists k :: 0 <= k < |after| && after[k].serialized == s
    {
      if s != tx.serialized {
        var k :| 0 <= k < |added| && added[k].serialized == s;
        assert after[k].serialized == s;
      }
    }
  }

  /** The index and the graphs agree, and links stay inside their graph. */
  ghost predicate Consistent(tokens: map<TokenId, Graph>, index: map<Txid, TokenId>) {
    && (forall x :: x in index ==> index[x] in tokens && x in tokens[index[x]])
    && (forall t :: t in tokens ==> Linked(tokens[t]))
    && (forall t, x :: t in tokens && x in tokens[t] ==> x in index && index[x] == t)
  }

  lemma InsertionConsistent(tokens: map<TokenId, Graph>, index: map<Txid, TokenId>, tokenid: TokenId, added: seq<Transaction>, g: Graph, index': map<Txid, TokenId>)
    requires Consistent(tokens, index)
    requires Extended(if tokenid in tokens then tokens[tokenid] else map[], added, |added|, g)
    requires Indexed(index, tokenid, added, index') && forall i :: 0 <= i < |added| ==> added[i].txid !in index
    ensures Consistent(tokens[tokenid := g], index')
  {
    ExtendedLinked(if tokenid in tokens then tokens[tokenid] else map[], added, g);
  }

  class TokenGraphs {
    var tokens: map<TokenId, Graph>
    var txidToToken: map<Txid, TokenId>

    ghost predicate Valid()
      reads this
    {
      Consistent(tokens, txidToToken)
    }

    constructor ()
      ensures Valid() && tokens == map[] && txidToToken == map[]
    {
      tokens, txidToToken := map[], map[];
    }

    method Clear()
      modifies this
      ensures Valid() && tokens == map[] && txidToToken == map[]
    {
      tokens, txidToToken := map[], map[];
    }

    /** `insert_token_data` */
    method InsertTokenData(tokenid: TokenId, txs: seq<Transaction>) returns (ret: nat)
      requires Valid() && IdsFromData(txs)
      modifies this
      ensures Valid()
      ensures tokens.Keys == old(tokens).Keys + {tokenid}
      ensures forall t :: t in old(tokens) && t != tokenid ==> tokens[t] == old(tokens)[t]
      ensures var added := Fresh(txs, old(txidToToken).Keys);
        && ret == |added|
        && Extended(if tokenid in old(tokens) then old(tokens)[tokenid] else map[], added, |added|, tokens[tokenid])
        && Indexed(old(txidToToken), tokenid, added, txidToToken)
    {
      ghost var added := Fresh(txs, txidToToken.Keys);
      FreshFacts(txs, txidToToken.Keys);
      var g0: Graph := if tokenid in tokens then tokens[tokenid] else map[];
      var g, inputMap, latest;
      g, txidToToken, inputMap, latest := AddNodes(g0, txidToToken, tokenid, txs);
      g := LinkNodes(g0, added, g, latest, inputMap);
      InsertionConsistent(tokens, old(txidToToken), tokenid, added, g, txidToToken);
      tokens := tokens[tokenid := g];
      ret := |latest|;
    }

    /** `build_exclusion_set` */
    method BuildExclusionSet(lookup: Txid, seen0: set<NodeRef>) returns (ok: bool, seen: set<NodeRef>)
      requires Valid()
      ensures ok == (lookup in txidToToken)
      ensures !ok ==> seen == seen0
      ensures ok && ClosedRefs(seen0) ==>
                && ClosedRefs(seen)
                && forall n :: n in seen <==> n in seen0 || (n.token == txidToToken[lookup] && Ancestor(tokens[n.token], lookup, n.txid))
    {
      if lookup !in txidToToken {
        return false, seen0;
      }
      var token := txidToToken[lookup];
      if lookup !in tokens[token] {
        return false, seen0;
      }
      ghost var found;
      var data;
      data, seen, found := Traverse(tokens[token], token, lookup, seen0);
      ok := true;
      if ClosedRefs(seen0) {
        SeenExactly(token, lookup, seen0, found, seen);
        SeenClosed(token, lookup, seen0, seen);
      }
    }

    /**
     * `graph_search__ptr`: the start node and exactly its ancestors outside the exclusion set, each
     * once; a known transaction is always in its token graph. The grown exclusion set is handed back.
     */
    method GraphSearch(lookup: Txid, seen0: set<NodeRef>) returns (status: SearchStatus, ret: seq<seq<Byte>>, seen: set<NodeRef>, ghost found: seq<Txid>)
      requires Valid()
      ensures status == if lookup in txidToToken then Ok else NotFound
      ensures status.NotFound? ==> ret == [] && seen == seen0
      ensures status.Ok? ==>
                var g := tokens[txidToToken[lookup]];
                && |ret| == |found| && |found| >= 1 && found[0] == lookup
                && (forall i :: 0 <= i < |found| ==> found[i] in g && ret[i] == g[found[i]].txdata)
                && (forall i, j :: 0 <= i < j < |found| ==> found[i] != found[j])
      ensures status.Ok? ==> seen == seen0 + set y | y in Elements(found) :: NodeRef(txidToToken[lookup], y)
      ensures status.Ok? && ClosedRefs(seen0) ==>
                && (forall y :: y in found <==> y == lookup || (Ancestor(tokens[txidToToken[lookup]], lookup, y) && NodeRef(txidToToken[lookup], y) !in seen0))
                && (forall n :: n in seen <==> n in seen0 || (n.token == txidToToken[lookup] && Ancestor(tokens[n.token], lookup, n.txid)))
                && ClosedRefs(seen)
    {
      found := [];
      if lookup !in txidToToken {
        return NotFound, [], seen0, found;
      }
      var token := txidToToken[lookup];
      if lookup !in tokens[token] {
        return NotInTokenGraph, [], seen0, found;
      }
      ret, seen, found := Traverse(tokens[token], token, lookup, seen0);
      status := Ok;
      if ClosedRefs(seen0) {
        FoundExactly(token, lookup, seen0, found);
        SeenExactly(token, lookup, seen0, found, seen);
        SeenClosed(token, lookup, seen0, seen);
      }
    }

    /** With a node the set holds its ancestors, in every token. */
    ghost predicate ClosedRefs(seen: set<NodeRef>)
      reads this
    {
      forall t :: t in tokens ==> Closed(tokens[t], OfToken(seen, t))
    }

    lemma FoundExactly(token: TokenId, lookup: Txid, seen0: set<NodeRef>, found: seq<Txid>)
      requires token in tokens && lookup in tokens[token] && ClosedRefs(seen0)
      requires Found(tokens[token], OfToken(seen0, token), lookup, found)
      requires forall y :: y in found <==> Reaches(tokens[token], OfToken(seen0, token), lookup, y)
      ensures forall y :: y in found <==> y == lookup || (Ancestor(tokens[token], lookup, y) && NodeRef(token, y) !in seen0)
    {
      var g, avoid := tokens[token], OfToken(seen0, token);
      forall y
        ensures y in found <==> y == lookup || (Ancestor(g, lookup, y) && NodeRef(token, y) !in seen0)
      {
        assert NodeRef(token, y) in seen0 <==> y in avoid;
        if y == lookup {
          assert found[0] == y;
        } else if y !in avoid {
          ReachesIsAncestor(g, avoid, lookup, y);
        }
      }
    }

    lemma SeenExactly(token: TokenId, lookup: Txid, seen0: set<NodeRef>, found: seq<Txid>, seen: set<NodeRef>)
      requires token in tokens && lookup in tokens[token] && ClosedRefs(seen0)
      requires Found(tokens[token], OfToken(seen0, token), lookup, found)
      requires forall y :: y in found <==> Reaches(tokens[token], OfToken(seen0, token), lookup, y)
      requires seen == seen0 + set y | y in Elements(found) :: NodeRef(token, y)
      ensures forall n :: n in seen <==> n in seen0 || (n.token == token && Ancestor(tokens[token], lookup, n.txid))
    {
      FoundExactly(token, lookup, seen0, found);
      ReachesSelf(tokens[token], {}, lookup);
      forall n
        ensures n in seen <==> n in seen0 || (n.token == token && Ancestor(tokens[token], lookup, n.txid))
      {
        if n.token == token {
          assert n == NodeRef(token, n.txid);
        }
      }
    }

    lemma SeenClosed(token: TokenId, lookup: Txid, seen0: set<NodeRef>, seen: set<NodeRef>)
      requires Valid() && token in tokens && lookup in tokens[token] && ClosedRefs(seen0)
      requires forall n :: n in seen <==> n in seen0 || (n.token == token && Ancestor(tokens[token], lookup, n.txid))
      ensures ClosedRefs(seen)
    {
      forall t, x, k | t in tokens && x in OfToken(seen, t) && x in tokens[t] && 0 <= k < |tokens[t][x].inputs|
        ensures tokens[t][x].inputs[k] in OfToken(seen, t)
      {
        var z := tokens[t][x].inputs[k];
        assert NodeRef(t, x) in seen;
        if NodeRef(t, x) in seen0 {
          assert x in OfToken(seen0, t);
          assert z in OfToken(seen0, t);
          assert NodeRef(t, z) in seen0;
        } else {
          ReachesStep(tokens[token], {}, lookup, x, z);
        }
        assert NodeRef(t, z) in seen;
      }
    }
  }

  lemma OccursPush(txs: seq<Transaction>, tx: Transaction)
    ensures forall x :: Occurs(txs + [tx], x) <==> Occurs(txs, x) || x == tx.txid
  {
    var s := txs + [tx];
    assert s[|txs|] == tx;
    forall x
      ensures Occurs(s, x) <==> Occurs(txs, x) || x == tx.txid
    {
      if Occurs(txs, x) {
        var i :| 0 <= i < |txs| && txs[i].txid == x;
        assert s[i].txid == x;
      }
    }
  }

  lemma ExtendOne(g0: Graph, added: seq<Transaction>, g: Graph, tx: Transaction)
    requires Extended(g0, added, 0, g) && tx.txid !in g0 && !Occurs(added, tx.txid)
    ensures Extended(g0, added + [tx], 0, g[tx.txid := GraphNode([], tx.serialized)])
  {
    OccursPush(added, tx);
  }

  /** A new transaction has bytes that are not recorded yet. */
  lemma NotRecorded(txs: seq<Transaction>, known: set<Txid>, i: nat, inputMap: map<seq<Byte>, seq<Txid>>)
    requires i < |txs| && IdsFromData(txs)
    requires txs[i].txid !in known && !Occurs(Fresh(txs[..i], known), txs[i].txid)
    requires forall s :: s in inputMap ==> exists k :: 0 <= k < |Fresh(txs[..i], known)| && Fresh(txs[..i], known)[k].serialized == s
    ensures txs[i].serialized !in inputMap
  {
    FreshFacts(txs[..i], known);
    var before := Fresh(txs[..i], known);
    forall k | 0 <= k < |before|
      ensures before[k].serialized != txs[i].serialized
    {
      assert before[k] in txs && txs[i] in txs;
      assert before[k].txid != txs[i].txid;
    }
  }

  lemma ExtendedLinked(g0: Graph, added: seq<Transaction>, g: Graph)
    requires Linked(g0) && Extended(g0, added, |added|, g)
    ensures Linked(g)
  {
    forall x, k | x in g && 0 <= k < |g[x].inputs|
      ensures g[x].inputs[k] in g
    {
      if x !in g0 {
        var i :| 0 <= i < |added| && added[i].txid == x;
        LinkedExactly(InputTxids(added[i]), g.Keys, g[x].inputs[k]);
      }
    }
  }

  /** The links of a new node: exactly the transactions it spends from that are in the graph. */
  lemma NewLinks(g0: Graph, added: seq<Transaction>, g: Graph, i: nat, z: Txid)
    requires Extended(g0, added, |added|, g) && i < |added|
    ensures added[i].txid in g && g[added[i].txid].txdata == added[i].serialized
    ensures z in g[added[i].txid].inputs <==> z in g && exists k :: 0 <= k < |added[i].inputs| && added[i].inputs[k].txid == z
  {
    var tx := added[i];
    var ids := InputTxids(tx);
    LinkedExactly(ids, g.Keys, z);
    if k :| 0 <= k < |tx.inputs| && tx.inputs[k].txid == z {
      assert ids[k] == z;
    }
  }

  /** The second pass: gives the new nodes their links. */
  method LinkNodes(ghost g0: Graph, ghost added: seq<Transaction>, g: Graph, latest: seq<Txid>, inputMap: map<seq<Byte>, seq<Txid>>) returns (g': Graph)
    requires Extended(g0, added, 0, g) && Recorded(inputMap, added)
    requires |latest| == |added| && forall i :: 0 <= i < |added| ==> latest[i] == added[i].txid && added[i].txid !in g0
    requires forall i, j :: 0 <= i < j < |added| ==> added[i].txid != added[j].txid
    ensures Extended(g0, added, |added|, g')
  {
    g' := g;
    for i := 0 to |latest|
      invariant Extended(g0, added, i, g') && g'.Keys == g.Keys
    {
      var x := latest[i];
      var links := Links(inputMap[g'[x].txdata], g'.Keys);
      LinkOne(g0, added, i, g');
      g' := g'[x := GraphNode(links, g'[x].txdata)];
    }
  }

  lemma LinkOne(g0: Graph, added: seq<Transaction>, i: nat, g: Graph)
    requires Extended(g0, added, i, g) && i < |added| && added[i].txid !in g0
    requires forall j, k :: 0 <= j < k < |added| ==> added[j].txid != added[k].txid
    ensures added[i].txid in g
    ensures
      var tx := added[i];
      var g' := g[tx.txid := GraphNode(LinkedInputs(InputTxids(tx), g.Keys), g[tx.txid].txdata)];
      g'.Keys == g.Keys && Extended(g0, added, i + 1, g')
  {
    var tx := added[i];
    var g' := g[tx.txid := GraphNode(LinkedInputs(InputTxids(tx), g.Keys), g[tx.txid].txdata)];
    assert g'.Keys == g.Keys;
    forall j | 0 <= j < |added|
      ensures added[j].txid in g' && g'[added[j].txid] == NodeFor(added[j], j < i + 1, g'.Keys)
    {
      if j < i {
        assert added[j].txid != added[i].txid;
      } else if j > i {
        assert added[i].txid != added[j].txid;
      }
    }
  }

  method Links(inputs: seq<Txid>, keys: set<Txid>) returns (links: seq<Txid>)
    ensures links == LinkedInputs(inputs, keys)
  {
    links := [];
    for i := 0 to |inputs|
      invariant links == LinkedInputs(inputs[..i], keys)
    {
      assert inputs[..i + 1][..i] == inputs[..i];
      if inputs[i] in keys {
        links := links + [inputs[i]];
      }
    }
    assert inputs[..|inputs|] == inputs;
  }
}
