/** Merkle roots in cpu-miner.c: the witness tree and the txid tree of gbt_work_decode, both reduced
    in place, and the branch fold of sha256d_gen_merkle_root.  The double SHA-256 of two nodes is an
    uninterpreted function. */
module Merkle {

  /** 32 bytes. */
  type Node = seq<int>

  type NodeHash = (Node, Node) -> Node

  /** The level above: neighbours paired, the last node paired with itself when left over. */
  function Level(h: NodeHash, s: seq<Node>): (r: seq<Node>)
    ensures |r| == (|s| + 1) / 2
    ensures forall i | 0 <= i < |r| :: r[i] == h(s[2 * i], s[if 2 * i + 1 < |s| then 2 * i + 1 else 2 * i])
  {
    seq((|s| + 1) / 2, i requires 0 <= i < (|s| + 1) / 2 =>
        h(s[2 * i], s[if 2 * i + 1 < |s| then 2 * i + 1 else 2 * i]))
  }

  function Root(h: NodeHash, leaves: seq<Node>): Node
    requires leaves != []
    decreases |leaves|
  {
    if |leaves| == 1 then leaves[0] else Root(h, Level(h, leaves))
  }

  // ------------------------------------------------------------------------------ in-place loops

  /** One level: node i is overwritten by the hash of nodes 2i and 2i+1, for i from 0 on. */
  method LevelInPlace(h: NodeHash, tree: array<Node>, n: nat)
    requires 2 * n <= tree.Length
    modifies tree
    ensures tree[..n] == Level(h, old(tree[..2 * n]))
  {
    ghost var was := tree[..2 * n];
    for i := 0 to n
      invariant tree[..i] == Level(h, was)[..i]
      invariant forall k | 2 * i <= k < 2 * n :: tree[k] == was[k]
    {
      assert tree[2 * i] == was[2 * i] && tree[2 * i + 1] == was[2 * i + 1];
      tree[i] := h(tree[2 * i], tree[2 * i + 1]);
      assert tree[..i + 1] == tree[..i] + [tree[i]];
    }
  }

  /** A level as the loops leave it before hashing: an odd one has its last node written once more. */
  ghost function Padded(s: seq<Node>): seq<Node> {
    if |s| % 2 == 1 then s + [s[|s| - 1]] else s
  }

  /** That changes nothing in the level above, and so nothing in the root. */
  lemma PaddedLevel(h: NodeHash, s: seq<Node>)
    ensures Level(h, Padded(s)) == Level(h, s)
  {
    var d := Padded(s);
    forall i | 0 <= i < |Level(h, s)| ensures Level(h, d)[i] == Level(h, s)[i] {
      assert d[2 * i] == s[2 * i];
    }
  }

  lemma PaddingKeepsRoot(h: NodeHash, s: seq<Node>)
    requires |s| > 1
    ensures Root(h, Level(h, Padded(s))) == Root(h, s)
  {
    PaddedLevel(h, s);
  }

  /** One turn of the witness loop: copy the odd node, then round the count up while halving. */
  method WitnessTurn(h: NodeHash, wtree: array<Node>, count: nat) returns (n: nat)
    requires 1 < count < wtree.Length
    modifies wtree
    ensures 1 <= n < count && Root(h, wtree[..n]) == Root(h, old(wtree[..count]))
  {
    n := count;
    if n % 2 == 1 {
      wtree[n] := wtree[n - 1];
    }
    n := (n + 1) / 2;
    assert wtree[..2 * n] == Padded(old(wtree[..count]));
    PaddingKeepsRoot(h, old(wtree[..count]));
    LevelInPlace(h, wtree, n);
  }

  /** The witness tree: tx_count + 2 slots, leaves in the first tx_count + 1. */
  method WitnessRoot(h: NodeHash, wtree: array<Node>, txCount: nat)
    requires wtree.Length == txCount + 2
    modifies wtree
    ensures wtree[0] == Root(h, old(wtree[..txCount + 1]))
  {
    var n := txCount + 1;
    while n > 1
      invariant 1 <= n <= txCount + 1 && Root(h, wtree[..n]) == Root(h, old(wtree[..txCount + 1]))
    {
      n := WitnessTurn(h, wtree, n);
    }
  }

  /** The commitment in the coinbase: the witness root hashed with the reserved value. */
  method WitnessCommitment(h: NodeHash, wtree: array<Node>, txCount: nat, zero: Node) returns (commitment: Node)
    requires wtree.Length == txCount + 2
    modifies wtree
    ensures commitment == h(Root(h, old(wtree[..txCount + 1])), zero)
  {
    WitnessRoot(h, wtree, txCount);
    wtree[1] := zero;
    commitment := h(wtree[0], wtree[1]);
  }

  /** One turn of the txid loop: copy the odd node and count it, then halve. */
  method TxidTurn(h: NodeHash, tree: array<Node>, count: nat) returns (n: nat)
    requires 1 < count <= tree.Length && tree.Length % 2 == 0
    modifies tree
    ensures 1 <= n < count && Root(h, tree[..n]) == Root(h, old(tree[..count]))
  {
    n := count;
    if n % 2 == 1 {
      tree[n] := tree[n - 1];
      n := n + 1;
    }
    n := n / 2;
    assert tree[..2 * n] == Padded(old(tree[..count]));
    PaddingKeepsRoot(h, old(tree[..count]));
    LevelInPlace(h, tree, n);
  }

  /** The txid tree: (tx_count + 2) & ~1 slots, and the count itself is rounded up. */
  method TxidRoot(h: NodeHash, tree: array<Node>, txCount: nat)
    requires tree.Length == (txCount + 2) / 2 * 2
    modifies tree
    ensures tree[0] == Root(h, old(tree[..txCount + 1]))
  {
    TxidLoop(h, tree, txCount);
  }

  method TxidLoop(h: NodeHash, tree: array<Node>, txCount: nat)
    requires txCount + 1 <= tree.Length && tree.Length % 2 == 0
    modifies tree
    ensures tree[0] == Root(h, old(tree[..txCount + 1]))
  {
    var n := 1 + txCount;
    while n > 1
      invariant 1 <= n <= txCount + 1 && Root(h, tree[..n]) == Root(h, old(tree[..txCount + 1]))
    {
      n := TxidTurn(h, tree, n);
    }
  }

  // -------------------------------------------------------------------------------- branch fold

  /** What a pool sends: the sibling of the path from leaf 0, level by level. */
  function Branch(h: NodeHash, leaves: seq<Node>): seq<Node>
    requires leaves != []
    decreases |leaves|
  {
    if |leaves| == 1 then [] else [leaves[1]] + Branch(h, Level(h, leaves))
  }

  function Fold(h: NodeHash, leaf: Node, branch: seq<Node>): Node
    decreases |branch|
  {
    if branch == [] then leaf else Fold(h, h(leaf, branch[0]), branch[1..])
  }

  /** The loop of sha256d_gen_merkle_root over a 64-byte buffer of two nodes. */
  method FoldBranch(h: NodeHash, coinbase: Node, branch: seq<Node>) returns (root: Node)
    ensures root == Fold(h, coinbase, branch)
  {
    root := coinbase;
    assert branch[0..] == branch;
    for i := 0 to |branch|
      invariant Fold(h, root, branch[i..]) == Fold(h, coinbase, branch)
    {
      assert branch[i..][1..] == branch[i + 1..];
      var second := branch[i];
      root := h(root, second);
    }
  }

  /** Replacing leaf 0 replaces node 0 of the level above, and only that. */
  lemma LevelOfUpdate(h: NodeHash, leaves: seq<Node>, x: Node)
    requires |leaves| >= 2
    ensures Level(h, leaves[0 := x]) == Level(h, leaves)[0 := h(x, leaves[1])]
  {
    var a, b := Level(h, leaves[0 := x]), Level(h, leaves)[0 := h(x, leaves[1])];
    forall i | 0 <= i < |a| ensures a[i] == b[i] {
      if i > 0 {
        assert leaves[0 := x][2 * i] == leaves[2 * i];
      }
    }
  }

  /** Folding any leaf through the branch of leaf 0 gives the root of the tree with that leaf: the
      miner can change the coinbase without knowing the other transactions. */
  lemma {:induction false} FoldIsRoot(h: NodeHash, leaves: seq<Node>, x: Node)
    requires leaves != []
    ensures Fold(h, x, Branch(h, leaves)) == Root(h, leaves[0 := x])
    decreases |leaves|
  {
    if |leaves| > 1 {
      var up := Level(h, leaves);
      FoldIsRoot(h, up, h(x, leaves[1]));
      LevelOfUpdate(h, leaves, x);
      assert Branch(h, leaves)[1..] == Branch(h, up);
    }
  }

  /** The branch does not depend on leaf 0, and has one node per level. */
  lemma {:induction false} BranchIgnoresLeaf0(h: NodeHash, leaves: seq<Node>, x: Node)
    requires leaves != []
    ensures Branch(h, leaves[0 := x]) == Branch(h, leaves)
    decreases |leaves|
  {
    if |leaves| > 1 {
      LevelOfUpdate(h, leaves, x);
      BranchIgnoresLeaf0(h, Level(h, leaves), h(x, leaves[1]));
    }
  }
}
