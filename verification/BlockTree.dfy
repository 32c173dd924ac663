/** The tree of imported blocks that the account cache must agree with. */
module BlockTree {
  import opened Primitives
  import opened WorldState

  datatype Block = Block(number: nat, parent: Hash, state: Accounts)

  type Tree = map<Hash, Block>

  /** One root; every other block sits directly on its parent. */
  ghost predicate ValidTree(tree: Tree, root: Hash) {
    && root in tree
    && tree[root].parent !in tree
    && forall h | h in tree && h != root :: tree[h].parent in tree && tree[h].number == tree[tree[h].parent].number + 1
  }

  /** The account of `a` after block `h`. */
  function At(tree: Tree, h: Hash, a: Address): Option<Account>
    requires h in tree
  {
    Get(tree[h].state, a)
  }

  /** The chain that ends in `h`. */
  ghost function Chain(tree: Tree, root: Hash, h: Hash): set<Hash>
    requires ValidTree(tree, root) && h in tree
    decreases tree[h].number
  {
    if h == root then {h} else {h} + Chain(tree, root, tree[h].parent)
  }

  lemma {:induction false} ChainInTree(tree: Tree, root: Hash, h: Hash)
    requires ValidTree(tree, root) && h in tree
    ensures root in Chain(tree, root, h)
    ensures forall b | b in Chain(tree, root, h) :: b in tree && tree[b].number <= tree[h].number
    decreases tree[h].number
  {
    if h != root {
      ChainInTree(tree, root, tree[h].parent);
    }
  }

  /** Of two blocks on one chain the lower one is on the chain of the higher one. */
  lemma {:induction false} ChainLinear(tree: Tree, root: Hash, h: Hash, low: Hash, high: Hash)
    requires ValidTree(tree, root) && h in tree
    requires low in Chain(tree, root, h) && high in Chain(tree, root, h)
    ensures low in tree && high in tree
    ensures tree[low].number <= tree[high].number ==> low in Chain(tree, root, high)
    ensures tree[low].number == tree[high].number ==> low == high
    decreases tree[h].number
  {
    ChainInTree(tree, root, h);
    if h != root {
      ChainInTree(tree, root, tree[h].parent);
      if low != h && high != h {
        ChainLinear(tree, root, tree[h].parent, low, high);
      }
    }
  }

  /** The chain of a block on a chain is part of that chain. */
  lemma {:induction false} ChainClosed(tree: Tree, root: Hash, h: Hash, b: Hash)
    requires ValidTree(tree, root) && h in tree && b in Chain(tree, root, h)
    ensures b in tree && Chain(tree, root, b) <= Chain(tree, root, h)
    decreases tree[h].number
  {
    if b != h {
      ChainClosed(tree, root, tree[h].parent, b);
    }
  }

  /** A new leaf does not change the chains that were there. */
  lemma {:induction false} ChainExtends(tree: Tree, root: Hash, hash: Hash, block: Block, h: Hash)
    requires ValidTree(tree, root) && h in tree
    requires hash !in tree && tree[root].parent != hash && ValidTree(tree[hash := block], root)
    ensures Chain(tree[hash := block], root, h) == Chain(tree, root, h)
    decreases tree[h].number
  {
    if h != root {
      ChainExtends(tree, root, hash, block, tree[h].parent);
    }
  }

  /** The last common block of two chains. */
  lemma {:induction false} Fork(tree: Tree, root: Hash, h: Hash, other: Hash) returns (m: Hash)
    requires ValidTree(tree, root) && h in tree && other in tree
    ensures m in Chain(tree, root, h) && m in Chain(tree, root, other) && m in tree
    ensures forall b | b in Chain(tree, root, h) && b in Chain(tree, root, other) ::
            b in tree && tree[b].number <= tree[m].number
    decreases tree[h].number
  {
    ChainInTree(tree, root, h);
    ChainInTree(tree, root, other);
    if h in Chain(tree, root, other) {
      m := h;
    } else {
      m := Fork(tree, root, tree[h].parent, other);
    }
  }

  /** Block `b` left the account of `a` as it was. */
  predicate Untouched(tree: Tree, b: Hash, a: Address) {
    b in tree && (tree[b].parent in tree ==> At(tree, b, a) == At(tree, tree[b].parent, a))
  }

  /** An account that no block above `low` touched is the same at both ends of the chain. */
  lemma {:induction false} UntouchedChain(tree: Tree, root: Hash, h: Hash, low: Hash, a: Address)
    requires ValidTree(tree, root) && h in tree && low in Chain(tree, root, h) && low in tree
    requires forall b | b in Chain(tree, root, h) && b in tree && tree[b].number > tree[low].number ::
             Untouched(tree, b, a)
    ensures At(tree, h, a) == At(tree, low, a)
    decreases tree[h].number
  {
    ChainInTree(tree, root, h);
    if h != low {
      ChainLinear(tree, root, h, h, low);
      assert Untouched(tree, h, a);
      UntouchedChain(tree, root, tree[h].parent, low, a);
    }
  }
}
