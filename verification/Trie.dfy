/** The trie and the Aho-Corasick matcher of my_trie.h, over its linked nodes. */
module Trie {
  import opened WordPrefixes

  type UInt16 = n: int | 0 <= n < 0x1_0000

  class TrieNode {
    var leaf: UInt16        // depth from the root if the node is a word, 0 otherwise
    var c: Byte             // label of the edge into the node
    var next: TrieNode?     // next sibling
    var links: TrieNode?    // first child
    var fail: TrieNode?     // node of the longest proper suffix
    ghost var spells: Word  // the labels on the way from the root

    constructor ()
      ensures leaf == 0 && next == null && links == null && spells == []
    {
      leaf, c, next, links, fail, spells := 0, 0, null, null, null, [];
    }
  }

  class Trie {
    const root: TrieNode
    ghost var words: set<Word>
    ghost var nodes: map<Word, TrieNode>        // the node each prefix labels
    ghost var labels: map<Word, seq<Byte>>      // the children of a node, in list order

    /** The list of children of `p` from its i-th element on. */
    ghost function Sibling(p: Word, i: nat): TrieNode?
      reads this
    {
      if p in labels && i < |labels[p]| && p + [labels[p][i]] in nodes
      then nodes[p + [labels[p][i]]] else null
    }

    /** The i-th element of the list is the node of the i-th label. */
    ghost predicate SiblingOk(p: Word, i: nat)
      reads this, nodes.Values
    {
      && p in labels && i < |labels[p]| && p + [labels[p][i]] in nodes
      && nodes[p + [labels[p][i]]].c == labels[p][i]
      && nodes[p + [labels[p][i]]].next == Sibling(p, i + 1)
    }

    /** A one-letter extension of `p` is in the list just when it is a node. */
    ghost predicate ChildOk(p: Word, c: Byte)
      reads this
    {
      p in labels && (c in labels[p] <==> p + [c] in nodes)
    }

    ghost predicate ListOk(p: Word)
      reads this, nodes.Values
    {
      && p in nodes && p in labels
      && nodes[p].links == Sibling(p, 0)
      && (forall i, j :: 0 <= i < j < |labels[p]| ==> labels[p][i] != labels[p][j])
      && (forall c {:trigger ChildOk(p, c)} :: ChildOk(p, c))
      && (forall i {:trigger SiblingOk(p, i)} :: 0 <= i < |labels[p]| ==> SiblingOk(p, i))
    }

    /** `leaf` is the depth of a word and 0 for other nodes; `fail` is the node of the
        longest proper suffix that has one. */
    ghost predicate FieldsOk(p: Word)
      reads this, nodes.Values
    {
      && p in nodes && nodes[p].spells == p
      && nodes[p].leaf == (if p in words then |p| else 0)
      && (p != [] ==> Longest(words, p[1..]) in nodes && nodes[p].fail == nodes[Longest(words, p[1..])])
    }

    /** Where `c` leads from the node of `p`: to a child if there is one, and from the
        root back to the root. */
    ghost function Target(p: Word, c: Byte): TrieNode?
      reads this
    {
      if p + [c] in nodes then nodes[p + [c]] else if p == [] then root else null
    }

    /** What `trie_insert` and `ac_trie_prepare` establish: the nodes are exactly the
        prefixes of the words, and their fields are as the comments on them say. */
    ghost predicate Valid()
      reads this, nodes.Values
    {
      && [] !in words
      && (forall w :: w in words ==> |w| < 0x1_0000)
      && (forall p {:trigger IsNode(words, p)} :: p in nodes <==> IsNode(words, p))
      && [] in nodes && nodes[[]] == root
      && (forall p {:trigger ListOk(p)} :: p in nodes ==> ListOk(p))
      && (forall p {:trigger FieldsOk(p)} :: p in nodes ==> FieldsOk(p))
    }

    constructor ()
      ensures Valid() && words == {}
      ensures fresh(root) && root.leaf == 0 && root.spells == []
    {
      root := new TrieNode();
      words := {};
      new;
      nodes := map[[] := root];
      labels := map[[] := []];
    }
  }

  method TrieGoto(root: TrieNode, node: TrieNode, c: Byte, ghost trie: Trie)
      returns (r: TrieNode?)
    requires trie.Valid() && root == trie.root
    requires node.spells in trie.nodes && trie.nodes[node.spells] == node
    ensures r == trie.Target(node.spells, c)
  {
    ghost var p := node.spells;
    assert trie.ListOk(p) && trie.ChildOk(p, c) && trie.FieldsOk([]);
    ghost var labels := trie.labels[p];
    var next := node.links;
    ghost var i := 0;
    while next != null
      invariant 0 <= i <= |labels|
      invariant next == trie.Sibling(p, i)
      invariant c !in labels[..i]
      decreases |labels| - i
    {
      assert trie.SiblingOk(p, i);
      if next.c == c {
        return next;
      }
      next := next.next;
      i := i + 1;
    }
    assert i < |labels| ==> trie.SiblingOk(p, i);
    assert labels[..i] == labels;
    if root == node {
      return root;
    }
    return null;
  }

  class AcTrieState {
    const trie: Trie
    var node: TrieNode?
    ghost var text: Word          // the characters fed since the start
    ghost var gotoCalls: nat      // calls of trie_goto since the start

    /** The node spells the longest suffix of the text that is a prefix of a word,
        and the calls made so far are paid for by the characters read. */
    ghost predicate Valid()
      reads this, trie, trie.nodes.Values
    {
      && trie.Valid()
      && Longest(trie.words, text) in trie.nodes
      && node == trie.nodes[Longest(trie.words, text)]
      && gotoCalls + |Longest(trie.words, text)| <= 2 * |text|
    }

    constructor (trie: Trie)
      requires trie.Valid()
      ensures this.trie == trie && Valid() && text == [] && gotoCalls == 0
    {
      this.trie := trie;
      node := trie.root;
      text := [];
      gotoCalls := 0;
    }
  }

  method AcTrieNext(state: AcTrieState, c: Byte) returns (matched: nat)
    requires state.Valid()
    modifies state
    ensures state.Valid() && state.text == old(state.text) + [c]
    ensures matched == Report(state.trie.words, state.text)
    ensures old(state.gotoCalls) < state.gotoCalls
            <= old(state.gotoCalls) + |Longest(state.trie.words, old(state.text))| + 1
  {
    ghost var trie := state.trie;
    ghost var start := Longest(trie.words, state.text);
    ghost var full := state.text + [c];
    LongestExtend(trie.words, state.text, c);
    var root := state.trie.root;
    var node: TrieNode := state.node;
    assert trie.FieldsOk(start);
    state.node := TrieGoto(root, node, c, trie);
    ghost var calls := 1;
    while state.node == null
      invariant trie.Valid()
      invariant node.spells in trie.nodes && node == trie.nodes[node.spells]
      invariant state.node == trie.Target(node.spells, c)
      // every suffix of the old node longer than this one fails to extend by c
      invariant Longest(trie.words, full) == Longest(trie.words, node.spells + [c])
      invariant 1 <= calls && calls + |node.spells| <= 1 + |start|
      invariant state.text == old(state.text) && state.gotoCalls == old(state.gotoCalls)
      decreases |node.spells|
    {
      FailStep(trie, node, c);
      node := node.fail;
      state.node := TrieGoto(root, node, c, trie);
      calls := calls + 1;
    }
    Reached(trie, node, c);
    state.text, state.gotoCalls := full, state.gotoCalls + calls;
    return state.node.leaf;
  }

  /** Following `fail` is sound when the node has no child labelled `c`, and it
      makes the string spelled strictly shorter. */
  lemma FailStep(trie: Trie, node: TrieNode, c: Byte)
    requires trie.Valid() && node.spells in trie.nodes && trie.nodes[node.spells] == node
    requires node.spells + [c] !in trie.nodes && node.spells != []
    ensures node.fail != null && node.fail.spells in trie.nodes
    ensures trie.nodes[node.fail.spells] == node.fail
    ensures |node.fail.spells| < |node.spells|
    ensures Longest(trie.words, node.spells + [c]) == Longest(trie.words, node.fail.spells + [c])
  {
    var p := node.spells;
    assert trie.FieldsOk(p);
    var f := Longest(trie.words, p[1..]);
    assert trie.FieldsOk(f);
    LongestFail(trie.words, p, c);
  }

  /** The node at which the loop of `ac_trie_next` stops. */
  lemma Reached(trie: Trie, node: TrieNode, c: Byte)
    requires trie.Valid() && node.spells in trie.nodes && trie.nodes[node.spells] == node
    requires node.spells + [c] in trie.nodes || node.spells == []
    ensures var reached := Longest(trie.words, node.spells + [c]);
            && reached in trie.nodes && |reached| <= |node.spells| + 1
            && trie.nodes[reached].leaf == (if reached in trie.words then |reached| else 0)
            && trie.nodes[reached] == trie.Target(node.spells, c)
  {
    var p := node.spells;
    assert p + [c] in trie.nodes <==> IsNode(trie.words, p + [c]);
    if p + [c] !in trie.nodes {
      assert (p + [c])[1..] == [];
    }
    assert trie.FieldsOk(Longest(trie.words, p + [c]));
  }

  method TrieSearch(trie: Trie, key: Word) returns (found: bool)
    requires trie.Valid()
    ensures found <==> key in trie.words
  {
    var node := trie.root;
    var k := 0;
    assert key[..0] == [];
    while k < |key|
      invariant 0 <= k <= |key|
      invariant key[..k] in trie.nodes && node == trie.nodes[key[..k]]
    {
      ghost var p := key[..k];
      assert trie.ListOk(p) && trie.ChildOk(p, key[k]);
      ghost var labels := trie.labels[p];
      assert key[..k + 1] == p + [key[k]];
      if node.links == null {
        assert labels != [] ==> trie.SiblingOk(p, 0);
        NotAPrefix(trie, key, k);
        return false;
      }
      node := node.links;
      ghost var i := 0;
      assert trie.SiblingOk(p, i);
      while key[k] != node.c
        invariant 0 <= i < |labels| && node == trie.Sibling(p, i) && trie.SiblingOk(p, i)
        invariant key[k] !in labels[..i]
        decreases |labels| - i
      {
        if node.next == null {
          assert i + 1 < |labels| ==> trie.SiblingOk(p, i + 1);
          assert labels == labels[..i] + [labels[i]];
          NotAPrefix(trie, key, k);
          return false;
        }
        node := node.next;
        i := i + 1;
        assert trie.SiblingOk(p, i);
      }
      k := k + 1;
    }
    assert key[..|key|] == key;
    assert trie.FieldsOk(key);
    return node.leaf > 0;
  }

  /** A walk that cannot go on proves that the key is not a word. */
  lemma NotAPrefix(trie: Trie, key: Word, k: nat)
    requires trie.Valid() && k < |key| && key[..k + 1] !in trie.nodes
    ensures key !in trie.words
  {
    if key in trie.words {
      assert key[..k + 1] <= key;
      assert IsNode(trie.words, key[..k + 1]);
    }
  }
}
