/** A trie with the words 1 and 2 1 3, and the matcher run on it. */
module TrieExample {
  import opened WordPrefixes
  import opened T = Trie

  const WORDS: set<Word> := {[1], [2, 1, 3]}
  const NODES: set<Word> := {[], [1], [2], [2, 1], [2, 1, 3]}

  lemma PrefixesOfWords(p: Word)
    ensures p <= [1] <==> p in {[], [1]}
    ensures p <= [2, 1, 3] <==> p in {[], [2], [2, 1], [2, 1, 3]}
  {
    var v: Word := [2, 1, 3];
    assert v[..1] == [2] && v[..2] == [2, 1] && v[..3] == v;
    if p <= v {
      assert p == v[..|p|];
    }
    var w: Word := [1];
    if p <= w {
      assert p == w[..|p|] && w[..1] == w;
    }
  }

  lemma NodesOfWords(p: Word)
    ensures IsNode(WORDS, p) <==> p in NODES
  {
    var w: Word, v: Word := [1], [2, 1, 3];
    assert w in WORDS && v in WORDS;
    PrefixesOfWords(p);
  }

  /** Among the proper suffixes of nodes only that of 2 1 leads to another node than the root. */
  lemma SuffixesOfNodes(p: Word)
    requires p != [] && p in NODES
    ensures Longest(WORDS, p[1..]) == if p == [2, 1] then [1] else []
  {
    NodesOfWords([]);
    NodesOfWords([1]);
    if p == [2, 1, 3] {
      assert p[1..] == [1, 3] && [1, 3][1..] == [3] && [3][1..] == [];
      NodesOfWords([1, 3]);
      NodesOfWords([3]);
    } else {
      assert p[1..] == if p == [2, 1] then [1] else [];
    }
  }

  /** The fields of the five nodes. */
  ghost predicate Linked(root: TrieNode, n1: TrieNode, n2: TrieNode, n21: TrieNode, n213: TrieNode)
    reads root, n1, n2, n21, n213
  {
    && root.leaf == 0 && root.links == n1 && root.spells == []
    && n1.c == 1 && n1.leaf == 1 && n1.next == n2 && n1.links == null && n1.fail == root && n1.spells == [1]
    && n2.c == 2 && n2.leaf == 0 && n2.next == null && n2.links == n21 && n2.fail == root && n2.spells == [2]
    && n21.c == 1 && n21.leaf == 0 && n21.next == null && n21.links == n213 && n21.fail == n1 && n21.spells == [2, 1]
    && n213.c == 3 && n213.leaf == 3 && n213.next == null && n213.links == null && n213.fail == root
    && n213.spells == [2, 1, 3]
  }

  /** Which strings the nodes and their lists of children belong to. */
  ghost predicate Placed(trie: Trie, n1: TrieNode, n2: TrieNode, n21: TrieNode, n213: TrieNode)
    reads trie
  {
    && trie.words == WORDS
    && trie.nodes == map[[] := trie.root, [1] := n1, [2] := n2, [2, 1] := n21, [2, 1, 3] := n213]
    && trie.labels == map[[] := [1, 2], [1] := [], [2] := [1], [2, 1] := [3], [2, 1, 3] := []]
  }

  lemma Lookups(trie: Trie, n1: TrieNode, n2: TrieNode, n21: TrieNode, n213: TrieNode)
    requires Placed(trie, n1, n2, n21, n213)
    ensures trie.nodes.Keys == NODES == trie.labels.Keys
    ensures trie.nodes[[]] == trie.root && trie.nodes[[1]] == n1 && trie.nodes[[2]] == n2
    ensures trie.nodes[[2, 1]] == n21 && trie.nodes[[2, 1, 3]] == n213
    ensures trie.labels[[]] == [1, 2] && trie.labels[[1]] == [] && trie.labels[[2]] == [1]
    ensures trie.labels[[2, 1]] == [3] && trie.labels[[2, 1, 3]] == []
  {
    var a: Word, b: Word := [1], [2];
    assert a[0] != b[0];
  }

  lemma ChildrenOfNodes(p: Word, c: Byte)
    requires p in NODES
    ensures p + [c] in NODES <==>
            (p == [] && c in {1, 2}) || (p == [2] && c == 1) || (p == [2, 1] && c == 3)
  {
    var q := p + [c];
    assert |q| == |p| + 1 && q[|p|] == c && forall i :: 0 <= i < |p| ==> q[i] == p[i];
    assert p == [] ==> q == [c];
    assert p == [2] ==> q == [2, c];
    assert p == [2, 1] ==> q == [2, 1, c];
  }

  lemma ChildrenAreOk(trie: Trie, n1: TrieNode, n2: TrieNode, n21: TrieNode, n213: TrieNode, p: Word, c: Byte)
    requires Placed(trie, n1, n2, n21, n213) && p in NODES
    ensures trie.ChildOk(p, c)
  {
    Lookups(trie, n1, n2, n21, n213);
    ChildrenOfNodes(p, c);
  }

  lemma SiblingsAreOk(trie: Trie, n1: TrieNode, n2: TrieNode, n21: TrieNode, n213: TrieNode, p: Word)
    requires Linked(trie.root, n1, n2, n21, n213) && Placed(trie, n1, n2, n21, n213) && p in NODES
    ensures trie.nodes[p].links == trie.Sibling(p, 0)
    ensures forall i {:trigger trie.SiblingOk(p, i)} :: 0 <= i < |trie.labels[p]| ==> trie.SiblingOk(p, i)
  {
    Lookups(trie, n1, n2, n21, n213);
    assert p == [] ==> p + [1] == [1] && p + [2] == [2];
    assert p == [2] ==> p + [1] == [2, 1];
    assert p == [2, 1] ==> p + [3] == [2, 1, 3];
  }

  lemma ListIsOk(trie: Trie, n1: TrieNode, n2: TrieNode, n21: TrieNode, n213: TrieNode, p: Word)
    requires Linked(trie.root, n1, n2, n21, n213) && Placed(trie, n1, n2, n21, n213) && p in NODES
    ensures trie.ListOk(p)
  {
    Lookups(trie, n1, n2, n21, n213);
    SiblingsAreOk(trie, n1, n2, n21, n213, p);
    forall c ensures trie.ChildOk(p, c) {
      ChildrenAreOk(trie, n1, n2, n21, n213, p, c);
    }
  }

  lemma FieldsAreOk(trie: Trie, n1: TrieNode, n2: TrieNode, n21: TrieNode, n213: TrieNode, p: Word)
    requires Linked(trie.root, n1, n2, n21, n213) && Placed(trie, n1, n2, n21, n213) && p in NODES
    ensures trie.FieldsOk(p)
  {
    Lookups(trie, n1, n2, n21, n213);
    if p != [] {
      SuffixesOfNodes(p);
    }
  }

  lemma AllFieldsAreOk(trie: Trie, n1: TrieNode, n2: TrieNode, n21: TrieNode, n213: TrieNode)
    requires Linked(trie.root, n1, n2, n21, n213) && Placed(trie, n1, n2, n21, n213)
    ensures forall p {:trigger trie.FieldsOk(p)} :: p in trie.nodes ==> trie.FieldsOk(p)
  {
    Lookups(trie, n1, n2, n21, n213);
    forall p | p in trie.nodes ensures trie.FieldsOk(p) {
      FieldsAreOk(trie, n1, n2, n21, n213, p);
    }
  }

  lemma AllListsAreOk(trie: Trie, n1: TrieNode, n2: TrieNode, n21: TrieNode, n213: TrieNode)
    requires Linked(trie.root, n1, n2, n21, n213) && Placed(trie, n1, n2, n21, n213)
    ensures forall p {:trigger trie.ListOk(p)} :: p in trie.nodes ==> trie.ListOk(p)
  {
    Lookups(trie, n1, n2, n21, n213);
    forall p | p in trie.nodes ensures trie.ListOk(p) {
      ListIsOk(trie, n1, n2, n21, n213, p);
    }
  }

  lemma ExampleIsValid(trie: Trie, n1: TrieNode, n2: TrieNode, n21: TrieNode, n213: TrieNode)
    requires Linked(trie.root, n1, n2, n21, n213) && Placed(trie, n1, n2, n21, n213)
    ensures trie.Valid()
  {
    AllFieldsAreOk(trie, n1, n2, n21, n213);
    AllListsAreOk(trie, n1, n2, n21, n213);
    forall p ensures p in trie.nodes <==> IsNode(WORDS, p) {
      NodesOfWords(p);
      Lookups(trie, n1, n2, n21, n213);
    }
    Lookups(trie, n1, n2, n21, n213);
  }

  method NewNode(c: Byte, leaf: UInt16, next: TrieNode?, links: TrieNode?, ghost spells: Word) returns (n: TrieNode)
    ensures fresh(n) && n.c == c && n.leaf == leaf && n.next == next && n.links == links && n.spells == spells
  {
    n := new TrieNode();
    n.c, n.leaf, n.next, n.links, n.spells := c, leaf, next, links, spells;
  }

  method LinkNodes(root: TrieNode) returns (n1: TrieNode, n2: TrieNode, n21: TrieNode, n213: TrieNode)
    requires root.leaf == 0 && root.spells == []
    modifies root
    ensures Linked(root, n1, n2, n21, n213)
  {
    n213 := NewNode(3, 3, null, null, [2, 1, 3]);
    n21 := NewNode(1, 0, null, n213, [2, 1]);
    n2 := NewNode(2, 0, null, n21, [2]);
    n1 := NewNode(1, 1, n2, null, [1]);
    root.links, n1.fail, n2.fail, n21.fail, n213.fail := n1, root, root, n1, root;
  }

  method ExampleTrie() returns (trie: Trie)
    ensures trie.Valid() && trie.words == WORDS
  {
    trie := new Trie();
    var n1, n2, n21, n213 := LinkNodes(trie.root);
    trie.words := WORDS;
    trie.nodes := map[[] := trie.root, [1] := n1, [2] := n2, [2, 1] := n21, [2, 1, 3] := n213];
    trie.labels := map[[] := [1, 2], [1] := [], [2] := [1], [2, 1] := [3], [2, 1, 3] := []];
    ExampleIsValid(trie, n1, n2, n21, n213);
  }

  lemma ReportsOfText()
    ensures Report(WORDS, [2]) == 0 && Report(WORDS, [2, 1]) == 0 && Report(WORDS, [2, 1, 3]) == 3
  {
    NodesOfWords([2]);
    NodesOfWords([2, 1]);
    NodesOfWords([2, 1, 3]);
  }

  /** On the text 2 1 3 the word 1 is not reported where it ends, and 2 1 3 is. */
  method MatchExample() returns (first: nat, second: nat, third: nat)
    ensures first == 0 && second == 0 && third == 3
  {
    var trie := ExampleTrie();
    var state := new AcTrieState(trie);
    first := AcTrieNext(state, 2);
    assert state.text == [2];
    second := AcTrieNext(state, 1);
    assert state.text == [2, 1];
    third := AcTrieNext(state, 3);
    assert state.text == [2, 1, 3];
    ReportsOfText();
  }
}
