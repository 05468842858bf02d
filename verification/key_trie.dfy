/** The trie of key parts: nodes on the heap, and the map of paths they stand for. */
module KeyTrie {
  import opened Text

  type Key = seq<string>

  class Node {
    var children: map<string, Node>
    var count: Option<nat>

    constructor ()
      ensures children == map[] && count == None
    {
      children, count := map[], None;
    }
  }

  function Front(key: Key): Key
    requires key != []
  {
    key[..|key| - 1]
  }

  function Step(key: Key, part: string): Key {
    key + [part]
  }

  /** `index` maps every path from the root to its node, and no two paths to the same one. */
  ghost predicate IsTrie(root: Node, index: map<Key, Node>)
    reads index.Values`children
  {
    && [] in index && index[[]] == root
    && (forall k | k in index && k != [] :: Front(k) in index)
    && (forall k, p | k in index :: p in index[k].children <==> Step(k, p) in index)
    && (forall k, p | k in index && p in index[k].children :: index[k].children[p] == index[Step(k, p)])
    && (forall k, k' | k in index && k' in index && index[k] == index[k'] :: k == k')
  }

  /** The counts stored in a trie, by key. */
  ghost function Stored(index: map<Key, Node>): map<Key, nat>
    reads index.Values`count
  {
    map k | k in index && index[k].count.Some? :: index[k].count.value
  }

  lemma {:induction false} PrefixIn(root: Node, index: map<Key, Node>, key: Key, i: nat)
    requires IsTrie(root, index) && key in index && i <= |key|
    ensures key[..i] in index
    decreases |key| - i
  {
    if i == |key| {
      assert key[..i] == key;
    } else {
      PrefixIn(root, index, key, i + 1);
      assert Front(key[..i + 1]) == key[..i];
    }
  }

  lemma StepPrefix(key: Key, i: nat)
    requires i < |key|
    ensures Step(key[..i], key[i]) == key[..i + 1]
  {
  }

  /** Walks down the trie; the count at the end of the key, if it has one. */
  method Lookup(root: Node, key: Key, ghost index: map<Key, Node>) returns (r: Option<nat>)
    requires IsTrie(root, index)
    ensures r == if key in Stored(index) then Some(Stored(index)[key]) else None
  {
    var node := root;
    for i := 0 to |key|
      invariant key[..i] in index && node == index[key[..i]]
    {
      StepPrefix(key, i);
      if key[i] !in node.children {
        if key in index {
          PrefixIn(root, index, key, i + 1);
        }
        return None;
      }
      node := node.children[key[i]];
    }
    assert key[..|key|] == key;
    r := node.count;
  }

  lemma NothingBelow(root: Node, index: map<Key, Node>, key: Key)
    requires IsTrie(root, index) && key !in index
    ensures forall p :: Step(key, p) !in index
  {
    forall p
      ensures Step(key, p) !in index
    {
      assert Front(Step(key, p)) == key;
    }
  }

  /** Hangs a new node below the one at `at`. */
  method AddChild(root: Node, at: Key, part: string, ghost index: map<Key, Node>, node: Node)
    returns (child: Node, ghost index': map<Key, Node>)
    requires IsTrie(root, index) && at in index && index[at] == node && part !in node.children
    modifies node`children
    ensures IsTrie(root, index') && index' == index[Step(at, part) := child]
    ensures fresh(child) && child.count == None
  {
    NothingBelow(root, index, Step(at, part));
    child := new Node();
    node.children := node.children[part := child];
    index' := index[Step(at, part) := child];
    assert Front(Step(at, part)) == at;
    forall k, p | k in index'
      ensures p in index'[k].children <==> Step(k, p) in index'
      ensures p in index'[k].children ==> index'[k].children[p] == index'[Step(k, p)]
    {
      StepInjective(k, p, at, part);
    }
  }

  lemma StepInjective(k: Key, p: string, k': Key, p': string)
    ensures Step(k, p) == Step(k', p') <==> k == k' && p == p'
    ensures Step(k, p) != k
  {
    assert Step(k, p)[|k|] == p && Step(k', p')[|k'|] == p';
    assert Step(k, p)[..|k|] == k && Step(k', p')[..|k'|] == k';
  }

  /** What an insertion leaves as it was, and what it may add. */
  twostate predicate Extends(index: map<Key, Node>, new index': map<Key, Node>, key: Key)
    reads index'.Values`count
  {
    && (forall k | k in index :: k in index' && index'[k] == index[k])
    && (forall k | k in index' && k !in index :: fresh(index'[k]) && index'[k].count == None && k <= key)
  }

  /** The node of a key, creating what is missing on the way. */
  method Insert(root: Node, key: Key, ghost index: map<Key, Node>) returns (node: Node, ghost index': map<Key, Node>)
    requires IsTrie(root, index)
    modifies index.Values`children
    ensures IsTrie(root, index') && Extends(index, index', key)
    ensures key in index' && index'[key] == node
  {
    node, index' := root, index;
    for i := 0 to |key|
      invariant IsTrie(root, index') && Extends(index, index', key)
      invariant key[..i] in index' && index'[key[..i]] == node
    {
      StepPrefix(key, i);
      if key[i] in node.children {
        node := node.children[key[i]];
      } else {
        var child;
        child, index' := AddChild(root, key[..i], key[i], index', node);
        node := child;
      }
    }
    assert key[..|key|] == key;
  }
}
