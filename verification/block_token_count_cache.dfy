/** The cache of per-block counts: what it keeps, and why its answers are the uncached ones. */
module BlockTokenCache {
  import opened Text
  import opened TokenCount
  import opened KeyTrie

  type Counter = Block -> Option<nat>

  const ENCODING := "o200k_base"

  function KeyOf(scope: string, block: Block): Option<Key> {
    match KeyParts(block)
    case None => None
    case Some(parts) => Some([ENCODING + "\0" + scope] + parts)
  }

  /** All a cache may rely on: the counter cannot tell blocks with the same key parts apart. */
  ghost predicate Keyable(counter: Counter) {
    forall a, b | KeyParts(a).Some? && KeyParts(a) == KeyParts(b) :: counter(a) == counter(b)
  }

  lemma TokenizerIsKeyable(encode: string -> nat, counter: Counter)
    requires forall b :: counter(b) == RawTokens(encode, b)
    ensures Keyable(counter)
  {
    forall a, b | KeyParts(a).Some? && KeyParts(a) == KeyParts(b)
      ensures counter(a) == counter(b)
    {
      EqualKeysEqualTokens(encode, a, b);
    }
  }

  /** The count stored under a key is that of every block with the key. */
  ghost predicate Right(counter: Counter, key: Key, n: nat) {
    forall scope, block | KeyOf(scope, block) == Some(key) :: counter(block) == Some(n)
  }

  ghost predicate AllRight(counter: Counter, known: map<Key, nat>) {
    forall k | k in known :: Right(counter, k, known[k])
  }

  lemma RightFor(counter: Counter, scope: string, block: Block)
    requires Keyable(counter) && KeyOf(scope, block).Some? && counter(block).Some?
    ensures Right(counter, KeyOf(scope, block).value, counter(block).value)
  {
    var key := KeyOf(scope, block).value;
    forall scope', block' | KeyOf(scope', block') == Some(key)
      ensures counter(block') == counter(block)
    {
      assert key[1..] == KeyParts(block).value && key[1..] == KeyParts(block').value;
    }
  }

  /** A key holds its scope and the block's own key parts. */
  lemma KeysKeepScopesApart(scope: string, block: Block, scope': string, block': Block)
    requires KeyOf(scope, block).Some? && KeyOf(scope, block) == KeyOf(scope', block')
    ensures scope == scope' && KeyParts(block) == KeyParts(block')
  {
    var front := "o200k_base" + "\0";
    var a, b := KeyOf(scope, block).value, KeyOf(scope', block').value;
    assert a[0] == front + scope && b[0] == front + scope';
    assert (front + scope)[|front|..] == scope && (front + scope')[|front|..] == scope';
    assert a[1..] == KeyParts(block).value && b[1..] == KeyParts(block').value;
  }

  function KeySet(scope: string, content: seq<Block>): set<Key> {
    if content == [] then {}
    else
      var key := KeyOf(scope, content[|content| - 1]);
      KeySet(scope, content[..|content| - 1]) + if key.Some? then {key.value} else {}
  }

  /** The blocks to tokenize: those without a key, and the first with each unknown key. */
  function Missing(known: set<Key>, scope: string, content: seq<Block>): seq<Block> {
    if content == [] then []
    else
      var before, block := content[..|content| - 1], content[|content| - 1];
      var key := KeyOf(scope, block);
      Missing(known, scope, before)
      + if key.None? || (key.value !in known && key.value !in KeySet(scope, before)) then [block] else []
  }

  function KeylessTotal(counter: Counter, scope: string, content: seq<Block>): nat {
    if content == [] then 0
    else
      var block := content[|content| - 1];
      KeylessTotal(counter, scope, content[..|content| - 1]) + if KeyOf(scope, block).None? then CountOf(counter, block) else 0
  }

  function KeyedTotal(counter: Counter, scope: string, content: seq<Block>): nat {
    if content == [] then 0
    else
      var block := content[|content| - 1];
      KeyedTotal(counter, scope, content[..|content| - 1]) + if KeyOf(scope, block).Some? then CountOf(counter, block) else 0
  }

  lemma {:induction false} TotalSplits(counter: Counter, scope: string, content: seq<Block>)
    ensures Total(counter, content) == KeylessTotal(counter, scope, content) + KeyedTotal(counter, scope, content)
  {
    if content != [] {
      TotalSplits(counter, scope, content[..|content| - 1]);
    }
  }

  lemma KeylessSnoc(counter: Counter, scope: string, content: seq<Block>, block: Block)
    ensures KeylessTotal(counter, scope, content + [block])
         == KeylessTotal(counter, scope, content) + if KeyOf(scope, block).None? then CountOf(counter, block) else 0
  {
    assert (content + [block])[..|content|] == content;
  }

  lemma {:induction false} MissingHasKeyless(counter: Counter, known: set<Key>, scope: string, content: seq<Block>)
    ensures KeylessTotal(counter, scope, Missing(known, scope, content)) == KeylessTotal(counter, scope, content)
  {
    if content != [] {
      var before, block := content[..|content| - 1], content[|content| - 1];
      MissingHasKeyless(counter, known, scope, before);
      assert Missing(known, scope, before) + [] == Missing(known, scope, before);
      KeylessSnoc(counter, scope, Missing(known, scope, before), block);
    }
  }

  lemma {:induction false} InKeySet(scope: string, content: seq<Block>, i: nat)
    requires i < |content| && KeyOf(scope, content[i]).Some?
    ensures KeyOf(scope, content[i]).value in KeySet(scope, content)
  {
    if i < |content| - 1 {
      InKeySet(scope, content[..|content| - 1], i);
    }
  }

  /** Every key of the request is known or among the missing blocks. */
  lemma {:induction false} KnownOrMissing(known: set<Key>, scope: string, content: seq<Block>)
    ensures KeySet(scope, Missing(known, scope, content)) == KeySet(scope, content) - known
  {
    if content != [] {
      var before, block := content[..|content| - 1], content[|content| - 1];
      var m := Missing(known, scope, before);
      KnownOrMissing(known, scope, before);
      assert m + [] == m;
      assert (m + [block])[..|m|] == m;
    }
  }

  /** No key is tokenized twice. */
  lemma {:induction false} MissingOnce(known: set<Key>, scope: string, content: seq<Block>, i: nat, j: nat)
    requires i < j < |Missing(known, scope, content)|
    ensures var missing := Missing(known, scope, content);
            KeyOf(scope, missing[i]).None? || KeyOf(scope, missing[i]) != KeyOf(scope, missing[j])
  {
    var before := content[..|content| - 1];
    var m := Missing(known, scope, before);
    if j < |m| {
      MissingOnce(known, scope, before, i, j);
    } else if KeyOf(scope, m[i]).Some? {
      KnownOrMissing(known, scope, before);
      InKeySet(scope, m, i);
    }
  }

  /** If the missing blocks could be counted, so can every block. */
  lemma {:induction false} MissingDecides(counter: Counter, known: map<Key, nat>, scope: string, content: seq<Block>)
    requires Keyable(counter) && AllRight(counter, known)
    ensures AllCounted(counter, Missing(known.Keys, scope, content)) <==> AllCounted(counter, content)
  {
    if content != [] {
      var before, block := content[..|content| - 1], content[|content| - 1];
      var m := Missing(known.Keys, scope, before);
      MissingDecides(counter, known, scope, before);
      assert content == before + [block] && m + [] == m;
      CountedSnoc(counter, before, block);
      CountedSnoc(counter, m, block);
      var key := KeyOf(scope, block);
      if key.Some? && key.value in known {
        assert Right(counter, key.value, known[key.value]);
      } else if key.Some? && key.value in KeySet(scope, before) {
        var i := FirstWithKey(scope, before, key.value);
        SameKeySameCount(counter, scope, before[i], block);
      }
    }
  }

  lemma CountedSnoc(counter: Counter, blocks: seq<Block>, block: Block)
    ensures AllCounted(counter, blocks + [block]) <==> AllCounted(counter, blocks) && counter(block).Some?
  {
    var all := blocks + [block];
    if AllCounted(counter, all) {
      assert forall i | 0 <= i < |blocks| :: blocks[i] == all[i];
      assert all[|blocks|] == block;
    }
  }

  lemma SameKeySameCount(counter: Counter, scope: string, a: Block, b: Block)
    requires Keyable(counter) && KeyOf(scope, a).Some? && KeyOf(scope, a) == KeyOf(scope, b)
    ensures counter(a) == counter(b)
  {
    assert KeyOf(scope, a).value[1..] == KeyParts(a).value && KeyOf(scope, b).value[1..] == KeyParts(b).value;
  }

  lemma {:induction false} FirstWithKey(scope: string, content: seq<Block>, key: Key) returns (i: nat)
    requires key in KeySet(scope, content)
    ensures i < |content| && KeyOf(scope, content[i]) == Some(key)
  {
    var n := |content| - 1;
    if KeyOf(scope, content[n]) == Some(key) {
      i := n;
    } else {
      i := FirstWithKey(scope, content[..n], key);
    }
  }

  // ------------------------------------------------------- the nodes of a request

  /** The node a block's key leads to; null for a block without a key. */
  ghost predicate NodeFor(node: Node?, scope: string, block: Block, index: map<Key, Node>) {
    match KeyOf(scope, block)
    case None => node == null
    case Some(key) => key in index && node == index[key]
  }

  ghost predicate NodesFor(nodes: seq<Node?>, scope: string, blocks: seq<Block>, index: map<Key, Node>) {
    |nodes| == |blocks| && forall i | 0 <= i < |nodes| :: NodeFor(nodes[i], scope, blocks[i], index)
  }

  method KeyOfBlock(scope: string, block: Block) returns (r: Option<Key>)
    ensures r == KeyOf(scope, block)
  {
    var parts := BlockCountKeyParts(block);
    r := if parts.Some? then Some([ENCODING + "\0" + scope] + parts.value) else None;
  }

  predicate Within(index: map<Key, Node>, index': map<Key, Node>) {
    forall k | k in index :: k in index' && index'[k] == index[k]
  }

  ghost predicate Blank(index: map<Key, Node>)
    reads index.Values`count
  {
    forall k | k in index :: index[k].count == None
  }

  lemma NodesForSnoc(nodes: seq<Node?>, scope: string, blocks: seq<Block>, index: map<Key, Node>,
                     node: Node?, block: Block, index': map<Key, Node>)
    requires NodesFor(nodes, scope, blocks, index) && Within(index, index') && NodeFor(node, scope, block, index')
    ensures NodesFor(nodes + [node], scope, blocks + [block], index')
  {
    forall i | 0 <= i <= |nodes|
      ensures NodeFor((nodes + [node])[i], scope, (blocks + [block])[i], index')
    {
      if i < |nodes| {
        assert NodeFor(nodes[i], scope, blocks[i], index);
      }
    }
  }

  method InsertBlock(next: Node, scope: string, block: Block, ghost index: map<Key, Node>)
    returns (node: Node?, ghost index': map<Key, Node>)
    requires IsTrie(next, index) && Blank(index)
    modifies index.Values`children
    ensures IsTrie(next, index') && Blank(index') && Within(index, index')
    ensures NodeFor(node, scope, block, index')
    ensures fresh(index'.Values - index.Values)
  {
    var key := KeyOfBlock(scope, block);
    node, index' := null, index;
    if key.Some? {
      node, index' := Insert(next, key.value, index);
    }
  }

  lemma TakeSnoc<T>(s: seq<T>, i: nat)
    requires i < |s|
    ensures s[..i + 1] == s[..i] + [s[i]] && s[..i + 1][..i] == s[..i] && s[..|s|] == s
  {
  }

  /** A new trie with a node for every key. */
  method InsertKeys(scope: string, content: seq<Block>) returns (next: Node, nodes: seq<Node?>, ghost index: map<Key, Node>)
    ensures IsTrie(next, index) && Blank(index) && fresh(index.Values)
    ensures NodesFor(nodes, scope, content, index)
  {
    next := new Node();
    nodes, index := [], map[[] := next];
    for i := 0 to |content|
      invariant IsTrie(next, index) && Blank(index) && fresh(index.Values)
      invariant NodesFor(nodes, scope, content[..i], index)
    {
      var node, index' := InsertBlock(next, scope, content[i], index);
      NodesForSnoc(nodes, scope, content[..i], index, node, content[i], index');
      TakeSnoc(content, i);
      nodes, index := nodes + [node], index';
    }
    assert content[..|content|] == content;
  }

  // ------------------------------------------------------- looking up what is known

  /** Of these keys the known ones have their count, and nothing else has one. */
  ghost predicate Filled(index: map<Key, Node>, keys: set<Key>, known: map<Key, nat>)
    reads index.Values`count
  {
    forall k | k in index :: index[k].count == if k in keys && k in known then Some(known[k]) else None
  }

  /** The nodes waiting for the tokenizer. */
  ghost predicate Waiting(index: map<Key, Node>, queued: set<Node>, keys: set<Key>, known: map<Key, nat>) {
    forall k | k in index :: index[k] in queued <==> k in keys && k !in known
  }

  lemma MissingSnoc(known: set<Key>, scope: string, content: seq<Block>, i: nat)
    requires i < |content|
    ensures var (before, key) := (content[..i], KeyOf(scope, content[i]));
            && KeySet(scope, content[..i + 1]) == KeySet(scope, before) + (if key.Some? then {key.value} else {})
            && Missing(known, scope, content[..i + 1])
            == Missing(known, scope, before)
            + if key.None? || (key.value !in known && key.value !in KeySet(scope, before)) then [content[i]] else []
  {
    TakeSnoc(content, i);
  }

  /** One block: its node is filled, or it is queued, unless an earlier block has its key. */
  method Place(root: Node, ghost knownIndex: map<Key, Node>, scope: string, block: Block, node: Node?,
               next: Node, ghost index: map<Key, Node>, ghost keys: set<Key>, queued: set<Node>)
    returns (isMissing: bool, queued': set<Node>)
    requires IsTrie(root, knownIndex) && IsTrie(next, index) && knownIndex.Values !! index.Values
    requires NodeFor(node, scope, block, index)
    requires Filled(index, keys, Stored(knownIndex)) && Waiting(index, queued, keys, Stored(knownIndex))
    modifies (if node == null then {} else {node})`count
    ensures Stored(knownIndex) == old(Stored(knownIndex))
    ensures var (known, key) := (Stored(knownIndex), KeyOf(scope, block));
            var keys' := keys + if key.Some? then {key.value} else {};
            && isMissing == (key.None? || (key.value !in known && key.value !in keys))
            && Filled(index, keys', known) && Waiting(index, queued', keys', known)
  {
    isMissing, queued' := false, queued;
    if node == null {
      isMissing := true;
    } else if node.count == None && node !in queued {
      var key := KeyOfBlock(scope, block);
      var cached := Lookup(root, key.value, knownIndex);
      if cached.None? {
        isMissing, queued' := true, queued + {node};
      } else {
        node.count := cached;
      }
    }
  }

  method FindMissing(root: Node, ghost knownIndex: map<Key, Node>, scope: string, content: seq<Block>, nodes: seq<Node?>,
                     next: Node, ghost index: map<Key, Node>)
    returns (missing: seq<Block>, missingNodes: seq<Node?>)
    requires IsTrie(root, knownIndex) && IsTrie(next, index) && knownIndex.Values !! index.Values
    requires NodesFor(nodes, scope, content, index) && Blank(index)
    modifies index.Values`count
    ensures IsTrie(next, index) && Filled(index, KeySet(scope, content), old(Stored(knownIndex)))
    ensures missing == Missing(old(Stored(knownIndex)).Keys, scope, content)
    ensures NodesFor(missingNodes, scope, missing, index)
  {
    ghost var known := Stored(knownIndex);
    var queued: set<Node> := {};
    missing, missingNodes := [], [];
    for i := 0 to |content|
      invariant IsTrie(root, knownIndex) && IsTrie(next, index) && Stored(knownIndex) == known
      invariant Filled(index, KeySet(scope, content[..i]), known) && Waiting(index, queued, KeySet(scope, content[..i]), known)
      invariant missing == Missing(known.Keys, scope, content[..i])
      invariant NodesFor(missingNodes, scope, missing, index)
    {
      assert NodeFor(nodes[i], scope, content[i], index);
      var isMissing;
      isMissing, queued := Place(root, knownIndex, scope, content[i], nodes[i], next, index, KeySet(scope, content[..i]), queued);
      MissingSnoc(known.Keys, scope, content, i);
      if isMissing {
        NodesForSnoc(missingNodes, scope, missing, index, nodes[i], content[i], index);
        missing, missingNodes := missing + [content[i]], missingNodes + [nodes[i]];
      } else {
        assert missing + [] == missing;
      }
    }
    assert content[..|content|] == content;
  }

  // ------------------------------------------------------- finishing a request

  /** Every stored count is right, and no other keys have one. */
  ghost predicate StoresFor(index: map<Key, Node>, keys: set<Key>, counter: Counter)
    reads index.Values`count
  {
    forall k | k in index && index[k].count.Some? :: k in keys && Right(counter, k, index[k].count.value)
  }

  /** The nodes of these blocks have their counts. */
  ghost predicate AllStored(index: map<Key, Node>, keys: set<Key>)
    reads index.Values`count
  {
    forall k | k in keys :: k in index && index[k].count.Some?
  }

  function Counts(counter: Counter, blocks: seq<Block>): (counts: Option<seq<nat>>)
    ensures counts.Some? <==> AllCounted(counter, blocks)
    ensures counts.Some? ==> |counts.value| == |blocks| && forall i | 0 <= i < |blocks| :: counter(blocks[i]) == Some(counts.value[i])
  {
    if AllCounted(counter, blocks) then Some(seq(|blocks|, i requires 0 <= i < |blocks| => CountOf(counter, blocks[i]))) else None
  }

  /** One answer goes to the node of its block. */
  method StoreOne(counter: Counter, scope: string, block: Block, node: Node, count: nat,
                  next: Node, ghost index: map<Key, Node>, ghost keys: set<Key>, ghost stored: set<Key>)
    requires IsTrie(next, index) && NodeFor(node, scope, block, index)
    requires Keyable(counter) && counter(block) == Some(count)
    requires StoresFor(index, keys, counter) && AllStored(index, stored) && KeyOf(scope, block).value in keys
    modifies node`count
    ensures IsTrie(next, index) && StoresFor(index, keys, counter)
    ensures AllStored(index, stored + {KeyOf(scope, block).value})
  {
    RightFor(counter, scope, block);
    node.count := Some(count);
  }

  /** The tokenizer's answers go to their nodes; those without a node are added up. */
  method StoreCounts(counter: Counter, scope: string, missing: seq<Block>, missingNodes: seq<Node?>, counted: seq<nat>,
                     next: Node, ghost index: map<Key, Node>, ghost keys: set<Key>)
    returns (raw: nat)
    requires IsTrie(next, index) && NodesFor(missingNodes, scope, missing, index)
    requires Keyable(counter) && Counts(counter, missing) == Some(counted)
    requires StoresFor(index, keys, counter) && AllStored(index, keys - KeySet(scope, missing)) && KeySet(scope, missing) <= keys
    modifies index.Values`count
    ensures IsTrie(next, index) && StoresFor(index, keys, counter) && AllStored(index, keys)
    ensures raw == KeylessTotal(counter, scope, missing)
  {
    raw := 0;
    ghost var stored := keys - KeySet(scope, missing);
    for i := 0 to |missing|
      invariant IsTrie(next, index) && StoresFor(index, keys, counter)
      invariant AllStored(index, stored + KeySet(scope, missing[..i]))
      invariant raw == KeylessTotal(counter, scope, missing[..i])
    {
      assert NodeFor(missingNodes[i], scope, missing[i], index);
      TakeSnoc(missing, i);
      var node := missingNodes[i];
      if node != null {
        InKeySet(scope, missing, i);
        StoreOne(counter, scope, missing[i], node, counted[i], next, index, keys, stored + KeySet(scope, missing[..i]));
      } else {
        raw := raw + counted[i];
      }
    }
    assert missing[..|missing|] == missing && stored + KeySet(scope, missing) == keys;
  }

  ghost predicate NodesOf(index: map<Key, Node>, nodes: set<Node>, keys: set<Key>) {
    && (forall k | k in index :: index[k] in nodes <==> k in keys)
    && |nodes| == |keys|
  }

  lemma NodesOfMore(root: Node, index: map<Key, Node>, nodes: set<Node>, keys: set<Key>, key: Key)
    requires IsTrie(root, index) && NodesOf(index, nodes, keys) && key in index
    ensures NodesOf(index, nodes + {index[key]}, keys + {key})
  {
    if key in keys {
      assert nodes + {index[key]} == nodes && keys + {key} == keys;
    }
  }

  lemma StoredCount(counter: Counter, index: map<Key, Node>, keys: set<Key>, scope: string, block: Block)
    requires StoresFor(index, keys, counter) && AllStored(index, keys)
    requires KeyOf(scope, block).Some? && KeyOf(scope, block).value in keys
    ensures index[KeyOf(scope, block).value].count == Some(CountOf(counter, block))
  {
    var key := KeyOf(scope, block).value;
    assert Right(counter, key, index[key].count.value);
  }

  lemma KeyedNext(counter: Counter, scope: string, content: seq<Block>, i: nat)
    requires i < |content|
    ensures var key := KeyOf(scope, content[i]);
            && KeySet(scope, content[..i + 1]) == KeySet(scope, content[..i]) + (if key.Some? then {key.value} else {})
            && KeyedTotal(counter, scope, content[..i + 1])
            == KeyedTotal(counter, scope, content[..i]) + if key.Some? then CountOf(counter, content[i]) else 0
  {
    TakeSnoc(content, i);
  }

  lemma KeylessNext(counter: Counter, scope: string, content: seq<Block>, i: nat)
    requires i < |content| && KeyOf(scope, content[i]).None?
    ensures KeySet(scope, content[..i + 1]) == KeySet(scope, content[..i])
    ensures KeyedTotal(counter, scope, content[..i + 1]) == KeyedTotal(counter, scope, content[..i])
  {
    KeyedNext(counter, scope, content, i);
  }

  /** One block's node: its count is added, and the node counted if it is new. */
  method SumNode(counter: Counter, scope: string, content: seq<Block>, ghost i: nat, node: Node, next: Node, ghost index: map<Key, Node>,
                 total: nat, distinct: set<Node>)
    returns (total': nat, distinct': set<Node>)
    requires i < |content| && IsTrie(next, index) && NodeFor(node, scope, content[i], index)
    requires StoresFor(index, KeySet(scope, content), counter) && AllStored(index, KeySet(scope, content))
    requires NodesOf(index, distinct, KeySet(scope, content[..i]))
    ensures total' - total == KeyedTotal(counter, scope, content[..i + 1]) - KeyedTotal(counter, scope, content[..i])
    ensures NodesOf(index, distinct', KeySet(scope, content[..i + 1]))
  {
    KeyedNext(counter, scope, content, i);
    InKeySet(scope, content, i);
    StoredCount(counter, index, KeySet(scope, content), scope, content[i]);
    NodesOfMore(next, index, distinct, KeySet(scope, content[..i]), KeyOf(scope, content[i]).value);
    total', distinct' := total + node.count.value, distinct + {node};
  }

  /** The counts at the nodes are added up, and the distinct nodes counted. */
  method SumNodes(counter: Counter, scope: string, content: seq<Block>, nodes: seq<Node?>, next: Node, ghost index: map<Key, Node>, raw: nat)
    returns (total: nat, entries: nat)
    requires IsTrie(next, index) && NodesFor(nodes, scope, content, index)
    requires StoresFor(index, KeySet(scope, content), counter) && AllStored(index, KeySet(scope, content))
    ensures total == raw + KeyedTotal(counter, scope, content)
    ensures entries == |KeySet(scope, content)|
  {
    total := raw;
    var distinct: set<Node> := {};
    for i := 0 to |content|
      invariant total == raw + KeyedTotal(counter, scope, content[..i])
      invariant NodesOf(index, distinct, KeySet(scope, content[..i]))
    {
      assert NodeFor(nodes[i], scope, content[i], index);
      var node := nodes[i];
      if node == null {
        KeylessNext(counter, scope, content, i);
      } else {
        total, distinct := SumNode(counter, scope, content, i, node, next, index, total, distinct);
      }
    }
    assert content[..|content|] == content;
    entries := |distinct|;
  }

  lemma KeysHaveNodes(nodes: seq<Node?>, scope: string, content: seq<Block>, index: map<Key, Node>)
    requires NodesFor(nodes, scope, content, index)
    ensures forall k | k in KeySet(scope, content) :: k in index
  {
    forall k | k in KeySet(scope, content)
      ensures k in index
    {
      var i := FirstWithKey(scope, content, k);
      assert NodeFor(nodes[i], scope, content[i], index);
    }
  }

  // ------------------------------------------------------- the cache

  /** A call that has read the cache and waits for the tokenizer. */
  class CountCall {
    const content: seq<Block>
    const scope: string
    const next: Node
    const nodes: seq<Node?>
    const missing: seq<Block>
    const missingNodes: seq<Node?>
    ghost const index: map<Key, Node>
    /** What the cache knew when the call began. */
    ghost const known: map<Key, nat>

    constructor (content: seq<Block>, scope: string, next: Node, nodes: seq<Node?>, missing: seq<Block>, missingNodes: seq<Node?>,
                 ghost index: map<Key, Node>, ghost known: map<Key, nat>)
      ensures this.content == content && this.scope == scope && this.next == next && this.nodes == nodes
      ensures this.missing == missing && this.missingNodes == missingNodes && this.index == index && this.known == known
    {
      this.content, this.scope, this.next, this.nodes := content, scope, next, nodes;
      this.missing, this.missingNodes, this.index, this.known := missing, missingNodes, index, known;
    }

    ghost predicate Valid(counter: Counter)
      reads index.Values
    {
      && IsTrie(next, index) && NodesFor(nodes, scope, content, index)
      && AllRight(counter, known) && Filled(index, KeySet(scope, content), known)
      && missing == Missing(known.Keys, scope, content) && NodesFor(missingNodes, scope, missing, index)
    }
  }

  /** The new counts are stored, and all counts added up. */
  method Settle(counter: Counter, call: CountCall, counted: seq<nat>) returns (total: nat, distinct: nat)
    requires Keyable(counter) && call.Valid(counter) && Counts(counter, call.missing) == Some(counted)
    modifies call.index.Values`count
    ensures IsTrie(call.next, call.index)
    ensures StoresFor(call.index, KeySet(call.scope, call.content), counter) && AllStored(call.index, KeySet(call.scope, call.content))
    ensures AllCounted(counter, call.content) && total == Total(counter, call.content)
    ensures distinct == |KeySet(call.scope, call.content)|
  {
    ghost var keys := KeySet(call.scope, call.content);
    KeysHaveNodes(call.nodes, call.scope, call.content, call.index);
    KnownOrMissing(call.known.Keys, call.scope, call.content);
    FilledStores(call.index, keys, call.known, counter);
    MissingDecides(counter, call.known, call.scope, call.content);
    assert keys - KeySet(call.scope, call.missing) == keys * call.known.Keys;
    var raw := StoreCounts(counter, call.scope, call.missing, call.missingNodes, counted, call.next, call.index, keys);
    total, distinct := SumNodes(counter, call.scope, call.content, call.nodes, call.next, call.index, raw);
    MissingHasKeyless(counter, call.known.Keys, call.scope, call.content);
    TotalSplits(counter, call.scope, call.content);
  }

  class BlockTokenCountCache {
    var root: Node
    var entries: nat
    const countBlock: Counter
    ghost var index: map<Key, Node>

    ghost predicate Valid()
      reads this, index.Values
    {
      && IsTrie(root, index) && Keyable(countBlock)
      && AllRight(countBlock, Stored(index)) && entries == |Stored(index)|
    }

    constructor (countBlock: Counter)
      requires Keyable(countBlock)
      ensures Valid() && this.countBlock == countBlock && Stored(index) == map[]
      ensures fresh(index.Values)
    {
      this.countBlock := countBlock;
      var node := new Node();
      root, entries, index := node, 0, map[[] := node];
    }

    /** The part of `count` before the await: the known counts are read, the cache stays as it is. */
    method Begin(content: seq<Block>, scope: string) returns (call: CountCall)
      requires Valid()
      ensures Valid() && fresh(call) && fresh(call.index.Values) && call.Valid(countBlock)
      ensures call.content == content && call.scope == scope && call.known == Stored(index)
    {
      var next, nodes;
      ghost var nextIndex;
      next, nodes, nextIndex := InsertKeys(scope, content);
      ghost var known := Stored(index);
      var missing, missingNodes := FindMissing(root, index, scope, content, nodes, next, nextIndex);
      call := new CountCall(content, scope, next, nodes, missing, missingNodes, nextIndex, known);
    }

    method Publish(next: Node, distinct: nat, ghost nextIndex: map<Key, Node>)
      requires Keyable(countBlock) && IsTrie(next, nextIndex)
      requires AllRight(countBlock, Stored(nextIndex)) && distinct == |Stored(nextIndex)|
      modifies this
      ensures Valid() && root == next && index == nextIndex && Stored(index) == old(Stored(nextIndex))
    {
      root, entries, index := next, distinct, nextIndex;
    }

    /**
     The part after the await, whatever other calls did to the cache meanwhile. A
     tokenizer that failed rejects the call and leaves the cache alone; otherwise
     the answer is the uncached one, and the cache holds exactly this call's keys.
     */
    method Finish(call: CountCall, counted: Option<seq<nat>>) returns (r: Option<nat>)
      requires Valid() && call.Valid(countBlock) && index.Values !! call.index.Values
      requires counted.Some? ==> counted == Counts(countBlock, call.missing)
      modifies this, call.index.Values`count
      ensures Valid()
      ensures counted.None? ==> r == None && index == old(index) && Stored(index) == old(Stored(index)) && entries == old(entries)
      ensures counted.Some? ==>
        && AllCounted(countBlock, call.content) && r == Some(Fudge(Total(countBlock, call.content)))
        && index == call.index && Stored(index).Keys == KeySet(call.scope, call.content)
    {
      if counted.None? {
        return None;
      }
      var total, distinct := Settle(countBlock, call, counted.value);
      StoredIsRight(call.index, KeySet(call.scope, call.content), countBlock);
      Publish(call.next, distinct, call.index);
      r := Some(Fudge(total));
    }

    /** A call nothing overlaps with: exactly the uncached count. */
    method Count(content: seq<Block>, scope: string) returns (r: Option<nat>)
      requires Valid()
      modifies this
      ensures Valid()
      ensures r == if AllCounted(countBlock, content) then Some(Fudge(Total(countBlock, content))) else None
    {
      if content == [] {
        return Some(0);
      }
      var call := Begin(content, scope);
      MissingDecides(countBlock, call.known, scope, content);
      r := Finish(call, if call.missing == [] then Some([]) else Counts(countBlock, call.missing));
    }
  }

  // ------------------------------------------------------- overlapping calls

  ghost predicate Apart(a: map<Key, Node>, b: map<Key, Node>) {
    a.Values !! b.Values
  }

  ghost function NodesOfCalls(calls: set<CountCall>): set<Node> {
    set call, node | call in calls && node in call.index.Values :: node
  }

  /** Calls under way, none of which shares a node with the cache or another call. */
  ghost predicate UnderWay(cache: BlockTokenCountCache, calls: set<CountCall>)
    reads cache, cache.index.Values, NodesOfCalls(calls)
  {
    && cache.Valid()
    && (forall c | c in calls :: c.Valid(cache.countBlock))
    && (forall c | c in calls :: Apart(cache.index, c.index))
    && (forall c, c' | c in calls && c' in calls && c != c' :: Apart(c.index, c'.index))
  }

  lemma OneMore(cache: BlockTokenCountCache, calls: set<CountCall>, call: CountCall)
    requires UnderWay(cache, calls) && call.Valid(cache.countBlock) && Apart(cache.index, call.index)
    requires forall c | c in calls :: Apart(c.index, call.index)
    ensures UnderWay(cache, calls + {call})
  {
  }

  method Start(cache: BlockTokenCountCache, ghost calls: set<CountCall>, content: seq<Block>, scope: string) returns (call: CountCall)
    requires UnderWay(cache, calls)
    ensures fresh(call) && UnderWay(cache, calls + {call})
    ensures call.content == content && call.scope == scope
  {
    call := cache.Begin(content, scope);
    OneMore(cache, calls, call);
  }

  /** However the calls overlap, each gets the uncached count, and the last to finish decides what is kept. */
  method Complete(cache: BlockTokenCountCache, ghost calls: set<CountCall>, call: CountCall, counted: Option<seq<nat>>)
    returns (r: Option<nat>)
    requires UnderWay(cache, calls) && call in calls
    requires counted.Some? ==> counted == Counts(cache.countBlock, call.missing)
    modifies cache, call.index.Values`count
    ensures UnderWay(cache, calls - {call})
    ensures counted.None? ==> r == None && Stored(cache.index) == old(Stored(cache.index))
    ensures counted.Some? ==>
      && AllCounted(cache.countBlock, call.content) && r == Some(Fudge(Total(cache.countBlock, call.content)))
      && Stored(cache.index).Keys == KeySet(call.scope, call.content)
  {
    r := cache.Finish(call, counted);
  }

  lemma FilledStores(index: map<Key, Node>, keys: set<Key>, known: map<Key, nat>, counter: Counter)
    requires Filled(index, keys, known) && AllRight(counter, known) && forall k | k in keys :: k in index
    ensures StoresFor(index, keys, counter) && AllStored(index, keys * known.Keys)
  {
  }

  lemma StoredIsRight(index: map<Key, Node>, keys: set<Key>, counter: Counter)
    requires StoresFor(index, keys, counter) && AllStored(index, keys)
    ensures Stored(index).Keys == keys && AllRight(counter, Stored(index)) && |Stored(index)| == |keys|
  {
    assert |Stored(index).Keys| == |Stored(index)|;
  }
}
