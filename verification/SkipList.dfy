/** The skip list: nodes on the heap, each with an array of forward pointers, spliced in place. */
module SkipLists {
  import opened Orders
  import opened Towers

  class Node<K> {
    const key: K
    const value: string
    const nodeLevel: nat
    const forward: array<Node?<K>>

    constructor (key: K, value: string, level: nat)
      ensures this.key == key && this.value == value && nodeLevel == level
      ensures fresh(forward) && forward.Length == level + 1
      ensures forall i :: 0 <= i <= level ==> forward[i] == null
    {
      this.key, this.value, nodeLevel := key, value, level;
      forward := new Node?<K>[level + 1](_ => null);
    }
  }

  ghost function Levels<K>(chain: seq<Node<K>>): (lv: seq<nat>)
    ensures |lv| == |chain| && forall p :: 0 <= p < |chain| ==> lv[p] == chain[p].nodeLevel
  {
    seq(|chain|, p requires 0 <= p < |chain| => chain[p].nodeLevel)
  }

  // Some facts are kept folded: they come into play only where a proof says Open(TheFact).

  datatype Fact = WithFact | StoresFact | AccountFact

  ghost predicate Open(fact: Fact, u: int := 0) {
    true
  }

  /** `ch` is `chain` with `node` spliced in at `pos`. */
  ghost predicate With<K>(chain: seq<Node<K>>, pos: nat, node: Node<K>, ch: seq<Node<K>>) {
    && pos < |ch| == |chain| + 1 && ch[pos] == node
    && forall u {:trigger Open(WithFact, u)} :: Open(WithFact, u) ==> SplicedAt(chain, pos, ch)
  }

  ghost predicate SplicedAt<K>(chain: seq<Node<K>>, pos: nat, ch: seq<Node<K>>)
    requires pos < |ch| == |chain| + 1
  {
    && (forall r {:trigger ch[r]} :: 0 <= r < pos ==> ch[r] == chain[r])
    && (forall r {:trigger ch[r]} :: pos < r < |ch| ==> ch[r] == chain[r - 1])
  }

  lemma WithLevels<K>(chain: seq<Node<K>>, pos: nat, node: Node<K>, ch: seq<Node<K>>)
    requires With(chain, pos, node, ch)
    ensures Inserted(Levels(chain), pos, node.nodeLevel, Levels(ch))
  {
    assert Open(WithFact);
  }

  /** An old node is found again at its shifted position. */
  lemma WithOld<K>(chain: seq<Node<K>>, pos: nat, node: Node<K>, ch: seq<Node<K>>, q: nat)
    requires With(chain, pos, node, ch)
    ensures At(ch, Shift(pos, q)) == At(chain, q)
  {
    assert Open(WithFact);
  }

  /** The node at position q, or the null that ends a level. */
  ghost function At<K>(chain: seq<Node<K>>, q: nat): Node?<K> {
    if q < |chain| then chain[q] else null
  }

  /** True; naming a position and a level with it brings the pointer stored there to mind. */
  ghost predicate Slot(p: int, i: int) {
    true
  }

  /** True; naming two positions with it brings their relation to mind: see Sorted and BodyOf. */
  ghost predicate Pair(p: int, q: int) {
    true
  }

  ghost predicate Sorted<K>(lt: (K, K) -> bool, chain: seq<Node<K>>) {
    forall p, q {:trigger Pair(p, q)} :: Pair(p, q) && 1 <= p < q < |chain| ==> lt(chain[p].key, chain[q].key)
  }

  /** `contents` holds exactly the pairs stored behind the header. */
  ghost predicate Stores<K>(chain: seq<Node<K>>, contents: map<K, string>) {
    forall u {:trigger Open(StoresFact, u)} :: Open(StoresFact, u) ==> StoresExactly(chain, contents)
  }

  ghost predicate StoresExactly<K>(chain: seq<Node<K>>, contents: map<K, string>) {
    && (forall p :: 1 <= p < |chain| ==> chain[p].key in contents && contents[chain[p].key] == chain[p].value)
    && (forall k :: k in contents ==> exists p :: 1 <= p < |chain| && chain[p].key == k)
    && |contents| == |chain| - 1
  }

  /** `pos` splits the nodes behind the header into those with keys below `key` and the rest. */
  ghost predicate IsRank<K>(lt: (K, K) -> bool, chain: seq<Node<K>>, key: K, pos: nat) {
    && 1 <= pos <= |chain|
    && (forall q :: 1 <= q < pos ==> lt(chain[q].key, key))
    && (forall q :: pos <= q < |chain| ==> !lt(chain[q].key, key))
  }

  lemma RankExists<K(!new)>(lt: (K, K) -> bool, chain: seq<Node<K>>, key: K) returns (pos: nat)
    requires StrictTotal(lt) && |chain| >= 1 && Sorted(lt, chain)
    ensures IsRank(lt, chain, key, pos)
  {
    pos := 1;
    while pos < |chain| && lt(chain[pos].key, key)
      invariant 1 <= pos <= |chain|
      invariant forall q :: 1 <= q < pos ==> lt(chain[q].key, key)
    {
      pos := pos + 1;
    }
    forall q | pos <= q < |chain| ensures !lt(chain[q].key, key) {
      assert Pair(pos, q);
      assert Chosen(chain[pos].key, chain[q].key, key);
    }
  }

  lemma NotBehindRank<K(!new)>(lt: (K, K) -> bool, chain: seq<Node<K>>, key: K, pos: nat)
    requires StrictTotal(lt) && Sorted(lt, chain) && IsRank(lt, chain, key, pos)
    ensures forall q :: pos < q < |chain| ==> chain[q].key != key
  {
    forall q | pos < q < |chain| ensures chain[q].key != key {
      assert Pair(pos, q);
    }
  }

  /** The test on the one node behind the descent decides membership of the whole list. */
  lemma FoundAtRank<K(!new)>(lt: (K, K) -> bool, chain: seq<Node<K>>, contents: map<K, string>, key: K, pos: nat)
    requires StrictTotal(lt) && Sorted(lt, chain) && Stores(chain, contents) && IsRank(lt, chain, key, pos)
    ensures key in contents <==> pos < |chain| && chain[pos].key == key
    ensures key in contents ==> contents[key] == chain[pos].value
  {
    assert Open(StoresFact);
    assert Chosen(key, key, key);
    NotBehindRank(lt, chain, key, pos);
  }

  /** Header first, towers within bounds, a forward array of its own for every node. */
  ghost predicate BodyOf<K>(header: Node<K>, maxLevel: nat, chain: seq<Node<K>>, repr: set<array<Node?<K>>>) {
    && |chain| >= 1 && chain[0] == header && header.nodeLevel == maxLevel
    && (forall p :: 0 <= p < |chain| ==>
          && chain[p].forward in repr && chain[p].forward.Length == chain[p].nodeLevel + 1
          && chain[p].nodeLevel <= maxLevel && (maxLevel >= 1 ==> chain[p].nodeLevel >= 1))
    && (forall p, q {:trigger Pair(p, q)} :: Pair(p, q) && 0 <= p < q < |chain| ==>
          chain[p].forward != chain[q].forward)
  }

  /** Every forward pointer of every live node leads to the next tower that reaches its level. */
  ghost predicate LinkedOf<K>(chain: seq<Node<K>>, repr: set<array<Node?<K>>>)
    reads repr
  {
    forall p, i {:trigger Slot(p, i)} :: Slot(p, i) && 0 <= p < |chain| && 0 <= i <= chain[p].nodeLevel ==>
      && chain[p].forward in repr && chain[p].forward.Length == chain[p].nodeLevel + 1
      && chain[p].forward[i] == At(chain, Next(Levels(chain), p, i))
  }

  /** No node is made twice or freed twice, and the live nodes are the ones made and not yet freed. */
  ghost predicate Accounted<K>(made: seq<Node<K>>, freed: seq<Node<K>>, chain: seq<Node<K>>) {
    forall u {:trigger Open(AccountFact, u)} :: Open(AccountFact, u) ==> AccountedExactly(made, freed, chain)
  }

  ghost predicate AccountedExactly<K>(made: seq<Node<K>>, freed: seq<Node<K>>, chain: seq<Node<K>>) {
    && (forall a, b :: 0 <= a < b < |made| ==> made[a] != made[b])
    && multiset(made) == multiset(freed) + multiset(chain)
  }

  class SkipList<K(==, !new, 0)> {
    const lt: (K, K) -> bool
    const maxLevel: nat
    const header: Node<K>
    var skipListLevel: nat
    var elementCount: nat

    // The header followed by the live nodes in level-0 order.
    ghost var chain: seq<Node<K>>
    ghost var contents: map<K, string>
    ghost var Repr: set<array<Node?<K>>>  // the forward arrays of the live nodes
    // Every node ever made by `new`, and every node given to `delete`, in order.
    ghost var made: seq<Node<K>>
    ghost var freed: seq<Node<K>>

    ghost predicate Body()
      reads this
    {
      BodyOf(header, maxLevel, chain, Repr)
    }

    ghost predicate Shape()
      reads this
    {
      Body() && skipListLevel == Top(Levels(chain))
    }

    ghost predicate Linked()
      requires Body()
      reads this, Repr
    {
      LinkedOf(chain, Repr)
    }

    ghost predicate Refines()
      reads this
    {
      StrictTotal(lt) && Sorted(lt, chain) && Stores(chain, contents) && elementCount == |contents|
    }

    ghost predicate Valid()
      reads this, Repr
    {
      Shape() && Linked() && Refines() && Accounted(made, freed, chain)
    }

    constructor (lt: (K, K) -> bool, maxLevel: nat)
      requires StrictTotal(lt)
      ensures Valid() && fresh(Repr)
      ensures this.lt == lt && this.maxLevel == maxLevel
      ensures contents == map[] && freed == []
    {
      this.lt, this.maxLevel := lt, maxLevel;
      skipListLevel, elementCount := 0, 0;
      var k: K := *;
      var h := new Node<K>(k, "", maxLevel);
      header := h;
      chain, contents := [h], map[];
      made, freed := [h], [];
      Repr := {h.forward};
    }

    /** One, and one more per odd draw, cut off at the maximum; `heads` counts the odd draws before an even one. */
    method GetRandomLevel(heads: nat) returns (k: nat)
      ensures k == RandomLevel(heads)
    {
      k := 1;
      for drawn := 0 to heads
        invariant k == 1 + drawn
      {
        k := k + 1;
      }
      k := if k < maxLevel then k else maxLevel;
    }

    function RandomLevel(heads: nat): (k: nat)
      ensures k <= maxLevel && (maxLevel >= 1 ==> k >= 1)
      ensures k <= heads + 1 && (k == heads + 1 || k == maxLevel)
    {
      if 1 + heads < maxLevel then 1 + heads else maxLevel
    }

    lemma SuccessorOf(p: nat, i: nat)
      requires Body() && Linked() && p < |chain| && i <= chain[p].nodeLevel
      ensures chain[p].forward[i] == At(chain, Next(Levels(chain), p, i))
    {
      assert Slot(p, i);
    }

    lemma GroundSuccessor(p: nat)
      requires Body() && Linked() && p < |chain|
      ensures chain[p].forward[0] == At(chain, p + 1)
    {
      SuccessorOf(p, 0);
      NextUnique(Levels(chain), p, 0, p + 1);
    }

    lemma LevelBounded()
      requires Shape()
      ensures skipListLevel <= maxLevel
    {
    }

    /** One level of a descent: forward from `start` while the next key is below `key`. */
    method WalkLevel(start: Node<K>, key: K, i: nat, ghost from: nat, ghost pos: nat)
      returns (node: Node<K>)
      requires Shape() && Linked() && IsRank(lt, chain, key, pos)
      requires from < pos && chain[from] == start && i <= start.nodeLevel
      ensures node == chain[Pred(Levels(chain), pos, i)]
      ensures i == 0 ==> node == chain[pos - 1] && Pred(Levels(chain), pos, i) == pos - 1
    {
      node := start;
      ghost var p := from;
      ghost var lv := Levels(chain);
      SuccessorOf(p, i);
      while node.forward[i] != null && lt(node.forward[i].key, key)
        invariant p < pos && chain[p] == node && i <= lv[p]
        invariant node.forward[i] == At(chain, Next(lv, p, i))
        decreases pos - p
      {
        assert Next(lv, p, i) < pos;
        p := Next(lv, p, i);
        node := node.forward[i];
        SuccessorOf(p, i);
      }
      PredUnique(lv, pos, i, p);
    }

    /** From level i up, `update` holds the last node before `pos`; above the list it is still null. */
    ghost predicate Remembers(update: seq<Node?<K>>, pos: nat, i: nat)
      requires Shape()
      reads this
    {
      && 0 < pos <= |chain|
      && |update| == maxLevel + 1
      && skipListLevel <= maxLevel
      && (forall j {:trigger update[j]} :: i <= j <= skipListLevel ==> update[j] == chain[Pred(Levels(chain), pos, j)])
      && (forall j {:trigger update[j]} :: skipListLevel < j <= maxLevel ==> update[j] == null)
    }

    lemma RememberOneMore(update: seq<Node?<K>>, pos: nat, i: nat, node: Node<K>)
      requires Shape() && Remembers(update, pos, i + 1) && i <= skipListLevel
      requires node == chain[Pred(Levels(chain), pos, i)]
      ensures Remembers(update[i := node], pos, i)
    {
    }

    /** The descent of insert and delete: level by level to the last node below `key`, remembered in `update`. */
    method FindPredecessors(key: K, ghost pos: nat) returns (update: seq<Node?<K>>, current: Node?<K>)
      requires Shape() && Linked() && IsRank(lt, chain, key, pos)
      ensures Remembers(update, pos, 0)
      ensures current == At(chain, pos)
    {
      LevelBounded();
      var node := header;
      ghost var p: nat := 0;
      update := seq(maxLevel + 1, _ => null);
      var i: nat := skipListLevel + 1;
      while i > 0
        invariant i <= skipListLevel + 1
        invariant p < pos && chain[p] == node && (p == 0 || i <= node.nodeLevel)
        invariant Remembers(update, pos, i)
        invariant i == 0 ==> p == pos - 1
      {
        i := i - 1;
        node := WalkLevel(node, key, i, p, pos);
        p := Pred(Levels(chain), pos, i);
        RememberOneMore(update, pos, i, node);
        update := update[i := node];
      }
      GroundSuccessor(p);
      current := node.forward[0];
    }

    /** The descent of search and get. */
    method Descend(key: K, ghost pos: nat) returns (current: Node?<K>)
      requires Shape() && Linked() && IsRank(lt, chain, key, pos)
      ensures current == At(chain, pos)
    {
      LevelBounded();
      var node := header;
      ghost var p: nat := 0;
      var i: nat := skipListLevel + 1;
      while i > 0
        invariant i <= skipListLevel + 1
        invariant p < pos && chain[p] == node && (p == 0 || i <= node.nodeLevel)
        invariant i == 0 ==> p == pos - 1
      {
        i := i - 1;
        node := WalkLevel(node, key, i, p, pos);
        p := Pred(Levels(chain), pos, i);
      }
      GroundSuccessor(p);
      current := node.forward[0];
    }

    method SearchElement(key: K) returns (found: bool)
      requires Valid()
      ensures found <==> key in contents
    {
      ghost var pos := RankExists(lt, chain, key);
      var current := Descend(key, pos);
      FoundAtRank(lt, chain, contents, key, pos);
      found := current != null && current.key == key;
    }

    method GetElement(key: K) returns (value: string)
      requires Valid()
      ensures value == if key in contents then contents[key] else ""
    {
      ghost var pos := RankExists(lt, chain, key);
      var current := Descend(key, pos);
      FoundAtRank(lt, chain, contents, key, pos);
      if current != null && current.key == key {
        return current.value;
      }
      return "";
    }

    method Size() returns (n: nat)
      requires Valid()
      ensures n == |contents|
    {
      n := elementCount;
    }

    // ----- insert

    /** `update[j]` is the node to splice behind, for every level up to h. */
    ghost predicate Ready(update: seq<Node?<K>>, pos: nat, h: nat)
      requires Body()
      reads this
    {
      && 0 < pos <= |chain| && h <= maxLevel && h < |update|
      && (forall j {:trigger update[j]} :: 0 <= j <= h ==> update[j] == chain[Pred(Levels(chain), pos, j)])
    }

    /** The pointers while `node` is being spliced in at `pos`: done below level `done`, untouched above. */
    ghost predicate Splicing(node: Node<K>, pos: nat, done: nat)
      requires Body() && 0 < pos <= |chain| && done <= node.nodeLevel + 1 == node.forward.Length
      reads this, Repr, node.forward
    {
      && node.nodeLevel <= maxLevel
      && node.forward !in Repr
      && (forall p, j {:trigger Slot(p, j)} :: Slot(p, j) && 0 <= p < |chain| && 0 <= j <= chain[p].nodeLevel ==>
            chain[p].forward[j] ==
              if j < done && p == Pred(Levels(chain), pos, j) then node else At(chain, Next(Levels(chain), p, j)))
      && (forall j {:trigger node.forward[j]} :: 0 <= j < done ==>
            node.forward[j] == At(chain, Next(Levels(chain), Pred(Levels(chain), pos, j), j)))
    }

    lemma OwnArray(p: nat)
      requires Body() && p < |chain|
      ensures forall q :: 0 <= q < |chain| && q != p ==> chain[q].forward != chain[p].forward
    {
      forall q | 0 <= q < |chain| && q != p ensures chain[q].forward != chain[p].forward {
        assert Pair(p, q) && Pair(q, p);
      }
    }

    method SpliceLevel(node: Node<K>, update: seq<Node?<K>>, ghost pos: nat, i: nat)
      requires Body() && 0 < pos <= |chain| && i <= node.nodeLevel && node.forward.Length == node.nodeLevel + 1
      requires Splicing(node, pos, i) && Ready(update, pos, node.nodeLevel)
      modifies node.forward, update[i].forward
      ensures Splicing(node, pos, i + 1)
    {
      ghost var p := Pred(Levels(chain), pos, i);
      assert Slot(p, i);
      OwnArray(p);
      node.forward[i] := update[i].forward[i];
      update[i].forward[i] := node;
    }

    /** Once every level is done, an old node's pointers are those of the longer chain. */
    lemma SplicedOld(node: Node<K>, pos: nat, ch: seq<Node<K>>, q: nat, i: nat)
      requires Body() && 0 < pos <= |chain| && node.forward.Length == node.nodeLevel + 1
      requires Splicing(node, pos, node.nodeLevel + 1) && With(chain, pos, node, ch)
      requires q < |chain| && i <= chain[q].nodeLevel
      ensures chain[q].forward[i] == At(ch, Next(Levels(ch), Shift(pos, q), i))
    {
      assert Open(WithFact);
      WithLevels(chain, pos, node, ch);
      assert Slot(q, i);
      NextAfterInsert(Levels(chain), pos, node.nodeLevel, Levels(ch), q, i);
      WithOld(chain, pos, node, ch, Next(Levels(chain), q, i));
    }

    /** And so are the new node's. */
    lemma SplicedNew(node: Node<K>, pos: nat, ch: seq<Node<K>>, i: nat)
      requires Body() && 0 < pos <= |chain| && node.forward.Length == node.nodeLevel + 1
      requires Splicing(node, pos, node.nodeLevel + 1) && With(chain, pos, node, ch)
      requires i <= node.nodeLevel
      ensures node.forward[i] == At(ch, Next(Levels(ch), pos, i))
    {
      assert Open(WithFact);
      WithLevels(chain, pos, node, ch);
      NextOfInserted(Levels(chain), pos, node.nodeLevel, Levels(ch), i);
      WithOld(chain, pos, node, ch, Next(Levels(chain), Pred(Levels(chain), pos, i), i));
    }

    lemma SplicedAll(node: Node<K>, pos: nat, ch: seq<Node<K>>)
      requires Body() && 0 < pos <= |chain| && node.forward.Length == node.nodeLevel + 1
      requires Splicing(node, pos, node.nodeLevel + 1) && With(chain, pos, node, ch)
      requires maxLevel >= 1 ==> node.nodeLevel >= 1
      ensures BodyOf(header, maxLevel, ch, Repr + {node.forward})
      ensures LinkedOf(ch, Repr + {node.forward})
    {
      assert Open(WithFact);
      forall p, q | Pair(p, q) && 0 <= p < q < |ch| ensures ch[p].forward != ch[q].forward {
        assert Pair(if p < pos then p else p - 1, if q < pos then q else q - 1);
      }
      forall p, i | Slot(p, i) && 0 <= p < |ch| && 0 <= i <= ch[p].nodeLevel
        ensures ch[p].forward[i] == At(ch, Next(Levels(ch), p, i))
      {
        if p == pos {
          SplicedNew(node, pos, ch, i);
        } else {
          SplicedOld(node, pos, ch, if p < pos then p else p - 1, i);
        }
      }
    }

    method SpliceAll(node: Node<K>, update: seq<Node?<K>>, ghost pos: nat)
      requires Body() && Linked() && 0 < pos <= |chain|
      requires node.forward.Length == node.nodeLevel + 1 && node.forward !in Repr
      requires Ready(update, pos, node.nodeLevel)
      modifies Repr, node.forward
      ensures Splicing(node, pos, node.nodeLevel + 1)
    {
      var i: nat := 0;
      while i <= node.nodeLevel
        invariant i <= node.nodeLevel + 1 && Splicing(node, pos, i)
      {
        assert update[i] == chain[Pred(Levels(chain), pos, i)];
        SpliceLevel(node, update, pos, i);
        i := i + 1;
      }
    }

    method InsertElement(key: K, value: string, heads: nat) returns (r: int, ghost pos: nat)
      requires Valid()
      modifies this, Repr
      ensures Valid() && fresh(Repr - old(Repr))
      ensures r == (if key in old(contents) then 1 else 0)
      ensures r == 1 ==> contents == old(contents) && chain == old(chain)
      ensures r == 0 ==> contents == old(contents)[key := value]
      ensures r == 0 ==> pos < |chain| && With(old(chain), pos, chain[pos], chain)
      ensures r == 0 ==> chain[pos].nodeLevel == RandomLevel(heads)
      ensures freed == old(freed)
    {
      pos := RankExists(lt, chain, key);
      var update, current := FindPredecessors(key, pos);
      FoundAtRank(lt, chain, contents, key, pos);
      if current != null && current.key == key {
        return 1, pos;
      }
      var randomLevel := GetRandomLevel(heads);
      InsertAt(key, value, randomLevel, update, pos);
      return 0, pos;
    }

    method InsertAt(key: K, value: string, randomLevel: nat, update: seq<Node?<K>>, ghost pos: nat)
      requires Valid() && Remembers(update, pos, 0) && IsRank(lt, chain, key, pos) && key !in contents
      requires randomLevel <= maxLevel && (maxLevel >= 1 ==> randomLevel >= 1)
      modifies this, Repr
      ensures Valid() && fresh(Repr - old(Repr))
      ensures contents == old(contents)[key := value]
      ensures pos < |chain| && With(old(chain), pos, chain[pos], chain) && chain[pos].nodeLevel == randomLevel
      ensures freed == old(freed)
    {
      ghost var was, before, nodes := chain, contents, made;
      ghost var ch, node;
      ch, node := CreateAndSplice(key, value, update, randomLevel, pos);
      assert LinkedOf(ch, Repr + {node.forward});
      Commit(if randomLevel > skipListLevel then randomLevel else skipListLevel, pos, ch, node);
      assert LinkedOf(chain, Repr);
      Committed(was, before, nodes, pos, node);
    }

    /** The fields of the list, once `node` is spliced in at `pos` to give the chain `ch`. */
    method Commit(level: nat, ghost pos: nat, ghost ch: seq<Node<K>>, ghost node: Node<K>)
      modifies this
      ensures skipListLevel == level && elementCount == old(elementCount) + 1
      ensures chain == ch && contents == old(contents)[node.key := node.value]
      ensures Repr == old(Repr) + {node.forward} && made == old(made) + [node] && freed == old(freed)
    {
      skipListLevel := level;
      elementCount := elementCount + 1;
      chain, contents := ch, contents[node.key := node.value];
      Repr, made := Repr + {node.forward}, made + [node];
    }

    /** Then the list is valid again. */
    lemma Committed(was: seq<Node<K>>, before: map<K, string>, nodes: seq<Node<K>>, pos: nat, node: Node<K>)
      requires StrictTotal(lt) && Sorted(lt, was) && Stores(was, before) && Accounted(nodes, freed, was)
      requires IsRank(lt, was, node.key, pos) && With(was, pos, node, chain)
      requires node.key !in before && node !in nodes
      requires BodyOf(header, maxLevel, chain, Repr) && LinkedOf(chain, Repr)
      requires skipListLevel == if Top(Levels(was)) < node.nodeLevel then node.nodeLevel else Top(Levels(was))
      requires contents == before[node.key := node.value] && elementCount == |before| + 1 && made == nodes + [node]
      ensures Valid()
    {
      InsertFacts(lt, was, before, pos, node, chain);
      InsertAccounted(nodes, freed, was, pos, node, chain);
    }

    method CreateAndSplice(key: K, value: string, update: seq<Node?<K>>, level: nat, ghost pos: nat)
      returns (ghost ch: seq<Node<K>>, ghost node: Node<K>)
      requires Shape() && Linked() && Remembers(update, pos, 0)
      requires level <= maxLevel && (maxLevel >= 1 ==> level >= 1)
      modifies Repr
      ensures fresh(node) && fresh(node.forward)
      ensures node.key == key && node.value == value && node.nodeLevel == level
      ensures With(chain, pos, node, ch)
      ensures BodyOf(header, maxLevel, ch, Repr + {node.forward})
      ensures LinkedOf(ch, Repr + {node.forward})
    {
      var made := new Node<K>(key, value, level);
      node := made;
      var raised := RaiseUpdate(update, level, pos);
      SpliceAll(made, raised, pos);
      ch := chain[..pos] + [node] + chain[pos..];
      SplicedAll(node, pos, ch);
    }

    /** Levels the list does not have yet hang from the header. */
    method RaiseUpdate(update: seq<Node?<K>>, randomLevel: nat, ghost pos: nat) returns (raised: seq<Node?<K>>)
      requires Shape() && Remembers(update, pos, 0) && randomLevel <= maxLevel
      ensures Ready(raised, pos, randomLevel)
    {
      raised := update;
      var i := skipListLevel + 1;
      while i < randomLevel + 1
        invariant skipListLevel < i && |raised| == maxLevel + 1
        invariant forall j {:trigger raised[j]} :: 0 <= j < i && j <= randomLevel ==>
                    raised[j] == chain[Pred(Levels(chain), pos, j)]
      {
        PredAboveTop(Levels(chain), pos, i);
        raised := raised[i := header];
        i := i + 1;
      }
    }

    // ----- delete

    /** The pointers while the node at `pos` is being unlinked: done below level `done`, untouched above. */
    ghost predicate Unlinking(pos: nat, done: nat)
      requires Body() && 0 < pos < |chain|
      reads this, Repr
    {
      && done <= chain[pos].nodeLevel + 1
      && (forall p, j {:trigger Slot(p, j)} :: Slot(p, j) && 0 <= p < |chain| && 0 <= j <= chain[p].nodeLevel ==>
            chain[p].forward[j] == At(chain,
              Next(Levels(chain), if j < done && p == Pred(Levels(chain), pos, j) then pos else p, j)))
    }

    /** The test that ends the loop: the predecessor points at the victim just as high as its tower reaches. */
    lemma PointsAtVictim(pos: nat, i: nat)
      requires Body() && 0 < pos < |chain| && Unlinking(pos, i) && i <= maxLevel
      ensures chain[Pred(Levels(chain), pos, i)].forward[i] == chain[pos] <==> i <= chain[pos].nodeLevel
    {
      var p := Pred(Levels(chain), pos, i);
      var q := Next(Levels(chain), p, i);
      assert Slot(p, i);
      PredPointsAt(Levels(chain), pos, i);
      assert Pair(pos, q);
    }

    method UnlinkLevel(victim: Node<K>, update: seq<Node?<K>>, ghost pos: nat, i: nat)
      requires Body() && 0 < pos < |chain| && chain[pos] == victim && i <= victim.nodeLevel
      requires Unlinking(pos, i) && i < |update| && update[i] == chain[Pred(Levels(chain), pos, i)]
      modifies Repr
      ensures Unlinking(pos, i + 1)
    {
      ghost var p := Pred(Levels(chain), pos, i);
      assert Slot(pos, i);
      OwnArray(p);
      update[i].forward[i] := victim.forward[i];
      forall q, j | Slot(q, j) && 0 <= q < |chain| && 0 <= j <= chain[q].nodeLevel
        ensures chain[q].forward[j] == At(chain,
                  Next(Levels(chain), if j < i + 1 && q == Pred(Levels(chain), pos, j) then pos else q, j))
      {
        assert (q == p && j == i) || chain[q].forward[j] == old(chain[q].forward[j]);
      }
    }

    method UnlinkAll(victim: Node<K>, update: seq<Node?<K>>, ghost pos: nat)
      requires Shape() && Linked() && 0 < pos < |chain| && chain[pos] == victim
      requires Remembers(update, pos, 0)
      modifies Repr
      ensures Unlinking(pos, victim.nodeLevel + 1)
    {
      var i: nat := 0;
      while i <= skipListLevel
        invariant i <= victim.nodeLevel + 1 <= skipListLevel + 1 && Unlinking(pos, i)
      {
        assert update[i] == chain[Pred(Levels(chain), pos, i)];
        PointsAtVictim(pos, i);
        if update[i].forward[i] != victim {
          break;
        }
        UnlinkLevel(victim, update, pos, i);
        i := i + 1;
      }
    }

    /** Every pointer of a surviving node now skips the victim. */
    lemma UnlinkedSlot(pos: nat, ch: seq<Node<K>>, q: nat, i: nat)
      requires Body() && 0 < pos < |chain| && Unlinking(pos, chain[pos].nodeLevel + 1)
      requires With(ch, pos, chain[pos], chain)
      requires q < |ch| && i <= ch[q].nodeLevel
      ensures ch[q].forward.Length == ch[q].nodeLevel + 1 && ch[q].forward[i] == At(ch, Next(Levels(ch), q, i))
    {
      assert Open(WithFact);
      var lv, lw, h := Levels(ch), Levels(chain), chain[pos].nodeLevel;
      WithLevels(ch, pos, chain[pos], chain);
      assert chain[Shift(pos, q)] == ch[q] && chain[0] == ch[0];
      assert Slot(Shift(pos, q), i);
      NextAfterInsert(lv, pos, h, lw, q, i);
      PredOfInserted(lv, pos, h, lw, i);
      WithOld(ch, pos, chain[pos], chain, Next(lv, q, i));
      if q == Pred(lv, pos, i) && i <= h {
        NextOfInserted(lv, pos, h, lw, i);
      }
    }

    lemma UnlinkedAll(pos: nat, ch: seq<Node<K>>)
      requires Body() && 0 < pos < |chain| && Unlinking(pos, chain[pos].nodeLevel + 1)
      requires With(ch, pos, chain[pos], chain)
      ensures BodyOf(header, maxLevel, ch, Repr - {chain[pos].forward})
      ensures LinkedOf(ch, Repr - {chain[pos].forward})
    {
      assert Open(WithFact);
      forall p | 0 <= p < |ch| ensures ch[p].forward != chain[pos].forward && ch[p] == chain[Shift(pos, p)] {
        assert Pair(pos, Shift(pos, p)) && Pair(Shift(pos, p), pos);
      }
      forall p, q | Pair(p, q) && 0 <= p < q < |ch| ensures ch[p].forward != ch[q].forward {
        assert Pair(Shift(pos, p), Shift(pos, q));
      }
      forall p, i | Slot(p, i) && 0 <= p < |ch| && 0 <= i <= ch[p].nodeLevel
        ensures ch[p].forward[i] == At(ch, Next(Levels(ch), p, i))
      {
        UnlinkedSlot(pos, ch, p, i);
      }
    }

    /** Lowers the level of the list while the header has nothing there. */
    method LowerLevel()
      requires Body() && Linked() && Top(Levels(chain)) <= skipListLevel <= maxLevel
      modifies this`skipListLevel
      ensures Shape()
    {
      while skipListLevel > 0 && header.forward[skipListLevel] == null
        invariant Top(Levels(chain)) <= skipListLevel <= maxLevel
      {
        SuccessorOf(0, skipListLevel);
        HeaderAtTop(Levels(chain), skipListLevel);
        skipListLevel := skipListLevel - 1;
      }
      if skipListLevel > 0 {
        SuccessorOf(0, skipListLevel);
        HeaderAtTop(Levels(chain), skipListLevel);
      }
    }

    method DeleteElement(key: K) returns (ghost pos: nat)
      requires Valid()
      modifies this, Repr
      ensures Valid() && Repr <= old(Repr)
      ensures contents == old(contents) - {key}
      ensures key !in old(contents) ==> chain == old(chain) && freed == old(freed)
      ensures key in old(contents) ==> 0 < pos < |old(chain)| && old(chain)[pos].key == key
      ensures key in old(contents) ==>
                With(chain, pos, old(chain)[pos], old(chain)) && freed == old(freed) + [old(chain)[pos]]
      ensures made == old(made)
    {
      pos := RankExists(lt, chain, key);
      var update, current := FindPredecessors(key, pos);
      FoundAtRank(lt, chain, contents, key, pos);
      if current != null && current.key == key {
        RemoveAt(current, update, pos);
      }
    }

    method RemoveAt(victim: Node<K>, update: seq<Node?<K>>, ghost pos: nat)
      requires Valid() && Remembers(update, pos, 0) && pos < |chain| && chain[pos] == victim
      modifies this, Repr
      ensures Valid() && Repr <= old(Repr)
      ensures victim.key in old(contents) && contents == old(contents) - {victim.key}
      ensures With(chain, pos, victim, old(chain)) && freed == old(freed) + [victim]
      ensures made == old(made)
    {
      UnlinkAll(victim, update, pos);
      ghost var ch := UnlinkedChain(pos);
      FinishDelete(pos, ch, victim);
    }

    method FinishDelete(ghost pos: nat, ghost ch: seq<Node<K>>, ghost node: Node<K>)
      requires Refines() && Accounted(made, freed, chain) && 0 < pos && With(ch, pos, node, chain)
      requires BodyOf(header, maxLevel, ch, Repr - {node.forward}) && LinkedOf(ch, Repr - {node.forward})
      requires Top(Levels(ch)) <= skipListLevel <= maxLevel
      modifies this
      ensures Valid() && Repr == old(Repr) - {node.forward}
      ensures node.key in old(contents) && contents == old(contents) - {node.key}
      ensures chain == ch && freed == old(freed) + [node] && made == old(made)
    {
      Retire(pos, ch, node);
      LowerLevel();
    }

    lemma UnlinkedChain(pos: nat) returns (ch: seq<Node<K>>)
      requires Body() && 0 < pos < |chain| && Unlinking(pos, chain[pos].nodeLevel + 1)
      ensures With(ch, pos, chain[pos], chain)
      ensures BodyOf(header, maxLevel, ch, Repr - {chain[pos].forward})
      ensures LinkedOf(ch, Repr - {chain[pos].forward})
      ensures Top(Levels(ch)) <= Top(Levels(chain))
    {
      ch := chain[..pos] + chain[pos + 1..];
      WithLevels(ch, pos, chain[pos], chain);
      TopInserted(Levels(ch), pos, chain[pos].nodeLevel, Levels(chain));
      UnlinkedAll(pos, ch);
    }

    /** The count of the list, and what it stands for once the node at `pos` is unlinked and deleted. */
    method Retire(ghost pos: nat, ghost ch: seq<Node<K>>, ghost node: Node<K>)
      requires Refines() && Accounted(made, freed, chain)
      requires 0 < pos && With(ch, pos, node, chain)
      modifies this`chain, this`contents, this`Repr, this`freed, this`elementCount
      ensures chain == ch && Repr == old(Repr) - {node.forward} && freed == old(freed) + [node]
      ensures node.key in old(contents) && contents == old(contents) - {node.key}
      ensures Refines() && Accounted(made, freed, chain)
    {
      DeleteSorted(lt, chain, pos, node, ch);
      DeleteStores(lt, chain, contents, pos, node, ch);
      DeleteAccounted(made, freed, chain, pos, node, ch);
      chain, contents := ch, contents - {node.key};
      Repr := Repr - {node.forward};
      freed := freed + [node];
      elementCount := elementCount - 1;
    }

    // ----- destructor

    /** Reading the successor on level 0 of a node that has not been freed. */
    method Follow(cur: Node<K>, ghost p: nat) returns (next: Node?<K>)
      requires Body() && Linked() && p < |chain| && chain[p] == cur && cur !in freed
      ensures next == At(chain, p + 1)
    {
      GroundSuccessor(p);
      next := cur.forward[0];
    }

    /** `clear`: the rest of the list first, from its end on, then the node itself; nothing is read once it is freed. */
    method Clear(cur: Node<K>, ghost p: nat)
      requires Body() && Linked() && 1 <= p < |chain| && chain[p] == cur
      requires NoneFreed(chain, p, freed)
      modifies this`freed
      ensures FreedBackwards(old(freed), chain, p, freed)
      ensures |freed| == |old(freed)| + |chain| - p
      ensures forall q {:trigger chain[q]} :: p <= q < |chain| ==> freed[|old(freed)| + |chain| - 1 - q] == chain[q]
      decreases |chain| - p
    {
      var next := Follow(cur, p);
      if next != null {
        Clear(next, p + 1);
      }
      FreedOneMore(old(freed), freed, chain, p);
      freed := freed + [cur];
    }

    /**
     `~SkipList`: afterwards every node ever made has been deleted, and none of them twice; the nodes of the list are
     freed from its end to the header, each after all those behind it.
     */
    method Destroy()
      requires Valid()
      modifies this`freed
      ensures multiset(freed) == multiset(made)
      ensures forall n :: n in freed ==> multiset(freed)[n] == 1
      ensures |freed| == |old(freed)| + |chain| && old(freed) <= freed && freed[|freed| - 1] == header
      ensures forall q {:trigger chain[q]} :: 0 <= q < |chain| ==> freed[|old(freed)| + |chain| - 1 - q] == chain[q]
    {
      LiveNotFreed();
      var first := Follow(header, 0);
      if first != null {
        Clear(first, 1);
      }
      FreedOneMore(old(freed), freed, chain, 0);
      freed := freed + [header];
      FreedAll(made, old(freed), chain, freed);
    }

    lemma LiveNotFreed()
      requires Valid()
      ensures NoneFreed(chain, 0, freed)
    {
      forall q | 0 <= q < |chain| ensures chain[q] !in freed {
        NothingDangles(q, 0);
      }
    }

    // ----- what a valid list looks like on the heap

    /** The nodes met by following level-i pointers from `n`, at most `fuel` of them. */
    ghost function Walk(n: Node?<K>, i: nat, fuel: nat): seq<Node<K>>
      reads Repr, this
    {
      if n == null || fuel == 0 then []
      else if n.forward in Repr && i < n.forward.Length then [n] + Walk(n.forward[i], i, fuel - 1)
      else [n]
    }

    lemma {:induction false} WalkFrom(q: nat, i: nat, fuel: nat)
      requires Body() && Linked() && q <= |chain| <= q + fuel
      requires q < |chain| ==> i <= chain[q].nodeLevel
      ensures Walk(At(chain, q), i, fuel) == Tall(chain, q, i)
      decreases |chain| - q
    {
      if q < |chain| {
        SuccessorOf(q, i);
        WalkFrom(Next(Levels(chain), q, i), i, fuel - 1);
        TallSkips(chain, q + 1, Next(Levels(chain), q, i), i);
      }
    }

    /**
     Following level i from the header meets exactly the nodes whose tower reaches level i, in level-0 order,
     and ends in null: more fuel than there are nodes adds nothing, so there is no cycle.
     */
    lemma LevelIsFilter(i: nat, fuel: nat)
      requires Valid() && i <= maxLevel && |chain| <= fuel
      ensures Walk(header.forward[i], i, fuel) == Tall(chain, 1, i)
      ensures forall a, b :: 0 <= a < b < |Tall(chain, 1, i)| ==> lt(Tall(chain, 1, i)[a].key, Tall(chain, 1, i)[b].key)
    {
      SuccessorOf(0, i);
      WalkFrom(Next(Levels(chain), 0, i), i, fuel);
      TallSkips(chain, 1, Next(Levels(chain), 0, i), i);
      TallSorted(lt, chain, 1, i);
    }

    /** The level of the list is the tallest tower, and no pointer leads to a freed node. */
    lemma NothingDangles(p: nat, i: nat)
      requires Valid() && p < |chain| && i <= chain[p].nodeLevel
      ensures chain[p] !in freed
      ensures chain[p].forward[i] != null ==> chain[p].forward[i] in chain && chain[p].forward[i] !in freed
    {
      assert Open(AccountFact);
      SuccessorOf(p, i);
      forall n | n in chain ensures n !in freed {
        DistinctOnce(made);
        assert n in multiset(chain);
        assert multiset(made)[n] == multiset(freed)[n] + multiset(chain)[n];
      }
    }

    /** Every tower is at least 1 high, so level 1 saves nothing: it is level 0 again. */
    lemma LevelOneIsLevelZero(p: nat)
      requires Valid() && maxLevel >= 1 && p < |chain|
      ensures chain[p].forward.Length >= 2 && chain[p].forward[1] == chain[p].forward[0]
    {
      LevelsZeroAndOneAgree(Levels(chain), p);
      SuccessorOf(p, 0);
      SuccessorOf(p, 1);
    }
  }

  /** The nodes from position q on whose tower reaches level i. */
  ghost function Tall<K>(chain: seq<Node<K>>, q: nat, i: nat): seq<Node<K>>
    decreases |chain| - q
  {
    if q >= |chain| then []
    else if i <= chain[q].nodeLevel then [chain[q]] + Tall(chain, q + 1, i)
    else Tall(chain, q + 1, i)
  }

  lemma {:induction false} TallSkips<K>(chain: seq<Node<K>>, q: nat, r: nat, i: nat)
    requires q <= r <= |chain|
    requires forall p :: q <= p < r ==> chain[p].nodeLevel < i
    ensures Tall(chain, q, i) == Tall(chain, r, i)
    decreases r - q
  {
    if q < r {
      TallSkips(chain, q + 1, r, i);
    }
  }

  lemma {:induction false} TallSorted<K>(lt: (K, K) -> bool, chain: seq<Node<K>>, q: nat, i: nat)
    requires Sorted(lt, chain) && 1 <= q
    ensures forall a, b :: 0 <= a < b < |Tall(chain, q, i)| ==> lt(Tall(chain, q, i)[a].key, Tall(chain, q, i)[b].key)
    ensures forall a :: 0 <= a < |Tall(chain, q, i)| ==> Tall(chain, q, i)[a] in chain[q..]
    decreases |chain| - q
  {
    if q < |chain| {
      TallSorted(lt, chain, q + 1, i);
      var rest := Tall(chain, q + 1, i);
      forall b | 0 <= b < |rest| ensures lt(chain[q].key, rest[b].key) && rest[b] in chain[q..] {
        var r :| 0 <= r < |chain[q + 1..]| && chain[q + 1..][r] == rest[b];
        assert chain[q..][r + 1] == rest[b];
        assert Pair(q, q + 1 + r);
      }
    }
  }

  function Reversed<T>(s: seq<T>): seq<T> {
    if s == [] then [] else Reversed(s[1..]) + [s[0]]
  }

  lemma {:induction false} ReversedMultiset<T>(s: seq<T>)
    ensures multiset(Reversed(s)) == multiset(s)
  {
    if s != [] {
      ReversedMultiset(s[1..]);
      assert s == [s[0]] + s[1..];
    }
  }

  lemma {:induction false} DistinctOnce<T>(s: seq<T>)
    requires forall a, b :: 0 <= a < b < |s| ==> s[a] != s[b]
    ensures forall x :: x in s ==> multiset(s)[x] == 1
    ensures forall x :: multiset(s)[x] <= 1
  {
    if s != [] {
      DistinctOnce(s[1..]);
      assert s == [s[0]] + s[1..];
    }
  }

  lemma {:induction false} ReversedAt<T>(s: seq<T>, k: nat)
    requires k < |s|
    ensures |Reversed(s)| == |s| && Reversed(s)[k] == s[|s| - 1 - k]
  {
    if |s| > 1 {
      ReversedAt(s[1..], if k < |s| - 1 then k else 0);
    }
  }

  ghost predicate NoneFreed<K>(chain: seq<Node<K>>, p: nat, freed: seq<Node<K>>) {
    forall q {:trigger chain[q]} :: p <= q < |chain| ==> chain[q] !in freed
  }

  /** Since `was`, the nodes from place p on were freed, from the last back to the one at p. */
  ghost predicate FreedBackwards<K>(was: seq<Node<K>>, chain: seq<Node<K>>, p: nat, now: seq<Node<K>>) {
    && p <= |chain| && was <= now && |now| == |was| + |chain| - p
    && forall q {:trigger chain[q]} :: p <= q < |chain| ==> now[|was| + |chain| - 1 - q] == chain[q]
  }

  lemma FreedOneMore<K>(was: seq<Node<K>>, freed: seq<Node<K>>, chain: seq<Node<K>>, p: nat)
    requires p < |chain| && (if p + 1 < |chain| then FreedBackwards(was, chain, p + 1, freed) else freed == was)
    ensures FreedBackwards(was, chain, p, freed + [chain[p]])
  {
  }

  /** Freeing the list from its end back to the header frees what is left to free, once. */
  lemma FreedAll<K>(made: seq<Node<K>>, freed: seq<Node<K>>, chain: seq<Node<K>>, end: seq<Node<K>>)
    requires Accounted(made, freed, chain) && |chain| >= 1
    requires FreedBackwards(freed, chain, 0, end)
    ensures multiset(end) == multiset(made)
    ensures forall n :: n in end ==> multiset(end)[n] == 1
  {
    assert Open(AccountFact);
    ReversedAt(chain, 0);
    forall k | 0 <= k < |chain| ensures end[|freed| + k] == Reversed(chain)[k] {
      ReversedAt(chain, k);
      assert chain[|chain| - 1 - k] == Reversed(chain)[k];
    }
    assert end == freed + Reversed(chain);
    ReversedMultiset(chain);
    DistinctOnce(made);
  }

  lemma DeleteSorted<K(!new)>(lt: (K, K) -> bool, chain: seq<Node<K>>, pos: nat, node: Node<K>, ch: seq<Node<K>>)
    requires Sorted(lt, chain) && 0 < pos && With(ch, pos, node, chain)
    ensures Sorted(lt, ch)
  {
    assert Open(WithFact);
    forall p, q | Pair(p, q) && 1 <= p < q < |ch| ensures lt(ch[p].key, ch[q].key) {
      assert chain[Shift(pos, p)] == ch[p] && chain[Shift(pos, q)] == ch[q];
      assert Pair(Shift(pos, p), Shift(pos, q));
    }
  }

  lemma DeleteStores<K(!new)>(lt: (K, K) -> bool, chain: seq<Node<K>>, contents: map<K, string>, pos: nat,
                              node: Node<K>, ch: seq<Node<K>>)
    requires StrictTotal(lt) && Sorted(lt, chain) && Stores(chain, contents)
    requires 0 < pos && With(ch, pos, node, chain)
    ensures node.key in contents && Stores(ch, contents - {node.key})
  {
    assert Open(WithFact) && Open(StoresFact);
    var m := contents - {node.key};
    forall p | 1 <= p < |ch| ensures ch[p].key in m && m[ch[p].key] == ch[p].value {
      var q := Shift(pos, p);
      assert chain[q] == ch[p];
      assert Pair(pos, q) && Pair(q, pos) && Chosen(node.key, node.key, node.key);
    }
    forall k | k in m ensures exists p :: 1 <= p < |ch| && ch[p].key == k {
      var p :| 1 <= p < |chain| && chain[p].key == k;
      assert ch[if p < pos then p else p - 1] == chain[p];
    }
  }

  lemma DeleteAccounted<K>(made: seq<Node<K>>, freed: seq<Node<K>>, chain: seq<Node<K>>, pos: nat, node: Node<K>,
                           ch: seq<Node<K>>)
    requires Accounted(made, freed, chain) && With(ch, pos, node, chain)
    ensures Accounted(made, freed + [node], ch)
  {
    assert Open(WithFact) && Open(AccountFact);
    assert chain == ch[..pos] + [node] + ch[pos..];
    assert ch == ch[..pos] + ch[pos..];
  }

  lemma InsertSorted<K(!new)>(lt: (K, K) -> bool, chain: seq<Node<K>>, pos: nat, node: Node<K>, ch: seq<Node<K>>)
    requires StrictTotal(lt) && Sorted(lt, chain) && IsRank(lt, chain, node.key, pos) && With(chain, pos, node, ch)
    requires pos < |chain| ==> chain[pos].key != node.key
    ensures Sorted(lt, ch)
  {
    assert Open(WithFact);
    forall q | pos <= q < |chain| ensures lt(node.key, chain[q].key) {
      NotBehindRank(lt, chain, node.key, pos);
      assert Chosen(node.key, chain[q].key, node.key);
    }
    forall p, q | Pair(p, q) && 1 <= p < q < |ch| ensures lt(ch[p].key, ch[q].key) {
      assert Pair(if p < pos then p else p - 1, if q < pos then q else q - 1);
    }
  }

  /** What inserting means for order, contents and level. */
  lemma InsertFacts<K(!new)>(lt: (K, K) -> bool, chain: seq<Node<K>>, contents: map<K, string>, pos: nat, node: Node<K>,
                             ch: seq<Node<K>>)
    requires StrictTotal(lt) && Sorted(lt, chain) && Stores(chain, contents)
    requires IsRank(lt, chain, node.key, pos) && node.key !in contents && With(chain, pos, node, ch)
    ensures Sorted(lt, ch) && Stores(ch, contents[node.key := node.value])
    ensures Top(Levels(ch)) == if Top(Levels(chain)) < node.nodeLevel then node.nodeLevel else Top(Levels(chain))
  {
    FoundAtRank(lt, chain, contents, node.key, pos);
    InsertSorted(lt, chain, pos, node, ch);
    InsertStores(chain, contents, pos, node, ch);
    WithLevels(chain, pos, node, ch);
    TopInserted(Levels(chain), pos, node.nodeLevel, Levels(ch));
  }

  lemma InsertAccounted<K>(made: seq<Node<K>>, freed: seq<Node<K>>, chain: seq<Node<K>>, pos: nat, node: Node<K>,
                           ch: seq<Node<K>>)
    requires Accounted(made, freed, chain) && With(chain, pos, node, ch) && node !in made
    ensures Accounted(made + [node], freed, ch)
  {
    assert Open(AccountFact);
    assert Open(WithFact);
    assert ch == chain[..pos] + [node] + chain[pos..];
    assert chain == chain[..pos] + chain[pos..];
  }

  lemma InsertStores<K(!new)>(chain: seq<Node<K>>, contents: map<K, string>, pos: nat, node: Node<K>, ch: seq<Node<K>>)
    requires 1 <= pos && Stores(chain, contents) && node.key !in contents && With(chain, pos, node, ch)
    ensures Stores(ch, contents[node.key := node.value])
  {
    assert Open(StoresFact);
    assert Open(WithFact);
    var m := contents[node.key := node.value];
    forall k | k in m ensures exists p :: 1 <= p < |ch| && ch[p].key == k {
      if k == node.key {
        assert ch[pos].key == k;
      } else {
        var p :| 1 <= p < |chain| && chain[p].key == k;
        assert ch[Shift(pos, p)].key == k;
      }
    }
    forall p | 1 <= p < |ch| ensures ch[p].key in m && m[ch[p].key] == ch[p].value {
      if p != pos {
        assert ch[p] == chain[if p < pos then p else p - 1];
      }
    }
  }
}
