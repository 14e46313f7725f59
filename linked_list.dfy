/**
 * A singly linked association list with head and tail pointers: entries are
 * appended at the tail, looked up by the first matching key, and removed by
 * key. Keys are compared by contents (strcmp); values are held as given.
 */
module LinkedLists {
  import opened Wrappers

  type Key = string

  // ---------------------------------------------------------------------
  // The abstract list: a sequence of (key, value) entries
  // ---------------------------------------------------------------------

  /** The value of the first entry of `s` whose key is `k`. */
  function Lookup<V>(s: seq<(Key, V)>, k: Key): Option<V> {
    if s == [] then None
    else if s[0].0 == k then Some(s[0].1)
    else Lookup(s[1..], k)
  }

  /** Lookup finds nothing exactly when no entry has the key. */
  lemma {:induction false} LookupNone<V>(s: seq<(Key, V)>, k: Key)
    ensures Lookup(s, k).None? <==> forall i :: 0 <= i < |s| ==> s[i].0 != k
  {
    if s != [] {
      LookupNone(s[1..], k);
      assert forall i :: 1 <= i < |s| ==> s[i] == s[1..][i - 1];
    }
  }

  /** Lookup returns the value of the first entry with the key, in insertion order. */
  lemma {:induction false} LookupFirst<V>(s: seq<(Key, V)>, k: Key, i: nat)
    requires i < |s| && s[i].0 == k
    requires forall j :: 0 <= j < i ==> s[j].0 != k
    ensures Lookup(s, k) == Some(s[i].1)
  {
    if i > 0 {
      LookupFirst(s[1..], k, i - 1);
    }
  }

  /** Appending an entry never hides an entry that was already found. */
  lemma {:induction false} LookupAppend<V>(s: seq<(Key, V)>, k: Key, v: V, k': Key)
    ensures Lookup(s + [(k, v)], k') ==
      if Lookup(s, k').Some? then Lookup(s, k')
      else if k == k' then Some(v)
      else None
  {
    if s == [] {
      assert s + [(k, v)] == [(k, v)];
    } else {
      assert (s + [(k, v)])[1..] == s[1..] + [(k, v)];
      LookupAppend(s[1..], k, v, k');
    }
  }

  /** The entries of `s` whose key is not `k`, in their original order. */
  function Filter<V>(s: seq<(Key, V)>, k: Key): seq<(Key, V)> {
    if s == [] then []
    else Filter(s[..|s| - 1], k) + (if s[|s| - 1].0 == k then [] else [s[|s| - 1]])
  }

  /** Filtering one more entry extends the result by that entry unless it has the key. */
  lemma FilterSnoc<V>(s: seq<(Key, V)>, e: (Key, V), k: Key)
    ensures Filter(s + [e], k) == Filter(s, k) + (if e.0 == k then [] else [e])
  {
    assert (s + [e])[..|s|] == s;
  }

  /** Filter keeps an entry exactly when its key differs from `k`. */
  lemma {:induction false} FilterMembers<V>(s: seq<(Key, V)>, k: Key)
    ensures forall e :: e in Filter(s, k) <==> e in s && e.0 != k
  {
    if s != [] {
      var init := s[..|s| - 1];
      FilterMembers(init, k);
      assert s == init + [s[|s| - 1]];
    }
  }

  /** After Filter no entry has the key. */
  lemma {:induction false} FilterRemovesKey<V>(s: seq<(Key, V)>, k: Key)
    ensures Lookup(Filter(s, k), k) == None
  {
    if s != [] {
      var init, last := s[..|s| - 1], s[|s| - 1];
      FilterRemovesKey(init, k);
      if last.0 != k {
        assert Filter(s, k) == Filter(init, k) + [(last.0, last.1)];
        LookupAppend(Filter(init, k), last.0, last.1, k);
      } else {
        assert Filter(s, k) == Filter(init, k);
      }
    }
  }

  /** Filter does not change what any other key finds. */
  lemma {:induction false} FilterKeepsOthers<V>(s: seq<(Key, V)>, k: Key, k': Key)
    requires k' != k
    ensures Lookup(Filter(s, k), k') == Lookup(s, k')
  {
    if s != [] {
      var init, last := s[..|s| - 1], s[|s| - 1];
      assert s == init + [last];
      FilterKeepsOthers(init, k, k');
      LookupAppend(init, last.0, last.1, k');
      if last.0 != k {
        LookupAppend(Filter(init, k), last.0, last.1, k');
      } else {
        assert Filter(s, k) == Filter(init, k);
      }
    }
  }

  /** Removing a key no entry has leaves the list as it is. */
  lemma {:induction false} FilterAbsent<V>(s: seq<(Key, V)>, k: Key)
    requires forall i :: 0 <= i < |s| ==> s[i].0 != k
    ensures Filter(s, k) == s
  {
    if s != [] {
      var init, last := s[..|s| - 1], s[|s| - 1];
      assert forall i :: 0 <= i < |init| ==> init[i] == s[i];
      FilterAbsent(init, k);
      assert Filter(s, k) == init + [last];
      assert init + [last] == s;
    }
  }

  // ---------------------------------------------------------------------
  // removeElement as written, on index links
  //
  // Node j of a list built by n inserts is entry j; its `next` is the index
  // of the following node, NIL standing for NULL. The source sets `prev` to
  // the node it has just unlinked and freed, and never updates `tail`.
  // ---------------------------------------------------------------------

  const NIL: int := -1

  /** The link of node `j` as the n inserts left it. */
  function Succ(j: int, n: int): int {
    if j + 1 < n then j + 1 else NIL
  }

  /** Every link points forward or is NIL, so following links ends. */
  ghost predicate Forward(next: seq<int>) {
    forall j :: 0 <= j < |next| ==> next[j] == NIL || j < next[j]
  }

  /** The indices reached by following links from `p`: the list as a reader of it sees it. */
  function Walk(p: int, next: seq<int>): (w: seq<nat>)
    requires Forward(next)
    ensures forall m :: 0 <= m < |w| ==> w[m] < |next|
    decreases if p < 0 || p >= |next| then 0 else |next| - p
  {
    if p < 0 || p >= |next| then [] else [p] + Walk(next[p], next)
  }

  /** Which entries have the key being removed. */
  function Matches(keys: seq<Key>, key: Key): (m: seq<bool>)
    ensures |m| == |keys| && forall j :: 0 <= j < |keys| ==> m[j] == (keys[j] == key)
  {
    seq(|keys|, j requires 0 <= j < |keys| => keys[j] == key)
  }

  /** The indices from `from` on of entries that do not match, in order: what removal should leave. */
  function Kept(m: seq<bool>, from: nat): seq<nat>
    decreases |m| - from
  {
    if from >= |m| then []
    else (if m[from] then [] else [from]) + Kept(m, from + 1)
  }

  /** The head the source leaves: it moves only past a matching first node. */
  function AsWrittenHead(m: seq<bool>): int {
    if m == [] then NIL else if m[0] then Succ(0, |m|) else 0
  }

  /** The link the source leaves in node `j`: it skips node j + 1 when that one matches. */
  function AsWrittenLink(m: seq<bool>, j: nat): int {
    if j + 1 < |m| && m[j + 1] then Succ(j + 1, |m|) else Succ(j, |m|)
  }

  /**
   * removeElement exactly as the source's loop runs it on a list whose
   * entries have keys `keys`: returns the new head and links. `tail` is
   * not touched by the source and stays the last index.
   */
  method RemoveElementAsWritten(keys: seq<Key>, key: Key) returns (head: int, next: seq<int>)
    ensures |next| == |keys| && Forward(next)
    ensures head == AsWrittenHead(Matches(keys, key))
    ensures forall j :: 0 <= j < |keys| ==> next[j] == AsWrittenLink(Matches(keys, key), j)
  {
    ghost var m := Matches(keys, key);
    var n := |keys|;
    next := seq(n, j => Succ(j, n));
    head := if n == 0 then NIL else 0;
    var target := head;
    var prev := NIL;
    while target != NIL
      invariant |next| == n
      invariant target == NIL || 0 <= target < n
      invariant prev == (if target == NIL then (if n == 0 then NIL else n - 1) else target - 1)
      invariant target != NIL ==> next[target] == Succ(target, n)
      invariant head == (if target == 0 then 0 else AsWrittenHead(m))
      invariant forall j :: 0 <= j < n && (target == NIL || j + 1 < target) ==> next[j] == AsWrittenLink(m, j)
      invariant forall j :: 0 <= j < n && target != NIL && j + 1 >= target ==> next[j] == Succ(j, n)
      decreases if target == NIL then 0 else n - target
    {
      if keys[target] == key {
        if prev != NIL {
          next := next[prev := next[target]];
        } else {
          head := next[target];
        }
      }
      prev := target;
      target := next[target];
    }
  }

  /** With no two adjacent matching entries, the as-written links from a kept node reach exactly the kept nodes after it. */
  lemma {:induction false} AsWrittenSpacedMatches(m: seq<bool>, next: seq<int>, p: nat)
    requires |next| == |m| && Forward(next)
    requires forall j :: 0 <= j < |m| ==> next[j] == AsWrittenLink(m, j)
    requires forall j :: 0 <= j < |m| - 1 ==> !(m[j] && m[j + 1])
    requires p < |m| && !m[p]
    ensures Walk(p, next) == [p] + Kept(m, p + 1)
    decreases |m| - p
  {
    var n := |m|;
    var q := next[p];
    assert q == AsWrittenLink(m, p);
    assert Walk(p, next) == [p] + Walk(q, next);
    if p + 1 >= n {
      assert q == NIL;
    } else if m[p + 1] {
      assert Kept(m, p + 1) == Kept(m, p + 2);
      if p + 2 < n {
        assert q == p + 2 && !m[p + 2];
        AsWrittenSpacedMatches(m, next, p + 2);
      } else {
        assert q == NIL;
      }
    } else {
      assert q == p + 1;
      AsWrittenSpacedMatches(m, next, p + 1);
    }
  }

  /**
   * When no two adjacent entries both match, the entries reachable from
   * the as-written head are exactly the kept ones.
   */
  lemma {:induction false} AsWrittenCorrectWhenSpaced(m: seq<bool>, next: seq<int>)
    requires |next| == |m| && Forward(next)
    requires forall j :: 0 <= j < |m| ==> next[j] == AsWrittenLink(m, j)
    requires forall j :: 0 <= j < |m| - 1 ==> !(m[j] && m[j + 1])
    ensures Walk(AsWrittenHead(m), next) == Kept(m, 0)
  {
    if m != [] {
      if !m[0] {
        AsWrittenSpacedMatches(m, next, 0);
      } else if 1 < |m| {
        AsWrittenSpacedMatches(m, next, 1);
      }
    }
  }

  /** Example: of two adjacent matching entries the second survives the as-written removal. */
  lemma AsWrittenAdjacentMatchSurvives()
    ensures Matches(["a", "a"], "a") == [true, true]
    ensures Walk(AsWrittenHead([true, true]), [AsWrittenLink([true, true], 0), AsWrittenLink([true, true], 1)]) == [1]
    ensures Kept([true, true], 0) == []
  {
  }

  /**
   * Example: removing the last entry leaves `tail` on the freed node, so a
   * later insert links the new node (index 2) after it, where no walk from
   * the head reaches it.
   */
  lemma AsWrittenStaleTailLosesInsert()
    ensures Matches(["a", "b"], "b") == [false, true]
    ensures var next := [AsWrittenLink([false, true], 0), AsWrittenLink([false, true], 1)];
            var tail := 1;
            Walk(AsWrittenHead([false, true]), next[tail := 2] + [NIL]) == [0]
  {
  }

  // ---------------------------------------------------------------------
  // The heap structure
  // ---------------------------------------------------------------------

  /** ListElement: a node holding its key and value by reference. */
  class ListElement<V> {
    const key: Key
    const val: V
    var next: ListElement?<V>

    constructor (key: Key, val: V)
      ensures this.key == key && this.val == val && next == null
    {
      this.key := key;
      this.val := val;
      next := null;
    }
  }

  /**
   * create: a fresh empty list, or null when the container cannot be
   * allocated (`allocOk` is the outcome of that allocation).
   */
  method Create<V>(allocOk: bool) returns (list: LinkedList?<V>)
    ensures list == null <==> !allocOk
    ensures list != null ==> fresh(list.Repr) && list.Valid() && list.Contents == []
  {
    if !allocOk {
      return null;
    }
    list := new LinkedList();
  }

  /**
   * Removing every entry with `key` and then inserting appends the new
   * entry after the survivors: with the tail kept up to date by
   * RemoveElement, the insert is reachable from the head.
   */
  method RemoveThenInsert<V>(list: LinkedList<V>, key: Key, k: Key, v: V) returns (rc: int)
    requires list.Valid()
    modifies list, list.Repr
    ensures list.Valid() && rc == 0
    ensures list.Contents == Filter(old(list.Contents), key) + [(k, v)]
  {
    list.RemoveElement(key);
    rc := list.Insert(k, v, true);
  }

  /** LinkedList: head and tail of a chain of ListElements. */
  class LinkedList<V> {
    var head: ListElement?<V>
    var tail: ListElement?<V>
    /** The entries, in list order. */
    ghost var Contents: seq<(Key, V)>
    /** The nodes, in list order. */
    ghost var Nodes: seq<ListElement<V>>
    ghost var Repr: set<object>

    ghost predicate Valid()
      reads this, Repr
    {
      this in Repr &&
      |Nodes| == |Contents| &&
      (forall i :: 0 <= i < |Nodes| ==> Nodes[i] in Repr) &&
      (forall i :: 0 <= i < |Nodes| ==> Nodes[i].key == Contents[i].0 && Nodes[i].val == Contents[i].1) &&
      (forall i, j :: 0 <= i < j < |Nodes| ==> Nodes[i] != Nodes[j]) &&
      (forall i :: 0 <= i < |Nodes| - 1 ==> Nodes[i].next == Nodes[i + 1]) &&
      (if Nodes == [] then head == null && tail == null
       else head == Nodes[0] && tail == Nodes[|Nodes| - 1] && tail.next == null)
    }

    /** create: an empty list, head and tail both NULL. */
    constructor ()
      ensures Valid() && fresh(Repr)
      ensures Contents == [] && head == null && tail == null
    {
      head := null;
      tail := null;
      Contents := [];
      Nodes := [];
      Repr := {this};
    }

    /**
     * insert: append (key, val) at the tail and return 0; duplicate keys are
     * accepted. `allocOk` is the outcome of allocating the node: on failure
     * 1 is returned and nothing changes.
     */
    method Insert(key: Key, val: V, allocOk: bool) returns (rc: int)
      requires Valid()
      modifies this, Repr
      ensures Valid() && fresh(Repr - old(Repr))
      ensures rc == (if allocOk then 0 else 1)
      ensures Contents == if allocOk then old(Contents) + [(key, val)] else old(Contents)
      ensures !allocOk ==> head == old(head) && tail == old(tail) && Nodes == old(Nodes)
      ensures allocOk ==> fresh(tail) && tail.key == key && tail.val == val && tail == Nodes[|Nodes| - 1]
      ensures allocOk && old(head) != null ==> head == old(head)
    {
      if !allocOk {
        return 1;
      }
      var element := new ListElement(key, val);
      if head == null {
        head := element;
      } else {
        tail.next := element;
      }
      tail := element;
      Nodes := Nodes + [element];
      Contents := Contents + [(key, val)];
      Repr := Repr + {element};
      return 0;
    }

    /** get: the value of the first entry whose key is `key`, None (NULL) if there is none. */
    method Get(key: Key) returns (r: Option<V>)
      requires Valid()
      ensures r == Lookup(Contents, key)
    {
      var tempElement := head;
      ghost var i := 0;
      while tempElement != null
        invariant 0 <= i <= |Nodes|
        invariant tempElement == (if i < |Nodes| then Nodes[i] else null)
        invariant Lookup(Contents[i..], key) == Lookup(Contents, key)
        decreases |Nodes| - i
      {
        if tempElement.key == key {
          return Some(tempElement.val);
        }
        assert Contents[i..][1..] == Contents[i + 1..];
        tempElement := tempElement.next;
        i := i + 1;
      }
      return None;
    }

    /**
     * The state of RemoveElement's scan once the first `i` nodes have been
     * visited: `kept` are the visited nodes whose key differs from `key`,
     * chained from `head`; `prev` is the last of them and links to `target`,
     * the first unvisited node; the unvisited nodes are still chained.
     */
    ghost predicate Scanned(key: Key, nodes: seq<ListElement<V>>, contents: seq<(Key, V)>, i: nat,
                            kept: seq<ListElement<V>>, keptContents: seq<(Key, V)>,
                            target: ListElement?<V>, prev: ListElement?<V>)
      reads this, nodes, kept, prev
    {
      ScanShape(Repr, key, nodes, contents, i, kept, keptContents, target) &&
      Chained(nodes, i) &&
      KeptChain(kept, target, prev)
    }

    /** The parts of the scan state that do not depend on links. */
    static ghost predicate ScanShape(repr: set<object>, key: Key, nodes: seq<ListElement<V>>, contents: seq<(Key, V)>, i: nat,
                                     kept: seq<ListElement<V>>, keptContents: seq<(Key, V)>, target: ListElement?<V>)
    {
      i <= |nodes| == |contents| && |kept| == |keptContents| &&
      keptContents == Filter(contents[..i], key) &&
      target == (if i < |nodes| then nodes[i] else null) &&
      (forall j :: 0 <= j < |nodes| ==> nodes[j] in repr) &&
      (forall j :: 0 <= j < |kept| ==> kept[j] in repr) &&
      (forall j, m :: 0 <= j < m < |nodes| ==> nodes[j] != nodes[m]) &&
      (forall j, m :: 0 <= j < m < |kept| ==> kept[j] != kept[m]) &&
      (forall j, m :: 0 <= j < |kept| && i <= m < |nodes| ==> kept[j] != nodes[m]) &&
      (forall j :: 0 <= j < |nodes| ==> nodes[j].key == contents[j].0 && nodes[j].val == contents[j].1) &&
      (forall j :: 0 <= j < |kept| ==> kept[j].key == keptContents[j].0 && kept[j].val == keptContents[j].1)
    }

    /** The nodes from index `i` on are still chained, the last one ending the list. */
    static ghost predicate Chained(nodes: seq<ListElement<V>>, i: nat)
      reads nodes
    {
      (forall j :: i <= j < |nodes| - 1 ==> nodes[j].next == nodes[j + 1]) &&
      (i < |nodes| ==> nodes[|nodes| - 1].next == null)
    }

    /** The kept nodes are chained from `head`, the last of them (`prev`) linking to `target`. */
    ghost predicate KeptChain(kept: seq<ListElement<V>>, target: ListElement?<V>, prev: ListElement?<V>)
      reads this, kept, prev
    {
      (forall j :: 0 <= j < |kept| - 1 ==> kept[j].next == kept[j + 1]) &&
      (kept == [] ==> prev == null && head == target) &&
      (kept != [] ==> prev == kept[|kept| - 1] && head == kept[0] && prev.next == target)
    }

    /** Visiting one more node keeps the link-independent part of the scan state. */
    static lemma ShapeStep(repr: set<object>, key: Key, nodes: seq<ListElement<V>>, contents: seq<(Key, V)>, i: nat,
                           kept: seq<ListElement<V>>, keptContents: seq<(Key, V)>, target: ListElement?<V>)
      requires ScanShape(repr, key, nodes, contents, i, kept, keptContents, target) && target != null
      ensures var next := if i + 1 < |nodes| then nodes[i + 1] else null;
              if target.key == key then ScanShape(repr, key, nodes, contents, i + 1, kept, keptContents, next)
              else ScanShape(repr, key, nodes, contents, i + 1, kept + [target], keptContents + [contents[i]], next)
    {
      assert contents[..i + 1] == contents[..i] + [contents[i]];
      FilterSnoc(contents[..i], contents[i], key);
    }

    /** A visited node whose key differs is appended to the kept chain. */
    lemma ScanKeep(key: Key, nodes: seq<ListElement<V>>, contents: seq<(Key, V)>, i: nat,
                   kept: seq<ListElement<V>>, keptContents: seq<(Key, V)>,
                   target: ListElement?<V>, prev: ListElement?<V>)
      requires Scanned(key, nodes, contents, i, kept, keptContents, target, prev)
      requires target != null && target.key != key
      ensures Scanned(key, nodes, contents, i + 1, kept + [target], keptContents + [contents[i]], target.next, target)
    {
      ShapeStep(Repr, key, nodes, contents, i, kept, keptContents, target);
      assert target.next == if i + 1 < |nodes| then nodes[i + 1] else null;
    }

    /** A visited node with the key is bypassed: its predecessor (or head) skips it. */
    method ScanUnlink(key: Key, ghost nodes: seq<ListElement<V>>, ghost contents: seq<(Key, V)>, ghost i: nat,
                      ghost kept: seq<ListElement<V>>, ghost keptContents: seq<(Key, V)>,
                      target: ListElement?<V>, prev: ListElement?<V>) returns (next: ListElement?<V>)
      requires Scanned(key, nodes, contents, i, kept, keptContents, target, prev)
      requires target != null && target.key == key
      modifies this, prev
      ensures Scanned(key, nodes, contents, i + 1, kept, keptContents, next, prev)
      ensures Nodes == old(Nodes) && Contents == old(Contents) && Repr == old(Repr) && tail == old(tail)
    {
      ShapeStep(Repr, key, nodes, contents, i, kept, keptContents, target);
      next := target.next;
      if prev != null {
        prev.next := next;
      } else {
        head := next;
      }
    }

    /** Once every node is visited the kept nodes are the list; `tail` moves to the last of them. */
    method ScanFinish(key: Key, ghost nodes: seq<ListElement<V>>, ghost contents: seq<(Key, V)>,
                      ghost kept: seq<ListElement<V>>, ghost keptContents: seq<(Key, V)>, prev: ListElement?<V>)
      requires this in Repr && Scanned(key, nodes, contents, |nodes|, kept, keptContents, null, prev)
      modifies this
      ensures Valid() && Repr == old(Repr)
      ensures Nodes == kept && Contents == keptContents
    {
      tail := prev;
      Nodes := kept;
      Contents := keptContents;
    }

    /**
     * removeElement, corrected: unlink every entry whose key is `key`,
     * keeping the others in order. Unlike the source, `prev` stays on the
     * last kept node and `tail` is moved when the last node goes.
     */
    method RemoveElement(key: Key)
      requires Valid()
      modifies this, Repr
      ensures Valid() && Repr == old(Repr)
      ensures Contents == Filter(old(Contents), key)
    {
      ghost var nodes, contents := Nodes, Contents;
      var target := head;
      var prev: ListElement?<V> := null;
      ghost var i := 0;
      ghost var kept: seq<ListElement<V>> := [];
      ghost var keptContents: seq<(Key, V)> := [];
      while target != null
        invariant Scanned(key, nodes, contents, i, kept, keptContents, target, prev)
        invariant Nodes == nodes && Contents == contents && Repr == old(Repr)
        decreases |nodes| - i
      {
        if target.key == key {
          target := ScanUnlink(key, nodes, contents, i, kept, keptContents, target, prev);
        } else {
          ScanKeep(key, nodes, contents, i, kept, keptContents, target, prev);
          kept, keptContents := kept + [target], keptContents + [contents[i]];
          prev, target := target, target.next;
        }
        i := i + 1;
      }
      assert contents[..|nodes|] == contents;
      ScanFinish(key, nodes, contents, kept, keptContents, prev);
    }

    /**
     * destroy: free every node, head first, then the container. The loop
     * reads head->next before anything else, so the list must not be empty.
     * Returns the nodes in the order they are freed.
     */
    method Destroy() returns (freed: seq<ListElement<V>>)
      requires Valid() && head != null
      modifies this
      ensures freed == old(Nodes)
    {
      ghost var nodes := Nodes;
      freed := [];
      ghost var i := 0;
      while head.next != null
        invariant 0 <= i < |nodes|
        invariant head == nodes[i] && freed == nodes[..i]
        invariant head.next == (if i + 1 < |nodes| then nodes[i + 1] else null)
        invariant forall j :: 0 <= j < |nodes| - 1 ==> nodes[j].next == nodes[j + 1]
        invariant nodes[|nodes| - 1].next == null
        decreases |nodes| - i
      {
        var target := head;
        head := head.next;
        freed := freed + [target];
        i := i + 1;
      }
      freed := freed + [head];
      assert nodes[..i] + [nodes[i]] == nodes;
    }
  }
}
