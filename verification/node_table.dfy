/**
 * The node table shared by both cluster-manager workflows: an ordered dict from node
 * name to holder, where `None` is a free node, the string "BAD!" marks a node that
 * failed a health check, and any other string is the name of the job using the node.
 * A job literally named "BAD!" is indistinguishable from a bad node, as in Python.
 */
module NodeTable {
  import opened Common
  import opened Seqs
  import opened Decimal
  import opened PyDict
  import opened BadNodes

  const BAD: string := "BAD!"
  const NODE_COUNT: nat := 25

  type Holder = Option<string>

  /** A Python dict cannot hold a key twice. */
  type Nodes = d: Dict<string, Holder> | UniqueKeys(d) witness []

  /** The conditions of the list comprehensions over `nodes.items()`. */
  datatype Filter =
    | Free            // v is None
    | Assigned        // v is not None and v != "BAD!"
    | Taken           // v is not None
    | HeldBy(job: string)  // v == job

  predicate Matches(f: Filter, h: Holder) {
    match f
    case Free => h.None?
    case Assigned => h.Some? && h.value != BAD
    case Taken => h.Some?
    case HeldBy(job) => h == Some(job)
  }

  /** Node `k` exists and its holder passes `f`. */
  predicate Is(nodes: Nodes, k: string, f: Filter) {
    var h := Get(nodes, k);
    h.Some? && Matches(f, h.value)
  }

  /** `[k for k, v in nodes.items() if <f>(v)]`. */
  function Select(nodes: Nodes, f: Filter): (ks: seq<string>)
    ensures IsSubsequence(ks, Keys(nodes))
    ensures forall k :: k in ks <==> Is(nodes, k, f)
    ensures |ks| <= |nodes|
  {
    if |nodes| == 0 then []
    else
      var rest: Nodes := nodes[1..];
      var tail := Select(rest, f);
      assert Keys(nodes) == [nodes[0].0] + Keys(rest);
      SubsequenceMembers(tail, Keys(rest));
      assert nodes[0].0 !in Keys(rest) by {
        forall i | 0 <= i < |rest| ensures Keys(rest)[i] != nodes[0].0 {
          assert Keys(nodes)[i + 1] != Keys(nodes)[0];
        }
      }
      SubsequenceSkip(tail, Keys(rest), nodes[0].0);
      assert ([nodes[0].0] + tail)[1..] == tail;
      if Matches(f, nodes[0].1) then [nodes[0].0] + tail else tail
  }

  /** `get_unassigned_nodes`. */
  function Unassigned(nodes: Nodes): seq<string> {
    Select(nodes, Free)
  }

  /** `get_assigned_nodes`: holding a job, bad nodes excluded. */
  function AssignedNodes(nodes: Nodes): seq<string> {
    Select(nodes, Assigned)
  }

  /** `for node in ks: nodes[node] = v`. */
  function SetAll(nodes: Nodes, ks: seq<string>, v: Holder): (r: Nodes)
    ensures forall k :: Get(r, k) == (if k in ks then Some(v) else Get(nodes, k))
    ensures (forall k :: k in ks ==> k in Keys(nodes)) ==> Keys(r) == Keys(nodes)
  {
    PutAll(nodes, ks, v)
  }

  /** The names `str(k)` for `k in range(25)`. */
  function NodeNames(): seq<string> {
    DecimalRange(0, NODE_COUNT)
  }

  function FreeEntries(names: seq<string>): (d: Dict<string, Holder>)
    ensures Keys(d) == names
    ensures forall i :: 0 <= i < |d| ==> d[i].1 == None
  {
    if |names| == 0 then [] else [(names[0], None)] + FreeEntries(names[1..])
  }

  lemma NodeNamesDistinct()
    ensures Distinct(NodeNames())
  {
    forall i, j | 0 <= i < j < NODE_COUNT ensures NodeNames()[i] != NodeNames()[j] {
      if NodeNames()[i] == NodeNames()[j] {
        DigitsInjective(i, j);
      }
    }
  }

  /** A table of free nodes with the given distinct names, in that order. */
  function FreeTable(names: seq<string>): (r: Nodes)
    requires Distinct(names)
    ensures Keys(r) == names
    ensures forall k :: k in names ==> Get(r, k) == Some(None)
    ensures forall i :: 0 <= i < |r| ==> r[i].1 == None
  {
    var d := FreeEntries(names);
    forall k | k in names ensures Get(d, k) == Some(None) {
      var i :| 0 <= i < |names| && names[i] == k;
      GetEntry(d, i);
    }
    d
  }

  /** `{str(k): None for k in range(25)}`. */
  function FreshNodes(): (r: Nodes)
    ensures Keys(r) == NodeNames()
    ensures forall k :: k in NodeNames() ==> Get(r, k) == Some(None)
    ensures forall i :: 0 <= i < |r| ==> r[i].1 == None
  {
    NodeNamesDistinct();
    FreeTable(NodeNames())
  }

  /** Every node of a fresh table is free and none is assigned. */
  lemma FreshNodesCounts()
    ensures |Unassigned(FreshNodes())| == NODE_COUNT
    ensures |AssignedNodes(FreshNodes())| == 0
    ensures forall j :: |Select(FreshNodes(), HeldBy(j))| == 0
    ensures |Select(FreshNodes(), Taken)| == 0
  {
    var d := FreshNodes();
    FreeSelect(d);
  }

  lemma {:induction false} FreeSelect(d: Nodes)
    requires forall i :: 0 <= i < |d| ==> d[i].1 == None
    ensures |Select(d, Free)| == |d|
    ensures Select(d, Assigned) == [] && Select(d, Taken) == []
    ensures forall j :: Select(d, HeldBy(j)) == []
  {
    if |d| > 0 {
      var rest: Nodes := d[1..];
      FreeSelect(rest);
    }
  }

  /** Setting one existing node moves it from the filters its old holder passed to those its new holder passes. */
  lemma {:induction false} SelectPut(d: Nodes, k: string, v: Holder, f: Filter)
    requires k in Keys(d)
    ensures UniqueKeys(Put(d, k, v))
    ensures |Select(Put(d, k, v), f)| ==
              |Select(d, f)| - (if Matches(f, Get(d, k).value) then 1 else 0) + (if Matches(f, v) then 1 else 0)
  {
    var rest: Nodes := d[1..];
    assert Keys(d) == [d[0].0] + Keys(rest);
    if d[0].0 != k {
      SelectPut(rest, k, v, f);
      var r: Nodes := Put(d, k, v);
      assert r[1..] == Put(rest, k, v);
    } else {
      var r: Nodes := Put(d, k, v);
      assert r[1..] == rest;
    }
  }

  /**
   * Setting distinct existing nodes that all pass (or all fail) `f` to `v` changes the
   * count of `f`-nodes by the number of nodes set.
   */
  lemma {:induction false} SelectSetAll(d: Nodes, ks: seq<string>, v: Holder, f: Filter, before: bool)
    requires Distinct(ks)
    requires forall k :: k in ks ==> k in Keys(d) && Matches(f, Get(d, k).value) == before
    ensures |Select(SetAll(d, ks, v), f)| ==
              |Select(d, f)| - (if before then |ks| else 0) + (if Matches(f, v) then |ks| else 0)
    decreases |ks|
  {
    if |ks| > 0 {
      SelectPut(d, ks[0], v, f);
      var d1: Nodes := Put(d, ks[0], v);
      assert forall k :: k in ks[1..] ==> k in ks && k != ks[0] by {
        forall k | k in ks[1..] ensures k in ks && k != ks[0] {
          var i :| 0 <= i < |ks[1..]| && ks[1..][i] == k;
          assert ks[i + 1] == k;
        }
      }
      assert Distinct(ks[1..]) by {
        forall i, j | 0 <= i < j < |ks[1..]| ensures ks[1..][i] != ks[1..][j] {
          assert ks[1..][i] == ks[i + 1] && ks[1..][j] == ks[j + 1];
        }
      }
      SelectSetAll(d1, ks[1..], v, f, before);
      assert SetAll(d, ks, v) == SetAll(d1, ks[1..], v);
    }
  }

  /** `unassigned_nodes[:n]`: the first `n` free nodes in key order (Python slice semantics). */
  function FirstFree(nodes: Nodes, n: int): (ks: seq<string>)
    ensures ks <= Unassigned(nodes)
    ensures 0 <= n <= |Unassigned(nodes)| ==> |ks| == n
    ensures forall k :: k in ks ==> Is(nodes, k, Free) && k in Keys(nodes)
  {
    var free := Unassigned(nodes);
    var ks := PyPrefix(free, n);
    SubsequenceMembers(free, Keys(nodes));
    assert forall k :: k in ks ==> k in free by {
      forall k | k in ks ensures k in free {
        var i :| 0 <= i < |ks| && ks[i] == k;
        assert free[i] == k;
      }
    }
    ks
  }

  /** The first free nodes are distinct. */
  lemma FirstFreeDistinct(nodes: Nodes, n: int)
    ensures Distinct(FirstFree(nodes, n))
  {
    var free := Unassigned(nodes);
    SubsequenceOfDistinct(free, Keys(nodes));
    PrefixIsSubsequence(FirstFree(nodes, n), free);
    SubsequenceOfDistinct(FirstFree(nodes, n), free);
  }

  /** Giving distinct free nodes to a job (not named "BAD!") moves them from free to that job. */
  lemma AssignCounts(nodes: Nodes, ks: seq<string>, job: string)
    requires Distinct(ks)
    requires forall k :: k in ks ==> Is(nodes, k, Free)
    requires job != BAD
    ensures var t := SetAll(nodes, ks, Some(job));
              && |Select(t, Free)| == |Select(nodes, Free)| - |ks|
              && |Select(t, Assigned)| == |Select(nodes, Assigned)| + |ks|
              && |Select(t, Taken)| == |Select(nodes, Taken)| + |ks|
              && forall j :: |Select(t, HeldBy(j))| == |Select(nodes, HeldBy(j))| + (if j == job then |ks| else 0)
  {
    SelectSetAll(nodes, ks, Some(job), Free, true);
    SelectSetAll(nodes, ks, Some(job), Assigned, false);
    SelectSetAll(nodes, ks, Some(job), Taken, false);
    forall j ensures |Select(SetAll(nodes, ks, Some(job)), HeldBy(j))| == |Select(nodes, HeldBy(j))| + (if j == job then |ks| else 0) {
      SelectSetAll(nodes, ks, Some(job), HeldBy(j), false);
    }
  }

  /** Freeing the nodes of a job (not named "BAD!") moves them from that job to free. */
  lemma ReleaseCounts(nodes: Nodes, job: string)
    requires job != BAD
    ensures var ks := Select(nodes, HeldBy(job));
            var t := SetAll(nodes, ks, None);
              && |Select(t, Free)| == |Select(nodes, Free)| + |ks|
              && |Select(t, Assigned)| == |Select(nodes, Assigned)| - |ks|
              && |Select(t, Taken)| == |Select(nodes, Taken)| - |ks|
              && forall j :: |Select(t, HeldBy(j))| == (if j == job then 0 else |Select(nodes, HeldBy(j))|)
  {
    var ks := Select(nodes, HeldBy(job));
    SubsequenceOfDistinct(ks, Keys(nodes));
    SubsequenceMembers(ks, Keys(nodes));
    SelectSetAll(nodes, ks, None, Free, false);
    SelectSetAll(nodes, ks, None, Assigned, true);
    SelectSetAll(nodes, ks, None, Taken, true);
    forall j ensures |Select(SetAll(nodes, ks, None), HeldBy(j))| == (if j == job then 0 else |Select(nodes, HeldBy(j))|) {
      SelectSetAll(nodes, ks, None, HeldBy(j), j == job);
    }
  }

  /**
   * Marking some of the assigned nodes "BAD!" (as a health check does) takes exactly those
   * nodes out of the assigned count, while the count of non-free nodes stays the same.
   */
  lemma MarkBadCounts(nodes: Nodes, bad: seq<string>)
    requires IsSubsequence(bad, AssignedNodes(nodes))
    ensures var t := SetAll(nodes, bad, Some(BAD));
              && |Select(t, Assigned)| == |Select(nodes, Assigned)| - |bad|
              && |Select(t, Taken)| == |Select(nodes, Taken)|
              && |Select(t, Free)| == |Select(nodes, Free)|
  {
    var inUse := AssignedNodes(nodes);
    SubsequenceOfDistinct(inUse, Keys(nodes));
    SubsequenceOfDistinct(bad, inUse);
    SubsequenceMembers(bad, inUse);
    SubsequenceMembers(inUse, Keys(nodes));
    SelectSetAll(nodes, bad, Some(BAD), Assigned, true);
    SelectSetAll(nodes, bad, Some(BAD), Taken, true);
    SelectSetAll(nodes, bad, Some(BAD), Free, false);
  }

  /** Every node of a table built from `range(25)` has a name `int()` accepts. */
  lemma NodeNamesParse(nodes: Nodes)
    requires Keys(nodes) == NodeNames()
    ensures AllParse(AssignedNodes(nodes))
  {
    var inUse := AssignedNodes(nodes);
    SubsequenceMembers(inUse, Keys(nodes));
    forall i | 0 <= i < |inUse| ensures ParseInt(inUse[i]).Some? {
      var k := inUse[i];
      assert k in NodeNames();
      var j :| 0 <= j < NODE_COUNT && NodeNames()[j] == k;
      ParseDigits(j);
    }
  }

  function Max(a: int, b: int): (m: int)
    ensures m >= a && m >= b && (m == a || m == b)
  {
    if a >= b then a else b
  }

  /** The message both versions raise when too few nodes are free. */
  function NotEnoughNodesError(numNodes: int, available: nat): string {
    "Cannot allocate " + IntToText(numNodes) + " nodes; have only " + Digits(available) + " available"
  }

  // The job names used by the cluster lifecycle driver: "task-0", "task-1", ...

  function TaskName(i: nat): string {
    "task-" + Digits(i)
  }

  function TaskNames(count: nat): (names: seq<string>)
    ensures |names| == count
    ensures forall i :: 0 <= i < count ==> names[i] == TaskName(i)
  {
    if count == 0 then [] else TaskNames(count - 1) + [TaskName(count - 1)]
  }

  lemma TaskNameFacts(i: nat, count: nat)
    ensures TaskName(i) != BAD
    ensures TaskName(i) in TaskNames(count) <==> i < count
  {
    assert TaskName(i)[0] == 't';
    if TaskName(i) in TaskNames(count) {
      var j :| 0 <= j < count && TaskNames(count)[j] == TaskName(i);
      assert TaskName(i)[5..] == Digits(i) && TaskName(j)[5..] == Digits(j);
      DigitsInjective(i, j);
    }
    if i < count {
      assert TaskNames(count)[i] == TaskName(i);
    }
  }
}
