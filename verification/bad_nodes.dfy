/**
 * The `find_bad_nodes` activity: a node is "bad" when its decimal name denotes a
 * multiple of 5. The same list comprehension appears three times in the repository
 * (inline in the older cluster manager and in two sibling `activities` modules).
 */
module BadNodes {
  import opened Common
  import opened Seqs
  import opened Decimal

  /** The node name reads as an integer that is a multiple of 5 (for Python's floored `%`
      and Dafny's Euclidean `%` alike, `x % 5 == 0` holds exactly when 5 divides `x`). */
  predicate IsBad(name: string) {
    var v := ParseInt(name);
    v.Some? && v.value % 5 == 0
  }

  predicate AllParse(nodes: seq<string>) {
    forall i :: 0 <= i < |nodes| ==> ParseInt(nodes[i]).Some?
  }

  /** The `ValueError` that `int()` raises on a name that is not an integer literal. */
  function InvalidLiteral(name: string): string {
    "invalid literal for int() with base 10: '" + name + "'"
  }

  /** Every bad name of `nodes`, in order and with its repetitions. */
  function BadNames(nodes: seq<string>): seq<string> {
    if |nodes| == 0 then [] else (if IsBad(nodes[0]) then [nodes[0]] else []) + BadNames(nodes[1..])
  }

  /**
   * `[n for n in nodes if int(n) % 5 == 0]`, evaluated left to right: the first name that
   * does not parse raises.
   */
  function FindBadNodes(nodes: seq<string>): (r: Result<seq<string>>)
    ensures r.Err? <==> !AllParse(nodes)
    ensures r.Ok? ==> IsSubsequence(r.value, nodes)
    ensures r.Ok? ==> forall n :: n in r.value <==> n in nodes && IsBad(n)
    ensures r.Ok? ==> r.value == BadNames(nodes)
  {
    if |nodes| == 0 then Ok([])
    else
      match ParseInt(nodes[0])
      case None => Err(InvalidLiteral(nodes[0]))
      case Some(v) =>
        var rest := FindBadNodes(nodes[1..]);
        assert AllParse(nodes) <==> AllParse(nodes[1..]) by {
          if AllParse(nodes[1..]) {
            forall i | 0 <= i < |nodes| ensures ParseInt(nodes[i]).Some? {
              if i > 0 { assert nodes[i] == nodes[1..][i - 1]; }
            }
          }
          if AllParse(nodes) {
            forall i | 0 <= i < |nodes[1..]| ensures ParseInt(nodes[1..][i]).Some? {
              assert nodes[1..][i] == nodes[i + 1];
            }
          }
        }
        assert forall n :: n in nodes <==> n == nodes[0] || n in nodes[1..];
        match rest
        case Err(e) => Err(e)
        case Ok(tail) =>
          assert nodes == [nodes[0]] + nodes[1..];
          assert ([nodes[0]] + tail)[1..] == tail;
          SubsequenceSkip(tail, nodes[1..], nodes[0]);
          Ok(if v % 5 == 0 then [nodes[0]] + tail else tail)
  }

  /** Empty input, empty output. */
  lemma FindBadNodesEmpty()
    ensures FindBadNodes([]) == Ok([])
  {
  }

  /** Filtering the output again changes nothing. */
  lemma {:induction false} FindBadNodesIdempotent(nodes: seq<string>)
    requires FindBadNodes(nodes).Ok?
    ensures FindBadNodes(FindBadNodes(nodes).value) == FindBadNodes(nodes)
  {
    if |nodes| > 0 {
      var v := ParseInt(nodes[0]).value;
      FindBadNodesIdempotent(nodes[1..]);
      var tail := FindBadNodes(nodes[1..]).value;
      if v % 5 == 0 {
        assert ([nodes[0]] + tail)[1..] == tail;
      }
    }
  }

  /** `[str(k) for k in range(lo, hi) if k % 5 == 0]`. */
  function MultiplesOfFive(lo: nat, hi: nat): seq<string>
    decreases hi - lo
  {
    if lo >= hi then [] else (if lo % 5 == 0 then [Digits(lo)] else []) + MultiplesOfFive(lo + 1, hi)
  }

  /** On the names `str(lo) .. str(hi - 1)` the filter keeps exactly the multiples of 5, in order. */
  lemma FindBadNodesOnRange(lo: nat, hi: nat)
    ensures FindBadNodes(DecimalRange(lo, hi)) == Ok(MultiplesOfFive(lo, hi))
  {
    RangeParses(lo, hi);
    BadNamesOnRange(lo, hi);
  }

  lemma RangeParses(lo: nat, hi: nat)
    ensures AllParse(DecimalRange(lo, hi))
  {
    var names := DecimalRange(lo, hi);
    forall i | 0 <= i < |names| ensures ParseInt(names[i]).Some? {
      ParseDigits(lo + i);
    }
  }

  lemma {:induction false} BadNamesOnRange(lo: nat, hi: nat)
    ensures BadNames(DecimalRange(lo, hi)) == MultiplesOfFive(lo, hi)
    decreases hi - lo
  {
    if lo < hi {
      var names := DecimalRange(lo, hi);
      assert names[0] == Digits(lo);
      assert names[1..] == DecimalRange(lo + 1, hi);
      ParseDigits(lo);
      assert IsBad(names[0]) <==> lo % 5 == 0;
      BadNamesOnRange(lo + 1, hi);
    }
  }

  lemma MultiplesOfFiveStep(lo: nat, hi: nat)
    requires lo % 5 == 0 && lo + 5 <= hi
    ensures MultiplesOfFive(lo, hi) == [Digits(lo)] + MultiplesOfFive(lo + 5, hi)
  {
    assert MultiplesOfFive(lo, hi) == [Digits(lo)] + MultiplesOfFive(lo + 1, hi);
    ResidueSteps(lo);
    SkipNonMultiple(lo + 1, hi);
    SkipNonMultiple(lo + 2, hi);
    SkipNonMultiple(lo + 3, hi);
    SkipNonMultiple(lo + 4, hi);
  }

  lemma ResidueSteps(lo: nat)
    requires lo % 5 == 0
    ensures (lo + 1) % 5 == 1 && (lo + 2) % 5 == 2 && (lo + 3) % 5 == 3 && (lo + 4) % 5 == 4
  {
  }

  lemma SkipNonMultiple(lo: nat, hi: nat)
    requires lo % 5 != 0
    ensures MultiplesOfFive(lo, hi) == MultiplesOfFive(lo + 1, hi)
  {
    if lo < hi {
      assert [] + MultiplesOfFive(lo + 1, hi) == MultiplesOfFive(lo + 1, hi);
    }
  }

  /** Over the 25 node names "0" .. "24" the bad nodes are "0", "5", "10", "15" and "20". */
  lemma FindBadNodesOnClusterNames()
    ensures FindBadNodes(DecimalRange(0, 25)) == Ok(["0", "5", "10", "15", "20"])
  {
    FindBadNodesOnRange(0, 25);
    ClusterMultiplesOfFive();
  }

  lemma ClusterMultiplesOfFive()
    ensures MultiplesOfFive(0, 25) == ["0", "5", "10", "15", "20"]
  {
    MultiplesOfFiveStep(20, 25);
    MultiplesOfFiveStep(15, 25);
    MultiplesOfFiveStep(10, 25);
    MultiplesOfFiveStep(5, 25);
    MultiplesOfFiveStep(0, 25);
    SmallNames();
  }

  lemma SmallNames()
    ensures Digits(0) == "0" && Digits(5) == "5"
    ensures Digits(10) == "10" && Digits(15) == "15" && Digits(20) == "20"
  {
    assert Digits(1) == "1" && Digits(2) == "2";
  }
}
