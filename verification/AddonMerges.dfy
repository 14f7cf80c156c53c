/** What a plan with addons cleans up and verifies (intent/compose.go mergeCleanup, mergeVerification): the
    first to clean a node up is the one that counts, and the last to verify one. */
module AddonMerges {
  import opened AddonLists
  import opened Addons
  import opened Compose

  // ---------- Cleanup ----------

  predicate CleansUp(steps: seq<CleanupStep>, node: string) {
    exists i :: 0 <= i < |steps| && steps[i].node == node
  }

  /** parent, with the first n of more that clean up a node it does not. */
  function MergedCleanup(parent: seq<CleanupStep>, more: seq<CleanupStep>, n: nat): seq<CleanupStep>
    requires n <= |more|
  {
    if n == 0 then parent
    else
      var before := MergedCleanup(parent, more, n - 1);
      if CleansUp(before, more[n - 1].node) then before else before + [more[n - 1]]
  }

  /** The cleanup of a plan with the first n addons. */
  function CleanupAfter(plan: seq<CleanupStep>, addons: seq<Addon>, n: nat): seq<CleanupStep>
    requires n <= |addons|
  {
    if n == 0 then plan
    else
      var before := CleanupAfter(plan, addons, n - 1);
      MergedCleanup(before, addons[n - 1].cleanup, |addons[n - 1].cleanup|)
  }

  /** The plan's cleanup and then the addons', in order. */
  function AllCleanup(plan: seq<CleanupStep>, addons: seq<Addon>, n: nat): seq<CleanupStep>
    requires n <= |addons|
  {
    if n == 0 then plan else AllCleanup(plan, addons, n - 1) + addons[n - 1].cleanup
  }

  ghost predicate FirstFor(steps: seq<CleanupStep>, node: string, i: nat) {
    i < |steps| && steps[i].node == node && forall j :: 0 <= j < i ==> steps[j].node != node
  }

  /** merged holds of each node in all the first step there is for it, once. */
  ghost predicate FirstOfEach(merged: seq<CleanupStep>, all: seq<CleanupStep>) {
    && (forall i, j :: 0 <= i < j < |merged| ==> merged[i].node != merged[j].node)
    && (forall s :: s in merged ==> exists i: nat :: FirstFor(all, s.node, i) && all[i] == s)
    && (forall i: nat :: i < |all| ==> CleansUp(merged, all[i].node))
  }

  lemma OneMoreCleanup(merged: seq<CleanupStep>, all: seq<CleanupStep>, s: CleanupStep)
    requires FirstOfEach(merged, all)
    ensures FirstOfEach(if CleansUp(merged, s.node) then merged else merged + [s], all + [s])
  {
    var now, more := if CleansUp(merged, s.node) then merged else merged + [s], all + [s];
    forall x | x in now ensures exists i: nat :: FirstFor(more, x.node, i) && more[i] == x {
      if x in merged {
        var i: nat :| FirstFor(all, x.node, i) && all[i] == x;
        assert FirstFor(more, x.node, i);
      } else {
        assert FirstFor(more, x.node, |all|) by {
          forall j | 0 <= j < |all| ensures more[j].node != s.node {
            assert CleansUp(merged, all[j].node);
          }
        }
      }
    }
    forall i: nat | i < |more| ensures CleansUp(now, more[i].node) {
      if i < |all| {
        assert CleansUp(merged, all[i].node);
        var j :| 0 <= j < |merged| && merged[j].node == all[i].node;
        assert now[j] == merged[j];
      } else if !CleansUp(merged, s.node) {
        assert now[|merged|].node == s.node;
      }
    }
    if !CleansUp(merged, s.node) {
      forall i | 0 <= i < |merged| ensures now[i].node != s.node {
      }
    }
  }

  lemma {:induction false} MergingCleanup(merged: seq<CleanupStep>, all: seq<CleanupStep>, more: seq<CleanupStep>,
                                          n: nat)
    requires FirstOfEach(merged, all) && n <= |more|
    ensures FirstOfEach(MergedCleanup(merged, more, n), all + more[..n])
  {
    hide FirstOfEach, CleansUp;
    if n == 0 {
      assert all + more[..0] == all;
    } else {
      MergingCleanup(merged, all, more, n - 1);
      OneMoreCleanup(MergedCleanup(merged, more, n - 1), all + more[..n - 1], more[n - 1]);
      assert all + more[..n] == all + more[..n - 1] + [more[n - 1]];
    }
  }

  lemma {:induction false} AppendsCleanup(parent: seq<CleanupStep>, more: seq<CleanupStep>, n: nat)
    requires n <= |more|
    ensures parent <= MergedCleanup(parent, more, n)
  {
    if n > 0 {
      AppendsCleanup(parent, more, n - 1);
    }
  }

  /** A plan that cleans each node up once still does with any addons; its own steps come first, and of the
      addons' the first for each node there is. */
  lemma {:induction false} FirstCleanupCounts(plan: seq<CleanupStep>, addons: seq<Addon>, n: nat)
    requires n <= |addons| && forall i, j :: 0 <= i < j < |plan| ==> plan[i].node != plan[j].node
    ensures plan <= CleanupAfter(plan, addons, n)
      && FirstOfEach(CleanupAfter(plan, addons, n), AllCleanup(plan, addons, n))
  {
    if n == 0 {
      OwnCleanup(plan);
    } else {
      FirstCleanupCounts(plan, addons, n - 1);
      var more := addons[n - 1].cleanup;
      MergingCleanup(CleanupAfter(plan, addons, n - 1), AllCleanup(plan, addons, n - 1), more, |more|);
      AppendsCleanup(CleanupAfter(plan, addons, n - 1), more, |more|);
      assert more[..|more|] == more;
    }
  }

  lemma OwnCleanup(plan: seq<CleanupStep>)
    requires forall i, j :: 0 <= i < j < |plan| ==> plan[i].node != plan[j].node
    ensures FirstOfEach(plan, plan)
  {
    forall s | s in plan ensures exists i: nat :: FirstFor(plan, s.node, i) && plan[i] == s {
      var i: nat :| i < |plan| && plan[i] == s;
      assert FirstFor(plan, s.node, i);
    }
  }

  // ---------- Verification ----------

  predicate Verifies(checks: seq<Check>, node: string) {
    exists i :: 0 <= i < |checks| && checks[i].node == node
  }

  /** Of the first n, those on a node that more does not verify. */
  function NotReplaced(checks: seq<Check>, more: seq<Check>, n: nat): seq<Check>
    requires n <= |checks|
  {
    if n == 0 then []
    else NotReplaced(checks, more, n - 1) + if Verifies(more, checks[n - 1].node) then [] else [checks[n - 1]]
  }

  function MergedChecks(parent: seq<Check>, more: seq<Check>): seq<Check> {
    NotReplaced(parent, more, |parent|) + more
  }

  /** A verification step under its addon's names. */
  function RenameCheck(ids: set<string>, prefix: string, c: Check): Check {
    c.(refs := seq(|c.refs|, i requires 0 <= i < |c.refs| => RenameRef(ids, prefix, c.refs[i])))
  }

  function RenamedChecks(ids: set<string>, prefix: string, checks: seq<Check>): seq<Check> {
    seq(|checks|, i requires 0 <= i < |checks| => RenameCheck(ids, prefix, checks[i]))
  }

  /** What the i-th addon verifies, under the names its steps get. */
  function ChecksOf(a: Addon, i: nat): seq<Check> {
    if a.template.None? then [] else RenamedChecks(IdsOf(a.template.value), Prefix(i), a.checks)
  }

  /** What a plan with the first n addons verifies. */
  function ChecksAfter(plan: seq<Check>, addons: seq<Addon>, n: nat): seq<Check>
    requires n <= |addons|
  {
    if n == 0 then plan else MergedChecks(ChecksAfter(plan, addons, n - 1), ChecksOf(addons[n - 1], n - 1))
  }

  /** Of the first n, those on the node. */
  function ChecksOn(checks: seq<Check>, node: string, n: nat): seq<Check>
    requires n <= |checks|
  {
    if n == 0 then [] else ChecksOn(checks, node, n - 1) + if checks[n - 1].node == node then [checks[n - 1]] else []
  }

  lemma {:induction false} OnJoin(a: seq<Check>, b: seq<Check>, node: string, n: nat)
    requires n <= |b|
    ensures ChecksOn(a + b, node, |a| + n) == ChecksOn(a, node, |a|) + ChecksOn(b, node, n)
  {
    if n == 0 {
      OnPrefix(a, b, node, |a|);
    } else {
      OnJoin(a, b, node, n - 1);
    }
  }

  lemma {:induction false} OnPrefix(a: seq<Check>, b: seq<Check>, node: string, n: nat)
    requires n <= |a|
    ensures ChecksOn(a + b, node, n) == ChecksOn(a, node, n)
  {
    if n > 0 {
      OnPrefix(a, b, node, n - 1);
    }
  }

  lemma {:induction false} OnNone(checks: seq<Check>, node: string, n: nat)
    requires n <= |checks| && !Verifies(checks, node)
    ensures ChecksOn(checks, node, n) == []
  {
    if n > 0 {
      OnNone(checks, node, n - 1);
    }
  }

  lemma {:induction false} OnNotReplaced(checks: seq<Check>, more: seq<Check>, node: string, n: nat)
    requires n <= |checks|
    ensures var left := NotReplaced(checks, more, n);
      ChecksOn(left, node, |left|) == if Verifies(more, node) then [] else ChecksOn(checks, node, n)
  {
    if n > 0 {
      OnNotReplaced(checks, more, node, n - 1);
      var left := NotReplaced(checks, more, n - 1);
      OnJoin(left, [checks[n - 1]], node, 1);
      OnOne(checks[n - 1], node);
      assert left + [] == left && ChecksOn(left, node, |left|) + [] == ChecksOn(left, node, |left|);
    }
  }

  lemma OnOne(c: Check, node: string)
    ensures ChecksOn([c], node, 1) == if c.node == node then [c] else []
  {
    assert ChecksOn([c], node, 0) == [];
  }

  /** Merging: on a node both verify only the newcomer's count, on any other its own. */
  lemma MergedOn(parent: seq<Check>, more: seq<Check>, node: string)
    ensures var all := MergedChecks(parent, more);
      ChecksOn(all, node, |all|)
        == if Verifies(more, node) then ChecksOn(more, node, |more|) else ChecksOn(parent, node, |parent|)
  {
    var left := NotReplaced(parent, more, |parent|);
    OnNotReplaced(parent, more, node, |parent|);
    OnJoin(left, more, node, |more|);
    if !Verifies(more, node) {
      OnNone(more, node, |more|);
      assert ChecksOn(left, node, |left|) + [] == ChecksOn(left, node, |left|);
    }
  }

  /** What the plan verifies on a node is what the last addon to verify it does, or else its own. */
  lemma {:induction false} LastCheckCounts(plan: seq<Check>, addons: seq<Addon>, n: nat, node: string)
    returns (last: int)
    requires n <= |addons|
    ensures last < n && forall j :: 0 <= j < n && last < j ==> !Verifies(ChecksOf(addons[j], j), node)
    ensures last >= 0 ==> Verifies(ChecksOf(addons[last], last), node)
    ensures var all, from := ChecksAfter(plan, addons, n), if last >= 0 then ChecksOf(addons[last], last) else plan;
      ChecksOn(all, node, |all|) == ChecksOn(from, node, |from|)
  {
    hide MergedChecks, ChecksOf, ChecksOn, Verifies;
    if n == 0 {
      last := -1;
    } else {
      MergedOn(ChecksAfter(plan, addons, n - 1), ChecksOf(addons[n - 1], n - 1), node);
      last := LastCheckCounts(plan, addons, n - 1, node);
      if Verifies(ChecksOf(addons[n - 1], n - 1), node) {
        last := n - 1;
      }
    }
  }
}
