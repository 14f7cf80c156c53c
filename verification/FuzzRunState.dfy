/** The fuzz cases' state as the engine keeps it, changed in place (engine/fuzz.go fuzzRunState). */
module FuzzRunState {
  import opened FuzzState

  class FuzzRun {
    const layout: Layout
    var groups: map<string, Group>
    var caseSetup: map<string, Setup>
    var stale: set<string>
    ghost var history: map<string, seq<Event>>

    ghost function View(): Fuzz
      reads this
    {
      Fuzz(layout, groups, caseSetup, stale, history)
    }

    constructor (l: Layout)
      ensures View() == Fuzz(l, map[], map[], {}, map[])
    {
      layout, groups, caseSetup, stale, history := l, map[], map[], {}, map[];
    }

    ghost method Note(c: string, e: Event)
      requires IsCaseOfTarget(layout, c)
      modifies this`history
      ensures View() == Noting(old(View()), c, e)
    {
      var t := layout.caseTarget[c];
      history := history[t := History(View(), t) + [e]];
    }

    /** The group of case c's target. */
    function TargetGroup(c: string): (g: Group)
      requires IsCaseOfTarget(layout, c)
      reads this
      ensures g == GroupOf(View(), c)
    {
      if layout.caseTarget[c] in groups then groups[layout.caseTarget[c]] else NewGroup
    }

    method TargetHasPassed(s: Step) returns (passed: bool)
      ensures passed == TargetPassed(View(), s)
    {
      match s.kind {
        case Own => passed := false;
        case CopyOf(c, _) =>
          passed := false;
          if c in layout.caseTarget && layout.caseTarget[c] in layout.targets {
            passed := TargetGroup(c).passed;
          }
        case CaseOf(t) => passed := t in layout.targets && t in groups && groups[t].passed;
      }
    }

    /** What becomes of a setup copy about to run: a live copy stands in for it, its case is not to be
        sent at all, or it is sent, and with the first of a case whatever was live is no longer. */
    method BeforeSetupCopy(c: string, copy: string, original: string) returns (d: Decision)
      modifies this
      ensures d == Decide(old(View()), c, original)
      ensures d.StandIn? ==> View() == AfterStandIn(old(View()), c, copy, d.live)
      ensures d.DoNotSend? ==> View() == WithSetup(old(View()), c, SetupFailed)
      ensures d.Send? ==> View() == Preparing(old(View()), c)
    {
      if c !in layout.caseTarget || layout.caseTarget[c] !in layout.targets {
        return Send;
      }
      var g := TargetGroup(c);
      if g.stopped {
        caseSetup := caseSetup[c := SetupFailed];
        return DoNotSend;
      }
      if layout.targets[layout.caseTarget[c]].scope.Reuse? && g.clean && g.building != c && original in g.live
          && g.live[original] != "" {
        caseSetup := caseSetup[c := Reused];
        Note(c, CopyStood(copy, g.live[original], c));
        return StandIn(g.live[original]);
      }
      if g.building != c {
        groups := groups[layout.caseTarget[c] := g.(live := map[], clean := false, building := c)];
        caseSetup := caseSetup[c := if c in stale then Rebuilt else Fresh];
      }
      d := Send;
    }

    /** Whether to send a case again, with a setup of its own; the one it reused is given up. */
    method Rebuild(c: string, a: Answer) returns (again: bool)
      modifies this
      ensures again == NeedsRebuild(old(View()), c, a)
      ensures View() == if again then AfterRebuild(old(View()), c) else old(View())
    {
      again := c in layout.caseTarget && layout.caseTarget[c] in layout.targets && c in caseSetup
        && caseSetup[c] == Reused
        && c !in stale && StaleAnswer(a) && |CopiesOf(layout, c)| > 0;
      if again {
        groups := groups[layout.caseTarget[c] := TargetGroup(c).(clean := false)];
        stale := stale + {c};
      }
    }

    method SetupCopySent(c: string, copy: string, original: string, ghost a: Answer)
      modifies this
      ensures View() == AfterCopySent(old(View()), c, copy, original, a)
    {
      if c in layout.caseTarget && layout.caseTarget[c] in layout.targets {
        var g := TargetGroup(c);
        groups := groups[layout.caseTarget[c] := g.(live := g.live[original := copy])];
        Note(c, CopySent(copy, original, c, a));
      }
    }

    /** A copy failed; after three setups in a row that do, the target's cases are no longer sent. */
    method SetupCopyFailed(c: string, copy: string)
      modifies this
      ensures View() == AfterCopyFailed(old(View()), c, copy)
    {
      caseSetup := caseSetup[c := SetupFailed];
      if c in layout.caseTarget && layout.caseTarget[c] in layout.targets {
        var g := TargetGroup(c);
        groups := groups[layout.caseTarget[c] := g.(clean := false, building := "", failures := g.failures + 1,
                                                   stopped := g.stopped || g.failures + 1 >= MaxSetupFailures)];
        Note(c, CopyFailed(copy, c));
      }
    }

    ghost method Asked(c: string, a: Answer)
      modifies this`history
      ensures View() == AfterAsking(old(View()), c, a)
    {
      if IsCaseOfTarget(layout, c) {
        Note(c, CaseAsked(c, a));
      }
    }

    /** How a case's answer leaves its target's setup. */
    method CaseJudged(c: string, a: Answer)
      modifies this
      ensures View() == AfterJudging(old(View()), c, a)
    {
      if c !in layout.caseTarget || layout.caseTarget[c] !in layout.targets
          || (c in caseSetup && caseSetup[c] == SetupFailed) {
        return;
      }
      groups := groups[layout.caseTarget[c] := TargetGroup(c).(failures := 0, building := "",
                         clean := !StaleAnswer(a)
                           && (layout.targets[layout.caseTarget[c]].readOnly || Refused(a) || Throttled(a)
                               || NotSent(a)))];
    }

    method TargetGotThrough(id: string)
      modifies this
      ensures View() == AfterTargetPassed(old(View()), id)
    {
      if id in layout.targets {
        var g := if id in groups then groups[id] else NewGroup;
        groups := groups[id := g.(passed := true)];
      }
    }
  }
}
