/** What a repeated step sends, when it stops and what it gathers, said of its iterations alone (engine/repeat.go). */
module RepeatFacts {
  import opened Bytes
  import opened Collecting
  import opened Cursors
  import opened JsonString
  import opened Repeat
  import opened Sequences

  // ---------- What is sent ----------

  /** The output is there, and is neither null nor the empty text. */
  predicate Gives(outs: Outs, name: Bytes) {
    name in outs && outs[name] != Null && outs[name] != Text([])
  }

  /** After a response with these outputs, a paging step sends these inputs. */
  ghost predicate Follows(first: Outs, outs: Outs, next: seq<Link>, inputs: Outs) {
    && (forall link :: link in next ==>
          if Gives(outs, link.output) then link.input in inputs && inputs[link.input] == outs[link.output]
          else link.input !in inputs)
    && (forall name :: (forall link :: link in next ==> link.input != name) ==>
          (name in inputs <==> name in first) && (name in first ==> inputs[name] == first[name]))
  }

  lemma CursorMeans(outs: Outs, name: Bytes)
    ensures CursorOf(outs, name) == if Gives(outs, name) then outs[name] else Null
  {
  }

  lemma WithCursorsFollow(first: Outs, outs: Outs, next: seq<Link>)
    requires LinksOk(next)
    ensures Follows(first, outs, next, WithFirst(first, next, CursorValues(outs, next), |next|))
  {
    var c := CursorValues(outs, next);
    var inputs := WithFirst(first, next, c, |next|);
    forall link | link in next
      ensures if Gives(outs, link.output) then link.input in inputs && inputs[link.input] == outs[link.output]
        else link.input !in inputs {
      var i :| 0 <= i < |next| && next[i] == link;
      WithFirstAt(first, next, c, |next|, link.input);
      CursorMeans(outs, link.output);
    }
    forall name | forall link :: link in next ==> link.input != name
      ensures (name in inputs <==> name in first) && (name in first ==> inputs[name] == first[name]) {
      forall i | 0 <= i < |next| ensures next[i].input != name {
        assert next[i] in next;
      }
      WithFirstAt(first, next, c, |next|, name);
    }
  }

  /** The first request sends the inputs it resolved. A polling step sends them again; a paging step's next request
      sends the cursors of the response before instead of the last ones, and leaves out those it did not give. */
  lemma RequestsAre(w: World, rc: Config, its: seq<Iteration>)
    requires LinksOk(rc.next) && AreIterations(w, rc, its)
    ensures its != [] ==> its[0].inputs == w.first
    ensures forall i: nat :: i < |its| ==>
      its[i].reply == w.reply(i + 1, its[i].inputs)
      && (its[i].met <==> its[i].reply.ok && w.condition(its[i].reply.outs) == Met)
    ensures forall i: nat :: 0 < i < |its| ==>
      if rc.next == [] then its[i].inputs == w.first
      else Follows(w.first, its[i - 1].reply.outs, rc.next, its[i].inputs)
  {
    hide Follows;
    forall i: nat | i < |its| ensures its[i].reply == w.reply(i + 1, its[i].inputs)
      && (its[i].met <==> its[i].reply.ok && w.condition(its[i].reply.outs) == Met) {
      assert IsIteration(w, rc, its[i], i);
    }
    assert its != [] ==> IsIteration(w, rc, its[0], 0);
    forall i: nat | 0 < i < |its| ensures
      if rc.next == [] then its[i].inputs == w.first
      else Follows(w.first, its[i - 1].reply.outs, rc.next, its[i].inputs) {
      NextRequest(w, rc, its[i - 1], its[i], i);
    }
  }

  lemma NextRequest(w: World, rc: Config, was: Iteration, now: Iteration, i: nat)
    requires LinksOk(rc.next) && 0 < i && IsIteration(w, rc, was, i - 1) && IsIteration(w, rc, now, i)
    ensures if rc.next == [] then now.inputs == w.first else Follows(w.first, was.reply.outs, rc.next, now.inputs)
  {
    hide Follows;
    if rc.next != [] {
      WithCursorsFollow(w.first, was.reply.outs, rc.next);
    }
  }

  // ---------- When cursors are taken for the same ----------

  /** A set of cursors is known by the name and the text of each one that is set, in the order of their names. */
  lemma KeyIs(text: Out -> Bytes, next: seq<Link>, c: seq<Out>) returns (at: seq<nat>, parts: seq<Bytes>)
    requires |next| == |c|
    ensures CursorKey(text, next, c) == Join(parts, [38])
    ensures |at| == |parts| && (forall j, k :: 0 <= j < k < |at| ==> at[j] < at[k])
    ensures forall i: nat :: i in at <==> i < |next| && c[i] != Null
    ensures forall k :: 0 <= k < |at| ==>
      at[k] < |next| && parts[k] == next[at[k]].input + ([61] + text(c[at[k]]))
  {
    parts := Parts(text, next, c, |next|);
    at := PartPlaces(text, next, c, |next|);
  }

  lemma {:induction false} PartPlaces(text: Out -> Bytes, next: seq<Link>, c: seq<Out>, n: nat)
      returns (at: seq<nat>)
    requires n <= |next| == |c|
    ensures var parts := Parts(text, next, c, n);
      && |at| == |parts| && (forall j, k :: 0 <= j < k < |at| ==> at[j] < at[k])
      && (forall i: nat :: i in at <==> i < n && c[i] != Null)
      && (forall k :: 0 <= k < |at| ==> at[k] < n && parts[k] == next[at[k]].input + ([61] + text(c[at[k]])))
  {
    at := [];
    if n > 0 {
      var was := PartPlaces(text, next, c, n - 1);
      at := was + if c[n - 1] == Null then [] else [n - 1];
      assert was + [] == was;
      forall j, k | 0 <= j < k < |at| ensures at[j] < at[k] {
        assert at[j] in was;
      }
      forall i: nat ensures i in at <==> i < n && c[i] != Null {
        assert i in at <==> i in was || (i == n - 1 && c[n - 1] != Null);
      }
    }
  }

  /** Response i gives cursors taken for those that request i, or one before it, sent. */
  ghost predicate Repeats(w: World, rc: Config, its: seq<Iteration>, i: nat)
    requires i < |its|
  {
    exists j: nat :: j <= i && SameKey(w, rc, its[j].inputs, its[i].reply.outs)
  }

  ghost predicate SameKey(w: World, rc: Config, inputs: Outs, outs: Outs) {
    CursorKey(w.text, rc.next, SentCursors(inputs, rc.next)) == CursorKey(w.text, rc.next, CursorValues(outs, rc.next))
  }

  lemma RepeatsMeans(w: World, rc: Config, its: seq<Iteration>, i: nat)
    requires i < |its| && AreIterations(w, rc, its)
    ensures Repeats(w, rc, its, i) <==> SentBefore(w, rc, GivenKey(w, rc, i), i + 1)
  {
    hide CursorKey, InputsAt, ReplyAt;
    forall j: nat | j <= i
      ensures SameKey(w, rc, its[j].inputs, its[i].reply.outs) <==> SentKey(w, rc, j) == GivenKey(w, rc, i) {
      assert IsIteration(w, rc, its[j], j) && IsIteration(w, rc, its[i], i);
    }
    if Repeats(w, rc, its, i) {
      var j: nat :| j <= i && SameKey(w, rc, its[j].inputs, its[i].reply.outs);
      assert SentKey(w, rc, j) == GivenKey(w, rc, i);
    }
    if SentBefore(w, rc, GivenKey(w, rc, i), i + 1) {
      var j: nat :| j < i + 1 && SentKey(w, rc, j) == GivenKey(w, rc, i);
      assert SameKey(w, rc, its[j].inputs, its[i].reply.outs);
    }
  }

  // ---------- When it stops ----------

  predicate NoneGiven(outs: Outs, next: seq<Link>) {
    forall link :: link in next ==> !Gives(outs, link.output)
  }

  lemma ExhaustedMeans(outs: Outs, next: seq<Link>)
    ensures Exhausted(CursorValues(outs, next)) <==> NoneGiven(outs, next)
  {
    var c := CursorValues(outs, next);
    forall i | 0 <= i < |next| ensures c[i] == Null <==> !Gives(outs, next[i].output) {
      CursorMeans(outs, next[i].output);
    }
    if NoneGiven(outs, next) {
      forall i | 0 <= i < |c| ensures c[i] == Null {
        assert next[i] in next;
      }
    }
  }

  /** What response i means for the step. */
  ghost function StopAt(w: World, rc: Config, its: seq<Iteration>, i: nat): Reason
    requires i < |its|
  {
    var reply, pages, limit := its[i].reply, rc.next != [], if rc.max <= 0 then 50 else rc.max;
    if !reply.ok then Failed
    else
      match w.condition(reply.outs)
      case Unreadable => Failed
      case Met => Until
      case NotYet =>
        if pages && NoneGiven(reply.outs, rc.next) then OutOfPages
        else if pages && Repeats(w, rc, its, i) then Loop
        else if i + 1 >= limit then Max
        else if w.late(i + 1) then Timeout
        else if w.cancelled(i + 1) then Failed
        else GoOn
  }

  lemma VerdictMeans(w: World, rc: Config, its: seq<Iteration>, i: nat)
    requires AreIterations(w, rc, its) && i < |its|
    ensures Verdict(w, rc, i) == StopAt(w, rc, its, i)
  {
    hide GivenKey, SentBefore, Repeats, NoneGiven, InputsAt;
    assert IsIteration(w, rc, its[i], i);
    RepeatsMeans(w, rc, its, i);
    ExhaustedMeans(its[i].reply.outs, rc.next);
  }

  /** The step goes on after every response but the last, and stops for what the last one means. It fails where
      its condition could not be read, or where it stops without having met it or run out of pages. */
  lemma StopsBecause(w: World, rc: Config, r: Repeated, sends: nat)
    requires 0 < sends && WentOn(w, rc, sends - 1) && r.stop == Verdict(w, rc, sends - 1) != GoOn
    requires Told(w, rc, sends, r.iterations, r.retryCount, r.retriedOn)
    requires r.failed <==> NeverFinished(w, rc, sends - 1)
    ensures |r.iterations| == sends && r.stop == StopAt(w, rc, r.iterations, sends - 1)
    ensures forall i: nat :: i < sends - 1 ==> StopAt(w, rc, r.iterations, i) == GoOn
    ensures var last := r.iterations[sends - 1].reply;
      r.failed <==> last.ok && (r.stop in {Loop, Max, Timeout} || w.condition(last.outs) == Unreadable)
  {
    hide Verdict, StopAt;
    forall i: nat | i < sends ensures Verdict(w, rc, i) == StopAt(w, rc, r.iterations, i) {
      VerdictMeans(w, rc, r.iterations, i);
    }
    assert IsIteration(w, rc, r.iterations[sends - 1], sends - 1);
  }

  // ---------- What it tells ----------

  function TotalRetries(its: seq<Iteration>): nat {
    if its == [] then 0 else its[0].reply.retryCount + TotalRetries(its[1..])
  }

  function Reasons(its: seq<Iteration>): seq<seq<RetryRules.Category>> {
    seq(|its|, i requires 0 <= i < |its| => its[i].reply.retriedOn)
  }

  lemma {:induction false} TotalGrows(its: seq<Iteration>, it: Iteration)
    ensures TotalRetries(its + [it]) == TotalRetries(its) + it.reply.retryCount
  {
    if its != [] {
      TotalGrows(its[1..], it);
      assert (its + [it])[1..] == its[1..] + [it];
    }
  }

  /** The step's retries are those of its iterations, and so is what they were for, in order. */
  lemma {:induction false} RetriesAre(w: World, rc: Config, its: seq<Iteration>)
    requires AreIterations(w, rc, its)
    ensures Retries(w, rc, |its|) == TotalRetries(its) && RetriedOn(w, rc, |its|) == Flatten(Reasons(its))
  {
    hide InputsAt, ReplyAt;
    if its != [] {
      var n := |its| - 1;
      var rest, last := its[..n], its[n];
      assert its == rest + [last] && IsIteration(w, rc, last, n);
      forall i: nat | i < n ensures IsIteration(w, rc, rest[i], i) {
        assert IsIteration(w, rc, its[i], i);
      }
      RetriesAre(w, rc, rest);
      TotalGrows(rest, last);
      ItsReply(w, rc, last, n);
      FlattenConcat(Reasons(rest), [last.reply.retriedOn]);
      FlattenOne(last.reply.retriedOn);
      assert Reasons(its) == Reasons(rest) + [last.reply.retriedOn];
    }
  }

  // ---------- What it gathers ----------

  /** w is i + j in 64 bits. */
  ghost predicate SumIn64(w: int, i: int, j: int) {
    -TWO_63 <= w < TWO_63 && exists q: int :: w == i + j + q * TWO_64
  }

  predicate IsNumber(v: Out) {
    v.Whole? || v.Fraction?
  }

  function AsReal(v: Out): real
    requires IsNumber(v)
  {
    if v.Whole? then v.i as real else v.r
  }

  /** was, gathered so far, and another value v of the output come to now. */
  ghost predicate Adds(was: Out, v: Out, now: Out) {
    if was.ListOf? && v.ListOf? then now == ListOf(was.items + v.items)
    else if was.Whole? && v.Whole? then now.Whole? && SumIn64(now.i, was.i, v.i)
    else if IsNumber(was) && IsNumber(v) then now == Fraction(AsReal(was) + AsReal(v))
    else now == v
  }

  lemma WrapMeans(i: int, j: int)
    ensures SumIn64(Wrap(i + j), i, j)
  {
    var q := (i + j + TWO_63) / TWO_64;
    assert Wrap(i + j) == i + j + (-q) * TWO_64;
  }

  lemma MergeMeans(was: Out, v: Out)
    ensures Adds(was, v, Merge(Some(was), v))
  {
    hide Wrap, SumIn64;
    if was.Whole? && v.Whole? {
      WrapMeans(was.i, v.i);
    }
  }

  /** An output to collect grows with each response that has it: it begins as the first value, lists are joined,
      whole numbers are added in 64 bits and other numbers as they are, and any other value takes its place. */
  lemma GathersMore(w: World, rc: Config, n: nat, name: Bytes)
    requires Apart(rc.collect)
    ensures name !in SoFar(w, rc, 0)
    ensures var outs, was, now := ReplyAt(w, rc, n).outs, SoFar(w, rc, n), SoFar(w, rc, n + 1);
      if name in rc.collect && name in outs && outs[name] != Null
      then name in now && if name in was then Adds(was[name], outs[name], now[name]) else now[name] == outs[name]
      else (name in now <==> name in was) && (name in was ==> now[name] == was[name])
  {
    hide Merge, ReplyAt, Gathered;
    var outs, was := ReplyAt(w, rc, n).outs, SoFar(w, rc, n);
    NothingGathered(w, rc);
    PagesNext(w, rc, n);
    CollectsName(was, outs, rc.collect, |rc.collect|, name);
    if name in was && name in outs {
      MergeMeans(was[name], outs[name]);
    } else if name in outs {
      MergeFirst(outs[name]);
    }
  }

  lemma MergeFirst(v: Out)
    ensures Merge(None, v) == v
  {
  }

  lemma NothingGathered(w: World, rc: Config)
    ensures SoFar(w, rc, 0) == map[]
  {
  }

  /** A step that did not fail outright shows what it gathered, over the last response's other outputs. */
  lemma OutputsAre(last: Outs, gathered: Outs, rc: Config, stop: Reason, failed: bool, name: Bytes)
    ensures var outs := FinalOuts(last, gathered, rc, stop, failed);
      if rc.collect != [] && (stop != Failed || failed) && name in gathered
      then name in outs && outs[name] == gathered[name]
      else (name in outs <==> name in last) && (name in last ==> outs[name] == last[name])
  {
  }
}
