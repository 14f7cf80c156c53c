/** A step that sends its request again and again: polling, or paging through a listing (engine/repeat.go). */
module Repeat {
  import opened Bytes
  import opened Collecting
  import opened Cursors
  import RetryRules

  /** What a repeat block says; a max of 0 or less is the default's. */
  datatype Config = Config(next: seq<Link>, max: int, collect: seq<Bytes>)

  const DEFAULT_MAX := 50

  function MaxRequests(rc: Config): nat {
    if rc.max <= 0 then DEFAULT_MAX else rc.max
  }

  /** What a request came to, after its retries: whether its condition can be read, and its outputs. */
  datatype Reply = Reply(ok: bool, outs: Outs, retryCount: nat, retriedOn: seq<RetryRules.Category>)

  datatype Truth = Met | NotYet | Unreadable

  /** The inputs the first request resolved, what each request comes to, counted from 1, what the
      condition comes to, and after which requests the next would end too late or the run is cancelled. */
  datatype World = World(first: Outs, reply: (nat, Outs) -> Reply, condition: Outs -> Truth,
                         late: nat -> bool, cancelled: nat -> bool, text: Out -> Bytes)

  datatype Reason = GoOn | Failed | Until | OutOfPages | Loop | Max | Timeout

  predicate Paging(rc: Config) {
    |rc.next| > 0
  }

  /** The inputs of request i, counted from 0: the first's, with the cursors the response before gave. */
  function InputsAt(w: World, rc: Config, i: nat): Outs
    decreases i
  {
    if i == 0 || !Paging(rc) then w.first
    else WithFirst(w.first, rc.next, CursorValues(w.reply(i, InputsAt(w, rc, i - 1)).outs, rc.next), |rc.next|)
  }

  function ReplyAt(w: World, rc: Config, i: nat): Reply {
    w.reply(i + 1, InputsAt(w, rc, i))
  }

  /** The cursors response i gives. */
  function Given(w: World, rc: Config, i: nat): seq<Out> {
    CursorValues(ReplyAt(w, rc, i).outs, rc.next)
  }

  function GivenKey(w: World, rc: Config, i: nat): Bytes {
    CursorKey(w.text, rc.next, Given(w, rc, i))
  }

  /** The key of the cursors request i sends. */
  function SentKey(w: World, rc: Config, i: nat): Bytes {
    CursorKey(w.text, rc.next, SentCursors(InputsAt(w, rc, i), rc.next))
  }

  ghost predicate SentBefore(w: World, rc: Config, key: Bytes, n: nat) {
    exists j: nat :: j < n && SentKey(w, rc, j) == key
  }

  /** Why no request follows response i, or that one does. The reasons are tried in this order. */
  ghost function Verdict(w: World, rc: Config, i: nat): Reason {
    var reply := ReplyAt(w, rc, i);
    if !reply.ok || w.condition(reply.outs) == Unreadable then Failed
    else if w.condition(reply.outs) == Met then Until
    else if Paging(rc) && Exhausted(Given(w, rc, i)) then OutOfPages
    else if Paging(rc) && SentBefore(w, rc, GivenKey(w, rc, i), i + 1) then Loop
    else if i + 1 >= MaxRequests(rc) then Max
    else if w.late(i + 1) then Timeout
    else if w.cancelled(i + 1) then Failed
    else GoOn
  }

  /** The step neither met its condition nor ran out of pages, although its last request came back. */
  ghost predicate NeverFinished(w: World, rc: Config, i: nat) {
    var reply := ReplyAt(w, rc, i);
    reply.ok && (Verdict(w, rc, i) in {Loop, Max, Timeout} || w.condition(reply.outs) == Unreadable)
  }

  datatype Iteration = Iteration(inputs: Outs, reply: Reply, met: bool)

  /** A repeated step's result. failed is whether it never finished, which fails its validation. */
  datatype Repeated = Repeated(stop: Reason, failed: bool, iterations: seq<Iteration>, inputs: Outs, outs: Outs,
                               retryCount: nat, retriedOn: seq<RetryRules.Category>)

  // ---------- What goes from one request to the next ----------

  /** A request carries the cursors that the response before it gave. */
  lemma SentIsGiven(w: World, rc: Config, i: nat)
    requires LinksOk(rc.next) && Paging(rc)
    ensures SentCursors(InputsAt(w, rc, i + 1), rc.next) == Given(w, rc, i)
      && SentKey(w, rc, i + 1) == GivenKey(w, rc, i)
  {
    CursorsArriveWhole(w.first, ReplyAt(w, rc, i).outs, rc.next, []);
  }

  /** The keys the first n requests sent, but for an empty one. */
  ghost predicate Remembered(w: World, rc: Config, sent: set<Bytes>, n: nat) {
    forall key :: key in sent <==> key != [] && SentBefore(w, rc, key, n)
  }

  lemma RemembersFirst(w: World, rc: Config, key: Bytes)
    requires key == SentKey(w, rc, 0)
    ensures Remembered(w, rc, if key == [] then {} else {key}, 1)
  {
    forall k: Bytes | SentBefore(w, rc, k, 1) ensures k == key {
    }
    assert SentBefore(w, rc, key, 1);
  }

  lemma RemembersNext(w: World, rc: Config, sent: set<Bytes>, n: nat, key: Bytes)
    requires Remembered(w, rc, sent, n) && key == SentKey(w, rc, n) && key != []
    ensures Remembered(w, rc, sent + {key}, n + 1)
  {
    hide SentKey;
    forall k: Bytes ensures SentBefore(w, rc, k, n + 1) <==> SentBefore(w, rc, k, n) || k == key {
      if k == key {
        assert SentKey(w, rc, n) == k;
      }
      if SentBefore(w, rc, k, n + 1) {
        var j: nat :| j < n + 1 && SentKey(w, rc, j) == k;
        assert j < n || k == key;
      }
    }
  }

  // ---------- One response ----------

  /** What a response means for the next request. */
  method Judge(w: World, rc: Config, ghost i: nat, n: nat, reply: Reply, cursors: seq<Out>, exhausted: bool, key: Bytes,
               sent: set<Bytes>)
    returns (stop: Reason, met: bool, failed: bool)
    requires n == i + 1 && reply == ReplyAt(w, rc, i) && reply.ok
    requires Paging(rc) ==> cursors == Given(w, rc, i) && (exhausted <==> Exhausted(cursors))
                            && key == GivenKey(w, rc, i)
    requires Paging(rc) ==> Remembered(w, rc, sent, n)
    requires !Paging(rc) ==> !exhausted
    ensures stop == Verdict(w, rc, i)
    ensures met <==> w.condition(reply.outs) == Met
    ensures failed <==> NeverFinished(w, rc, i)
  {
    hide GivenKey, Given, ReplyAt, SentBefore, CursorKey;
    var truth := w.condition(reply.outs);
    met := truth == Met;
    if truth == Unreadable {
      return Failed, met, true;
    }
    if met {
      return Until, met, false;
    }
    if exhausted {
      return OutOfPages, met, false;
    }
    if Paging(rc) {
      KeyOfGiven(w, rc, i);
      KeyIsEmpty(w.text, rc.next, cursors);
      if key in sent {
        return Loop, met, true;
      }
    }
    if n >= MaxRequests(rc) {
      return Max, met, true;
    }
    if w.late(n) {
      return Timeout, met, true;
    }
    stop := if w.cancelled(n) then Failed else GoOn;
    failed := false;
  }

  lemma KeyOfGiven(w: World, rc: Config, i: nat)
    ensures |Given(w, rc, i)| == |rc.next| && GivenKey(w, rc, i) == CursorKey(w.text, rc.next, Given(w, rc, i))
  {
  }

  // ---------- All of them ----------

  /** The responses of the first n requests. */
  function Pages(w: World, rc: Config, n: nat): seq<Outs> {
    seq(n, i requires 0 <= i < n => ReplyAt(w, rc, i).outs)
  }

  /** What is collected of them. */
  function SoFar(w: World, rc: Config, n: nat): Outs {
    Gathered(Pages(w, rc, n), rc.collect, n)
  }

  function Retries(w: World, rc: Config, n: nat): nat {
    if n == 0 then 0 else Retries(w, rc, n - 1) + ReplyAt(w, rc, n - 1).retryCount
  }

  function RetriedOn(w: World, rc: Config, n: nat): seq<RetryRules.Category> {
    if n == 0 then [] else RetriedOn(w, rc, n - 1) + ReplyAt(w, rc, n - 1).retriedOn
  }

  ghost predicate AreIterations(w: World, rc: Config, its: seq<Iteration>) {
    forall i: nat :: i < |its| ==> IsIteration(w, rc, its[i], i)
  }

  predicate IsIteration(w: World, rc: Config, it: Iteration, i: nat) {
    && it.inputs == InputsAt(w, rc, i) && it.reply == ReplyAt(w, rc, i)
    && (it.met <==> it.reply.ok && w.condition(it.reply.outs) == Met)
  }

  /** No request before the last is one after which the step stops. */
  ghost predicate WentOn(w: World, rc: Config, n: nat) {
    forall i: nat :: i < n ==> Verdict(w, rc, i) == GoOn
  }

  lemma WentOnNext(w: World, rc: Config, n: nat)
    requires WentOn(w, rc, n) && Verdict(w, rc, n) == GoOn
    ensures WentOn(w, rc, n + 1)
  {
    hide Verdict;
  }

  lemma PagesNext(w: World, rc: Config, n: nat)
    ensures SoFar(w, rc, n + 1) == CollectAll(SoFar(w, rc, n), ReplyAt(w, rc, n).outs, rc.collect, |rc.collect|)
  {
    hide ReplyAt, CollectAll;
    GatheredSame(Pages(w, rc, n + 1), Pages(w, rc, n), rc.collect, n);
  }

  lemma {:induction false} GatheredSame(a: seq<Outs>, b: seq<Outs>, names: seq<Bytes>, n: nat)
    requires n <= |a| && n <= |b| && forall i :: 0 <= i < n ==> a[i] == b[i]
    ensures Gathered(a, names, n) == Gathered(b, names, n)
  {
    hide CollectAll;
    if n > 0 {
      GatheredSame(a, b, names, n - 1);
    }
  }

  /** What a paging step remembers of the cursors it sent, as request n is about to be sent. */
  ghost predicate Recalls(w: World, rc: Config, sent: set<Bytes>, n: nat) {
    Paging(rc) ==> if n == 0 then sent == {} else Remembered(w, rc, sent, n + 1)
  }

  /** The cursors the plan itself gave, to resume a listing. */
  method RecallFirst(w: World, rc: Config, n: nat, before: set<Bytes>) returns (sent: set<Bytes>)
    requires Recalls(w, rc, before, n)
    ensures Paging(rc) ==> Remembered(w, rc, sent, n + 1)
  {
    sent := before;
    if n == 0 && Paging(rc) {
      var cursors := SentCursors(w.first, rc.next);
      var key := ComputeKey(w.text, rc.next, cursors);
      RemembersFirst(w, rc, key);
      if key != [] {
        sent := {key};
      }
    }
  }

  /** Reads the cursors of response n and decides on it. */
  method Decide(w: World, rc: Config, n: nat, reply: Reply, sent: set<Bytes>)
    returns (stop: Reason, met: bool, failed: bool, cursors: seq<Out>, key: Bytes)
    requires reply == ReplyAt(w, rc, n) && reply.ok && (Paging(rc) ==> Remembered(w, rc, sent, n + 1))
    ensures stop == Verdict(w, rc, n) && (met <==> w.condition(reply.outs) == Met)
    ensures failed <==> NeverFinished(w, rc, n)
    ensures Paging(rc) ==> cursors == Given(w, rc, n) && key == GivenKey(w, rc, n)
  {
    hide Verdict, NeverFinished, ReplyAt, Remembered, CursorKey;
    var exhausted := false;
    cursors, key := [], [];
    if Paging(rc) {
      cursors, exhausted := ReadCursors(reply.outs, rc.next);
      key := ComputeKey(w.text, rc.next, cursors);
    }
    stop, met, failed := Judge(w, rc, n, n + 1, reply, cursors, exhausted, key, sent);
  }

  lemma KeyNotEmpty(w: World, rc: Config, n: nat)
    requires Paging(rc) && Verdict(w, rc, n) == GoOn
    ensures GivenKey(w, rc, n) != []
  {
    hide CursorKey, ReplyAt;
    KeyIsEmpty(w.text, rc.next, Given(w, rc, n));
  }

  /** What the next request sends, and what is remembered of it. */
  method GoToNext(w: World, rc: Config, n: nat, cursors: seq<Out>, key: Bytes, before: set<Bytes>)
    returns (inputs: Outs, sent: set<Bytes>)
    requires LinksOk(rc.next) && Verdict(w, rc, n) == GoOn && (Paging(rc) ==> Remembered(w, rc, before, n + 1))
    requires Paging(rc) ==> cursors == Given(w, rc, n) && key == GivenKey(w, rc, n)
    ensures inputs == InputsAt(w, rc, n + 1) && Recalls(w, rc, sent, n + 1)
  {
    inputs, sent := w.first, before;
    if Paging(rc) {
      KeyNotEmpty(w, rc, n);
      SentIsGiven(w, rc, n);
      RemembersNext(w, rc, before, n + 1, key);
      sent := sent + {key};
      inputs := WithCursors(w.first, rc.next, cursors);
    }
  }

  /** What a repeated step gathered when it had sent n requests. */
  ghost predicate Told(w: World, rc: Config, n: nat, its: seq<Iteration>, retries: nat, on: seq<RetryRules.Category>) {
    |its| == n && AreIterations(w, rc, its) && retries == Retries(w, rc, n) && on == RetriedOn(w, rc, n)
  }

  lemma TellsNext(w: World, rc: Config, n: nat, its: seq<Iteration>, retries: nat, on: seq<RetryRules.Category>,
                  it: Iteration)
    requires Told(w, rc, n, its, retries, on) && IsIteration(w, rc, it, n)
    ensures Told(w, rc, n + 1, its + [it], retries + it.reply.retryCount, on + it.reply.retriedOn)
  {
    hide IsIteration;
    assert IsIteration(w, rc, it, n) ==> it.reply == ReplyAt(w, rc, n) by {
      ItsReply(w, rc, it, n);
    }
    forall i: nat | i < n + 1 ensures IsIteration(w, rc, (its + [it])[i], i) {
      assert i < n ==> (its + [it])[i] == its[i];
    }
  }

  lemma ItsReply(w: World, rc: Config, it: Iteration, n: nat)
    requires IsIteration(w, rc, it, n)
    ensures it.reply == ReplyAt(w, rc, n)
  {
  }

  /** The outputs of a finished step: its last response's, with what was collected over them. */
  function FinalOuts(last: Outs, collected: Outs, rc: Config, stop: Reason, failed: bool): Outs {
    if (stop == Failed && !failed) || rc.collect == [] then last else last + collected
  }

  method ExecuteStepRepeated(w: World, rc: Config) returns (r: Repeated, sends: nat)
    requires LinksOk(rc.next)
    ensures 0 < sends <= MaxRequests(rc) && WentOn(w, rc, sends - 1) && r.stop == Verdict(w, rc, sends - 1) != GoOn
    ensures Told(w, rc, sends, r.iterations, r.retryCount, r.retriedOn) && r.inputs == w.first
    ensures r.failed <==> NeverFinished(w, rc, sends - 1)
    ensures r.outs == FinalOuts(ReplyAt(w, rc, sends - 1).outs, SoFar(w, rc, sends), rc, r.stop, r.failed)
  {
    hide Verdict, NeverFinished, Recalls, Remembered, ReplyAt, InputsAt, CollectAll, SoFar, Told, LinksOk, WentOn,
      IsIteration;
    StartsTold(w, rc);
    var inputs, sent: set<Bytes>, collected: Outs, n := w.first, {}, map[], 0;
    var its: seq<Iteration>, retries: nat, on: seq<RetryRules.Category> := [], 0, [];
    var stop, failed, last: Outs := GoOn, false, map[];
    while stop == GoOn
      invariant n <= MaxRequests(rc) && Told(w, rc, n, its, retries, on)
      invariant stop == GoOn ==> n < MaxRequests(rc) && inputs == InputsAt(w, rc, n) && Recalls(w, rc, sent, n)
                                 && WentOn(w, rc, n)
      invariant stop == GoOn ==> collected == SoFar(w, rc, n) && !failed
      invariant stop != GoOn ==> n > 0 && WentOn(w, rc, n - 1) && stop == Verdict(w, rc, n - 1)
                                 && last == ReplyAt(w, rc, n - 1).outs
      invariant stop != GoOn ==> (failed <==> NeverFinished(w, rc, n - 1))
      invariant stop != GoOn ==> collected == SoFar(w, rc, n) || (stop == Failed && !failed)
      decreases if stop == GoOn then 1 else 0, MaxRequests(rc) - n
    {
      var reply := w.reply(n + 1, inputs);
      AsReply(w, rc, n);
      sent := RecallFirst(w, rc, n, sent);
      last := reply.outs;
      if !reply.ok {
        FailsAt(w, rc, n);
        var it := Iteration(inputs, reply, false);
        AsIteration(w, rc, it, n);
        TellsNext(w, rc, n, its, retries, on, it);
        its, retries, on := its + [it], retries + reply.retryCount, on + reply.retriedOn;
        stop, n := Failed, n + 1;
        break;
      }
      collected := CollectOutputs(collected, reply.outs, rc.collect);
      PagesNext(w, rc, n);
      var met, cursors, key;
      stop, met, failed, cursors, key := Decide(w, rc, n, reply, sent);
      var it := Iteration(inputs, reply, met);
      AsIteration(w, rc, it, n);
      TellsNext(w, rc, n, its, retries, on, it);
      its, retries, on := its + [it], retries + reply.retryCount, on + reply.retriedOn;
      if stop == GoOn {
        inputs, sent := GoToNext(w, rc, n, cursors, key, sent);
        GoesOnBelowMax(w, rc, n);
        WentOnNext(w, rc, n);
      }
      n := n + 1;
    }
    sends := n;
    r := Repeated(stop, failed, its, w.first, FinalOuts(last, collected, rc, stop, failed), retries, on);
  }

  lemma AsReply(w: World, rc: Config, n: nat)
    ensures ReplyAt(w, rc, n) == w.reply(n + 1, InputsAt(w, rc, n))
  {
  }

  lemma AsIteration(w: World, rc: Config, it: Iteration, n: nat)
    requires it.inputs == InputsAt(w, rc, n) && it.reply == ReplyAt(w, rc, n)
      && (it.met <==> it.reply.ok && w.condition(it.reply.outs) == Met)
    ensures IsIteration(w, rc, it, n)
  {
  }

  lemma FailsAt(w: World, rc: Config, n: nat)
    requires !ReplyAt(w, rc, n).ok
    ensures Verdict(w, rc, n) == Failed && !NeverFinished(w, rc, n)
  {
  }

  lemma GoesOnBelowMax(w: World, rc: Config, n: nat)
    requires Verdict(w, rc, n) == GoOn
    ensures n + 1 < MaxRequests(rc) && ReplyAt(w, rc, n).ok && !NeverFinished(w, rc, n)
  {
  }

  lemma StartsTold(w: World, rc: Config)
    ensures Told(w, rc, 0, [], 0, []) && WentOn(w, rc, 0) && InputsAt(w, rc, 0) == w.first && Recalls(w, rc, {}, 0)
    ensures SoFar(w, rc, 0) == map[]
  {
  }
}
