/** What a paging step never does, and what it gathers (engine/repeat.go). */
module RepeatTheorems {
  import opened Bytes
  import opened Collecting
  import opened Cursors
  import opened JsonString
  import opened Repeat

  /** No two requests of a paging step send the same cursors, nor a set taken for the same. */
  lemma NoCursorsTwice(w: World, rc: Config, sends: nat, i: nat, j: nat)
    requires LinksOk(rc.next) && Paging(rc) && 0 < sends && WentOn(w, rc, sends - 1) && i < j < sends
    ensures SentKey(w, rc, i) != SentKey(w, rc, j) && SentKey(w, rc, j) != []
  {
    hide SentKey, GivenKey, ReplyAt;
    var k: nat := j - 1;
    assert Verdict(w, rc, k) == GoOn;
    KeyNotEmpty(w, rc, k);
    SentIsGiven(w, rc, k);
    assert !SentBefore(w, rc, GivenKey(w, rc, k), k + 1);
  }

  /** The keys of requests 1 to n. */
  ghost function KeysTo(w: World, rc: Config, n: nat): set<Bytes> {
    set i: nat | 1 <= i <= n :: SentKey(w, rc, i)
  }

  lemma {:induction false} AsManyKeys(w: World, rc: Config, sends: nat, n: nat)
    requires LinksOk(rc.next) && Paging(rc) && n < sends && WentOn(w, rc, sends - 1)
    ensures |KeysTo(w, rc, n)| == n
  {
    hide SentKey, WentOn;
    if n > 0 {
      AsManyKeys(w, rc, sends, n - 1);
      forall i: nat | 1 <= i < n ensures SentKey(w, rc, i) != SentKey(w, rc, n) {
        NoCursorsTwice(w, rc, sends, i, n);
      }
      assert KeysTo(w, rc, n) == KeysTo(w, rc, n - 1) + {SentKey(w, rc, n)};
    } else {
      assert KeysTo(w, rc, 0) == {};
    }
  }

  /** Of an API with so many cursors a listing asks for at most one page more, whatever max says. */
  lemma AFiniteListingEnds(w: World, rc: Config, sends: nat, all: set<Bytes>)
    requires LinksOk(rc.next) && Paging(rc) && 0 < sends && WentOn(w, rc, sends - 1)
    requires forall i: nat :: i < sends - 1 ==> GivenKey(w, rc, i) in all
    ensures sends <= |all| + 1
  {
    hide SentKey, GivenKey, WentOn;
    AsManyKeys(w, rc, sends, sends - 1);
    forall i: nat | 1 <= i <= sends - 1 ensures SentKey(w, rc, i) in all {
      SentIsGiven(w, rc, i - 1);
      assert GivenKey(w, rc, i - 1) in all;
    }
    SubsetSize(KeysTo(w, rc, sends - 1), all);
  }

  lemma {:induction false} SubsetSize<T>(a: set<T>, b: set<T>)
    requires a <= b
    ensures |a| <= |b|
  {
    if a != {} {
      var x :| x in a;
      SubsetSize(a - {x}, b - {x});
    }
  }

  /** Whenever the step stops on a loop the cursors given were sent before, as far as their texts show. */
  ghost predicate LoopsAreReal(text: Out -> Bytes, rc: Config) {
    forall w: World, n: nat :: w.text == text && WentOn(w, rc, n) && Verdict(w, rc, n) == Loop
      ==> GivenWasSent(w, rc, n)
  }

  ghost predicate GivenWasSent(w: World, rc: Config, n: nat) {
    exists j: nat :: j <= n && SameTexts(w.text, SentCursors(InputsAt(w, rc, j), rc.next), Given(w, rc, n), |rc.next|)
  }

  lemma OneLoopIsReal(w: World, rc: Config, n: nat)
    requires |rc.next| <= 1 && Verdict(w, rc, n) == Loop
    ensures GivenWasSent(w, rc, n)
  {
    hide CursorKey, ReplyAt, InputsAt;
    var j: nat :| j < n + 1 && SentKey(w, rc, j) == GivenKey(w, rc, n);
    OneCursorRepeats(w.text, rc.next, SentCursors(InputsAt(w, rc, j), rc.next), Given(w, rc, n));
  }

  function FirstInput(next: seq<Link>, t: Bytes): Outs
    requires |next| > 0
  {
    map[next[0].input := Text(t)]
  }

  /** An API whose pages all give the same cursors, asked first with one whose text goes on like them. */
  function Misleading(text: Out -> Bytes, next: seq<Link>, t: Bytes): World
    requires |next| > 0
  {
    var outs := map link | link in next :: link.output := Text(One);
    World(FirstInput(next, t), (_: nat, _: Outs) => Reply(true, outs, 0, []), (_: Outs) => NotYet,
      (_: nat) => false, (_: nat) => false, text)
  }

  lemma MisleadingLoops(text: Out -> Bytes, rc: Config, t: Bytes)
    requires |rc.next| >= 2 && LinksOk(rc.next) && t != []
    requires CursorKey(text, rc.next, FirstAlone(rc.next, Text(t))) == CursorKey(text, rc.next, AllOnes(rc.next))
    ensures var w := Misleading(text, rc.next, t);
      WentOn(w, rc, 0) && Verdict(w, rc, 0) == Loop && !GivenWasSent(w, rc, 0)
  {
    hide CursorKey;
    var w := Misleading(text, rc.next, t);
    assert InputsAt(w, rc, 0) == FirstInput(rc.next, t);
    assert SentCursors(InputsAt(w, rc, 0), rc.next) == FirstAlone(rc.next, Text(t));
    assert Given(w, rc, 0) == AllOnes(rc.next) by {
      forall i | 0 <= i < |rc.next| ensures Given(w, rc, 0)[i] == Text(One) {
        assert rc.next[i] in rc.next;
      }
    }
    assert SentKey(w, rc, 0) == GivenKey(w, rc, 0);
    assert SentBefore(w, rc, GivenKey(w, rc, 0), 1);
    assert AllOnes(rc.next)[0] != Null && FirstAlone(rc.next, Text(t))[1] == Null && AllOnes(rc.next)[1] == Text(One);
  }

  /** A step's loops are all real exactly when it pages by at most one cursor. */
  lemma LoopsAreRealIffOne(text: Out -> Bytes, rc: Config)
    requires ReadsTexts(text) && LinksOk(rc.next)
    ensures LoopsAreReal(text, rc) <==> |rc.next| <= 1
  {
    hide CursorKey, GivenWasSent, Verdict;
    if |rc.next| <= 1 {
      forall w: World, n: nat | w.text == text && WentOn(w, rc, n) && Verdict(w, rc, n) == Loop
          ensures GivenWasSent(w, rc, n) {
        OneLoopIsReal(w, rc, n);
      }
    } else {
      var t := SeveralCollide(text, rc.next);
      MisleadingLoops(text, rc, t);
      var w := Misleading(text, rc.next, t);
      assert w.text == text;
    }
  }

  /** With more cursors it is real where no cursor's text could be taken for another's. */
  lemma LoopOfPlainCursorsIsReal(w: World, rc: Config, n: nat)
    requires LinksOk(rc.next) && Verdict(w, rc, n) == Loop
    requires Plainly(w.text, rc.next, Given(w, rc, n))
    requires forall j: nat :: j <= n ==> Plainly(w.text, rc.next, SentCursors(InputsAt(w, rc, j), rc.next))
    ensures exists j: nat :: j <= n
              && SameTexts(w.text, SentCursors(InputsAt(w, rc, j), rc.next), Given(w, rc, n), |rc.next|)
  {
    hide CursorKey, ReplyAt, InputsAt, Plainly;
    var j: nat :| j < n + 1 && SentKey(w, rc, j) == GivenKey(w, rc, n);
    KeysTell(w.text, rc.next, SentCursors(InputsAt(w, rc, j), rc.next), Given(w, rc, n));
  }

  /** Request j sent what response i gave and nothing else new. */
  lemma EachPageFollows(w: World, rc: Config, i: nat, other: Bytes)
    requires LinksOk(rc.next)
    ensures Paging(rc) ==> SentCursors(InputsAt(w, rc, i + 1), rc.next) == Given(w, rc, i)
    ensures (forall k :: 0 <= k < |rc.next| ==> rc.next[k].input != other)
      ==> At(InputsAt(w, rc, i), other) == At(w.first, other)
  {
    if Paging(rc) {
      SentIsGiven(w, rc, i);
      if i > 0 {
        CursorsArriveWhole(w.first, ReplyAt(w, rc, i - 1).outs, rc.next, other);
      }
    }
  }

  /** A collected list is every response's items, in order, and a collected whole number the 64-bit sum. */
  lemma CollectedIs(w: World, rc: Config, sends: nat, stop: Reason, failed: bool, name: Bytes)
    requires Apart(rc.collect) && name in rc.collect && sends > 0 && (stop != Failed || failed)
    requires SomewhereIn(Pages(w, rc, sends), name, sends)
    ensures var outs := FinalOuts(ReplyAt(w, rc, sends - 1).outs, SoFar(w, rc, sends), rc, stop, failed);
      && (AllLists(Pages(w, rc, sends), name, sends)
        ==> Known(outs, name) == Some(ListOf(ItemsOf(Pages(w, rc, sends), name, sends))))
      && (AllWhole(Pages(w, rc, sends), name, sends)
        ==> Known(outs, name) == Some(Whole(Wrap(SumOf(Pages(w, rc, sends), name, sends)))))
  {
    hide ReplyAt, Wrap, SumOf, ItemsOf, GatheredOf, Gathered, AllLists, AllWhole, SomewhereIn;
    var pages := Pages(w, rc, sends);
    GatheredApart(pages, rc.collect, sends, name);
    if AllLists(pages, name, sends) {
      ListsConcatenate(pages, name, sends);
    }
    if AllWhole(pages, name, sends) {
      WholesAdd(pages, name, sends);
    }
    assert name in SoFar(w, rc, sends) || GatheredOf(pages, name, sends) == None;
  }

  /** The retries of all requests, and why, agree in number when each request's do. */
  lemma {:induction false} RetriesAgree(w: World, rc: Config, n: nat)
    requires forall i: nat :: i < n ==> |ReplyAt(w, rc, i).retriedOn| == ReplyAt(w, rc, i).retryCount
    ensures |RetriedOn(w, rc, n)| == Retries(w, rc, n)
  {
    hide ReplyAt;
    if n > 0 {
      RetriesAgree(w, rc, n - 1);
    }
  }
}
