/** Outputs gathered across the responses of a repeated step (engine/repeat.go collectOutputs, addNumbers). */
module Collecting {
  import opened Bytes
  import opened Cursors
  import opened JsonString

  const TWO_63 := 0x8000_0000_0000_0000
  const TWO_64 := 0x1_0000_0000_0000_0000

  /** A sum as a 64-bit integer holds it. */
  function Wrap(x: int): int {
    (x + TWO_63) % TWO_64 - TWO_63
  }

  lemma WrapAgain(a: int, b: int)
    ensures Wrap(Wrap(a) + b) == Wrap(a + b)
  {
    var q := (a + TWO_63) / TWO_64;
    assert Wrap(a) == a - q * TWO_64;
    SameRemainder(a + b + TWO_63, q);
  }

  lemma SameRemainder(y: int, q: int)
    ensures (y - q * TWO_64) % TWO_64 == y % TWO_64
  {
    var d, r := y / TWO_64, y % TWO_64;
    assert y - q * TWO_64 == (d - q) * TWO_64 + r;
  }

  lemma WrapOfSmall(a: int)
    requires -TWO_63 <= a < TWO_63
    ensures Wrap(a) == a
  {
  }

  /** Whole numbers add as integers, other numbers as fractions; nothing else adds. */
  function AddNumbers(a: Out, b: Out): Option<Out> {
    match (a, b)
    case (Whole(i), Whole(j)) => Some(Whole(Wrap(i + j)))
    case (Whole(i), Fraction(s)) => Some(Fraction(i as real + s))
    case (Fraction(r), Whole(j)) => Some(Fraction(r + j as real))
    case (Fraction(r), Fraction(s)) => Some(Fraction(r + s))
    case _ => None
  }

  /** What was gathered of an output, with one more value of it. */
  function Merge(prev: Option<Out>, v: Out): Out {
    if prev == None then v
    else if v.ListOf? then (if prev.value.ListOf? then ListOf(prev.value.items + v.items) else v)
    else if AddNumbers(prev.value, v).Some? then AddNumbers(prev.value, v).value
    else v
  }

  function At(outs: Outs, name: Bytes): Option<Out> {
    if name in outs && outs[name] != Null then Some(outs[name]) else None
  }

  function Known(collected: Outs, name: Bytes): Option<Out> {
    if name in collected then Some(collected[name]) else None
  }

  function CollectName(collected: Outs, outs: Outs, name: Bytes): Outs {
    if At(outs, name) == None then collected else collected[name := Merge(Known(collected, name), outs[name])]
  }

  /** After the first n of the names. */
  function CollectAll(collected: Outs, outs: Outs, names: seq<Bytes>, n: nat): Outs
    requires n <= |names|
  {
    if n == 0 then collected else CollectName(CollectAll(collected, outs, names, n - 1), outs, names[n - 1])
  }

  method CollectOutputs(collected: Outs, outs: Outs, names: seq<Bytes>) returns (r: Outs)
    ensures r == CollectAll(collected, outs, names, |names|)
  {
    r := collected;
    for i := 0 to |names|
      invariant r == CollectAll(collected, outs, names, i)
    {
      var name := names[i];
      if name in outs && outs[name] != Null {
        var v := outs[name];
        if name !in r {
          r := r[name := v];
        } else if v.ListOf? {
          r := r[name := if r[name].ListOf? then ListOf(r[name].items + v.items) else v];
        } else {
          var sum := AddNumbers(r[name], v);
          r := r[name := if sum.Some? then sum.value else v];
        }
      }
    }
  }

  // ---------- Over all the pages ----------

  ghost predicate Apart(names: seq<Bytes>) {
    forall i, j :: 0 <= i < j < |names| ==> names[i] != names[j]
  }

  /** What the first n pages come to, page after page. */
  function Gathered(pages: seq<Outs>, names: seq<Bytes>, n: nat): Outs
    requires n <= |pages|
  {
    if n == 0 then map[] else CollectAll(Gathered(pages, names, n - 1), pages[n - 1], names, |names|)
  }

  /** What they come to of one output. */
  function GatheredOf(pages: seq<Outs>, name: Bytes, n: nat): Option<Out>
    requires n <= |pages|
  {
    if n == 0 then None
    else if At(pages[n - 1], name) == None then GatheredOf(pages, name, n - 1)
    else Some(Merge(GatheredOf(pages, name, n - 1), pages[n - 1][name]))
  }

  lemma {:induction false} CollectsName(collected: Outs, outs: Outs, names: seq<Bytes>, n: nat, name: Bytes)
    requires Apart(names) && n <= |names|
    ensures Known(CollectAll(collected, outs, names, n), name) ==
            if (exists i :: 0 <= i < n && names[i] == name) && At(outs, name).Some?
              then Some(Merge(Known(collected, name), outs[name]))
            else Known(collected, name)
  {
    if n > 0 {
      CollectsName(collected, outs, names, n - 1, name);
    }
  }

  /** Each collected output is gathered by itself, and no other is there. */
  lemma {:induction false} GatheredApart(pages: seq<Outs>, names: seq<Bytes>, n: nat, name: Bytes)
    requires Apart(names) && n <= |pages|
    ensures Known(Gathered(pages, names, n), name) == if name in names then GatheredOf(pages, name, n) else None
  {
    if n > 0 {
      GatheredApart(pages, names, n - 1, name);
      CollectsName(Gathered(pages, names, n - 1), pages[n - 1], names, |names|, name);
    }
  }

  // ---------- Lists ----------

  /** The items of an output's lists, page after page. */
  function ItemsOf(pages: seq<Outs>, name: Bytes, n: nat): seq<Out>
    requires n <= |pages|
  {
    if n == 0 then []
    else ItemsOf(pages, name, n - 1) + match At(pages[n - 1], name) case Some(ListOf(items)) => items case _ => []
  }

  ghost predicate AllLists(pages: seq<Outs>, name: Bytes, n: nat)
    requires n <= |pages|
  {
    forall i :: 0 <= i < n ==> At(pages[i], name).None? || At(pages[i], name).value.ListOf?
  }

  ghost predicate SomewhereIn(pages: seq<Outs>, name: Bytes, n: nat)
    requires n <= |pages|
  {
    exists i :: 0 <= i < n && At(pages[i], name).Some?
  }

  /** An output that is a list wherever it is given is gathered as all its items in order. */
  lemma {:induction false} ListsConcatenate(pages: seq<Outs>, name: Bytes, n: nat)
    requires n <= |pages| && AllLists(pages, name, n)
    ensures GatheredOf(pages, name, n)
      == if SomewhereIn(pages, name, n) then Some(ListOf(ItemsOf(pages, name, n))) else None
    ensures !SomewhereIn(pages, name, n) ==> ItemsOf(pages, name, n) == []
  {
    if n > 0 {
      ListsConcatenate(pages, name, n - 1);
      SomewhereNext(pages, name, n - 1);
      hide SomewhereIn;
      var items := ItemsOf(pages, name, n - 1);
      if At(pages[n - 1], name).Some? {
        assert [] + At(pages[n - 1], name).value.items == At(pages[n - 1], name).value.items;
      } else {
        assert items + [] == items;
      }
    }
  }

  lemma SomewhereNext(pages: seq<Outs>, name: Bytes, n: nat)
    requires n < |pages|
    ensures SomewhereIn(pages, name, n + 1) <==> SomewhereIn(pages, name, n) || At(pages[n], name).Some?
  {
  }

  // ---------- Whole numbers ----------

  function SumOf(pages: seq<Outs>, name: Bytes, n: nat): int
    requires n <= |pages|
  {
    if n == 0 then 0 else SumOf(pages, name, n - 1) + match At(pages[n - 1], name) case Some(Whole(i)) => i case _ => 0
  }

  ghost predicate AllWhole(pages: seq<Outs>, name: Bytes, n: nat)
    requires n <= |pages|
  {
    forall i :: 0 <= i < n ==> At(pages[i], name).None?
                               || (At(pages[i], name).value.Whole? && -TWO_63 <= At(pages[i], name).value.i < TWO_63)
  }

  /** An output that is a whole number wherever it is given is gathered as the sum, in 64 bits. */
  lemma {:induction false} WholesAdd(pages: seq<Outs>, name: Bytes, n: nat)
    requires n <= |pages| && AllWhole(pages, name, n)
    ensures GatheredOf(pages, name, n)
      == if SomewhereIn(pages, name, n) then Some(Whole(Wrap(SumOf(pages, name, n)))) else None
    ensures !SomewhereIn(pages, name, n) ==> SumOf(pages, name, n) == 0
  {
    hide Wrap;
    if n > 0 {
      WholesAdd(pages, name, n - 1);
      if At(pages[n - 1], name).Some? {
        var i := At(pages[n - 1], name).value.i;
        WrapAgain(SumOf(pages, name, n - 1), i);
        WrapOfSmall(i);
      }
    }
  }
}
