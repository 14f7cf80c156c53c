/** Filling an expanded template in one pass (adapter/template.go substitutePlaceholders): the literal text
    is followed, and each value escaped for the place it fills. */
module Filling {
  import opened Bytes
  import opened Scanner
  import opened Values

  /** An expanded template: literal text, and values in their places. */
  datatype Piece = Literal(text: Bytes) | Hole(v: Val)

  ghost predicate PiecesOk(pieces: seq<Piece>) {
    forall i :: 0 <= i < |pieces| && pieces[i].Hole? ==> ValOk(pieces[i].v)
  }

  /** Where the scanner stands after n pieces, having followed the literals alone. */
  function StateAt(ctx: Context, pieces: seq<Piece>, n: nat): State
    requires n <= |pieces|
  {
    if n == 0 then Start
    else
      var s := StateAt(ctx, pieces, n - 1);
      match pieces[n - 1]
      case Literal(text) => Fed(ctx, s, text, |text|)
      case Hole(_) => Scanner.AfterValue(ctx, s)
  }

  function PieceText(ctx: Context, s: State, p: Piece): Bytes
  {
    match p
    case Literal(text) => text
    case Hole(v) => Rendered(ctx, s, v)
  }

  /** What is written for the first n pieces. */
  function Output(ctx: Context, pieces: seq<Piece>, n: nat): Bytes
    requires n <= |pieces|
  {
    if n == 0 then [] else Output(ctx, pieces, n - 1) + PieceText(ctx, StateAt(ctx, pieces, n - 1), pieces[n - 1])
  }

  /** Fills the pieces in one pass. */
  method Fill(ctx: Context, pieces: seq<Piece>) returns (out: Bytes)
    ensures out == Output(ctx, pieces, |pieces|)
  {
    var scanner := new ContextScanner(ctx);
    out := [];
    for n := 0 to |pieces|
      invariant fresh(scanner) && scanner.ctx == ctx && scanner.Now() == StateAt(ctx, pieces, n)
        && out == Output(ctx, pieces, n)
    {
      match pieces[n] {
        case Literal(text) =>
          scanner.Feed(text);
          out := out + text;
        case Hole(v) =>
          var text := scanner.Escape(v);
          out := out + text;
      }
    }
  }
}
