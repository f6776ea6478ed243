/** Strings joined from pieces with commas, and when two such strings are the same. */
module Pieces {
  import opened Bytes

  const COMMA: byte := 44

  predicate CommaFree(s: bytes) {
    forall i :: 0 <= i < |s| ==> s[i] != COMMA
  }

  type plain = s: slice | CommaFree(s) witness []

  function Join(list: seq<bytes>): bytes {
    if list == [] then [] else Tail(list)[1..]
  }

  /** Every piece with a comma before it. */
  function Tail(pieces: seq<bytes>): (s: bytes)
    ensures pieces != [] ==> s != [] && s[0] == COMMA
  {
    if pieces == [] then [] else [COMMA] + pieces[0] + Tail(pieces[1..])
  }

  lemma {:induction false} TailAppend(a: seq<bytes>, b: seq<bytes>)
    ensures Tail(a + b) == Tail(a) + Tail(b)
  {
    if a == [] {
      assert a + b == b;
    } else {
      assert (a + b)[1..] == a[1..] + b;
      TailAppend(a[1..], b);
    }
  }

  lemma JoinSnoc(pieces: seq<bytes>, val: bytes)
    requires pieces != []
    ensures Join(pieces + [val]) == Join(pieces) + ([COMMA] + val)
  {
    TailAppend(pieces, [val]);
    assert Tail([val]) == [COMMA] + val;
  }

  // ----- Agreement

  function Commas(s: bytes): nat {
    if s == [] then 0 else (if s[0] == COMMA then 1 else 0) + Commas(s[1..])
  }

  lemma {:induction false} CommasAppend(a: bytes, b: bytes)
    ensures Commas(a + b) == Commas(a) + Commas(b)
  {
    if a == [] {
      assert a + b == b;
    } else {
      assert (a + b)[1..] == a[1..] + b;
      CommasAppend(a[1..], b);
    }
  }

  lemma {:induction false} CommaFreeCount(s: bytes)
    ensures CommaFree(s) <==> Commas(s) == 0
  {
    if s != [] {
      CommaFreeCount(s[1..]);
      assert s == [s[0]] + s[1..];
    }
  }

  /** Each piece of qs equals its partner in ps or has no comma. */
  predicate Tame(ps: seq<bytes>, qs: seq<bytes>) {
    |ps| == |qs| && forall i :: 0 <= i < |ps| ==> CommaFree(qs[i]) || ps[i] == qs[i]
  }

  lemma TailCommas(piece: bytes, rest: seq<bytes>)
    ensures Commas(Tail([piece] + rest)) == 1 + Commas(piece) + Commas(Tail(rest))
  {
    assert ([piece] + rest)[1..] == rest;
    assert Tail([piece] + rest) == [COMMA] + (piece + Tail(rest));
    assert ([COMMA] + (piece + Tail(rest)))[1..] == piece + Tail(rest);
    CommasAppend(piece, Tail(rest));
  }

  lemma {:induction false} TameHasFewerCommas(ps: seq<bytes>, qs: seq<bytes>)
    requires Tame(ps, qs)
    ensures Commas(Tail(qs)) <= Commas(Tail(ps))
  {
    if ps != [] {
      TameHasFewerCommas(ps[1..], qs[1..]);
      assert ps == [ps[0]] + ps[1..] && qs == [qs[0]] + qs[1..];
      TailCommas(ps[0], ps[1..]);
      TailCommas(qs[0], qs[1..]);
      CommaFreeCount(qs[0]);
    }
  }

  /** The bytes before the first comma. */
  function FirstPiece(s: bytes): bytes {
    if s == [] || s[0] == COMMA then [] else [s[0]] + FirstPiece(s[1..])
  }

  lemma {:induction false} PieceIsFirst(a: bytes, x: bytes)
    requires CommaFree(a) && (x == [] || x[0] == COMMA)
    ensures FirstPiece(a + x) == a
  {
    if a == [] {
      assert a + x == x;
    } else {
      assert (a + x)[1..] == a[1..] + x;
      PieceIsFirst(a[1..], x);
    }
  }

  lemma SamePrefix(a: bytes, b: bytes, x: bytes, y: bytes)
    requires a + x == b + y && CommaFree(a) && CommaFree(b)
    requires x == [] || x[0] == COMMA
    requires y == [] || y[0] == COMMA
    ensures a == b && x == y
  {
    PieceIsFirst(a, x);
    PieceIsFirst(b, y);
    assert (a + x)[|a|..] == x && (b + y)[|b|..] == y;
  }

  /** No comma inside a piece can make up for a piece that differs: the joins agree only piece by piece. */
  lemma {:induction false} JoinsAgreePiecewise(ps: seq<bytes>, qs: seq<bytes>)
    requires Tame(ps, qs) && Tail(ps) == Tail(qs)
    ensures ps == qs
  {
    if ps != [] {
      var p, q, ps', qs' := ps[0], qs[0], ps[1..], qs[1..];
      assert ps == [p] + ps' && qs == [q] + qs';
      TailCommas(p, ps');
      TailCommas(q, qs');
      TameHasFewerCommas(ps', qs');
      CommaFreeCount(p);
      CommaFreeCount(q);
      assert Tail(ps)[1..] == p + Tail(ps') && Tail(qs)[1..] == q + Tail(qs');
      if p != q {
        SamePrefix(p, q, Tail(ps'), Tail(qs'));
      } else {
        assert (p + Tail(ps'))[|p|..] == Tail(ps') && (q + Tail(qs'))[|q|..] == Tail(qs');
      }
      JoinsAgreePiecewise(ps', qs');
    }
  }

  lemma Cons(p: bytes, ps: seq<bytes>, q: bytes, qs: seq<bytes>)
    requires Tame(ps, qs) && (CommaFree(q) || q == p)
    ensures Tame([p] + ps, [q] + qs)
    ensures [p] + ps == [q] + qs <==> p == q && ps == qs
  {
    var s, t := [p] + ps, [q] + qs;
    assert s[0] == p && t[0] == q && s[1..] == ps && t[1..] == qs;
  }

  lemma SameJoin(ps: seq<bytes>, qs: seq<bytes>)
    requires Tame(ps, qs) && ps != []
    ensures Join(ps) == Join(qs) <==> ps == qs
  {
    if Join(ps) == Join(qs) {
      assert Tail(ps) == [COMMA] + Join(ps) && Tail(qs) == [COMMA] + Join(qs);
      JoinsAgreePiecewise(ps, qs);
    }
  }

  lemma HeadingFirst(a: seq<bytes>, ps: seq<bytes>, b: seq<bytes>, qs: seq<bytes>)
    requires |a| == |b| && Tame(ps, qs) && forall i :: 0 <= i < |b| ==> CommaFree(b[i])
    ensures Tame(a + ps, b + qs)
    ensures a + ps == b + qs <==> a == b && ps == qs
  {
    var s, t := a + ps, b + qs;
    assert s[..|a|] == a && t[..|a|] == b && s[|a|..] == ps && t[|a|..] == qs;
  }

  predicate AllCommaFree(ps: seq<bytes>) {
    forall i :: 0 <= i < |ps| ==> CommaFree(ps[i])
  }

  /** Pieces without commas are told apart by the join, however many there are. */
  lemma {:induction false} CommaFreeJoins(ps: seq<bytes>, qs: seq<bytes>)
    requires AllCommaFree(ps) && AllCommaFree(qs) && Tail(ps) == Tail(qs)
    ensures ps == qs
  {
    if ps != [] && qs != [] {
      var p, q, ps', qs' := ps[0], qs[0], ps[1..], qs[1..];
      assert Tail(ps)[1..] == p + Tail(ps') && Tail(qs)[1..] == q + Tail(qs');
      SamePrefix(p, q, Tail(ps'), Tail(qs'));
      CommaFreeJoins(ps', qs');
      assert ps == [p] + ps' && qs == [q] + qs';
    }
  }

  /** Pieces without commas can be taken off the front, whatever follows them. */
  lemma {:induction false} PlainPiecesPeel(a: seq<bytes>, ps: seq<bytes>, b: seq<bytes>, qs: seq<bytes>)
    requires |a| == |b| && AllCommaFree(a) && AllCommaFree(b)
    ensures Tail(a + ps) == Tail(b + qs) <==> a == b && Tail(ps) == Tail(qs)
  {
    if a == [] {
      assert a + ps == ps && b + qs == qs;
    } else {
      PlainPiecesPeel(a[1..], ps, b[1..], qs);
      TailOfCons(a[0], a[1..], ps);
      TailOfCons(b[0], b[1..], qs);
      assert a == [a[0]] + a[1..] && b == [b[0]] + b[1..];
      SameFirst(a[0], Tail(a[1..] + ps), b[0], Tail(b[1..] + qs));
    }
  }

  lemma TailOfCons(first: bytes, more: seq<bytes>, rest: seq<bytes>)
    ensures Tail([first] + more + rest) == [COMMA] + (first + Tail(more + rest))
  {
    assert ([first] + more + rest)[1..] == more + rest;
  }

  lemma SameFirst(a: bytes, x: bytes, b: bytes, y: bytes)
    requires CommaFree(a) && CommaFree(b)
    requires x == [] || x[0] == COMMA
    requires y == [] || y[0] == COMMA
    ensures [COMMA] + (a + x) == [COMMA] + (b + y) <==> a == b && x == y
  {
    if [COMMA] + (a + x) == [COMMA] + (b + y) {
      assert ([COMMA] + (a + x))[1..] == a + x && ([COMMA] + (b + y))[1..] == b + y;
      SamePrefix(a, b, x, y);
    }
  }

  lemma JoinOrTail(ps: seq<bytes>, qs: seq<bytes>)
    requires ps != [] && qs != []
    ensures Join(ps) == Join(qs) <==> Tail(ps) == Tail(qs)
  {
    assert Tail(ps) == [COMMA] + Join(ps) && Tail(qs) == [COMMA] + Join(qs);
  }

  // ----- Cutting at the commas

  /** The pieces between the commas of s. */
  function Cut(s: bytes): (pieces: seq<bytes>)
    ensures pieces != []
    decreases |s|
  {
    var first := FirstPiece(s);
    FirstPieceIsFront(s);
    if |first| == |s| then [first] else [first] + Cut(s[|first| + 1..])
  }

  lemma {:induction false} FirstPieceIsFront(s: bytes)
    ensures |FirstPiece(s)| <= |s| && FirstPiece(s) == s[..|FirstPiece(s)|]
    ensures |FirstPiece(s)| < |s| ==> s[|FirstPiece(s)|] == 44
  {
    if s != [] && s[0] != COMMA {
      FirstPieceIsFront(s[1..]);
      assert s == [s[0]] + s[1..];
    }
  }

  lemma CutOfFirst(first: bytes, rest: bytes)
    requires CommaFree(first)
    ensures Cut(first) == [first]
    ensures Cut(first + ([COMMA] + rest)) == [first] + Cut(rest)
  {
    PieceIsFirst(first, []);
    assert first + [] == first;
    PieceIsFirst(first, [COMMA] + rest);
    assert (first + ([COMMA] + rest))[|first| + 1..] == rest;
  }

  /** What joining and cutting makes of the pieces. */
  function Recut(pieces: seq<bytes>): seq<bytes> {
    if pieces == [] then [] else Cut(Join(pieces))
  }

  lemma RecutOfCons(first: bytes, more: seq<bytes>)
    requires CommaFree(first)
    ensures Recut([first] + more) == [first] + Recut(more)
  {
    JoinOfCons(first, more);
    CutOfFirst(first, if more == [] then [] else Join(more));
  }

  /** Joining and cutting gives back the pieces, up to the first that may hold commas itself. */
  lemma {:induction false} CutOfJoin(pieces: seq<bytes>, rest: seq<bytes>)
    requires forall i :: 0 <= i < |pieces| ==> CommaFree(pieces[i])
    ensures Recut(pieces + rest) == pieces + Recut(rest)
    decreases |pieces|
  {
    if pieces == [] {
      assert pieces + rest == rest;
    } else {
      CutOfJoin(pieces[1..], rest);
      RecutOfCons(pieces[0], pieces[1..] + rest);
      Uncons(pieces, rest);
      Uncons(pieces, Recut(rest));
    }
  }

  lemma RecutOfPlain(pieces: seq<bytes>)
    requires forall i :: 0 <= i < |pieces| ==> CommaFree(pieces[i])
    ensures Recut(pieces) == pieces
  {
    CutOfJoin(pieces, []);
    assert pieces + [] == pieces;
  }

  lemma Uncons(pieces: seq<bytes>, rest: seq<bytes>)
    requires pieces != []
    ensures [pieces[0]] + (pieces[1..] + rest) == pieces + rest
  {
  }

  lemma JoinOfCons(first: bytes, more: seq<bytes>)
    ensures Join([first] + more) == if more == [] then first else first + ([COMMA] + Join(more))
  {
    assert ([first] + more)[1..] == more;
    if more == [] {
      assert Tail([first]) == [COMMA] + first + [];
    } else {
      assert Tail(more) == [COMMA] + Join(more);
      assert Tail([first] + more) == [COMMA] + (first + Tail(more));
    }
  }
}
