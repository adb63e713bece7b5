/**
 * QString::arg with one string argument: the string is scanned for place markers ('%',
 * an optional 'L', then one or two ASCII digits), and every marker carrying the lowest
 * number found is replaced by the argument. Without any marker the string is unchanged.
 * The argument is inserted as it is and not scanned again.
 */
module Format {
  import opened Wrappers
  import opened Decimal

  /** A piece of a scanned string: literal text, or a place marker with its number and its text. */
  datatype Piece = Literal(text: string) | Marker(number: nat, text: string)

  /** The texts of the pieces, end to end. */
  function Raw(ps: seq<Piece>): string {
    if ps == [] then [] else ps[0].text + Raw(ps[1..])
  }

  lemma {:induction false} RawAppend(ps: seq<Piece>, qs: seq<Piece>)
    ensures Raw(ps + qs) == Raw(ps) + Raw(qs)
  {
    if ps == [] {
      assert ps + qs == qs;
    } else {
      assert (ps + qs)[1..] == ps[1..] + qs;
      RawAppend(ps[1..], qs);
    }
  }

  /**
   * The length of the piece at the start of `s`: one character that is not '%'; or '%',
   * an optional 'L' and one or two digits (a marker); or '%' and the optional 'L' alone
   * when no digit follows, after which scanning resumes.
   */
  function ChunkEnd(s: string): (e: nat)
    requires s != []
    ensures 1 <= e <= |s|
  {
    if s[0] != '%' then 1
    else
      var k := if |s| > 1 && s[1] == 'L' then 2 else 1;
      if |s| <= k then |s|
      else if !IsDigit(s[k]) then k
      else if |s| > k + 1 && IsDigit(s[k + 1]) then k + 2
      else k + 1
  }

  /** What a chunk is: a marker when it is '%' ... digit, with the number its last one or two digits spell. */
  function PieceOf(c: string): Piece {
    if |c| >= 2 && c[0] == '%' && IsDigit(c[|c| - 1]) then
      if |c| >= 3 && IsDigit(c[|c| - 2]) then Marker(DigitValue(c[|c| - 2]) * 10 + DigitValue(c[|c| - 1]), c)
      else Marker(DigitValue(c[|c| - 1]), c)
    else Literal(c)
  }

  /** The pieces of `s` in the order the scan meets them. */
  function Pieces(s: string): seq<Piece>
    decreases |s|
  {
    if s == [] then []
    else
      var e := ChunkEnd(s);
      [PieceOf(s[..e])] + Pieces(s[e..])
  }

  /** The scan loses nothing: the pieces' texts spell the string again. */
  lemma {:induction false} PiecesRaw(s: string)
    ensures Raw(Pieces(s)) == s
    decreases |s|
  {
    if s != [] {
      var e := ChunkEnd(s);
      var c, rest := s[..e], Pieces(s[e..]);
      PiecesRaw(s[e..]);
      assert PieceOf(c).text == c;
      assert ([PieceOf(c)] + rest)[1..] == rest;
      assert Raw(Pieces(s)) == c + Raw(rest);
      assert s == c + s[e..];
    }
  }

  /** A chunk inside `p` ends where it would end in `p + t` when `t` cannot continue a marker. */
  lemma ChunkEndAppend(p: string, t: string)
    requires p != []
    requires t == [] || (!IsDigit(t[0]) && t[0] != 'L')
    ensures ChunkEnd(p + t) == ChunkEnd(p)
  {
    var s := p + t;
    assert s[0] == p[0];
    if |p| > 1 { assert s[1] == p[1]; }
    if |p| > 2 { assert s[2] == p[2]; }
    if |p| > 3 { assert s[3] == p[3]; }
    if t != [] { assert s[|p|] == t[0]; }
  }

  /** The lowest marker number among the pieces, if there is a marker. */
  function Lowest(ps: seq<Piece>): Option<nat>
  {
    if ps == [] then None
    else
      var rest := Lowest(ps[1..]);
      if ps[0].Marker? then Some(if rest.Some? && rest.value < ps[0].number then rest.value else ps[0].number)
      else rest
  }

  /** There is no lowest number exactly when every piece is literal text. */
  lemma {:induction false} LowestNone(ps: seq<Piece>)
    ensures Lowest(ps).None? <==> forall k :: 0 <= k < |ps| ==> ps[k].Literal?
  {
    if ps != [] {
      LowestNone(ps[1..]);
      assert forall k :: 1 <= k < |ps| ==> ps[k] == ps[1..][k - 1];
    }
  }

  /** The lowest number is that of some marker, and no marker has a lower one. */
  lemma {:induction false} LowestIsMinimum(ps: seq<Piece>)
    requires Lowest(ps).Some?
    ensures exists k :: 0 <= k < |ps| && ps[k].Marker? && ps[k].number == Lowest(ps).value
    ensures forall k :: 0 <= k < |ps| && ps[k].Marker? ==> Lowest(ps).value <= ps[k].number
  {
    var rest := Lowest(ps[1..]);
    assert forall k :: 1 <= k < |ps| ==> ps[k] == ps[1..][k - 1];
    if rest.Some? {
      LowestIsMinimum(ps[1..]);
      var k :| 0 <= k < |ps[1..]| && ps[1..][k].Marker? && ps[1..][k].number == rest.value;
      assert ps[k + 1] == ps[1..][k];
    } else {
      LowestNone(ps[1..]);
    }
  }

  /** The pieces written out again, with every marker numbered `m` replaced by `a`. */
  function Fill(ps: seq<Piece>, m: nat, a: string): string {
    if ps == [] then []
    else (if ps[0].Marker? && ps[0].number == m then a else ps[0].text) + Fill(ps[1..], m, a)
  }

  /** QString::arg(a). */
  function Arg(s: string, a: string): (r: string)
    ensures Lowest(Pieces(s)).None? ==> r == s
  {
    var ps := Pieces(s);
    match Lowest(ps)
    case None => s
    case Some(m) => Fill(ps, m, a)
  }

  /** Whether a string has no place marker; then `arg` leaves it unchanged. */
  predicate MarkerFree(s: string) {
    Lowest(Pieces(s)).None?
  }

  /** Filling pieces without markers writes their texts back. */
  lemma {:induction false} FillLiterals(ps: seq<Piece>, m: nat, a: string)
    requires Lowest(ps).None?
    ensures Fill(ps, m, a) == Raw(ps)
  {
    if ps != [] {
      FillLiterals(ps[1..], m, a);
    }
  }

  lemma {:induction false} FillAppend(ps: seq<Piece>, qs: seq<Piece>, m: nat, a: string)
    ensures Fill(ps + qs, m, a) == Fill(ps, m, a) + Fill(qs, m, a)
  {
    if ps == [] {
      assert ps + qs == qs;
    } else {
      assert (ps + qs)[1..] == ps[1..] + qs;
      FillAppend(ps[1..], qs, m, a);
    }
  }

  /** The smaller of two optional marker numbers. */
  function MinMarker(x: Option<nat>, y: Option<nat>): Option<nat> {
    if x.None? then y else if y.None? then x else Some(if x.value <= y.value then x.value else y.value)
  }

  lemma {:induction false} LowestAppend(ps: seq<Piece>, qs: seq<Piece>)
    ensures Lowest(ps + qs) == MinMarker(Lowest(ps), Lowest(qs))
  {
    if ps == [] {
      assert ps + qs == qs;
    } else {
      assert (ps + qs)[1..] == ps[1..] + qs;
      LowestAppend(ps[1..], qs);
    }
  }

  /** Whether `s` holds no '%', so that it scans as literal characters. */
  predicate NoPercent(s: string) {
    s == [] || (s[0] != '%' && NoPercent(s[1..]))
  }

  /** Text without '%' scans as literal characters, whatever follows it. */
  lemma {:induction false} PiecesAfterPlain(p: string, t: string)
    requires NoPercent(p)
    ensures Pieces(p + t) == Pieces(p) + Pieces(t)
    ensures Lowest(Pieces(p)).None?
  {
    PlainIsLiteral(p);
    if p == [] {
      assert p + t == t;
    } else {
      var s := p + t;
      assert s[0] == p[0] && s[1..] == p[1..] + t;
      PlainHead(s);
      PlainHead(p);
      PiecesAfterPlain(p[1..], t);
      var hd, rest, tl := [Literal([p[0]])], Pieces(p[1..]), Pieces(t);
      assert hd + (rest + tl) == (hd + rest) + tl;
    }
  }

  /** Text without '%' scans as literals only. */
  lemma {:induction false} PlainIsLiteral(p: string)
    requires NoPercent(p)
    ensures Lowest(Pieces(p)).None?
  {
    if p != [] {
      PlainHead(p);
      PlainIsLiteral(p[1..]);
      var rest := Pieces(p[1..]);
      assert ([Literal([p[0]])] + rest)[1..] == rest;
    }
  }

  /** NoPercent is the absence of '%'. */
  lemma {:induction false} NoPercentWithout(s: string)
    requires '%' !in s
    ensures NoPercent(s)
  {
    if s != [] {
      assert forall c :: c in s[1..] ==> c in s;
      NoPercentWithout(s[1..]);
    }
  }

  /** A string that does not start with '%' scans its first character as a literal. */
  lemma PlainHead(s: string)
    requires s != [] && s[0] != '%'
    ensures Pieces(s) == [Literal([s[0]])] + Pieces(s[1..])
  {
    assert ChunkEnd(s) == 1;
    assert s[..1] == [s[0]];
  }

  /**
   * A string scans the same on its own as in front of text that starts with neither a
   * digit nor an 'L': no marker can reach across the joint.
   */
  lemma {:induction false} PiecesAppend(p: string, t: string)
    requires t == [] || (!IsDigit(t[0]) && t[0] != 'L')
    ensures Pieces(p + t) == Pieces(p) + Pieces(t)
    decreases |p|
  {
    if p == [] {
      assert p + t == t;
    } else {
      var s := p + t;
      var e := ChunkEnd(p);
      ChunkEndAppend(p, t);
      assert s[..e] == p[..e];
      assert s[e..] == p[e..] + t;
      PiecesAppend(p[e..], t);
      assert Pieces(s) == [PieceOf(p[..e])] + (Pieces(p[e..]) + Pieces(t));
    }
  }

  /** '%' and one digit scan as a single marker numbered by that digit. */
  lemma PiecesOfMarker(s: string, d: char)
    requires IsDigit(d) && s == ['%', d]
    ensures Pieces(s) == [Marker(DigitValue(d), s)]
  {
    assert ChunkEnd(s) == 2;
    assert s[..2] == s && s[2..] == [];
    assert PieceOf(s) == Marker(DigitValue(d), s);
  }

  /**
   * Literal pieces, then a marker no lower than any after it: that marker's number is the
   * lowest, and filling writes the literals back.
   */
  lemma FillAfterLiterals(ps: seq<Piece>, mk: Piece, qs: seq<Piece>, n: nat, a: string)
    requires mk.Marker? && Lowest(ps).None?
    requires Lowest(qs).None? || mk.number <= Lowest(qs).value
    ensures Lowest(ps + ([mk] + qs)) == Some(mk.number)
    ensures Fill(ps + ([mk] + qs), n, a) == Raw(ps) + ((if mk.number == n then a else mk.text) + Fill(qs, n, a))
  {
    LowestAppend(ps, [mk] + qs);
    assert ([mk] + qs)[1..] == qs;
    FillAppend(ps, [mk] + qs, n, a);
    FillLiterals(ps, n, a);
  }

  /**
   * The tail `a + v + b` of a two-slot template, where `a` and `b` hold no '%' and `b`
   * cannot lengthen the marker before it, scans as literals around the marker %2.
   */
  lemma TailPieces(a: string, v: string, b: string)
    requires v == ['%', '2']
    requires NoPercent(a) && NoPercent(b)
    requires b == [] || (!IsDigit(b[0]) && b[0] != 'L')
    ensures Pieces(a + (v + b)) == Pieces(a) + ([Marker(2, v)] + Pieces(b))
    ensures Lowest(Pieces(a)).None? && Lowest(Pieces(b)).None?
  {
    PiecesAfterPlain(a, v + b);
    PiecesOfMarker(v, '2');
    PiecesAppend(v, b);
    PiecesAfterPlain(b, []);
    assert b + [] == b;
  }

  /** Filling the tail rewrites its %2 exactly when the number filled is 2. */
  lemma TailFill(a: string, v: string, b: string, n: nat, y: string)
    requires v == ['%', '2']
    requires NoPercent(a) && NoPercent(b)
    requires b == [] || (!IsDigit(b[0]) && b[0] != 'L')
    ensures Lowest(Pieces(a + (v + b))) == Some(2)
    ensures Fill(Pieces(a + (v + b)), n, y) == a + ((if n == 2 then y else v) + b)
  {
    TailPieces(a, v, b);
    PiecesRaw(a);
    PiecesRaw(b);
    FillAfterLiterals(Pieces(a), Marker(2, v), Pieces(b), n, y);
    FillLiterals(Pieces(b), n, y);
  }

  /** `h + u + t` with plain `h`, the marker %1 and a tail `t` that cannot lengthen it. */
  lemma HeadPieces(h: string, u: string, t: string)
    requires u == ['%', '1']
    requires NoPercent(h)
    requires t == [] || (!IsDigit(t[0]) && t[0] != 'L')
    ensures Pieces(h + (u + t)) == Pieces(h) + ([Marker(1, u)] + Pieces(t))
    ensures Lowest(Pieces(h)).None?
  {
    PiecesAfterPlain(h, u + t);
    PiecesOfMarker(u, '1');
    PiecesAppend(u, t);
  }

  /** The lowest marker of `s` when it is below `n`, and `n` otherwise. */
  function LowestBelow(s: string, n: nat): (m: nat)
    ensures m <= n
    ensures MarkerFree(s) ==> m == n
  {
    var low := Lowest(Pieces(s));
    if low.Some? && low.value < n then low.value else n
  }

  /** `arg(x)` on a two-slot template `h + u + a + v + b` puts `x` in place of %1 and leaves %2. */
  lemma ArgFirstSlot(h: string, u: string, a: string, v: string, b: string, x: string)
    requires u == ['%', '1'] && v == ['%', '2']
    requires NoPercent(h) && NoPercent(a) && NoPercent(b)
    requires a != [] && !IsDigit(a[0]) && a[0] != 'L'
    requires b == [] || (!IsDigit(b[0]) && b[0] != 'L')
    ensures Arg(h + (u + (a + (v + b))), x) == h + (x + (a + (v + b)))
  {
    var t := a + (v + b);
    assert t[0] == a[0];
    HeadPieces(h, u, t);
    PiecesRaw(h);
    TailFill(a, v, b, 1, x);
    FillAfterLiterals(Pieces(h), Marker(1, u), Pieces(t), 1, x);
  }

  /** The lowest marker of `h + x + t` for plain `h` and a tail whose lowest is 2. */
  lemma SecondLowest(h: string, x: string, t: string)
    requires NoPercent(h)
    requires Lowest(Pieces(t)) == Some(2)
    requires t == [] || (!IsDigit(t[0]) && t[0] != 'L')
    ensures Pieces(h + (x + t)) == Pieces(h) + (Pieces(x) + Pieces(t))
    ensures Lowest(Pieces(h + (x + t))) == Some(LowestBelow(x, 2))
    ensures Lowest(Pieces(h)).None?
  {
    PiecesAfterPlain(h, x + t);
    PiecesAppend(x, t);
    LowestBetween(Pieces(h), Pieces(x), Pieces(t));
  }

  /** Literals, then any pieces, then pieces whose lowest marker is 2. */
  lemma LowestBetween(ps: seq<Piece>, xs: seq<Piece>, ts: seq<Piece>)
    requires Lowest(ps).None? && Lowest(ts) == Some(2)
    ensures Lowest(ps + (xs + ts)) == Some(if Lowest(xs).Some? && Lowest(xs).value < 2 then Lowest(xs).value else 2)
  {
    LowestAppend(ps, xs + ts);
    LowestAppend(xs, ts);
  }

  /**
   * `arg(y)` after `x` went into %1: `y` goes into every marker of `x` numbered below 2
   * if there is one, and into %2 otherwise.
   */
  lemma ArgSecondSlot(h: string, a: string, v: string, b: string, x: string, y: string)
    requires v == ['%', '2']
    requires NoPercent(h) && NoPercent(a) && NoPercent(b)
    requires a != [] && !IsDigit(a[0]) && a[0] != 'L'
    requires b == [] || (!IsDigit(b[0]) && b[0] != 'L')
    ensures var m := LowestBelow(x, 2);
      Arg(h + (x + (a + (v + b))), y) == h + (Fill(Pieces(x), m, y) + (a + ((if m == 2 then y else v) + b)))
  {
    var t := a + (v + b);
    assert t[0] == a[0];
    var m := LowestBelow(x, 2);
    TailFill(a, v, b, m, y);
    SecondLowest(h, x, t);
    PiecesRaw(h);
    var ph, px, pt := Pieces(h), Pieces(x), Pieces(t);
    FillAppend(ph, px + pt, m, y);
    FillAppend(px, pt, m, y);
    FillLiterals(ph, m, y);
  }

  /**
   * `arg(x).arg(y)` on the two-slot template `tpl`: `x` goes into %1, then `y` into the
   * markers of `x` numbered below 2 if it has any, and into %2 otherwise.
   */
  lemma ArgTwice(tpl: string, h: string, u: string, a: string, v: string, b: string, x: string, y: string)
    requires tpl == h + (u + (a + (v + b)))
    requires u == ['%', '1'] && v == ['%', '2']
    requires NoPercent(h) && NoPercent(a) && NoPercent(b)
    requires a != [] && !IsDigit(a[0]) && a[0] != 'L'
    requires b == [] || (!IsDigit(b[0]) && b[0] != 'L')
    ensures var m := LowestBelow(x, 2);
      Arg(Arg(tpl, x), y) == h + (Fill(Pieces(x), m, y) + (a + ((if m == 2 then y else v) + b)))
  {
    ArgFirstSlot(h, u, a, v, b, x);
    ArgSecondSlot(h, a, v, b, x, y);
  }

  /** A name that ends in "%1" after plain text has 1 as its lowest marker, filled at the end. */
  lemma TrailingFirstMarker(p: string, u: string, y: string)
    requires NoPercent(p) && u == ['%', '1']
    ensures LowestBelow(p + u, 2) == 1
    ensures Fill(Pieces(p + u), 1, y) == p + y
  {
    PiecesAfterPlain(p, u);
    PiecesOfMarker(u, '1');
    PiecesRaw(p);
    var pp, mk := Pieces(p), Marker(1, u);
    assert Pieces(p + u) == pp + ([mk] + []);
    FillAfterLiterals(pp, mk, [], 1, y);
    assert Lowest(Pieces(p + u)) == Some(1);
    assert Fill(Pieces(p + u), 1, y) == p + (y + []);
    assert y + [] == y;
  }
}
