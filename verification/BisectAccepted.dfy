/** Exactly which strings the pattern compiler of bisect accepts, what they mean, and which of them its documentation
    describes (internal/bisect/bisect.go). In a set that the compiler accepts, a y voids the digits before it but not
    their places. */
module BisectAccepted {
  import opened Base
  import opened Bisect
  import opened BisectPatterns

  // ----- The wider syntax -----

  predicate IsOperator(c: char) {
    c == '+' || c == '-'
  }

  /** The first operator from i on, or the end. */
  function OperatorFrom(p: string, i: nat): (j: nat)
    requires i <= |p|
    ensures i <= j <= |p| && EndsAt(p, j) && forall k :: i <= k < j ==> !IsOperator(p[k])
    decreases |p| - i
  {
    if i == |p| || IsOperator(p[i]) then i else OperatorFrom(p, i + 1)
  }

  datatype Piece = Piece(plus: bool, text: string)

  /** What stands between the operators from i on, with the operator in front of each. */
  function Pieces(p: string, i: nat, plus: bool): seq<Piece>
    requires i <= |p|
    decreases |p| - i
  {
    var j := OperatorFrom(p, i);
    [Piece(plus, p[i..j])] + (if j == |p| then [] else Pieces(p, j + 1, p[j] == '+'))
  }

  predicate IsHexSet(t: string) {
    t != "" && t[0] == 'x'
  }

  function Marks(t: string): string {
    if IsHexSet(t) then t[1..] else t
  }

  function Width(t: string): nat {
    if IsHexSet(t) then 4 else 1
  }

  /** A mark is a digit, or a y that neither 0 nor 1 follows. */
  predicate MarkOk(u: string, k: nat, hex: bool)
    requires k < |u|
  {
    if u[k] == 'y' then k + 1 < |u| ==> !IsBit(u[k + 1]) else if hex then IsHex(u[k]) else IsBit(u[k])
  }

  predicate MarksOkBefore(u: string, n: nat, hex: bool)
    requires n <= |u|
  {
    forall k :: 0 <= k < n ==> MarkOk(u, k, hex)
  }

  predicate MarksOk(u: string, hex: bool) {
    MarksOkBefore(u, |u|, hex)
  }

  predicate AcceptedSet(t: string) {
    Marks(t) != "" && |Marks(t)| * Width(t) <= 64 && MarksOk(Marks(t), IsHexSet(t))
  }

  /** Sets the compiler accepts, the + operators before the - operators. */
  predicate AcceptedPieces(ps: seq<Piece>) {
    && (forall k :: 0 <= k < |ps| ==> AcceptedSet(ps[k].text))
    && (forall i, j :: 0 <= i < j < |ps| && ps[j].plus ==> ps[i].plus)
  }

  /** The pieces of an expression, behind a leading operator if there is one. */
  function BodyPieces(p: string): seq<Piece> {
    if p != "" && IsOperator(p[0]) then Pieces(p, 1, p[0] == '+') else Pieces(p, 0, true)
  }

  predicate AcceptedBody(p: string) {
    p == "n" || AcceptedPieces(BodyPieces(p))
  }

  function Skip(p: string, c: char): (r: string)
    ensures r == "" || r[0] != c
    ensures |r| <= |p|
  {
    if p != "" && p[0] == c then Skip(p[1..], c) else p
  }

  function BehindQ(s: string): string {
    if s != "" && s[0] == 'q' then s[1..] else s
  }

  /** A pattern without its prefixes. */
  function BodyOf(s: string): string {
    Skip(Skip(BehindQ(s), 'v'), '!')
  }

  predicate Accepted(s: string) {
    AcceptedBody(BodyOf(s))
  }

  // ----- What a set compiles to -----

  /** The bits after some marks: a y clears them. */
  function Register(u: string, wid: nat): nat {
    if u == "" then 0
    else
      var c := u[|u| - 1];
      if c == 'y' then 0 else Shift(Register(u[..|u| - 1], wid), wid, if IsHex(c) then HexDigit(c) else 0)
  }

  function SetCond(q: Piece): Cond
    requires AcceptedSet(q.text)
  {
    var u := Marks(q.text);
    Cond(Mask(if u[0] == 'y' then 0 else |u| * Width(q.text)), Register(u, Width(q.text)), q.plus)
  }

  function SetConds(ps: seq<Piece>): seq<Cond>
    requires AcceptedPieces(ps)
  {
    seq(|ps|, i requires 0 <= i < |ps| => SetCond(ps[i]))
  }

  // ----- Scanning a set -----

  lemma MarkStep(p: string, b: nat, k: nat, j: nat, s: Scan)
    requires b <= k < j <= |p| && EndsAt(p, j) && !IsOperator(p[k]) && s.start == b
    requires s.wid == 4 || (s.wid == 1 && (k == b ==> p[k] != 'x'))
    ensures var c, u := p[k], p[b..j];
            Step(p, k, s)
            == if !MarkOk(u, k - b, s.wid == 4) then None
               else Some(s.(bits := if c == 'y' then 0 else Shift(s.bits, s.wid, if IsHex(c) then HexDigit(c) else 0)))
  {
    var u := p[b..j];
    assert u[k - b] == p[k] && (k + 1 < j ==> u[k - b + 1] == p[k + 1]);
    hide Shift, HexDigit;
  }

  lemma RegisterSnoc(u: string, k: nat, wid: nat)
    requires k < |u|
    ensures Register(u[..k + 1], wid)
         == if u[k] == 'y' then 0 else Shift(Register(u[..k], wid), wid, if IsHex(u[k]) then HexDigit(u[k]) else 0)
  {
    assert u[..k + 1][..k] == u[..k];
  }

  /** The marks of a set from number k on: they are read, or one of them is refused. */
  lemma {:induction false} MarksScan(p: string, b: nat, k: nat, j: nat, wid: nat, result: bool, list: seq<Cond>)
    requires b <= k <= j <= |p| && EndsAt(p, j) && forall m :: b <= m < j ==> !IsOperator(p[m])
    requires wid == 4 || (wid == 1 && (b < j ==> p[b] != 'x'))
    requires MarksOkBefore(p[b..j], k - b, wid == 4)
    ensures var u := p[b..j];
            ScanFrom(p, k, Scan(Register(u[..k - b], wid), b, wid, result, list))
            == if MarksOk(u, wid == 4) then ScanFrom(p, j, Scan(Register(u, wid), b, wid, result, list)) else None
    decreases j - k
  {
    var u := p[b..j];
    hide Register, MarkOk, Step;
    if k == j {
      assert u[..k - b] == u;
    } else {
      var s := Scan(Register(u[..k - b], wid), b, wid, result, list);
      MarkStep(p, b, k, j, s);
      RegisterSnoc(u, k - b, wid);
      if MarkOk(u, k - b, wid == 4) {
        MarksScan(p, b, k + 1, j, wid, result, list);
      }
    }
  }

  /** An operator, or the end, behind a set of any kind. */
  lemma OperatorDecides(p: string, j: nat, s: Scan)
    requires EndsAt(p, j) && 0 < j && s.start <= j && 0 < s.wid
    ensures var n := (j - s.start) * s.wid;
            Step(p, j, s)
            == if (OperatorAt(p, j) == '+' && !s.result) || n > 64 || j == s.start then None
               else Some(Scan(0, j + 1, 1, OperatorAt(p, j) == '+',
                              s.list + [Cond(Mask(if p[s.start] == 'y' then 0 else n), s.bits, s.result)]))
  {
    if s.start < j {
      assert (j - s.start) * s.wid > 0;
    }
    hide Mask;
  }

  lemma OneScan(p: string, j: nat, s: Scan)
    requires j <= |p|
    ensures ScanFrom(p, j, s) == match Step(p, j, s) case None => None case Some(t) => ScanFrom(p, j + 1, t)
  {
    hide Step;
  }

  /** A set and the operator behind it are compiled exactly when the set is accepted and the operator in order. */
  lemma SetScans(p: string, i: nat, result: bool, list: seq<Cond>)
    requires i <= |p| && OperatorFrom(p, i) > 0
    ensures var j := OperatorFrom(p, i);
            var q, plus := Piece(result, p[i..j]), j < |p| && p[j] == '+';
            ScanFrom(p, i, Scan(0, i, 1, result, list))
            == if AcceptedSet(q.text) && (plus ==> result)
               then ScanFrom(p, j + 1, Scan(0, j + 1, 1, plus, list + [SetCond(q)]))
               else None
  {
    hide Step, ScanFrom, Register, MarksOk, MarksOkBefore, MarkOk, Mask;
    var j := OperatorFrom(p, i);
    var t := p[i..j];
    var b := if IsHexSet(t) then i + 1 else i;
    var wid, u := Width(t), p[b..j];
    assert Marks(t) == u;
    if IsHexSet(t) {
      XScans(p, i, result, list);
    }
    NothingRead(u, wid);
    MarksScan(p, b, b, j, wid, result, list);
    if MarksOk(u, wid == 4) {
      var s := Scan(Register(u, wid), b, wid, result, list);
      OneScan(p, j, s);
      OperatorDecides(p, j, s);
    }
  }

  lemma NothingRead(u: string, wid: nat)
    ensures Register(u[..0], wid) == 0 && MarksOkBefore(u, 0, wid == 4)
  {
  }

  /** The rest of an expression, its first operator being read. */
  lemma {:induction false} PiecesScan(p: string, i: nat, result: bool, list: seq<Cond>)
    requires i <= |p| && OperatorFrom(p, i) > 0
    ensures var ps := Pieces(p, i, result);
            ScanFrom(p, i, Scan(0, i, 1, result, list)) == if AcceptedPieces(ps) then Some(list + SetConds(ps)) else None
    decreases |p| - i
  {
    hide *;
    var j := OperatorFrom(p, i);
    var q := Piece(result, p[i..j]);
    SetScans(p, i, result, list);
    PiecesCons(p, i, result);
    if j == |p| {
      AcceptedOne(q);
      if AcceptedSet(q.text) {
        ScanIsOver(p, Scan(0, |p| + 1, 1, false, list + [SetCond(q)]));
      }
    } else {
      var more := Pieces(p, j + 1, p[j] == '+');
      AcceptedCons(q, more);
      if AcceptedSet(q.text) {
        PiecesScan(p, j + 1, p[j] == '+', list + [SetCond(q)]);
        if AcceptedPieces([q] + more) {
          assert list + ([SetCond(q)] + SetConds(more)) == list + [SetCond(q)] + SetConds(more);
        }
      }
    }
  }

  lemma PiecesCons(p: string, i: nat, plus: bool)
    requires i <= |p|
    ensures var j := OperatorFrom(p, i);
            var q := Piece(plus, p[i..j]);
            if j == |p| then Pieces(p, i, plus) == [q]
            else var more := Pieces(p, j + 1, p[j] == '+');
                 (Pieces(p, i, plus) == [q] + more && more != [] && more[0].plus == (p[j] == '+'))
  {
    var j := OperatorFrom(p, i);
    if j < |p| {
      FirstPlus(p, j + 1, p[j] == '+');
    }
  }

  lemma AcceptedOne(q: Piece)
    ensures AcceptedPieces([q]) <==> AcceptedSet(q.text)
    ensures AcceptedSet(q.text) ==> SetConds([q]) == [SetCond(q)]
  {
    assert [q][0] == q;
    hide AcceptedSet, SetCond;
  }

  lemma FirstPlus(p: string, i: nat, plus: bool)
    requires i <= |p|
    ensures Pieces(p, i, plus) != [] && Pieces(p, i, plus)[0].plus == plus
  {
  }

  lemma AcceptedCons(q: Piece, more: seq<Piece>)
    requires more != []
    ensures AcceptedPieces([q] + more) <==> AcceptedSet(q.text) && (more[0].plus ==> q.plus) && AcceptedPieces(more)
    ensures AcceptedPieces([q] + more) ==> SetConds([q] + more) == [SetCond(q)] + SetConds(more)
  {
    hide AcceptedSet, SetCond;
    var ps := [q] + more;
    assert forall k :: 0 <= k < |more| ==> more[k] == ps[k + 1];
    assert ps[0] == q && ps[1] == more[0];
    if AcceptedSet(q.text) && (more[0].plus ==> q.plus) && AcceptedPieces(more) {
      forall k | 0 <= k < |ps|
        ensures AcceptedSet(ps[k].text) && (ps[k].plus ==> q.plus)
      {
        assert k > 0 ==> ps[k] == more[k - 1];
      }
    }
  }

  // ----- Whole strings -----

  function BodyConds(p: string): seq<Cond>
    requires AcceptedBody(p)
  {
    if p == "n" then [Cond(0, 0, true)]
    else (if p != "" && p[0] == '-' then [Cond(0, 0, true)] else []) + SetConds(BodyPieces(p))
  }

  lemma BodyIsAccepted(p: string, verbose: bool, quiet: bool, enable: bool)
    requires p != ""
    ensures CompileBody(p, verbose, quiet, enable)
         == if !AcceptedBody(p) then ParseError
            else Compiled(Matcher(verbose, quiet, if p == "n" then !enable else enable, BodyConds(p)))
  {
    if p == "n" {
      AllScans("y", 0, true, []);
      AllMask();
      assert [] + [Cond(0, 0, true)] == [Cond(0, 0, true)];
    } else if IsOperator(p[0]) {
      var list := if p[0] == '+' then [] else [Cond(0, 0, true)];
      assert START.list + [Cond(0, 0, true)] == [Cond(0, 0, true)];
      assert Step(p, 0, START) == Some(Scan(0, 1, 1, p[0] == '+', list));
      hide Step, AcceptedPieces, SetConds, Pieces;
      PiecesScan(p, 1, p[0] == '+', list);
    } else {
      hide AcceptedPieces, SetConds, Pieces;
      PiecesScan(p, 0, true, []);
    }
  }

  lemma {:induction false} BangsSkip(p: string, verbose: bool, quiet: bool, enable: bool)
    ensures var r := Skip(p, '!');
            CompileBangs(p, verbose, quiet, enable)
            == if r == "" then ParseError
               else CompileBody(r, verbose, quiet, if (|p| - |r|) % 2 == 0 then enable else !enable)
    decreases |p|
  {
    hide CompileBody;
    if p != "" && p[0] == '!' {
      BangsSkip(p[1..], verbose, quiet, !enable);
    }
  }

  lemma {:induction false} VsSkip(p: string, verbose: bool, quiet: bool)
    ensures var r := Skip(p, 'v');
            CompileVs(p, verbose, quiet)
            == if r == "" then ParseError else CompileBangs(r, verbose || |r| < |p|, quiet && |r| == |p|, true)
    decreases |p|
  {
    hide CompileBangs;
    if p != "" && p[0] == 'v' {
      VsSkip(p[1..], true, false);
    }
  }

  /** The compiler accepts exactly these strings, with the flags of their prefixes and one condition for each set. */
  lemma CompiledExactlyWhen(s: string)
    requires s != ""
    ensures var vs := Skip(BehindQ(s), 'v');
            var b := BodyOf(s);
            Compile(s)
            == if !Accepted(s) then ParseError
               else Compiled(Matcher(|vs| < |BehindQ(s)|, s[0] == 'q' && |vs| == |BehindQ(s)|,
                                     ((|vs| - |b|) % 2 == 0) == (b != "n"), BodyConds(b)))
  {
    hide CompileBody, CompileVs, CompileBangs, BodyConds, Skip, AcceptedBody;
    var p := BehindQ(s);
    var vs, b := Skip(p, 'v'), BodyOf(s);
    VsSkip(p, false, s[0] == 'q');
    BangsSkip(vs, |vs| < |p|, s[0] == 'q' && |vs| == |p|, true);
    NothingIsNoBody();
    if b != "" {
      BodyIsAccepted(b, |vs| < |p|, s[0] == 'q' && |vs| == |p|, (|vs| - |b|) % 2 == 0);
    }
  }

  lemma NothingIsNoBody()
    ensures !AcceptedBody("")
    ensures Skip("", '!') == ""
  {
    assert Pieces("", 0, true)[0] == Piece(true, "");
  }

  // ----- What an accepted set means -----

  /** The digits that count: a y makes zeros of itself and of everything before it. */
  function Voided(u: string): (d: string)
    ensures |d| == |u|
  {
    if u == "" then ""
    else if u[|u| - 1] == 'y' then ZeroDigits(|u|)
    else Voided(u[..|u| - 1]) + [u[|u| - 1]]
  }

  function ZeroDigits(n: nat): (d: string)
    ensures |d| == n && forall i :: 0 <= i < n ==> d[i] == '0'
  {
    if n == 0 then "" else ZeroDigits(n - 1) + ['0']
  }

  function AsSuffix(d: string, hex: bool): Suffix {
    if hex then Hex(d) else Binary(d)
  }

  lemma {:induction false} VoidedDigits(u: string, hex: bool)
    requires MarksOk(u, hex)
    ensures forall i :: 0 <= i < |u| ==> if hex then IsHex(Voided(u)[i]) else IsBit(Voided(u)[i])
  {
    if u != "" && u[|u| - 1] != 'y' {
      assert MarkOk(u, |u| - 1, hex);
      FrontOk(u, hex);
      VoidedDigits(u[..|u| - 1], hex);
    }
    hide MarksOk;
  }

  lemma FrontOk(u: string, hex: bool)
    requires u != "" && MarksOk(u, hex)
    ensures MarksOk(u[..|u| - 1], hex)
  {
    var front := u[..|u| - 1];
    forall k | 0 <= k < |front|
      ensures MarkOk(front, k, hex)
    {
      assert MarkOk(u, k, hex);
    }
  }

  lemma VoidedIsLegal(t: string)
    requires AcceptedSet(t)
    ensures LegalSuffix(AsSuffix(Voided(Marks(t)), IsHexSet(t)))
  {
    VoidedDigits(Marks(t), IsHexSet(t));
    hide Voided, MarksOk, IsHex;
  }

  /** A set that starts with y selects everything or, with digits behind its last y, nothing; any other the identifiers
      that end in its digits, the voided ones being zeros. */
  predicate SetSelects(t: string, id: nat)
    requires AcceptedSet(t)
  {
    var u := Marks(t);
    VoidedIsLegal(t);
    if u[0] == 'y' then u[|u| - 1] == 'y' else EndsIn(id, BitsOf(AsSuffix(Voided(u), IsHexSet(t))))
  }

  /** The number that digits denote. */
  function Number(d: string, hex: bool): nat
    requires d == "" || LegalSuffix(AsSuffix(d, hex))
  {
    if d == "" then 0 else Num(BitsOf(AsSuffix(d, hex)))
  }

  lemma NumberSnoc(d: string, c: char, hex: bool)
    requires LegalSuffix(AsSuffix(d + [c], hex)) && IsHex(c)
    ensures d == "" || LegalSuffix(AsSuffix(d, hex))
    ensures var base := if hex then 16 else 2;
            Number(d + [c], hex) == base * Number(d, hex) + HexDigit(c) < WORD
  {
    var all := d + [c];
    hide Num, Nibbles, HexDigit;
    assert all[..|d|] == d && all[..|all|] == all;
    if hex {
      HexNum(all, |all|);
      NumOfNoDigits();
      assert HexDigit(c) < 16;
    } else {
      BinaryNum(all, |all|);
      var bits := BitsOf(Binary(all));
      assert bits[..|all|] == bits;
      if d == "" {
        NumOfNone(bits);
      } else {
        assert bits[..|d|] == BitsOf(Binary(d));
      }
      BitValue(c);
    }
  }

  lemma BitValue(c: char)
    requires IsBit(c)
    ensures HexDigit(c) == if c == '1' then 1 else 0
  {
  }

  lemma {:induction false} ZeroNumber(n: nat, hex: bool)
    requires n == 0 || LegalSuffix(AsSuffix(ZeroDigits(n), hex))
    ensures Number(ZeroDigits(n), hex) == 0
  {
    if n > 0 {
      NumberSnoc(ZeroDigits(n - 1), '0', hex);
      ZeroNumber(n - 1, hex);
      BitValue('0');
    }
    hide Number, LegalSuffix, HexDigit;
  }

  /** What is left of the marks in the register is the number of the digits that count. */
  lemma {:induction false} RegisterIsNumber(u: string, hex: bool)
    requires u == "" || LegalSuffix(AsSuffix(Voided(u), hex))
    requires MarksOk(u, hex)
    ensures Register(u, if hex then 4 else 1) == Number(Voided(u), hex)
  {
    if u != "" {
      var front, c := u[..|u| - 1], u[|u| - 1];
      if c == 'y' {
        ZeroNumber(|u|, hex);
      } else {
        assert MarkOk(u, |u| - 1, hex);
        NumberSnoc(Voided(front), c, hex);
        FrontOk(u, hex);
        RegisterIsNumber(front, hex);
        ShiftFits(Register(front, if hex then 4 else 1), hex, HexDigit(c));
        hide Number, Shift, HexDigit, LegalSuffix, MarksOk;
      }
    }
  }

  lemma ShiftFits(bits: nat, hex: bool, digit: nat)
    requires (if hex then 16 else 2) * bits + digit < WORD
    ensures Shift(bits, if hex then 4 else 1, digit) == (if hex then 16 else 2) * bits + digit
  {
    assert Pow2(2) == 4;
    assert Pow2(4) == 16 && Pow2(1) == 2;
  }

  /** Behind a y at the front, no other digits than zeros are possible only if there are none. */
  lemma {:induction false} DigitsLeft(u: string, hex: bool)
    requires LegalSuffix(AsSuffix(Voided(u), hex)) && MarksOk(u, hex)
    requires u[0] == 'y' && u[|u| - 1] != 'y'
    ensures Number(Voided(u), hex) != 0
  {
    var front, c := u[..|u| - 1], u[|u| - 1];
    assert front[0] == 'y' && Voided(u) == Voided(front) + [c];
    assert MarkOk(u, |u| - 1, hex) && MarkOk(u, |u| - 2, hex);
    NumberSnoc(Voided(front), c, hex);
    if front[|front| - 1] == 'y' {
      assert hex && !IsBit(c) && HexDigit(c) >= 2;
    } else {
      FrontOk(u, hex);
      DigitsLeft(front, hex);
    }
    hide Number, LegalSuffix, MarksOk, HexDigit;
  }

  /** The condition of a set is its meaning. */
  lemma SetMeans(q: Piece, id: nat)
    requires AcceptedSet(q.text)
    ensures SetCond(q).Matches(id) == SetSelects(q.text, id)
  {
    var u, hex := Marks(q.text), IsHexSet(q.text);
    VoidedIsLegal(q.text);
    RegisterIsNumber(u, hex);
    if u[0] == 'y' {
      assert Mask(0) == 0 && And(id, 0) == 0 by {
        assert Pow2(0) == 1;
      }
      if u[|u| - 1] != 'y' {
        DigitsLeft(u, hex);
      }
      hide Number, LegalSuffix, MarksOk, EndsIn, BitsOf, Voided;
    } else {
      var d := AsSuffix(Voided(u), hex);
      BitsLength(d);
      EndsInByMask(id, BitsOf(d));
      hide And, Mask, Num, BitsOf, EndsIn, Voided, Register, MarksOk, LegalSuffix;
    }
  }

  predicate EvaluatePieces(ps: seq<Piece>, start: bool, id: nat)
    requires AcceptedPieces(ps)
    decreases |ps|
  {
    if ps == [] then start
    else
      var q, front := ps[|ps| - 1], ps[..|ps| - 1];
      if q.plus then EvaluatePieces(front, start, id) || SetSelects(q.text, id)
      else EvaluatePieces(front, start, id) && !SetSelects(q.text, id)
  }

  lemma {:induction false} LastMatchIsPieces(prefix: seq<Cond>, ps: seq<Piece>, id: nat)
    requires AcceptedPieces(ps)
    ensures ScanBack(prefix + SetConds(ps), id) == EvaluatePieces(ps, ScanBack(prefix, id), id)
    decreases |ps|
  {
    var list := prefix + SetConds(ps);
    hide AcceptedSet, SetCond, SetSelects, Cond.Matches;
    if ps == [] {
      assert list == prefix;
    } else {
      var q, front := ps[|ps| - 1], ps[..|ps| - 1];
      LastMatchIsPieces(prefix, front, id);
      assert list[|list| - 1] == SetCond(q);
      assert list[..|list| - 1] == prefix + SetConds(front);
      SetMeans(q, id);
      assert SetCond(q).result == q.plus by { ResultIsPlus(q); }
    }
  }

  lemma ResultIsPlus(q: Piece)
    requires AcceptedSet(q.text)
    ensures SetCond(q).result == q.plus
  {
  }

  /** Every accepted string means the left-to-right evaluation of its sets. */
  lemma AcceptedMeaning(s: string, id: nat)
    requires Accepted(s)
    ensures Compile(s).Compiled?
    ensures var b := BodyOf(s);
            Compile(s).m.Result(id) == (b == "n" || EvaluatePieces(BodyPieces(b), b != "" && b[0] == '-', id))
  {
    var b := BodyOf(s);
    NothingIsNoBody();
    assert Skip("", 'v') == "";
    CompiledExactlyWhen(s);
    assert ScanBack([Cond(0, 0, true)], id) by {
      assert And(id, 0) == 0;
    }
    if b != "n" {
      LastMatchIsPieces(if b != "" && b[0] == '-' then [Cond(0, 0, true)] else [], BodyPieces(b), id);
    }
    hide Compile, Skip, BodyPieces, SetConds, EvaluatePieces, AcceptedPieces;
  }
}
