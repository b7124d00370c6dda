/** What the patterns of bisect mean (internal/bisect/bisect.go, package documentation, "Pattern Syntax"), and that
    compiling a pattern preserves it. */
module BisectPatterns {
  import opened Base
  import opened Bisect

  // ----- Patterns -----

  // The intended syntax: what the package documentation describes, and what only comments in the code do, which are
  // hexadecimal sets, the prefix q, and the repetition of v and !.

  /** A set of changes: all of them, or those whose identifiers end in the given binary or hexadecimal digits. */
  datatype Suffix = All | Binary(digits: string) | Hex(digits: string)

  datatype Term = Term(plus: bool, suffix: Suffix)

  /** signed: whether a leading plus is written out. */
  datatype Body = Nothing | Expression(terms: seq<Term>, signed: bool)

  datatype Pattern = Pattern(quiet: bool, verbose: nat, bangs: nat, body: Body)

  predicate IsHex(c: char) {
    IsDigit(c) || IsHexLetter(c)
  }

  /** A set as it can be written, of any length. */
  predicate WrittenSuffix(s: Suffix) {
    match s
    case All => true
    case Binary(d) => d != "" && forall i :: 0 <= i < |d| ==> IsBit(d[i])
    case Hex(d) => d != "" && forall i :: 0 <= i < |d| ==> IsHex(d[i])
  }

  /** Identifiers have 64 bits. */
  predicate LegalSuffix(s: Suffix) {
    WrittenSuffix(s) && match s case All => true case Binary(d) => |d| <= 64 case Hex(d) => |d| <= 16
  }

  /** All the + operators come before all the - operators. */
  predicate PlusBeforeMinus(terms: seq<Term>) {
    forall i, j :: 0 <= i < j < |terms| && terms[j].plus ==> terms[i].plus
  }

  predicate WrittenTerms(terms: seq<Term>) {
    (forall i :: 0 <= i < |terms| ==> WrittenSuffix(terms[i].suffix)) && PlusBeforeMinus(terms)
  }

  predicate LegalTerms(terms: seq<Term>) {
    (forall i :: 0 <= i < |terms| ==> LegalSuffix(terms[i].suffix)) && PlusBeforeMinus(terms)
  }

  predicate Written(p: Pattern) {
    p.body.Expression? ==> p.body.terms != [] && WrittenTerms(p.body.terms)
  }

  predicate Legal(p: Pattern) {
    p.body.Expression? ==> p.body.terms != [] && LegalTerms(p.body.terms)
  }

  function SuffixText(s: Suffix): (t: string)
    ensures WrittenSuffix(s) ==> t != ""
  {
    match s
    case All => "y"
    case Binary(d) => d
    case Hex(d) => "x" + d
  }

  function Sign(plus: bool): char {
    if plus then '+' else '-'
  }

  /** The terms from number k on, each with its operator. */
  function SignedText(terms: seq<Term>, k: nat): string
    requires k <= |terms|
    decreases |terms| - k, 1
  {
    if k == |terms| then "" else [Sign(terms[k].plus)] + UnsignedText(terms, k)
  }

  /** The same without the first operator. */
  function UnsignedText(terms: seq<Term>, k: nat): string
    requires k < |terms|
    decreases |terms| - k, 0
  {
    SuffixText(terms[k].suffix) + SignedText(terms, k + 1)
  }

  function BodyText(b: Body): string {
    if b.Nothing? then "n"
    else if b.terms != [] && b.terms[0].plus && !b.signed then UnsignedText(b.terms, 0)
    else SignedText(b.terms, 0)
  }

  function Repeat(c: char, n: nat): string {
    if n == 0 then "" else [c] + Repeat(c, n - 1)
  }

  function Text(p: Pattern): string {
    (if p.quiet then "q" else "") + Repeat('v', p.verbose) + Repeat('!', p.bangs) + BodyText(p.body)
  }

  // ----- Meaning -----

  /** The last four bits of a digit, most significant first. */
  function Nibble(c: char): seq<bool>
    requires IsHex(c)
  {
    var h := HexDigit(c);
    [h / 8 % 2 == 1, h / 4 % 2 == 1, h / 2 % 2 == 1, h % 2 == 1]
  }

  function BitsOf(s: Suffix): seq<bool>
    requires LegalSuffix(s)
  {
    match s
    case All => []
    case Binary(d) => seq(|d|, i requires 0 <= i < |d| => d[i] == '1')
    case Hex(d) => Nibbles(d)
  }

  function Nibbles(d: string): seq<bool>
    requires forall i :: 0 <= i < |d| ==> IsHex(d[i])
  {
    if d == "" then [] else Nibbles(d[..|d| - 1]) + Nibble(d[|d| - 1])
  }

  /** Whether the last binary digits of id are the given ones. */
  predicate EndsIn(id: nat, bits: seq<bool>)
    decreases |bits|
  {
    bits == [] || ((id % 2 == 1) == bits[|bits| - 1] && EndsIn(id / 2, bits[..|bits| - 1]))
  }

  /** Left-to-right evaluation: + adds a set, - takes one away. */
  predicate Evaluate(terms: seq<Term>, start: bool, id: nat)
    requires LegalTerms(terms)
    decreases |terms|
  {
    if terms == [] then start
    else
      var t, front := terms[|terms| - 1], terms[..|terms| - 1];
      if t.plus then Evaluate(front, start, id) || EndsIn(id, BitsOf(t.suffix))
      else Evaluate(front, start, id) && !EndsIn(id, BitsOf(t.suffix))
  }

  /** The changes a pattern selects: a leading - subtracts from all changes, any other term from none; n selects all. */
  predicate Selects(p: Pattern, id: nat)
    requires Legal(p)
  {
    p.body.Nothing? || Evaluate(p.body.terms, !p.body.terms[0].plus, id)
  }

  /** Every ! inverts what is enabled, and n stands for !y. */
  predicate Enables(p: Pattern, id: nat)
    requires Legal(p)
  {
    if (p.bangs + (if p.body.Nothing? then 1 else 0)) % 2 == 0 then Selects(p, id) else !Selects(p, id)
  }

  // ----- Bits and numbers -----

  function Num(bits: seq<bool>): nat {
    if bits == [] then 0 else 2 * Num(bits[..|bits| - 1]) + (if bits[|bits| - 1] then 1 else 0)
  }

  lemma {:induction false} NumBound(bits: seq<bool>)
    ensures Num(bits) < Pow2(|bits|)
  {
    if bits != [] {
      NumBound(bits[..|bits| - 1]);
    }
  }

  lemma HalfModulo(id: nat, m: nat)
    requires m > 0
    ensures id % (2 * m) == 2 * (id / 2 % m) + id % 2
  {
    var h, r := id / 2, id % 2;
    var q, t := h / m, h % m;
    assert id == 2 * (m * q + t) + r;
    assert id == (2 * m) * q + (2 * t + r);
    ModuloIs(id, 2 * m, q, 2 * t + r);
  }

  lemma ModuloIs(a: int, b: int, q: int, r: int)
    requires b > 0 && a == b * q + r && 0 <= r < b
    ensures a % b == r
  {
    var d := a / b - q;
    assert a == b * (a / b) + a % b;
    assert b * (a / b) - b * q == b * d;
    assert d >= 1 ==> b * d >= b;
    assert d <= -1 ==> b * d <= -b;
  }

  /** Masking the last n bits is taking the remainder. */
  lemma {:induction false} AndModulo(id: nat, n: nat)
    ensures And(id, Pow2(n) - 1) == id % Pow2(n)
    decreases n
  {
    if n > 0 {
      var m := Pow2(n - 1);
      AndModulo(id / 2, n - 1);
      HalfModulo(id, m);
      AndHalf(id, m);
      assert Pow2(n) == 2 * m;
    } else {
      assert Pow2(0) == 1;
    }
    hide *;
  }

  lemma AndHalf(id: nat, m: nat)
    requires m > 0
    ensures And(id, 2 * m - 1) == id % 2 + 2 * And(id / 2, m - 1)
  {
    assert (2 * m - 1) / 2 == m - 1 && (2 * m - 1) % 2 == 1;
  }

  lemma MaskIs(n: nat)
    requires n <= 64
    ensures Mask(n) == Pow2(n) - 1
  {
    Pow2Monotone(n, 64);
    WordIsPow2();
    WrapMinusOne(Pow2(n));
    hide Pow2;
  }

  lemma WrapMinusOne(x: nat)
    requires 1 <= x <= WORD
    ensures (x % WORD - 1) % WORD == x - 1
  {
    if x < WORD {
      assert x % WORD == x;
    }
  }

  /** Ending in certain bits is what the masked comparison of a compiled condition tests. */
  lemma EndsInByMask(id: nat, bits: seq<bool>)
    requires |bits| <= 64
    ensures EndsIn(id, bits) <==> And(id, Mask(|bits|)) == Num(bits)
  {
    EndsInByModulo(id, bits);
    AndModulo(id, |bits|);
    MaskIs(|bits|);
    hide *;
  }

  /** Ending in certain bits is being congruent to their number. */
  lemma {:induction false} EndsInByModulo(id: nat, bits: seq<bool>)
    ensures EndsIn(id, bits) <==> id % Pow2(|bits|) == Num(bits)
    decreases |bits|
  {
    if bits != [] {
      var front := bits[..|bits| - 1];
      EndsInByModulo(id / 2, front);
      HalfModulo(id, Pow2(|front|));
      NumBound(front);
    }
  }

  // ----- The list of conditions -----

  function CondOf(t: Term): Cond
    requires LegalSuffix(t.suffix)
  {
    var bits := BitsOf(t.suffix);
    Cond(Mask(|bits|), Num(bits), t.plus)
  }

  function CondsOf(terms: seq<Term>): seq<Cond>
    requires LegalTerms(terms)
  {
    seq(|terms|, i requires 0 <= i < |terms| => CondOf(terms[i]))
  }

  /** The last condition that matches decides: that is left-to-right evaluation. */
  lemma {:induction false} LastMatchIsEvaluation(prefix: seq<Cond>, terms: seq<Term>, id: nat)
    requires LegalTerms(terms)
    ensures ScanBack(prefix + CondsOf(terms), id) == Evaluate(terms, ScanBack(prefix, id), id)
    decreases |terms|
  {
    var list := prefix + CondsOf(terms);
    if terms == [] {
      assert list == prefix;
    } else {
      var t, front := terms[|terms| - 1], terms[..|terms| - 1];
      LastMatchIsEvaluation(prefix, front, id);
      assert list[|list| - 1] == CondOf(t);
      assert list[..|list| - 1] == prefix + CondsOf(front);
      BitsLength(t.suffix);
      EndsInByMask(id, BitsOf(t.suffix));
      hide And, Mask, Num, BitsOf, EndsIn;
    }
  }

  // ----- Scanning a written pattern -----

  /** The text t stands at position i of p. */
  predicate At(p: string, i: nat, t: string) {
    i + |t| <= |p| && forall k :: 0 <= k < |t| ==> p[i + k] == t[k]
  }

  lemma AtSplit(p: string, i: nat, a: string, b: string)
    requires At(p, i, a + b)
    ensures At(p, i, a) && At(p, i + |a|, b)
  {
    assert forall k :: 0 <= k < |a| ==> (a + b)[k] == a[k];
    assert forall k :: 0 <= k < |b| ==> p[i + |a| + k] == p[i + (|a| + k)] == (a + b)[|a| + k] == b[k];
  }

  lemma Pow2Monotone(a: nat, b: nat)
    requires a <= b
    ensures Pow2(a) <= Pow2(b)
    decreases b
  {
    if a < b {
      Pow2Monotone(a, b - 1);
    }
  }

  lemma WordIsPow2()
    ensures Pow2(64) == WORD
  {
    assert Pow2(2) == 4;
    Pow2Adds(2, 2);
    Pow2Adds(4, 4);
    Pow2Adds(8, 8);
    Pow2Adds(16, 16);
    Pow2Adds(32, 32);
  }

  lemma {:induction false} Pow2Adds(a: nat, b: nat)
    ensures Pow2(a + b) == Pow2(a) * Pow2(b)
  {
    if b > 0 {
      Pow2Adds(a, b - 1);
      assert Pow2(a) * (2 * Pow2(b - 1)) == 2 * (Pow2(a) * Pow2(b - 1));
    }
  }

  lemma BitsLength(s: Suffix)
    requires LegalSuffix(s)
    ensures |BitsOf(s)| == match s case All => 0 case Binary(d) => |d| case Hex(d) => 4 * |d|
  {
    if s.Hex? {
      NibblesLength(s.digits);
    }
  }

  lemma BinaryStep(p: string, j: nat, s: Scan)
    requires j < |p| && IsBit(p[j]) && s.wid == 1 && 2 * s.bits + 1 < WORD
    ensures Step(p, j, s) == Some(s.(bits := 2 * s.bits + (if p[j] == '1' then 1 else 0)))
  {
    assert Pow2(1) == 2;
  }

  lemma HexStep(p: string, j: nat, s: Scan)
    requires j < |p| && IsHex(p[j]) && s.wid == 4 && 16 * s.bits + 15 < WORD
    ensures Step(p, j, s) == Some(s.(bits := 16 * s.bits + HexDigit(p[j])))
  {
    assert Pow2(2) == 4;
    assert Pow2(4) == 16;
  }

  lemma OneStep(p: string, i: nat, j: nat, s: Scan, t: Scan, u: Scan)
    requires i <= |p| && j <= |p| && ScanFrom(p, i, s) == ScanFrom(p, j, t) && Step(p, j, t) == Some(u)
    ensures ScanFrom(p, i, s) == ScanFrom(p, j + 1, u)
  {
    hide Step;
  }

  /** The loop has read the first k binary digits. */
  lemma {:induction false} BinaryScans(p: string, i: nat, d: string, k: nat, result: bool, list: seq<Cond>)
    requires LegalSuffix(Binary(d)) && At(p, i, d) && k <= |d|
    ensures ScanFrom(p, i, Scan(0, i, 1, result, list))
         == ScanFrom(p, i + k, Scan(Num(BitsOf(Binary(d))[..k]), i, 1, result, list))
  {
    BitsLength(Binary(d));
    hide Step, At, Num, BitsOf, Pow2;
    if k > 0 {
      BinaryScans(p, i, d, k - 1, result, list);
      AtChar(p, i, d, k - 1);
      BinaryNum(d, k);
      assert IsBit(p[i + k - 1]);
      hide ScanFrom, LegalSuffix, IsBit;
      var bits := BitsOf(Binary(d));
      var s := Scan(Num(bits[..k - 1]), i, 1, result, list);
      BinaryStep(p, i + k - 1, s);
      OneStep(p, i, i + k - 1, Scan(0, i, 1, result, list), s, s.(bits := Num(bits[..k])));
    }
    assert k == 0 ==> Num(BitsOf(Binary(d))[..k]) == 0 by {
      NumOfNone(BitsOf(Binary(d)));
    }
  }

  lemma NumOfNone(bits: seq<bool>)
    ensures Num(bits[..0]) == 0
  {
  }

  lemma AtChar(p: string, i: nat, t: string, k: nat)
    requires At(p, i, t) && k < |t|
    ensures i + k < |p| && p[i + k] == t[k]
  {
  }

  lemma BinaryNum(d: string, k: nat)
    requires LegalSuffix(Binary(d)) && 0 < k <= |d|
    ensures var bits := BitsOf(Binary(d));
            && Num(bits[..k]) == 2 * Num(bits[..k - 1]) + (if d[k - 1] == '1' then 1 else 0)
            && 2 * Num(bits[..k - 1]) + 1 < WORD
  {
    var bits := BitsOf(Binary(d));
    assert bits[..k] == bits[..k - 1] + [bits[k - 1]];
    NumSnoc(bits[..k - 1], bits[k - 1]);
    NumFits(bits[..k - 1], 1);
    assert Pow2(1) == 2;
    hide Num, Pow2;
  }

  /** There is room for n more bits. */
  lemma NumFits(bits: seq<bool>, n: nat)
    requires |bits| + n <= 64
    ensures Pow2(n) * Num(bits) + Pow2(n) - 1 < WORD
  {
    NumBound(bits);
    Pow2Adds(n, |bits|);
    Pow2Monotone(|bits| + n, 64);
    WordIsPow2();
    ProductGrows(Pow2(n), Num(bits), Pow2(|bits|));
    hide Num, Pow2;
  }

  lemma ProductGrows(a: nat, x: nat, y: nat)
    requires x < y
    ensures a * x + a <= a * y
  {
    assert a * (y - x - 1) >= 0;
    assert a * (y - x - 1) == a * y - a * x - a;
  }

  lemma {:induction false} NibblesLength(d: string)
    requires forall i :: 0 <= i < |d| ==> IsHex(d[i])
    ensures |Nibbles(d)| == 4 * |d|
  {
    if d != "" {
      NibblesLength(d[..|d| - 1]);
    }
  }

  lemma NumNibble(bits: seq<bool>, c: char)
    requires IsHex(c)
    ensures Num(bits + Nibble(c)) == 16 * Num(bits) + HexDigit(c)
  {
    var h := HexDigit(c);
    NumFour(bits, h / 8 % 2 == 1, h / 4 % 2 == 1, h / 2 % 2 == 1, h % 2 == 1);
    FourBits(h);
    hide Num, HexDigit;
  }

  lemma NumFour(bits: seq<bool>, a: bool, b: bool, c: bool, d: bool)
    ensures Num(bits + [a, b, c, d]) == 16 * Num(bits) + (if a then 8 else 0) + (if b then 4 else 0) + (if c then 2 else 0) + (if d then 1 else 0)
  {
    hide Num;
    NumSnoc(bits, a);
    NumSnoc(bits + [a], b);
    assert bits + [a] + [b] == bits + [a, b];
    NumSnoc(bits + [a, b], c);
    assert bits + [a, b] + [c] == bits + [a, b, c];
    NumSnoc(bits + [a, b, c], d);
    assert bits + [a, b, c] + [d] == bits + [a, b, c, d];
  }

  lemma FourBits(h: nat)
    requires h < 16
    ensures h == 8 * (h / 8 % 2) + 4 * (h / 4 % 2) + 2 * (h / 2 % 2) + h % 2
  {
  }

  lemma NumSnoc(bits: seq<bool>, b: bool)
    ensures Num(bits + [b]) == 2 * Num(bits) + (if b then 1 else 0)
  {
    assert (bits + [b])[..|bits|] == bits;
  }

  /** The loop has read the x and the first k hexadecimal digits. */
  lemma {:induction false} HexScans(p: string, i: nat, d: string, k: nat, result: bool, list: seq<Cond>)
    requires LegalSuffix(Hex(d)) && i < |p| && p[i] == 'x' && At(p, i + 1, d) && k <= |d|
    ensures ScanFrom(p, i, Scan(0, i, 1, result, list))
         == ScanFrom(p, i + 1 + k, Scan(Num(Nibbles(d[..k])), i + 1, 4, result, list))
  {
    hide Step, At, Num, Nibbles, HexDigit;
    if k == 0 {
      XScans(p, i, result, list);
      assert d[..0] == "";
      NumOfNoDigits();
      hide ScanFrom;
    } else {
      HexScans(p, i, d, k - 1, result, list);
      AtChar(p, i + 1, d, k - 1);
      HexNum(d, k);
      assert IsHex(p[i + k]) && HexDigit(p[i + k]) == HexDigit(d[k - 1]);
      hide ScanFrom, LegalSuffix, IsHex;
      var bits := Num(Nibbles(d[..k - 1]));
      var s := Scan(bits, i + 1, 4, result, list);
      HexStep(p, i + k, s);
      OneStep(p, i, i + k, Scan(0, i, 1, result, list), s, s.(bits := Num(Nibbles(d[..k]))));
    }
  }

  lemma NumOfNoDigits()
    ensures Num(Nibbles("")) == 0
  {
  }

  lemma XScans(p: string, i: nat, result: bool, list: seq<Cond>)
    requires i < |p| && p[i] == 'x'
    ensures ScanFrom(p, i, Scan(0, i, 1, result, list)) == ScanFrom(p, i + 1, Scan(0, i + 1, 4, result, list))
  {
    var s := Scan(0, i, 1, result, list);
    assert Step(p, i, s) == Some(Scan(0, i + 1, 4, result, list));
    hide Step;
    OneStep(p, i, i, s, s, Scan(0, i + 1, 4, result, list));
  }

  lemma HexNum(d: string, k: nat)
    requires LegalSuffix(Hex(d)) && 0 < k <= |d|
    ensures Num(Nibbles(d[..k])) == 16 * Num(Nibbles(d[..k - 1])) + HexDigit(d[k - 1])
    ensures 16 * Num(Nibbles(d[..k - 1])) + 15 < WORD
  {
    assert d[..k][..k - 1] == d[..k - 1];
    var bits := Nibbles(d[..k - 1]);
    NumNibble(bits, d[k - 1]);
    NibblesLength(d[..k - 1]);
    NumFits(bits, 4);
    assert Pow2(2) == 4;
    assert Pow2(4) == 16;
    hide Num, Pow2, HexDigit;
  }

  /** Where a set ends: at an operator or at the end of the pattern. */
  predicate EndsAt(p: string, j: nat) {
    j == |p| || (j < |p| && (p[j] == '+' || p[j] == '-'))
  }

  function OperatorAt(p: string, j: nat): char
    requires EndsAt(p, j)
  {
    if j == |p| then '-' else p[j]
  }

  /** An operator after n digits adds the condition for them. */
  lemma OperatorStep(p: string, j: nat, s: Scan)
    requires EndsAt(p, j) && s.start < j <= |p| && (j - s.start) * s.wid <= 64 && s.wid > 0
    requires OperatorAt(p, j) == '+' ==> s.result
    ensures var n := (j - s.start) * s.wid;
            n >= 0 && Step(p, j, s) == Some(Scan(0, j + 1, 1, OperatorAt(p, j) == '+',
                                                 s.list + [Cond(Mask(if p[s.start] == 'y' then 0 else n), s.bits, s.result)]))
  {
    assert (j - s.start) * s.wid > 0;
  }

  /** A whole set and the operator behind it: one condition is added, the one of the set. */
  lemma SuffixScans(p: string, i: nat, s: Suffix, result: bool, list: seq<Cond>)
    requires LegalSuffix(s) && At(p, i, SuffixText(s))
    requires EndsAt(p, i + |SuffixText(s)|)
    requires OperatorAt(p, i + |SuffixText(s)|) == '+' ==> result
    ensures var j := i + |SuffixText(s)|;
            ScanFrom(p, i, Scan(0, i, 1, result, list))
            == ScanFrom(p, j + 1, Scan(0, j + 1, 1, OperatorAt(p, j) == '+', list + [CondOf(Term(result, s))]))
  {
    match s
    case All =>
      assert p[i + 0] == "y"[0];
      AllScans(p, i, result, list);
    case Binary(d) => BinarySetScans(p, i, d, result, list);
    case Hex(d) => HexSetScans(p, i, d, result, list);
  }

  lemma AllScans(p: string, i: nat, result: bool, list: seq<Cond>)
    requires i < |p| && p[i] == 'y' && EndsAt(p, i + 1)
    requires OperatorAt(p, i + 1) == '+' ==> result
    ensures ScanFrom(p, i, Scan(0, i, 1, result, list))
         == ScanFrom(p, i + 2, Scan(0, i + 2, 1, OperatorAt(p, i + 1) == '+', list + [CondOf(Term(result, All))]))
  {
    var s := Scan(0, i, 1, result, list);
    assert Step(p, i, s) == Some(s);
    OperatorStep(p, i + 1, s);
    hide Step;
    OneStep(p, i, i, s, s, s);
    OneStep(p, i, i + 1, s, s, Scan(0, i + 2, 1, OperatorAt(p, i + 1) == '+', list + [CondOf(Term(result, All))]));
  }

  lemma BinarySetScans(p: string, i: nat, d: string, result: bool, list: seq<Cond>)
    requires LegalSuffix(Binary(d)) && At(p, i, d) && EndsAt(p, i + |d|)
    requires OperatorAt(p, i + |d|) == '+' ==> result
    ensures var j := i + |d|;
            ScanFrom(p, i, Scan(0, i, 1, result, list))
            == ScanFrom(p, j + 1, Scan(0, j + 1, 1, OperatorAt(p, j) == '+', list + [CondOf(Term(result, Binary(d)))]))
  {
    hide Step, ScanFrom, Num;
    var j := i + |d|;
    BinaryScans(p, i, d, |d|, result, list);
    var bits := BitsOf(Binary(d));
    assert bits[..|d|] == bits;
    assert p[i + 0] == d[0];
    var s := Scan(Num(bits), i, 1, result, list);
    OperatorStep(p, j, s);
    OneStep(p, i, j, Scan(0, i, 1, result, list), s, Scan(0, j + 1, 1, OperatorAt(p, j) == '+', list + [CondOf(Term(result, Binary(d)))]));
  }

  lemma HexSetScans(p: string, i: nat, d: string, result: bool, list: seq<Cond>)
    requires LegalSuffix(Hex(d)) && At(p, i, "x" + d) && EndsAt(p, i + |"x" + d|)
    requires OperatorAt(p, i + |"x" + d|) == '+' ==> result
    ensures var j := i + |"x" + d|;
            ScanFrom(p, i, Scan(0, i, 1, result, list))
            == ScanFrom(p, j + 1, Scan(0, j + 1, 1, OperatorAt(p, j) == '+', list + [CondOf(Term(result, Hex(d)))]))
  {
    hide Step, ScanFrom, Num, Nibbles;
    var j := i + |"x" + d|;
    assert p[i + 0] == ("x" + d)[0];
    AtSplit(p, i, "x", d);
    HexScans(p, i, d, |d|, result, list);
    NibblesLength(d);
    assert d[..|d|] == d;
    assert p[i + 1 + 0] == d[0];
    var s := Scan(Num(Nibbles(d)), i + 1, 4, result, list);
    OperatorStep(p, j, s);
    OneStep(p, i, j, Scan(0, i, 1, result, list), s, Scan(0, j + 1, 1, OperatorAt(p, j) == '+', list + [CondOf(Term(result, Hex(d)))]));
  }

  lemma TermScans(p: string, i: nat, terms: seq<Term>, k: nat, list: seq<Cond>)
    requires LegalTerms(terms) && k + 1 < |terms|
    requires i + |UnsignedText(terms, k)| == |p| && At(p, i, UnsignedText(terms, k))
    ensures var j := i + |SuffixText(terms[k].suffix)| + 1;
            && j + |UnsignedText(terms, k + 1)| == |p| && At(p, j, UnsignedText(terms, k + 1))
            && ScanFrom(p, i, Scan(0, i, 1, terms[k].plus, list))
               == ScanFrom(p, j, Scan(0, j, 1, terms[k + 1].plus, list + [CondOf(terms[k])]))
  {
    hide Step, CondOf, ScanFrom, At, UnsignedText, SuffixText, CondsOf;
    TermParts(p, i, terms, k);
    assert terms[k + 1].plus ==> terms[k].plus;
    assert LegalSuffix(terms[k].suffix);
    hide LegalTerms, LegalSuffix;
    SuffixScans(p, i, terms[k].suffix, terms[k].plus, list);
  }

  /** Where the parts of an expression stand. */
  lemma TermParts(p: string, i: nat, terms: seq<Term>, k: nat)
    requires k + 1 < |terms| && i + |UnsignedText(terms, k)| == |p| && At(p, i, UnsignedText(terms, k))
    ensures var j := i + |SuffixText(terms[k].suffix)|;
            && At(p, i, SuffixText(terms[k].suffix))
            && j < |p| && p[j] == Sign(terms[k + 1].plus)
            && j + 1 + |UnsignedText(terms, k + 1)| == |p| && At(p, j + 1, UnsignedText(terms, k + 1))
  {
    var head, sign, more := SuffixText(terms[k].suffix), [Sign(terms[k + 1].plus)], UnsignedText(terms, k + 1);
    assert UnsignedText(terms, k) == head + (sign + more);
    hide At, UnsignedText, SuffixText;
    AtSplit(p, i, head, sign + more);
    AtSplit(p, i + |head|, sign, more);
    AtChar(p, i + |head|, sign, 0);
  }

  lemma LastTermScans(p: string, i: nat, t: Term, list: seq<Cond>)
    requires LegalSuffix(t.suffix) && i + |SuffixText(t.suffix)| == |p| && At(p, i, SuffixText(t.suffix))
    ensures ScanFrom(p, i, Scan(0, i, 1, t.plus, list)) == Some(list + [CondOf(t)])
  {
    hide ScanFrom, CondOf, At;
    SuffixScans(p, i, t.suffix, t.plus, list);
    ScanIsOver(p, Scan(0, |p| + 1, 1, false, list + [CondOf(t)]));
  }

  /** The rest of an expression, its first operator being read: one condition for each term. */
  lemma {:induction false} TermsScan(p: string, i: nat, terms: seq<Term>, k: nat, list: seq<Cond>)
    requires LegalTerms(terms) && k < |terms|
    requires i + |UnsignedText(terms, k)| == |p| && At(p, i, UnsignedText(terms, k))
    ensures ScanFrom(p, i, Scan(0, i, 1, terms[k].plus, list)) == Some(list + CondsOf(terms)[k..])
    decreases |terms| - k
  {
    hide CondOf, ScanFrom, At, SuffixText;
    var t := terms[k];
    if k + 1 == |terms| {
      assert UnsignedText(terms, k) == SuffixText(t.suffix) + "" == SuffixText(t.suffix);
      LastTermScans(p, i, t, list);
      assert CondsOf(terms)[k..] == [CondOf(t)];
    } else {
      TermScans(p, i, terms, k, list);
      hide UnsignedText, LegalTerms;
      TermsScan(p, i + |SuffixText(t.suffix)| + 1, terms, k + 1, list + [CondOf(t)]);
      assert CondsOf(terms)[k..] == [CondOf(t)] + CondsOf(terms)[k + 1..];
      assert list + [CondOf(t)] + CondsOf(terms)[k + 1..] == list + CondsOf(terms)[k..];
    }
  }

  lemma ScanIsOver(p: string, s: Scan)
    ensures ScanFrom(p, |p| + 1, s) == Some(s.list)
  {
  }

  // ----- Whole patterns -----

  /** Where the scan of an expression begins: behind a written sign, or at once. */
  lemma {:induction false} BodyScans(b: Body)
    requires b.Expression? && b.terms != [] && LegalTerms(b.terms)
    ensures ScanFrom(BodyText(b), 0, START)
         == Some((if b.terms[0].plus then [] else [Cond(0, 0, true)]) + CondsOf(b.terms))
  {
    var terms := b.terms;
    var text := UnsignedText(terms, 0);
    var p := BodyText(b);
    assert SignedText(terms, 0) == [Sign(terms[0].plus)] + text;
    assert CondsOf(terms)[0..] == CondsOf(terms);
    hide SignedText, SuffixText, CondsOf, UnsignedText;
    if terms[0].plus && !b.signed {
      assert p == text;
      TermsScan(p, 0, terms, 0, []);
    } else {
      assert p[1..] == text && p[0] == Sign(terms[0].plus);
      assert At(p, 1, text) by {
        assert forall k :: 0 <= k < |text| ==> p[1 + k] == p[1..][k];
      }
      var list := if terms[0].plus then [] else [Cond(0, 0, true)];
      assert START.list + [Cond(0, 0, true)] == [Cond(0, 0, true)];
      assert Step(p, 0, START) == Some(Scan(0, 1, 1, terms[0].plus, list));
      hide Step;
      TermsScan(p, 1, terms, 0, list);
    }
  }

  /** The text of an expression begins with none of the prefix letters, and is not n. */
  lemma BodyBegins(b: Body)
    requires b.Expression? ==> b.terms != [] && WrittenTerms(b.terms)
    ensures BodyText(b) != "" && BodyText(b)[0] !in {'q', 'v', '!'} && (BodyText(b) == "n" <==> b.Nothing?)
  {
    if b.Expression? {
      var terms := b.terms;
      var suffix := SuffixText(terms[0].suffix);
      assert UnsignedText(terms, 0)[0] == suffix[0];
      assert suffix[0] !in {'q', 'v', '!', 'n'};
      hide SuffixText, WrittenTerms, WrittenSuffix, UnsignedText;
    }
  }

  lemma {:induction false} BangsCompile(n: nat, rest: string, verbose: bool, quiet: bool, enable: bool)
    requires rest != "" && rest[0] != '!'
    ensures CompileBangs(Repeat('!', n) + rest, verbose, quiet, enable)
         == CompileBody(rest, verbose, quiet, if n % 2 == 0 then enable else !enable)
    decreases n
  {
    hide CompileBody;
    if n == 0 {
      assert Repeat('!', 0) + rest == rest;
    } else {
      BangsCompile(n - 1, rest, verbose, quiet, !enable);
      assert (Repeat('!', n) + rest)[1..] == Repeat('!', n - 1) + rest;
    }
  }

  lemma {:induction false} VsCompile(n: nat, rest: string, verbose: bool, quiet: bool)
    requires rest != "" && rest[0] != 'v'
    ensures CompileVs(Repeat('v', n) + rest, verbose, quiet) == CompileBangs(rest, verbose || n > 0, quiet && n == 0, true)
    decreases n
  {
    hide CompileBangs;
    if n == 0 {
      assert Repeat('v', 0) + rest == rest;
    } else {
      VsCompile(n - 1, rest, true, false);
      assert (Repeat('v', n) + rest)[1..] == Repeat('v', n - 1) + rest;
    }
  }

  /** The conditions that a pattern compiles to. */
  function ListOf(p: Pattern): seq<Cond>
    requires Legal(p)
  {
    BodyList(p.body)
  }

  lemma ListSelects(p: Pattern, id: nat)
    requires Legal(p)
    ensures ScanBack(ListOf(p), id) == Selects(p, id)
  {
    MaskIs(0);
    if p.body.Expression? {
      var prefix := if p.body.terms[0].plus then [] else [Cond(0, 0, true)];
      assert ScanBack(prefix, id) == !p.body.terms[0].plus;
      LastMatchIsEvaluation(prefix, p.body.terms, id);
    }
    hide CondsOf, Evaluate;
  }

  /** Every pattern of the intended syntax compiles, and its flags are those of its prefixes. */
  lemma PatternCompiles(p: Pattern)
    requires Legal(p)
    ensures Compile(Text(p)) == Compiled(Matcher(p.verbose > 0, p.quiet && p.verbose == 0,
                                                 (p.bangs + (if p.body.Nothing? then 1 else 0)) % 2 == 0, ListOf(p)))
  {
    hide Compile, CompileBody, ScanFrom, BodyText, CondsOf, Repeat, LegalTerms;
    LegalIsWritten(p);
    BodyBegins(p.body);
    var enable := p.bangs % 2 == 0;
    PrefixesCompile(p.quiet, p.verbose, p.bangs, BodyText(p.body));
    BodyCompiles(p.body, p.verbose > 0, p.quiet && p.verbose == 0, enable);
  }

  lemma LegalIsWritten(p: Pattern)
    requires Legal(p)
    ensures Written(p)
  {
  }

  lemma PrefixesCompile(quiet: bool, verbose: nat, bangs: nat, body: string)
    requires body != "" && body[0] !in {'q', 'v', '!'}
    ensures Compile((if quiet then "q" else "") + Repeat('v', verbose) + Repeat('!', bangs) + body)
         == CompileBody(body, verbose > 0, quiet && verbose == 0, bangs % 2 == 0)
  {
    var rest := Repeat('!', bangs) + body;
    var vs := Repeat('v', verbose) + rest;
    assert rest != "" && rest[0] != 'v' && rest[0] != 'q' && vs != "" && vs[0] != 'q';
    BangsCompile(bangs, body, verbose > 0, quiet && verbose == 0, true);
    VsCompile(verbose, rest, false, quiet);
    hide CompileBody, CompileVs, CompileBangs, Repeat;
    var text := (if quiet then "q" else "") + Repeat('v', verbose) + Repeat('!', bangs) + body;
    assert text == if quiet then "q" + vs else vs;
    assert quiet ==> text[1..] == vs;
  }

  function BodyList(b: Body): seq<Cond>
    requires b.Expression? ==> b.terms != [] && LegalTerms(b.terms)
  {
    if b.Nothing? then [Cond(0, 0, true)]
    else (if b.terms[0].plus then [] else [Cond(0, 0, true)]) + CondsOf(b.terms)
  }

  lemma AllMask()
    ensures CondOf(Term(true, All)) == Cond(0, 0, true)
  {
    assert Pow2(0) == 1;
  }

  lemma BodyCompiles(b: Body, verbose: bool, quiet: bool, enable: bool)
    requires b.Expression? ==> b.terms != [] && LegalTerms(b.terms)
    ensures CompileBody(BodyText(b), verbose, quiet, enable)
         == Compiled(Matcher(verbose, quiet, if b.Nothing? then !enable else enable, BodyList(b)))
  {
    BodyBegins(b);
    if b.Nothing? {
      AllScans("y", 0, true, []);
      AllMask();
      assert [] + [Cond(0, 0, true)] == [Cond(0, 0, true)];
    } else {
      BodyScans(b);
      hide ScanFrom, BodyText, CondsOf, LegalTerms;
    }
  }

  /** Compilation preserves meaning: for every pattern and identifier the matcher's answers are those of the set
      expression. */
  lemma CompilationPreservesMeaning(p: Pattern, id: nat)
    requires Legal(p)
    ensures Compile(Text(p)).Compiled?
    ensures var m := Compile(Text(p)).m;
            && m.Result(id) == Selects(p, id)
            && m.ShouldEnable(id) == Enables(p, id)
            && m.ShouldPrint(id) == (Selects(p, id) && (!p.quiet || p.verbose > 0))
            && m.verbose == (p.verbose > 0)
  {
    PatternCompiles(p);
    ListSelects(p, id);
    hide Compile, ListOf, Text, ScanBack, Selects;
  }
}
