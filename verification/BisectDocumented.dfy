/** Which strings are patterns (internal/bisect/bisect.go): of the syntax that the package documentation describes, of the
    intended syntax, and of the still wider one that the compiler accepts. */
module BisectDocumented {
  import opened Base
  import opened Bisect
  import opened BisectPatterns
  import opened BisectAccepted

  // ----- Texts of sets and of patterns -----

  /** A set of the intended syntax: every y is a set of its own. */
  predicate WrittenSet(t: string) {
    t == "y" || (Marks(t) != "" && forall k :: 0 <= k < |Marks(t)| ==> if IsHexSet(t) then IsHex(Marks(t)[k]) else IsBit(Marks(t)[k]))
  }

  /** A set as the documentation describes it. */
  predicate PlainSet(t: string) {
    t == "y" || (t != "" && forall k :: 0 <= k < |t| ==> IsBit(t[k]))
  }

  predicate WrittenPieces(ps: seq<Piece>) {
    && (forall k :: 0 <= k < |ps| ==> WrittenSet(ps[k].text))
    && (forall i, j :: 0 <= i < j < |ps| && ps[j].plus ==> ps[i].plus)
  }

  predicate PlainSets(ps: seq<Piece>) {
    forall k :: 0 <= k < |ps| ==> PlainSet(ps[k].text)
  }

  /** A string of the intended syntax, but for the length of its sets. */
  predicate WrittenText(s: string) {
    BodyOf(s) == "n" || WrittenPieces(BodyPieces(BodyOf(s)))
  }

  /** What only code comments mention: q, more than one v or !, hexadecimal sets. */
  predicate Plain(s: string) {
    var p := BehindQ(s);
    var vs, b := Skip(p, 'v'), BodyOf(s);
    p == s && |p| <= |vs| + 1 && |vs| <= |b| + 1 && (b == "n" || PlainSets(BodyPieces(b)))
  }

  /** A pattern of the documentation. */
  predicate Documented(p: Pattern) {
    && Written(p) && !p.quiet && p.verbose <= 1 && p.bangs <= 1
    && (p.body.Expression? ==> forall k :: 0 <= k < |p.body.terms| ==> !p.body.terms[k].suffix.Hex?)
  }

  /** No set has more bits than an identifier. */
  predicate SetsFit(s: string) {
    BodyOf(s) == "n" || forall k :: 0 <= k < |BodyPieces(BodyOf(s))| ==> SetFits(BodyPieces(BodyOf(s))[k].text)
  }

  predicate SetFits(t: string) {
    |Marks(t)| * Width(t) <= 64
  }

  // ----- From a string to a pattern -----

  function SuffixOf(t: string): Suffix {
    if t == "y" then All else if IsHexSet(t) then Hex(t[1..]) else Binary(t)
  }

  lemma SuffixOfText(t: string)
    requires WrittenSet(t)
    ensures WrittenSuffix(SuffixOf(t)) && SuffixText(SuffixOf(t)) == t
  {
  }

  function TermsOf(ps: seq<Piece>): seq<Term> {
    seq(|ps|, i requires 0 <= i < |ps| => Term(ps[i].plus, SuffixOf(ps[i].text)))
  }

  lemma TermsAreWritten(ps: seq<Piece>)
    requires WrittenPieces(ps)
    ensures WrittenTerms(TermsOf(ps))
  {
    forall i | 0 <= i < |ps|
      ensures WrittenSuffix(TermsOf(ps)[i].suffix)
    {
      SuffixOfText(ps[i].text);
    }
    hide WrittenSuffix, WrittenSet, SuffixOf;
  }

  /** The text of the pieces after the first operator. */
  function PiecesText(ps: seq<Piece>): string
    requires ps != []
  {
    ps[0].text + if |ps| == 1 then "" else [Sign(ps[1].plus)] + PiecesText(ps[1..])
  }

  lemma {:induction false} PiecesRead(p: string, i: nat, plus: bool)
    requires i <= |p|
    ensures Pieces(p, i, plus) != [] && PiecesText(Pieces(p, i, plus)) == p[i..]
    decreases |p| - i
  {
    hide Pieces, PiecesText;
    PiecesCons(p, i, plus);
    var j := OperatorFrom(p, i);
    var q := Piece(plus, p[i..j]);
    if j < |p| {
      var more := Pieces(p, j + 1, p[j] == '+');
      PiecesRead(p, j + 1, p[j] == '+');
      assert Sign(more[0].plus) == p[j] by {
        assert IsOperator(p[j]);
      }
      hide *;
      PiecesTextCons(q, more);
      SplitAt(p, i, j);
    } else {
      assert PiecesText([q]) == q.text by {
        PiecesTextOne(q);
      }
    }
  }

  lemma PiecesTextOne(q: Piece)
    ensures PiecesText([q]) == q.text
  {
  }

  lemma PiecesTextCons(q: Piece, more: seq<Piece>)
    requires more != []
    ensures PiecesText([q] + more) == q.text + ([Sign(more[0].plus)] + PiecesText(more))
  {
    assert ([q] + more)[1..] == more;
  }

  lemma SplitAt(p: string, i: nat, j: nat)
    requires i <= j < |p|
    ensures p[i..] == p[i..j] + ([p[j]] + p[j + 1..])
  {
  }

  lemma {:induction false} TermsText(ps: seq<Piece>, k: nat)
    requires WrittenPieces(ps) && k < |ps|
    ensures UnsignedText(TermsOf(ps), k) == PiecesText(ps[k..])
    decreases |ps| - k
  {
    SuffixOfText(ps[k].text);
    hide SuffixText, SuffixOf, WrittenSet, WrittenSuffix;
    if k + 1 < |ps| {
      TermsText(ps, k + 1);
      assert ps[k..][1..] == ps[k + 1..];
    }
  }

  lemma {:induction false} SkipSplits(p: string, c: char)
    ensures Repeat(c, |p| - |Skip(p, c)|) + Skip(p, c) == p
  {
    if p != "" && p[0] == c {
      SkipSplits(p[1..], c);
      assert [c] + p[1..] == p;
    }
  }

  function PatternOf(s: string): Pattern {
    var p, vs, b := BehindQ(s), Skip(BehindQ(s), 'v'), BodyOf(s);
    Pattern(s != "" && s[0] == 'q', |p| - |vs|, |vs| - |b|,
            if b == "n" then Nothing else Expression(TermsOf(BodyPieces(b)), b != "" && IsOperator(b[0])))
  }

  lemma BodyOfPattern(b: string)
    requires b != "" && b != "n" && WrittenPieces(BodyPieces(b))
    ensures var body := Expression(TermsOf(BodyPieces(b)), IsOperator(b[0]));
            body.terms != [] && WrittenTerms(body.terms) && BodyText(body) == b
  {
    hide *;
    var ps := BodyPieces(b);
    var start, plus := BodyPiecesAre(b);
    PiecesRead(b, start, plus);
    FirstPlus(b, start, plus);
    TermsAreWritten(ps);
    TermsText(ps, 0);
    assert ps[0..] == ps;
    FirstTerm(ps);
    BodyTextIs(TermsOf(ps), IsOperator(b[0]));
  }

  lemma FirstTerm(ps: seq<Piece>)
    requires ps != []
    ensures TermsOf(ps) != [] && TermsOf(ps)[0].plus == ps[0].plus
  {
  }

  lemma BodyPiecesAre(b: string) returns (start: nat, plus: bool)
    requires b != ""
    ensures start <= |b| && BodyPieces(b) == Pieces(b, start, plus)
    ensures if IsOperator(b[0]) then b == [Sign(plus)] + b[start..] else plus && b == b[start..]
  {
    hide Pieces;
    start, plus := if IsOperator(b[0]) then 1 else 0, b[0] != '-';
    assert b[0..] == b;
    assert IsOperator(b[0]) ==> Sign(plus) == b[0];
  }

  lemma BodyTextIs(terms: seq<Term>, signed: bool)
    requires terms != []
    ensures BodyText(Expression(terms, signed))
         == if terms[0].plus && !signed then UnsignedText(terms, 0) else [Sign(terms[0].plus)] + UnsignedText(terms, 0)
  {
    hide UnsignedText;
  }

  lemma PatternOfIsText(s: string)
    requires WrittenText(s)
    ensures Written(PatternOf(s)) && Text(PatternOf(s)) == s
  {
    var p := BehindQ(s);
    var vs, b := Skip(p, 'v'), BodyOf(s);
    NothingIsWritten();
    SkipSplits(p, 'v');
    SkipSplits(vs, '!');
    assert BodyText(Nothing) == "n";
    if b != "n" {
      BodyOfPattern(b);
    }
    assert (if PatternOf(s).quiet then "q" else "") + p == s;
    TextOfParts(PatternOf(s), s, p, vs, b);
    hide *;
  }

  lemma NothingIsWritten()
    ensures !WrittenPieces(BodyPieces(""))
  {
    assert Pieces("", 0, true)[0] == Piece(true, "");
  }

  lemma TextOfParts(x: Pattern, s: string, p: string, vs: string, b: string)
    requires (if x.quiet then "q" else "") + p == s && Repeat('v', x.verbose) + vs == p && Repeat('!', x.bangs) + b == vs
    requires BodyText(x.body) == b
    ensures Text(x) == s
  {
    hide Repeat, BodyText;
    var q, v, n := if x.quiet then "q" else "", Repeat('v', x.verbose), Repeat('!', x.bangs);
    assert q + v + n + b == q + (v + (n + b));
  }

  // ----- From a pattern to its string -----

  lemma {:induction false} SkipRepeat(c: char, n: nat, rest: string)
    requires rest == "" || rest[0] != c
    ensures Skip(Repeat(c, n) + rest, c) == rest
  {
    if n == 0 {
      assert Repeat(c, 0) + rest == rest;
    } else {
      SkipRepeat(c, n - 1, rest);
      assert (Repeat(c, n) + rest)[1..] == Repeat(c, n - 1) + rest;
    }
  }

  /** The text of a documented pattern has its body's text behind its prefixes. */
  lemma BodyOfText(p: Pattern)
    requires Written(p)
    ensures BodyOf(Text(p)) == BodyText(p.body) != ""
    ensures BehindQ(Text(p)) == if p.quiet then Text(p)[1..] else Text(p)
    ensures p.quiet <==> BehindQ(Text(p)) != Text(p)
    ensures |BehindQ(Text(p))| - |Skip(BehindQ(Text(p)), 'v')| == p.verbose
    ensures |Skip(BehindQ(Text(p)), 'v')| - |BodyText(p.body)| == p.bangs
  {
    assert p.body.Expression? ==> p.body.terms != [] && WrittenTerms(p.body.terms);
    hide *;
    BodyBegins(p.body);
    var body := BodyText(p.body);
    var bangs := Repeat('!', p.bangs) + body;
    var vs := Repeat('v', p.verbose) + bangs;
    RepeatBegins('!', p.bangs, body);
    SkipRepeat('!', p.bangs, body);
    RepeatBegins('v', p.verbose, bangs);
    SkipRepeat('v', p.verbose, bangs);
    TextIs(p);
    BehindQIs(p.quiet, vs);
    assert BodyOf(Text(p)) == body by { BodyOfIs(Text(p)); }
    RepeatLength('!', p.bangs);
    RepeatLength('v', p.verbose);
  }

  lemma {:induction false} RepeatLength(c: char, n: nat)
    ensures |Repeat(c, n)| == n
  {
    if n > 0 {
      RepeatLength(c, n - 1);
    }
  }

  lemma RepeatBegins(c: char, n: nat, rest: string)
    requires rest != ""
    ensures var r := Repeat(c, n) + rest;
            r != "" && (r[0] == c || r[0] == rest[0])
  {
  }

  lemma TextIs(p: Pattern)
    ensures Text(p) == (if p.quiet then "q" else "") + (Repeat('v', p.verbose) + (Repeat('!', p.bangs) + BodyText(p.body)))
  {
    var q, v, n, b := if p.quiet then "q" else "", Repeat('v', p.verbose), Repeat('!', p.bangs), BodyText(p.body);
    assert q + v + n + b == q + (v + (n + b));
    hide Repeat, BodyText;
  }

  lemma BehindQIs(quiet: bool, vs: string)
    requires vs != "" && vs[0] != 'q'
    ensures BehindQ((if quiet then "q" else "") + vs) == vs
  {
    assert !quiet ==> "" + vs == vs;
  }

  lemma BodyOfIs(s: string)
    ensures BodyOf(s) == Skip(Skip(BehindQ(s), 'v'), '!')
  {
  }

  lemma SuffixIsWritten(s: Suffix)
    requires WrittenSuffix(s)
    ensures WrittenSet(SuffixText(s)) && (!s.Hex? <==> PlainSet(SuffixText(s)))
    ensures forall k :: 0 <= k < |SuffixText(s)| ==> !IsOperator(SuffixText(s)[k])
  {
    if s.Hex? {
      assert SuffixText(s)[1..] == s.digits && SuffixText(s)[0] == 'x';
    }
  }

  lemma OperatorIs(p: string, i: nat, j: nat)
    requires i <= j && EndsAt(p, j) && j <= |p| && forall k :: i <= k < j ==> !IsOperator(p[k])
    ensures OperatorFrom(p, i) == j
  {
    var o := OperatorFrom(p, i);
    assert o < j ==> !IsOperator(p[o]);
    assert j < o ==> !IsOperator(p[j]);
  }

  /** Where the first set of the terms from number k on ends. */
  lemma FirstSet(p: string, i: nat, terms: seq<Term>, k: nat)
    requires WrittenTerms(terms) && k < |terms| && i <= |p| && p[i..] == UnsignedText(terms, k)
    ensures var j := OperatorFrom(p, i);
            && p[i..j] == SuffixText(terms[k].suffix)
            && (if k + 1 == |terms| then j == |p|
                else j < |p| && p[j + 1..] == UnsignedText(terms, k + 1) && (p[j] == '+') == terms[k + 1].plus)
  {
    var head := SuffixText(terms[k].suffix);
    SuffixIsWritten(terms[k].suffix);
    var tail := SignedText(terms, k + 1);
    assert p[i..] == head + tail;
    assert tail != "" ==> IsOperator(tail[0]) && tail[1..] == UnsignedText(terms, k + 1) && (tail[0] == '+') == terms[k + 1].plus;
    assert (tail == "") == (k + 1 == |terms|);
    hide *;
    HeadAndTail(p, i, head, tail);
  }

  lemma HeadAndTail(p: string, i: nat, head: string, tail: string)
    requires i <= |p| && p[i..] == head + tail
    requires (tail != "" ==> IsOperator(tail[0])) && forall m :: 0 <= m < |head| ==> !IsOperator(head[m])
    ensures var j := OperatorFrom(p, i);
            j == i + |head| && |p| == j + |tail| && p[i..j] == head && (tail != "" ==> p[j] == tail[0] && p[j + 1..] == tail[1..])
  {
    var j := i + |head|;
    assert |p| == j + |tail|;
    forall m | i <= m < j
      ensures !IsOperator(p[m])
    {
      assert p[m] == p[i..][m - i] == head[m - i];
    }
    assert tail != "" ==> p[j] == p[i..][j - i] == tail[0];
    OperatorIs(p, i, j);
    assert p[i..j] == p[i..][..|head|] == head;
    assert j < |p| ==> p[j + 1..] == p[i..][j + 1 - i..] == tail[1..];
    hide *;
  }

  /** The pieces of a written expression are its terms. */
  lemma {:induction false} TextPieces(p: string, i: nat, terms: seq<Term>, k: nat)
    requires WrittenTerms(terms) && k < |terms| && i <= |p| && p[i..] == UnsignedText(terms, k)
    ensures Pieces(p, i, terms[k].plus) == PiecesOf(terms)[k..]
    decreases |terms| - k
  {
    hide *;
    FirstSet(p, i, terms, k);
    PiecesCons(p, i, terms[k].plus);
    PiecesFrom(terms, k);
    var j := OperatorFrom(p, i);
    if k + 1 < |terms| {
      TextPieces(p, j + 1, terms, k + 1);
    }
  }

  function PiecesOf(terms: seq<Term>): seq<Piece> {
    seq(|terms|, i requires 0 <= i < |terms| => Piece(terms[i].plus, SuffixText(terms[i].suffix)))
  }

  lemma PiecesFrom(terms: seq<Term>, k: nat)
    requires k < |terms|
    ensures PiecesOf(terms)[k..] == [Piece(terms[k].plus, SuffixText(terms[k].suffix))] + PiecesOf(terms)[k + 1..]
    ensures k + 1 == |terms| ==> PiecesOf(terms)[k..] == [Piece(terms[k].plus, SuffixText(terms[k].suffix))]
  {
  }

  lemma BodyTextPieces(b: Body)
    requires b.Expression? && b.terms != [] && WrittenTerms(b.terms)
    ensures BodyPieces(BodyText(b)) == PiecesOf(b.terms)
  {
    var p := BodyText(b);
    BodyStart(b);
    assert PiecesOf(b.terms)[0..] == PiecesOf(b.terms) && p[0..] == p;
    hide UnsignedText, WrittenTerms, Pieces, BodyText, PiecesOf;
    TextPieces(p, if IsOperator(p[0]) then 1 else 0, b.terms, 0);
  }

  lemma BodyStart(b: Body)
    requires b.Expression? && b.terms != [] && WrittenTerms(b.terms)
    ensures var p, text := BodyText(b), UnsignedText(b.terms, 0);
            p != "" && if IsOperator(p[0]) then p[1..] == text && (p[0] == '+') == b.terms[0].plus else p == text && b.terms[0].plus
  {
    var text := UnsignedText(b.terms, 0);
    var head := SuffixText(b.terms[0].suffix);
    SuffixIsWritten(b.terms[0].suffix);
    assert head != "" && text[0] == head[0];
    assert !IsOperator(text[0]);
    assert SignedText(b.terms, 0) == [Sign(b.terms[0].plus)] + text;
    hide SuffixText, WrittenTerms, UnsignedText, SignedText;
  }

  // ----- The main results -----

  lemma PatternIsWritten(p: Pattern)
    requires Written(p)
    ensures WrittenText(Text(p)) && (Documented(p) <==> Plain(Text(p)))
  {
    BodyOfText(p);
    BodyBegins(p.body);
    if p.body.Expression? {
      BodyTextPieces(p.body);
      var terms := p.body.terms;
      forall k | 0 <= k < |terms|
        ensures WrittenSet(PiecesOf(terms)[k].text) && (!terms[k].suffix.Hex? <==> PlainSet(PiecesOf(terms)[k].text))
      {
        SuffixIsWritten(terms[k].suffix);
      }
      hide WrittenSet, PlainSet, WrittenSuffix, BodyText, Text, BodyPieces, Skip, BodyOf, BehindQ, SuffixText;
    } else {
      hide BodyText, Text, BodyPieces, Skip, BodyOf, BehindQ;
    }
  }

  /** A string is a pattern of the documented syntax exactly when each of its sets is y or a string of bits, with at most one
      v, then at most one !, in front; or n instead of the sets. */
  lemma DocumentedExactlyWhen(s: string)
    ensures (exists p :: Documented(p) && Text(p) == s) <==> WrittenText(s) && Plain(s)
  {
    if WrittenText(s) && Plain(s) {
      PatternOfIsText(s);
      PatternIsWritten(PatternOf(s));
    }
    forall p | Documented(p) && Text(p) == s
      ensures WrittenText(s) && Plain(s)
    {
      PatternIsWritten(p);
    }
    hide WrittenText, Plain, Text, Written, PatternOf;
  }

  /** A string of the intended syntax compiles exactly when no set has more bits than an identifier. */
  lemma WrittenCompilesExactlyWhen(s: string)
    requires WrittenText(s)
    ensures Compile(s).Compiled? <==> SetsFit(s)
  {
    var b := BodyOf(s);
    NothingIsWritten();
    assert Skip("", 'v') == "" && Skip("", '!') == "";
    CompiledExactlyWhen(s);
    if b != "n" {
      AcceptedWhenFits(BodyPieces(b));
    }
    hide Compile, BodyPieces, Skip, WrittenPieces, AcceptedPieces, SetFits, BodyConds;
  }

  lemma AcceptedWhenFits(ps: seq<Piece>)
    requires WrittenPieces(ps)
    ensures AcceptedPieces(ps) <==> forall k :: 0 <= k < |ps| ==> SetFits(ps[k].text)
  {
    forall k | 0 <= k < |ps|
      ensures AcceptedSet(ps[k].text) <==> SetFits(ps[k].text)
    {
      WrittenIsAccepted(ps[k].text);
    }
    hide AcceptedSet, SetFits, WrittenSet;
  }

  lemma WrittenIsAccepted(t: string)
    requires WrittenSet(t)
    ensures AcceptedSet(t) <==> SetFits(t)
  {
    if t == "y" {
      assert MarkOk("y", 0, false);
    } else {
      forall k | 0 <= k < |Marks(t)|
        ensures MarkOk(Marks(t), k, IsHexSet(t))
      {
      }
    }
  }

  /** Among the accepted strings those of the intended syntax are the ones in which no y stands among other marks. */
  lemma AcceptedIsWrittenExactlyWhen(s: string)
    requires Accepted(s)
    ensures WrittenText(s) <==> BodyOf(s) == "n" || forall k :: 0 <= k < |BodyPieces(BodyOf(s))| ==> AloneY(BodyPieces(BodyOf(s))[k].text)
  {
    var ps := BodyPieces(BodyOf(s));
    if BodyOf(s) != "n" {
      forall k | 0 <= k < |ps|
        ensures WrittenSet(ps[k].text) <==> AloneY(ps[k].text)
      {
        WrittenHasNoY(ps[k].text);
      }
    }
    hide BodyPieces, BodyOf, WrittenSet, AloneY, AcceptedSet;
  }

  predicate AloneY(t: string) {
    t == "y" || 'y' !in t
  }

  lemma WrittenHasNoY(t: string)
    requires AcceptedSet(t)
    ensures WrittenSet(t) <==> AloneY(t)
  {
    var u := Marks(t);
    assert forall k :: 0 <= k < |u| ==> MarkOk(u, k, IsHexSet(t));
    if 'y' in t {
      var i :| 0 <= i < |t| && t[i] == 'y';
      assert IsHexSet(t) ==> i > 0 && u[i - 1] == 'y';
    } else {
      forall k | 0 <= k < |u|
        ensures if IsHexSet(t) then IsHex(u[k]) else IsBit(u[k])
      {
        assert u[k] in t;
        assert MarkOk(u, k, IsHexSet(t));
      }
    }
  }

  /** The compiler takes more than is documented: exactly the accepted strings with q, a repeated prefix, a hexadecimal set,
      or a y among other marks. It takes less, too: exactly those documented strings are refused in which a set has more than
      64 bits. */
  lemma AcceptsMoreThanDocumented(s: string)
    ensures Compile(s).Compiled? && !(exists p :: Documented(p) && Text(p) == s) <==> Accepted(s) && !Plain(s)
    ensures !Compile(s).Compiled? && (exists p :: Documented(p) && Text(p) == s) <==> WrittenText(s) && Plain(s) && !SetsFit(s)
  {
    DocumentedExactlyWhen(s);
    EmptyIsNoPattern();
    if s != "" {
      CompiledExactlyWhen(s);
    }
    if WrittenText(s) {
      WrittenCompilesExactlyWhen(s);
    }
    if Accepted(s) && Plain(s) {
      PlainIsWritten(s);
    }
    hide *;
  }

  lemma EmptyIsNoPattern()
    ensures Compile("") == NoMatcher && !Accepted("")
  {
    NothingIsNoBody();
    assert Skip("", 'v') == "" && Skip("", '!') == "";
  }

  lemma PlainIsWritten(s: string)
    requires Accepted(s) && Plain(s)
    ensures WrittenText(s)
  {
    var ps := BodyPieces(BodyOf(s));
    if BodyOf(s) != "n" {
      forall k | 0 <= k < |ps|
        ensures WrittenSet(ps[k].text)
      {
        assert PlainSet(ps[k].text);
      }
    }
    hide BodyPieces, BodyOf, AcceptedSet;
  }

  /** The shortest such string, of which the first digit is voided: it selects the identifiers that end in 00. */
  lemma VoidedDigit(id: nat)
    ensures Compile("1y").Compiled? && Compile("1y").m.Result(id) == (id % 4 == 0)
    ensures !exists p :: Written(p) && Text(p) == "1y"
  {
    hide *;
    var q := Piece(true, "1y");
    LenientPattern(q);
    forall p | Written(p) && Text(p) == "1y"
      ensures false
    {
      PatternIsWritten(p);
    }
    CompiledExactlyWhen("1y");
    SetMeans(q, id);
    LastOf(Compile("1y").m, SetCond(q), id);
    SelectsTwoZeros(id);
  }

  lemma LastOf(m: Matcher, c: Cond, id: nat)
    requires m.list == [c] && c.result
    ensures m.Result(id) == c.Matches(id)
  {
    assert m.list[|m.list| - 1] == c && m.list[..0] == [];
    assert !ScanBack(m.list[..0], id);
    hide Cond.Matches;
  }

  lemma LenientPattern(q: Piece)
    requires q == Piece(true, "1y")
    ensures AcceptedSet("1y") && Accepted("1y") && !WrittenText("1y") && BodyOf("1y") == "1y" && BodyConds("1y") == [SetCond(q)]
    ensures SetCond(q).result
  {
    OnePiece("1y");
    assert Marks("1y") == "1y" && MarkOk("1y", 0, false) && MarkOk("1y", 1, false);
    AcceptedOne(q);
    ResultIsPlus(q);
    assert 'y' in "1y";
    assert [q][0] == q;
    assert [] + [SetCond(q)] == [SetCond(q)];
    hide SetCond, SetConds, AcceptedPieces, BodyPieces, BodyOf, MarkOk;
  }

  lemma SelectsTwoZeros(id: nat)
    requires AcceptedSet("1y")
    ensures SetSelects("1y", id) == (id % 4 == 0)
  {
    var s := "1y";
    VoidedIsLegal(s);
    assert Marks(s) == s && s[|s| - 1] == 'y';
    assert Voided(s) == ZeroDigits(2);
    EndsInTwoZeros(id, BitsOf(Binary(ZeroDigits(2))));
    hide EndsIn, ZeroDigits, LegalSuffix, AcceptedSet;
  }

  lemma OnePiece(s: string)
    requires s == "1y"
    ensures BodyOf(s) == s != "n" && BodyPieces(s) == [Piece(true, s)]
  {
    assert OperatorFrom(s, 2) == 2;
    assert OperatorFrom(s, 0) == 2;
    assert s[0..2] == s;
  }

  lemma EndsInTwoZeros(id: nat, bits: seq<bool>)
    requires |bits| == 2 && !bits[0] && !bits[1]
    ensures EndsIn(id, bits) == (id % 4 == 0)
  {
    var front := bits[..1];
    assert front[..0] == [];
    assert EndsIn(id / 2, front) == (id / 2 % 2 == 0);
    assert EndsIn(id, bits) == (id % 2 == 0 && id / 2 % 2 == 0);
  }

  /** 65 bits are a documented pattern that is refused. */
  lemma TooManyBits() returns (p: Pattern)
    ensures Documented(p) && Text(p) == ZeroDigits(65) && !Compile(Text(p)).Compiled?
  {
    var s := ZeroDigits(65);
    p := Pattern(false, 0, 0, Expression([Term(true, Binary(s))], false));
    hide *;
    ZerosAreWritten(p, s);
    PatternIsWritten(p);
    WrittenCompilesExactlyWhen(s);
    BodyOfText(p);
    BodyTextPieces(p.body);
    TooLong(p, s);
  }

  lemma ZerosAreWritten(p: Pattern, s: string)
    requires s == ZeroDigits(65) && p == Pattern(false, 0, 0, Expression([Term(true, Binary(s))], false))
    ensures Written(p) && Documented(p) && Text(p) == BodyText(p.body) == s
    ensures p.body.Expression? && p.body.terms != [] && WrittenTerms(p.body.terms)
  {
    hide ZeroDigits;
    assert UnsignedText(p.body.terms, 0) == s + "" == s;
    assert "" + "" + "" + s == s;
  }

  lemma TooLong(p: Pattern, s: string)
    requires s == ZeroDigits(65) && p.body == Expression([Term(true, Binary(s))], false)
    requires BodyOf(s) == s && BodyPieces(s) == PiecesOf(p.body.terms)
    ensures !SetsFit(s)
  {
    hide ZeroDigits, BodyOf, BodyPieces;
    var q := PiecesOf(p.body.terms)[0];
    assert q == Piece(true, s) && Marks(s) == s && s[0] == '0';
    assert !SetFits(q.text);
  }
}
