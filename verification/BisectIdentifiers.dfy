/** Identifiers written by hand in a match marker (internal/bisect/bisect.go): any number of binary or hexadecimal digits
    up to 64 bits, in either case, denote what the digits of a pattern denote. */
module BisectIdentifiers {
  import opened Base
  import opened Bisect
  import opened BisectPatterns
  import opened M = BisectMarkers

  const UPPER := "0123456789ABCDEF"

  /** The sixteen digits and their values, in either case. */
  lemma DigitsAre(v: nat)
    requires v < 16
    ensures M.Nibble(DIGITS[v]) == v && M.Nibble(UPPER[v]) == v && IsHex(DIGITS[v]) && IsHex(UPPER[v])
    ensures HexDigit(DIGITS[v]) == v && HexDigit(UPPER[v]) == v
  {
    assert DIGITS[0] == '0' && UPPER[0] == '0';
  }

  /** There are no others. */
  lemma NoOtherDigits(c: char)
    ensures IsHex(c) <==> c in DIGITS || c in UPPER
  {
    if '0' <= c <= '9' {
      assert DIGITS[c as int - '0' as int] == c;
    } else if 'a' <= c <= 'f' {
      assert DIGITS[c as int - 'a' as int + 10] == c;
    } else if 'A' <= c <= 'F' {
      assert UPPER[c as int - 'A' as int + 10] == c;
    }
  }

  function IdText(s: Suffix): string
    requires !s.All?
  {
    if s.Binary? then s.digits else "0x" + s.digits
  }

  lemma {:induction false} BinaryIs(d: string, k: nat)
    requires LegalSuffix(Binary(d)) && k <= |d|
    ensures BinaryID(d[..k]) == Num(BitsOf(Binary(d))[..k])
  {
    hide Num, BitsOf, Pow2;
    if k == 0 {
      NumOfNone(BitsOf(Binary(d)));
    } else {
      BinaryIs(d, k - 1);
      BinaryNum(d, k);
      assert d[..k][..k - 1] == d[..k - 1] && d[..k][k - 1] == d[k - 1];
      assert Pow2(1) == 2 by {
        PowersAre();
      }
      assert IsBit(d[k - 1]);
      hide LegalSuffix;
    }
  }

  lemma PowersAre()
    ensures Pow2(1) == 2 && Pow2(4) == 16
  {
    assert Pow2(2) == 4;
  }

  lemma {:induction false} HexIs(d: string, k: nat)
    requires LegalSuffix(Hex(d)) && k <= |d|
    ensures HexID(d[..k]) == Num(Nibbles(d[..k]))
  {
    hide Num, Nibbles, Pow2, HexDigit;
    if k == 0 {
      NumOfNoDigits();
      assert d[..0] == "";
    } else {
      HexIs(d, k - 1);
      HexNum(d, k);
      assert d[..k][..k - 1] == d[..k - 1] && d[..k][k - 1] == d[k - 1];
      PowersAre();
      assert IsHex(d[k - 1]);
      hide LegalSuffix;
    }
  }

  /** Digits denote the smallest number that ends in their bits. */
  lemma AnyIdentifierReads(s: Suffix)
    requires LegalSuffix(s) && !s.All?
    ensures var id := ParseID(IdText(s));
            id.Some? && EndsIn(id.value, BitsOf(s)) && id.value < Pow2(|BitsOf(s)|)
    ensures ']' !in IdText(s)
  {
    var n := Num(BitsOf(s));
    if s.Binary? {
      BinaryReads(s.digits);
    } else {
      HexReads(s.digits);
    }
    NumBound(BitsOf(s));
    EndsInByModulo(n, BitsOf(s));
    SmallModulo(n, Pow2(|BitsOf(s)|));
    hide *;
  }

  lemma BinaryReads(d: string)
    requires LegalSuffix(Binary(d))
    ensures ParseID(IdText(Binary(d))) == Some(Num(BitsOf(Binary(d)))) && ']' !in IdText(Binary(d))
  {
    BinaryIs(d, |d|);
    BitsLength(Binary(d));
    assert d[..|d|] == d && BitsOf(Binary(d))[..|d|] == BitsOf(Binary(d));
    assert |d| >= 3 ==> d[..2][1] != "0x"[1];
    hide Num, BitsOf, BinaryID, HexID;
  }

  lemma HexReads(d: string)
    requires LegalSuffix(Hex(d))
    ensures ParseID(IdText(Hex(d))) == Some(Num(BitsOf(Hex(d)))) && ']' !in IdText(Hex(d))
  {
    HexIs(d, |d|);
    assert d[..|d|] == d;
    var t := "0x" + d;
    assert t[..2] == "0x" && t[2..] == d;
    hide Num, Nibbles, BinaryID, HexID;
  }

  lemma SmallModulo(n: nat, m: nat)
    requires n < m
    ensures n % m == n
  {
  }

  /** A marker with such an identifier is found, read and cut out of any line in which none starts before it. */
  lemma AnyMarkerReads(before: string, s: Suffix, after: string)
    requires LegalSuffix(s) && !s.All? && !Starts(before)
    ensures var cut := Cut(before + (PREFIX + IdText(s) + "]" + after));
            cut.Some? && cut.value.0 == Joined(before, after)
            && EndsIn(cut.value.1, BitsOf(s)) && cut.value.1 < Pow2(|BitsOf(s)|)
  {
    AnyIdentifierReads(s);
    TextIsCut(before, IdText(s), after, ParseID(IdText(s)).value);
    hide *;
  }
}
