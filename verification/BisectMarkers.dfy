/** Match markers (internal/bisect/bisect.go): the text that reports a matched identifier, and finding it in a line. */
module BisectMarkers {
  import opened Base
  import opened Bisect

  const PREFIX := "[bisect-match "
  const DIGITS := "0123456789abcdef"

  /** The last k hexadecimal digits of n, most significant first. */
  function LowHex(n: nat, k: nat): (s: string)
    ensures |s| == k
  {
    if k == 0 then "" else LowHex(n / 16, k - 1) + [DIGITS[n % 16]]
  }

  function Marker(id: nat): string {
    PREFIX + ("0x" + LowHex(id, 16)) + "]"
  }

  /** The identifier is shifted out of a 64-bit word, four bits at a time: after i digits it is hi, of which the digits
      are written, followed by lo, which the word holds at its upper end. */
  method AppendMarker(dst: string, id: nat) returns (r: string)
    requires id < WORD
    ensures r == dst + Marker(id)
  {
    var prefix := PREFIX + "0x";
    var buf := new char[|prefix| + 17](i requires 0 <= i => if i < |prefix| then prefix[i] else '\0');
    var word: nat := id;
    ghost var hi: nat, lo: nat := 0, id;
    Pow16Of64();
    assert LowHex(0, 0) == "" && buf[..|prefix|] == prefix;
    hide Pow16, LowHex, Shifted;
    for i := 0 to 16
      invariant Shifted(id, hi, lo, i, word) && buf[..|prefix| + i] == prefix + LowHex(hi, i)
    {
      ghost var d: nat, rest: nat := TopDigit(id, hi, lo, i, word);
      ghost var written := buf[..|prefix| + i];
      buf[|prefix| + i] := DIGITS[word / 0x1000_0000_0000_0000];
      word := word * 16 % WORD;
      assert buf[..|prefix| + i + 1] == written + [DIGITS[d]];
      NextDigit(prefix, hi, d, i);
      hi, lo := 16 * hi + d, rest;
    }
    buf[|prefix| + 16] := ']';
    assert buf[..] == buf[..|prefix| + 16] + "]";
    NothingLeft(id, hi, lo, word);
    r := dst + buf[..];
  }

  lemma NothingLeft(id: nat, hi: nat, lo: nat, word: nat)
    requires Shifted(id, hi, lo, 16, word)
    ensures hi == id
  {
    assert Pow16(0) == 1;
  }

  lemma Pow16Of64()
    ensures Pow16(0) == 1 && Pow16(16) == WORD && Pow16(15) == 0x1000_0000_0000_0000
  {
    assert Pow16(8) == 0x1_0000_0000;
  }

  /** The word after i shifts. */
  ghost predicate Shifted(id: nat, hi: nat, lo: nat, i: nat, word: nat)
    requires i <= 16
  {
    id == hi * Pow16(16 - i) + lo && lo < Pow16(16 - i) && word == lo * Pow16(i)
  }

  /** The upper four bits of the word are the first of the 16 - i digits of lo. */
  lemma TopDigit(id: nat, hi: nat, lo: nat, i: nat, word: nat) returns (d: nat, rest: nat)
    requires i < 16 && Shifted(id, hi, lo, i, word)
    ensures d < 16 && word / 0x1000_0000_0000_0000 == d
    ensures Shifted(id, 16 * hi + d, rest, i + 1, word * 16 % WORD)
  {
    var p, q := Pow16(15 - i), Pow16(i);
    Pow16Positive(15 - i);
    Pow16Positive(i);
    Pow16Sum(15 - i, i);
    Pow16Of64();
    assert Pow16(16 - i) == 16 * p && Pow16(i + 1) == 16 * q;
    hide Pow16;
    d, rest := SplitWord(lo, p, q, word);
    JoinDigit(hi, d, rest, p);
  }

  lemma NextDigit(prefix: string, hi: nat, d: nat, i: nat)
    requires d < 16
    ensures prefix + LowHex(hi, i) + [DIGITS[d]] == prefix + LowHex(16 * hi + d, i + 1)
  {
    assert (16 * hi + d) / 16 == hi && (16 * hi + d) % 16 == d;
  }

  lemma SplitWord(lo: nat, p: nat, q: nat, word: nat) returns (d: nat, rest: nat)
    requires p > 0 && q > 0 && p * q == 0x1000_0000_0000_0000 && lo < 16 * p && word == lo * q
    ensures d < 16 && rest < p && lo == d * p + rest
    ensures word / 0x1000_0000_0000_0000 == d && word * 16 % WORD == rest * (16 * q)
  {
    d, rest := lo / p, lo % p;
    assert lo == d * p + rest;
    Distribute(d, p, rest, q);
    Scaled(rest, p, q);
    assert d < 16 by {
      assert (16 - d) * p > 0;
    }
    WordParts(d, rest * q, word);
    assert rest * (16 * q) == 16 * (rest * q);
  }

  lemma WordParts(d: nat, x: nat, word: nat)
    requires d < 16 && x < 0x1000_0000_0000_0000 && word == d * 0x1000_0000_0000_0000 + x
    ensures word / 0x1000_0000_0000_0000 == d && word * 16 % WORD == 16 * x
  {
  }

  lemma Distribute(d: nat, p: nat, rest: nat, q: nat)
    ensures (d * p + rest) * q == d * (p * q) + rest * q
  {
  }

  lemma Scaled(x: nat, p: nat, q: nat)
    requires x < p && q > 0
    ensures x * q < p * q
  {
    assert (p - x) * q > 0;
  }

  lemma JoinDigit(hi: nat, d: nat, rest: nat, p: nat)
    ensures hi * (16 * p) + (d * p + rest) == (16 * hi + d) * p + rest
  {
  }

  lemma {:induction false} Pow16Positive(k: nat)
    ensures Pow16(k) > 0
  {
    if k > 0 {
      Pow16Positive(k - 1);
    }
  }

  lemma {:induction false} Pow16Sum(a: nat, b: nat)
    ensures Pow16(a) * Pow16(b) == Pow16(a + b)
  {
    if a > 0 {
      Pow16Sum(a - 1, b);
      assert 16 * Pow16(a - 1) * Pow16(b) == 16 * (Pow16(a - 1) * Pow16(b));
    }
  }

  // ----- Reading a marker -----

  predicate StartsAt(line: string, i: nat) {
    i + |PREFIX| <= |line| && line[i..i + |PREFIX|] == PREFIX
  }

  /** The first start of a marker from i on that leaves at least one character after the prefix. */
  function FirstStart(line: string, i: nat): (r: Option<nat>)
    ensures r.Some? ==> i <= r.value < |line| - |PREFIX| && StartsAt(line, r.value)
    ensures forall j :: i <= j < (if r.Some? then r.value else |line| - |PREFIX|) ==> !StartsAt(line, j)
    decreases |line| - i
  {
    if i >= |line| - |PREFIX| then None
    else if StartsAt(line, i) then Some(i)
    else FirstStart(line, i + 1)
  }

  /** The first closing bracket from j on, or the end of the line. */
  function CloseFrom(line: string, j: nat): (r: nat)
    requires j <= |line|
    ensures j <= r <= |line| && (forall k :: j <= k < r ==> line[k] != ']') && (r < |line| ==> line[r] == ']')
    decreases |line| - j
  {
    if j == |line| || line[j] == ']' then j else CloseFrom(line, j + 1)
  }

  /** What a character adds to an identifier: one that is no hexadecimal digit adds nothing. */
  function Nibble(c: char): nat {
    if IsDigit(c) || IsHexLetter(c) then HexDigit(c) else 0
  }

  function HexID(s: string): nat {
    if s == "" then 0 else Shift(HexID(s[..|s| - 1]), 4, Nibble(s[|s| - 1]))
  }

  function BinaryID(s: string): nat {
    if s == "" then 0 else Shift(BinaryID(s[..|s| - 1]), 1, Nibble(s[|s| - 1]))
  }

  predicate AllBits(s: string) {
    forall i :: 0 <= i < |s| ==> IsBit(s[i])
  }

  function ParseID(s: string): Option<nat> {
    if |s| >= 3 && s[..2] == "0x" then if |s| > 18 then None else Some(HexID(s[2..]))
    else if s == "" || |s| > 64 || !AllBits(s) then None
    else Some(BinaryID(s))
  }

  /** The line without what is between two positions and at most one space around it. */
  function Joined(before: string, after: string): string {
    if before != "" && before[|before| - 1] == ' ' then before[..|before| - 1] + after
    else if after != "" && after[0] == ' ' then before + after[1..]
    else before + after
  }

  /** The shortened line and the identifier, if a marker is found. */
  function Cut(line: string): Option<(string, nat)> {
    match FirstStart(line, 0)
    case None => None
    case Some(i) =>
      var j := CloseFrom(line, i + |PREFIX|);
      if j == |line| then None
      else match ParseID(line[i + |PREFIX|..j])
        case None => None
        case Some(id) => Some((Joined(line[..i], line[j + 1..]), id))
  }

  method CutMarker(line: string) returns (short: string, id: nat, ok: bool)
    ensures match Cut(line)
      case None => (short, id, ok) == (line, 0, false)
      case Some((s, n)) => (short, id, ok) == (s, n, true)
  {
    var found := FindPrefix(line);
    if found.None? {
      return line, 0, false;
    }
    var i := found.value;
    hide FirstStart, ParseID, Joined, StartsAt;
    var j := i + |PREFIX|;
    while j < |line| && line[j] != ']'
      invariant i + |PREFIX| <= j <= |line|
      invariant CloseFrom(line, i + |PREFIX|) == CloseFrom(line, j)
    {
      j := j + 1;
    }
    if j >= |line| {
      return line, 0, false;
    }
    hide CloseFrom;
    var parsed := ParseIdentifier(line[i + |PREFIX|..j]);
    if parsed.None? {
      return line, 0, false;
    }
    short := Shorten(line, i, j);
    return short, parsed.value, true;
  }

  /** The loop over the starts. */
  method FindPrefix(line: string) returns (r: Option<nat>)
    ensures r == FirstStart(line, 0)
  {
    var i := 0;
    while true
      invariant FirstStart(line, 0) == FirstStart(line, i)
      decreases |line| - i
    {
      if i >= |line| - |PREFIX| {
        return None;
      }
      if line[i] == '[' && line[i..i + |PREFIX|] == PREFIX {
        return Some(i);
      }
      i := i + 1;
    }
  }

  /** The marker from start to the bracket at end is removed. */
  method Shorten(line: string, start: nat, end: nat) returns (short: string)
    requires start < end < |line|
    ensures short == Joined(line[..start], line[end + 1..])
  {
    var i, j := start, end + 1;
    if i > 0 && line[i - 1] == ' ' {
      i := i - 1;
      assert line[..i] == line[..start][..i];
    } else if j < |line| && line[j] == ' ' {
      j := j + 1;
      assert line[j..] == line[end + 1..][1..];
    }
    short := line[..i] + line[j..];
  }

  method ParseIdentifier(idstr: string) returns (r: Option<nat>)
    ensures r == ParseID(idstr)
  {
    var id := 0;
    if |idstr| >= 3 && idstr[..2] == "0x" {
      if |idstr| > 2 + 16 {
        return None;
      }
      for i := 2 to |idstr|
        invariant id == HexID(idstr[2..i])
      {
        var c := idstr[i];
        assert idstr[2..i + 1][..i - 2] == idstr[2..i];
        id := Shift(id, 4, if IsDigit(c) || IsHexLetter(c) then HexDigit(c) else 0);
      }
      assert idstr[2..|idstr|] == idstr[2..];
    } else {
      if idstr == "" || |idstr| > 64 {
        return None;
      }
      for i := 0 to |idstr|
        invariant AllBits(idstr[..i]) && id == BinaryID(idstr[..i])
      {
        var c := idstr[i];
        if !IsBit(c) {
          return None;
        }
        assert idstr[..i + 1][..i] == idstr[..i];
        id := Shift(id, 1, HexDigit(c));
      }
      assert idstr[..|idstr|] == idstr;
    }
    return Some(id);
  }

  // ----- Round trip -----

  lemma {:induction false} HexReadsBack(n: nat, k: nat)
    requires k <= 16 && n < Pow16(k)
    ensures HexID(LowHex(n, k)) == n
    ensures ']' !in LowHex(n, k)
  {
    if k > 0 {
      HexReadsBack(n / 16, k - 1);
      var s := LowHex(n, k);
      assert s[..k - 1] == LowHex(n / 16, k - 1) && s[k - 1] == DIGITS[n % 16];
      NibbleOf(n % 16);
      AtMostWord(n, k);
      ShiftBack(n);
      hide Shift, Nibble, LowHex, Pow16;
    }
  }

  lemma NibbleOf(d: nat)
    requires d < 16
    ensures Nibble(DIGITS[d]) == d && DIGITS[d] != ']'
  {
    assert DIGITS[0] == '0';
  }

  lemma ShiftBack(n: nat)
    requires n < WORD
    ensures Shift(n / 16, 4, n % 16) == n
  {
    assert Pow2(4) == 2 * Pow2(3) == 4 * Pow2(2) == 16;
  }

  lemma {:induction false} AtMostWord(n: nat, k: nat)
    requires k <= 16 && n < Pow16(k)
    ensures n < WORD
    decreases 16 - k
  {
    if k == 16 {
      Pow16Of64();
    } else {
      AtMostWord(n, k + 1);
    }
  }

  /** A prefix has its bracket in front only: before a marker starts where none did, none starts across its border. */
  lemma StartsInFront(before: string, rest: string, j: nat)
    requires StartsAt(before + rest, j) && j < |before| && rest != "" && rest[0] == '['
    ensures StartsAt(before, j)
  {
    var line := before + rest;
    forall n | j < n < j + |PREFIX|
      ensures line[n] != '['
    {
      assert line[n] == line[j..j + |PREFIX|][n - j];
    }
    assert line[|before|] == '[';
    assert line[j..j + |PREFIX|] == before[j..j + |PREFIX|];
  }

  predicate Starts(before: string) {
    exists i :: 0 <= i < |before| && StartsAt(before, i)
  }

  lemma MarkerAt(before: string, id: nat, after: string)
    ensures StartsAt(before + Marker(id) + after, |before|)
    ensures var line, end := before + Marker(id) + after, |before| + |PREFIX| + 18;
            (end < |line| && line[end] == ']' && line[..|before|] == before
          && line[|before| + |PREFIX|..end] == "0x" + LowHex(id, 16) && line[end + 1..] == after)
  {
    var line := before + Marker(id) + after;
    assert line == before + PREFIX + ("0x" + LowHex(id, 16)) + "]" + after;
  }

  /** Where the first marker of a line starts: in front of a given one exactly when one starts there. */
  lemma FirstIs(before: string, rest: string)
    requires |rest| > |PREFIX| && rest[..|PREFIX|] == PREFIX
    ensures var first := FirstStart(before + rest, 0);
            first.Some? && first.value <= |before| && (first.value == |before| <==> !Starts(before))
  {
    var line := before + rest;
    assert line[|before|..|before| + |PREFIX|] == rest[..|PREFIX|];
    assert StartsAt(line, |before|);
    var first := FirstStart(line, 0);
    assert first.Some? && first.value <= |before|;
    if first.value < |before| {
      assert rest[0] == rest[..|PREFIX|][0] == '[';
      StartsInFront(before, rest, first.value);
    } else {
      forall i | 0 <= i < |before|
        ensures !StartsAt(before, i)
      {
        assert !StartsAt(line, i);
        assert i + |PREFIX| <= |before| ==> line[i..i + |PREFIX|] == before[i..i + |PREFIX|];
      }
    }
  }

  lemma MarkerBegins(id: nat, after: string)
    ensures var rest := Marker(id) + after; |rest| > |PREFIX| && rest[..|PREFIX|] == PREFIX
  {
    assert Marker(id) + after == PREFIX + (("0x" + LowHex(id, 16)) + "]" + after);
  }

  /** An identifier's text between the brackets comes back from any line in which no marker starts before it, and leaves
      the line joined around it. */
  lemma TextIsCut(before: string, text: string, after: string, id: nat)
    requires !Starts(before) && ']' !in text && ParseID(text) == Some(id)
    ensures Cut(before + (PREFIX + text + "]" + after)) == Some((Joined(before, after), id))
  {
    hide ParseID, Starts, Joined, StartsAt;
    var rest := PREFIX + text + "]" + after;
    assert rest == PREFIX + (text + "]" + after);
    FirstIs(before, rest);
    TextClosed(before, text, after);
    hide FirstStart, CloseFrom;
  }

  lemma TextClosed(before: string, text: string, after: string)
    requires ']' !in text
    ensures var line, from := before + (PREFIX + text + "]" + after), |before| + |PREFIX|;
            && CloseFrom(line, from) == from + |text| < |line|
            && line[from..from + |text|] == text && line[..|before|] == before && line[from + |text| + 1..] == after
  {
    var line, from := before + (PREFIX + text + "]" + after), |before| + |PREFIX|;
    assert line == before + PREFIX + text + "]" + after;
    assert line[from..from + |text|] == text && line[from + |text|] == ']';
    assert line[..|before|] == before && line[from + |text| + 1..] == after;
    forall k | from <= k < from + |text|
      ensures line[k] != ']'
    {
      assert line[k] == text[k - from];
    }
    assert CloseFrom(line, from) == from + |text|;
  }

  /** A marker comes back from any line in which none starts before it, and leaves the line joined around it. */
  lemma MarkerRoundTrip(before: string, id: nat, after: string)
    requires id < WORD && !Starts(before)
    ensures Cut(before + Marker(id) + after) == Some((Joined(before, after), id))
  {
    Pow16Of64();
    HexReadsBack(id, 16);
    var text := "0x" + LowHex(id, 16);
    assert text[..2] == "0x" && text[2..] == LowHex(id, 16);
    assert ParseID(text) == Some(id);
    TextIsCut(before, text, after, id);
    assert before + Marker(id) + after == before + (PREFIX + text + "]" + after);
    hide ParseID, LowHex, Starts, Cut;
  }

  /** What starts at i is never closed, or is closed around something that is no identifier. */
  predicate Unreadable(before: string, i: nat)
    requires StartsAt(before, i)
  {
    var close := CloseFrom(before, i + |PREFIX|);
    close == |before| || ParseID(before[i + |PREFIX|..close]) == None
  }

  /** A marker behind another start is missed exactly when that start is no marker, whatever follows: the search does
      not go on behind it. */
  lemma MissedExactlyWhen(before: string, i: nat, id: nat, after: string)
    requires id < WORD && StartsAt(before, i) && forall k :: 0 <= k < i ==> !StartsAt(before, k)
    ensures Cut(before + Marker(id) + after) == None <==> Unreadable(before, i)
  {
    hide HexID, BinaryID, LowHex, FirstStart, Joined;
    var line := before + Marker(id) + after;
    var from := i + |PREFIX|;
    FirstStartIs(before, i, id, after);
    var close, end := CloseFrom(before, from), CloseFrom(line, from);
    MarkerAt(before, id, after);
    assert end < |line|;
    if close < |before| {
      assert forall k :: 0 <= k < |before| ==> line[k] == before[k];
      assert end == close;
      assert line[from..end] == before[from..close];
    } else {
      NotBeforeItsEnd(before, from, id, after);
      assert line[from..end][|before| - from] == line[|before|] == '[';
      assert !AllBits(line[from..end]);
    }
    hide Marker, StartsAt, CloseFrom;
  }

  /** A start without an identifier in front of a marker hides it. */
  lemma MarkerMissed(id: nat, after: string)
    requires id < WORD
    ensures Cut("[bisect-match ] " + Marker(id) + after) == None
  {
    var before := "[bisect-match ] ";
    assert before[0..14] == PREFIX && before[14] == ']' && before[14..14] == "";
    assert CloseFrom(before, 14) == 14;
    MissedExactlyWhen(before, 0, id, after);
    hide Marker, Cut;
  }

  lemma NotBeforeItsEnd(before: string, from: nat, id: nat, after: string)
    requires from <= |before| && CloseFrom(before, from) == |before| && id < WORD
    ensures CloseFrom(before + Marker(id) + after, from) >= |before| + |PREFIX| + 18
  {
    var line := before + Marker(id) + after;
    var end := |before| + |PREFIX| + 18;
    Pow16Of64();
    HexReadsBack(id, 16);
    var text := PREFIX + ("0x" + LowHex(id, 16));
    assert line == before + text + "]" + after;
    assert ']' !in text;
    forall k | from <= k < end
      ensures line[k] != ']'
    {
      assert line[k] == if k < |before| then before[k] else text[k - |before|];
    }
  }

  lemma FirstStartIs(before: string, i: nat, id: nat, after: string)
    requires StartsAt(before, i) && forall k :: 0 <= k < i ==> !StartsAt(before, k)
    ensures FirstStart(before + Marker(id) + after, 0) == Some(i)
  {
    var rest := Marker(id) + after;
    var line := before + rest;
    assert line == before + Marker(id) + after;
    MarkerBegins(id, after);
    FirstIs(before, rest);
    var first := FirstStart(line, 0).value;
    assert line[i..i + |PREFIX|] == before[i..i + |PREFIX|];
    assert StartsAt(line, i);
    StartsInFront(before, rest, first);
  }

  /** The line is joined with one space fewer: the one before the marker, or else the one behind it. */
  lemma JoinedIs(before: string, after: string)
    ensures Joined(before + " ", after) == before + after
    ensures !EndsInSpace(before) ==> Joined(before, " " + after) == before + after
    ensures !EndsInSpace(before) && (after == "" || after[0] != ' ') ==> Joined(before, after) == before + after
    ensures Joined("foo ", " bar") == "foo bar" && Joined("foo ", "") == "foo" && Joined("", " bar") == "bar"
  {
    var b := before + " ";
    assert b[|b| - 1] == ' ' && b[..|b| - 1] == before;
    assert (" " + after)[1..] == after;
    assert "foo "[..3] == "foo" && "foo "[3] == ' ';
    assert " bar"[1..] == "bar";
  }

  predicate EndsInSpace(s: string) {
    s != "" && s[|s| - 1] == ' '
  }
}
