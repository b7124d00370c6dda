/** The pattern compiler of bisect (internal/bisect/bisect.go): a set expression over suffixes of change identifiers,
    compiled to a list of conditions of which the last match wins. */
module Bisect {
  import opened Base

  function Pow2(n: nat): (p: nat)
    ensures p > 0
  {
    if n == 0 then 1 else 2 * Pow2(n - 1)
  }

  const WORD := 0x1_0000_0000_0000_0000 // identifiers are uint64 values

  /** The bits that both words have set. */
  function And(a: nat, b: nat): nat {
    if a == 0 || b == 0 then 0 else (if a % 2 == 1 && b % 2 == 1 then 1 else 0) + 2 * And(a / 2, b / 2)
  }

  /** uint64(1)<<n - 1: a shift by 64 leaves nothing, and the subtraction wraps. */
  function Mask(n: nat): nat {
    (Pow2(n) % WORD - 1) % WORD
  }

  /** One condition: it matches an identifier whose bits under the mask are the given ones. */
  datatype Cond = Cond(mask: nat, bits: nat, result: bool) {
    predicate Matches(id: nat) {
      And(id, mask) == bits
    }
  }

  datatype Matcher = Matcher(verbose: bool, quiet: bool, enable: bool, list: seq<Cond>) {
    /** matchResult: the result of the last condition that matches, false when none does. */
    function Result(id: nat): bool {
      ScanBack(list, id)
    }

    predicate ShouldEnable(id: nat) {
      Result(id) == enable
    }

    predicate ShouldPrint(id: nat) {
      !quiet && Result(id)
    }
  }

  function ScanBack(list: seq<Cond>, id: nat): bool {
    if list == [] then false
    else if list[|list| - 1].Matches(id) then list[|list| - 1].result
    else ScanBack(list[..|list| - 1], id)
  }

  method MatchResult(m: Matcher, id: nat) returns (r: bool)
    ensures r == m.Result(id)
  {
    var i := |m.list| - 1;
    assert m.list[..i + 1] == m.list;
    while i >= 0
      invariant -1 <= i < |m.list|
      invariant m.Result(id) == ScanBack(m.list[..i + 1], id)
    {
      var c := m.list[i];
      assert m.list[..i + 1][..i] == m.list[..i];
      if c.Matches(id) {
        return c.result;
      }
      i := i - 1;
    }
    return false;
  }

  // ----- The compiler -----

  datatype Outcome = NoMatcher | Compiled(m: Matcher) | ParseError

  /** The variables of the loop over the pattern. */
  datatype Scan = Scan(bits: nat, start: nat, wid: nat, result: bool, list: seq<Cond>)

  const START := Scan(0, 0, 1, true, [])

  predicate IsBit(c: char) {
    c == '0' || c == '1'
  }

  predicate IsDigit(c: char) {
    '0' <= c <= '9'
  }

  predicate IsHexLetter(c: char) {
    'a' <= c <= 'f' || 'A' <= c <= 'F'
  }

  function HexDigit(c: char): nat
    requires IsDigit(c) || IsHexLetter(c)
    ensures HexDigit(c) < 16
  {
    if IsDigit(c) then c as int - '0' as int
    else if c >= 'a' then c as int - 'a' as int + 10
    else c as int - 'A' as int + 10
  }

  /** Shifting a digit into a uint64. */
  function Shift(bits: nat, wid: nat, digit: nat): nat {
    (bits * Pow2(wid) + digit) % WORD
  }

  /** What the loop does with the character at i, or with the imagined '-' at the end; nothing on an error. */
  function Step(p: string, i: nat, s: Scan): Option<Scan>
    requires i <= |p|
  {
    var c := if i < |p| then p[i] else '-';
    if i == s.start && s.wid == 1 && c == 'x' then Some(s.(start := i + 1, wid := 4))
    else if IsDigit(c) then
      if !IsBit(c) && s.wid != 4 then None else Some(s.(bits := Shift(s.bits, s.wid, HexDigit(c))))
    else if IsHexLetter(c) then
      if s.wid != 4 then None else Some(s.(bits := Shift(s.bits, 4, HexDigit(c))))
    else if c == 'y' then
      if i + 1 < |p| && IsBit(p[i + 1]) then None else Some(s.(bits := 0))
    else if c == '+' || c == '-' then
      if c == '+' && !s.result then None
      else if i > 0 then
        var n := (i - s.start) * s.wid;
        if n > 64 || n <= 0 then None
        else Some(Scan(0, i + 1, 1, c == '+', s.list + [Cond(Mask(if p[s.start] == 'y' then 0 else n), s.bits, s.result)]))
      else Some(Scan(0, 1, 1, c == '+', if c == '-' then s.list + [Cond(0, 0, true)] else s.list))
    else None
  }

  /** The conditions the loop collects from position i on. */
  function ScanFrom(p: string, i: nat, s: Scan): Option<seq<Cond>>
    requires i <= |p| + 1
    decreases |p| + 1 - i
  {
    if i > |p| then Some(s.list)
    else match Step(p, i, s)
      case None => None
      case Some(t) => ScanFrom(p, i + 1, t)
  }

  /** What follows the prefixes: n, the alias for the inverted y, or a set expression. */
  function CompileBody(p: string, verbose: bool, quiet: bool, enable: bool): Outcome {
    match ScanFrom(if p == "n" then "y" else p, 0, START)
    case None => ParseError
    case Some(list) => Compiled(Matcher(verbose, quiet, if p == "n" then !enable else enable, list))
  }

  function CompileBangs(p: string, verbose: bool, quiet: bool, enable: bool): Outcome {
    if p == "" then ParseError
    else if p[0] == '!' then CompileBangs(p[1..], verbose, quiet, !enable)
    else CompileBody(p, verbose, quiet, enable)
  }

  function CompileVs(p: string, verbose: bool, quiet: bool): Outcome {
    if p == "" then ParseError
    else if p[0] == 'v' then CompileVs(p[1..], true, false)
    else CompileBangs(p, verbose, quiet, true)
  }

  /** The whole compiler: an optional q, any number of v and then of !, and the rest. */
  function Compile(pattern: string): Outcome {
    if pattern == "" then NoMatcher
    else if pattern[0] == 'q' then CompileVs(pattern[1..], false, true)
    else CompileVs(pattern, false, false)
  }

  method New(pattern: string) returns (r: Outcome)
    ensures r == Compile(pattern)
  {
    hide CompileBody;
    if pattern == "" {
      return NoMatcher;
    }
    var m := Matcher(false, false, false, []);
    var p := pattern;
    if |p| > 0 && p[0] == 'q' {
      m := m.(quiet := true);
      p := p[1..];
      if p == "" {
        return ParseError;
      }
    }
    while |p| > 0 && p[0] == 'v'
      invariant p != "" && Compile(pattern) == CompileVs(p, m.verbose, m.quiet)
    {
      m := m.(verbose := true, quiet := false);
      p := p[1..];
      if p == "" {
        return ParseError;
      }
    }
    m := m.(enable := true);
    while |p| > 0 && p[0] == '!'
      invariant p != "" && Compile(pattern) == CompileBangs(p, m.verbose, m.quiet, m.enable)
    {
      m := m.(enable := !m.enable);
      p := p[1..];
      if p == "" {
        return ParseError;
      }
    }
    r := FinishNew(p, m);
  }

  method FinishNew(pattern: string, matcher: Matcher) returns (r: Outcome)
    requires pattern != ""
    ensures r == CompileBody(pattern, matcher.verbose, matcher.quiet, matcher.enable)
  {
    var p, m := pattern, matcher;
    if p == "n" {
      // all changes, but disabled
      m := m.(enable := !m.enable);
      p := "y";
    }
    var list := ParseExpression(p);
    match list {
      case None => r := ParseError;
      case Some(conds) => r := Compiled(m.(list := conds));
    }
  }

  /** The loop over the set expression. */
  method ParseExpression(p: string) returns (r: Option<seq<Cond>>)
    requires p != ""
    ensures r == ScanFrom(p, 0, START)
  {
    var list: seq<Cond> := [];
    var result := true;
    var bits := 0;
    var start := 0;
    var wid := 1;
    for i := 0 to |p| + 1
      invariant start <= i
      invariant ScanFrom(p, 0, START) == ScanFrom(p, i, Scan(bits, start, wid, result, list))
    {
      var c := '-';
      if i < |p| {
        c := p[i];
      }
      if i == start && wid == 1 && c == 'x' {
        start := i + 1;
        wid := 4;
        continue;
      }
      if IsDigit(c) {
        if !IsBit(c) && wid != 4 {
          return None;
        }
        bits := Shift(bits, wid, HexDigit(c));
      } else if IsHexLetter(c) {
        if wid != 4 {
          return None;
        }
        bits := Shift(bits, 4, HexDigit(c));
      } else if c == 'y' {
        if i + 1 < |p| && IsBit(p[i + 1]) {
          return None;
        }
        bits := 0;
      } else if c == '+' || c == '-' {
        if c == '+' && !result {
          return None;
        }
        if i > 0 {
          var n := (i - start) * wid;
          if n > 64 {
            return None;
          }
          if n <= 0 {
            return None;
          }
          if p[start] == 'y' {
            n := 0;
          }
          var mask := Mask(n);
          list := list + [Cond(mask, bits, result)];
        } else if c == '-' {
          list := list + [Cond(0, 0, true)];
        }
        bits := 0;
        result := c == '+';
        start := i + 1;
        wid := 1;
      } else {
        return None;
      }
    }
    return Some(list);
  }
}
