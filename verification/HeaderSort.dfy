/** Ordering header fields (internal/header/sort.go, internal/ascii/print.go, the canonical form of
    textproto_reader.go): the allocation-free comparison and the fast ranks against canonical names. */
module HeaderSort {
  import opened Base

  // ----- Names -----

  const DASH: byte := 45

  predicate IsUpper(b: byte) { 65 <= b <= 90 }

  predicate IsLower(b: byte) { 97 <= b <= 122 }

  /** tchar of section 3.2.6 of RFC 7230. */
  predicate IsToken(b: byte) {
    IsUpper(b) || IsLower(b) || 48 <= b <= 57
    || b in {33, 35, 36, 37, 38, 39, 42, 43, 45, 46, 94, 95, 96, 124, 126}
  }

  predicate AllTokens(name: bytes) {
    forall i :: 0 <= i < |name| ==> IsToken(name[i])
  }

  function Lower(b: byte): byte {
    if IsUpper(b) then b + 32 else b
  }

  function Upper(b: byte): byte {
    if IsLower(b) then b - 32 else b
  }

  function CaseAt(name: bytes, i: nat): byte
    requires i < |name|
  {
    if i == 0 || name[i - 1] == DASH then Upper(name[i]) else Lower(name[i])
  }

  /** The canonical form: a name with a byte that is no token byte stays as it is; in any other, the first letter and
      those after a dash are in upper case, the others in lower case. */
  function Canonical(name: bytes): (r: bytes)
    ensures |r| == |name|
  {
    if !AllTokens(name) then name
    else seq(|name|, i requires 0 <= i < |name| => CaseAt(name, i))
  }

  /** canonicalMIMEHeaderKey, which tracks with one flag whether the next letter begins a word. */
  method CanonicalMIMEHeaderKey(name: bytes) returns (r: bytes)
    ensures r == Canonical(name)
  {
    hide IsToken, Canonical;
    for i := 0 to |name|
      invariant forall j :: 0 <= j < i ==> IsToken(name[j])
    {
      if !IsToken(name[i]) {
        NotCanonical(name);
        return name;
      }
    }
    assert AllTokens(name);
    hide AllTokens;
    r := [];
    var upper := true;
    for i := 0 to |name|
      invariant r == Canonical(name)[..i]
      invariant upper == (i == 0 || name[i - 1] == DASH)
    {
      var c := name[i];
      if upper && IsLower(c) {
        c := c - 32;
      } else if !upper && IsUpper(c) {
        c := c + 32;
      }
      CanonicalAt(name, i);
      r := r + [c];
      upper := name[i] == DASH;
    }
  }

  lemma NotCanonical(name: bytes)
    requires !AllTokens(name)
    ensures Canonical(name) == name
  {
    hide AllTokens;
  }

  lemma CanonicalAt(name: bytes, i: nat)
    requires AllTokens(name) && i < |name|
    ensures Canonical(name)[..i + 1] == Canonical(name)[..i] + [CaseAt(name, i)]
  {
    hide AllTokens, CaseAt;
  }

  predicate EqualFolded(a: bytes, b: bytes) {
    |a| == |b| && forall i :: 0 <= i < |a| ==> Lower(a[i]) == Lower(b[i])
  }

  /** ascii.EqualFold. */
  method EqualFold(s: bytes, t: bytes) returns (equal: bool)
    ensures equal == EqualFolded(s, t)
  {
    if |s| != |t| {
      return false;
    }
    for i := 0 to |s|
      invariant forall j :: 0 <= j < i ==> Lower(s[j]) == Lower(t[j])
    {
      if Lower(s[i]) != Lower(t[i]) {
        return false;
      }
    }
    return true;
  }

  method ValidHeaderFieldName(v: bytes) returns (valid: bool)
    ensures valid == (v != [] && AllTokens(v))
  {
    if |v| == 0 {
      return false;
    }
    for i := 0 to |v|
      invariant forall j :: 0 <= j < i ==> IsToken(v[j])
    {
      if !IsToken(v[i]) {
        return false;
      }
    }
    return true;
  }

  lemma CaseFacts(a: byte, b: byte)
    ensures IsToken(a) ==> IsToken(Upper(a)) && IsToken(Lower(a))
    ensures Lower(Upper(a)) == Lower(a) && Lower(Lower(a)) == Lower(a)
    ensures Lower(a) == Lower(b) ==> Upper(a) == Upper(b) && (IsToken(a) == IsToken(b)) && (a == DASH <==> b == DASH)
  {
  }

  lemma CanonicalTokens(name: bytes)
    ensures AllTokens(Canonical(name)) <==> AllTokens(name)
    ensures EqualFolded(Canonical(name), name)
  {
    forall i | 0 <= i < |name|
      ensures Lower(Canonical(name)[i]) == Lower(name[i])
      ensures AllTokens(name) ==> IsToken(Canonical(name)[i])
    {
      CaseFacts(name[i], name[i]);
    }
  }

  /** Two names have the same canonical form exactly when they are the same, or differ in case only and are valid. */
  lemma EqualCanonicalForms(a: bytes, b: bytes)
    ensures Canonical(a) == Canonical(b) <==> a == b || (EqualFolded(a, b) && a != [] && AllTokens(a))
  {
    CanonicalTokens(a);
    CanonicalTokens(b);
    if EqualFolded(a, b) && AllTokens(a) {
      forall i | 0 <= i < |a|
        ensures IsToken(b[i]) && (a[i] == DASH <==> b[i] == DASH) && Upper(a[i]) == Upper(b[i])
      {
        CaseFacts(a[i], b[i]);
      }
      assert Canonical(a) == Canonical(b);
    }
    if Canonical(a) == Canonical(b) && AllTokens(a) {
      assert forall i :: 0 <= i < |a| ==> Lower(a[i]) == Lower(Canonical(a)[i]);
      assert forall i :: 0 <= i < |b| ==> Lower(b[i]) == Lower(Canonical(b)[i]);
    }
  }

  /** canonicalHeaderKeyEqual: equality of the canonical forms, without building them. */
  method CanonicalHeaderKeyEqual(a: bytes, b: bytes) returns (equal: bool)
    ensures equal == (Canonical(a) == Canonical(b))
  {
    EqualCanonicalForms(a, b);
    if a == b {
      return true;
    }
    var fold := EqualFold(a, b);
    var valid := ValidHeaderFieldName(a);
    equal := fold && valid;
  }

  /** The token bytes are the visible ones that are no delimiter (section 3.2.6 of RFC 7230). */
  lemma TokenBytes(b: byte)
    ensures IsToken(b)
       <==> 33 <= b <= 126
            && b as char !in {'"', '(', ')', ',', '/', ':', ';', '<', '=', '>', '?', '@', '[', '\\', ']', '{', '}'}
  {
  }

  /** The canonical form of a valid name, byte by byte: no capital inside a word, no small letter at the start of one,
      and nothing changed but the case. */
  ghost predicate Capitalised(name: bytes, r: bytes) {
    && |r| == |name|
    && forall i :: 0 <= i < |name| ==>
         && (r[i] == name[i] || (65 <= r[i] <= 90 && name[i] == r[i] + 32) || (97 <= r[i] <= 122 && name[i] == r[i] - 32))
         && if i == 0 || name[i - 1] == 45 then !(97 <= r[i] <= 122) else !(65 <= r[i] <= 90)
  }

  lemma CanonicalExactlyWhen(name: bytes, r: bytes)
    ensures r == Canonical(name) <==> if AllTokens(name) then Capitalised(name, r) else r == name
  {
    if AllTokens(name) {
      assert Capitalised(name, Canonical(name)) by {
        hide IsToken;
      }
      if Capitalised(name, r) {
        forall i | 0 <= i < |name|
          ensures r[i] == Canonical(name)[i]
        {
        }
        assert r == Canonical(name);
      }
    }
  }

  // ----- Ranks -----

  datatype KeyValues = KeyValues(key: bytes, values: seq<bytes>)

  /** The position of a name in the order: the last entry with the same canonical form, -1 without one. */
  function Rank(name: bytes, order: seq<bytes>): (r: int)
    ensures -1 <= r < |order|
  {
    if order == [] then -1
    else if Canonical(order[|order| - 1]) == Canonical(name) then |order| - 1
    else Rank(name, order[..|order| - 1])
  }

  /** The rank is the last matching position: the last of several duplicates wins. */
  lemma {:induction false} RankIsLastMatch(name: bytes, order: seq<bytes>)
    ensures var r := Rank(name, order);
            && (r >= 0 ==> Canonical(order[r]) == Canonical(name))
            && (forall k :: r < k < |order| ==> Canonical(order[k]) != Canonical(name))
  {
    hide Canonical;
    if order != [] {
      RankIsLastMatch(name, order[..|order| - 1]);
    }
  }

  function Ranks(kvs: seq<KeyValues>, order: seq<bytes>): seq<int> {
    seq(|kvs|, i requires 0 <= i < |kvs| => Rank(kvs[i].key, order))
  }

  lemma RankOfLonger(name: bytes, order: seq<bytes>, n: nat)
    requires n < |order|
    ensures Rank(name, order[..n + 1]) == if Canonical(order[n]) == Canonical(name) then n else Rank(name, order[..n])
  {
    assert order[..n + 1][..n] == order[..n];
  }

  method HeaderOrderRanksLinear(kvs: array<KeyValues>, orderedKeys: seq<bytes>) returns (ranks: array<int>)
    ensures fresh(ranks) && ranks[..] == Ranks(kvs[..], orderedKeys)
  {
    hide Canonical;
    ranks := new int[kvs.Length];
    for i := 0 to kvs.Length
      invariant forall j :: 0 <= j < i ==> ranks[j] == Rank(kvs[j].key, orderedKeys)
    {
      ranks[i] := -1;
      for rank := 0 to |orderedKeys|
        invariant forall j :: 0 <= j < i ==> ranks[j] == Rank(kvs[j].key, orderedKeys)
        invariant ranks[i] == Rank(kvs[i].key, orderedKeys[..rank])
      {
        var equal := CanonicalHeaderKeyEqual(kvs[i].key, orderedKeys[rank]);
        RankOfLonger(kvs[i].key, orderedKeys, rank);
        if equal {
          ranks[i] := rank;
        }
      }
      assert orderedKeys[..|orderedKeys|] == orderedKeys;
    }
  }

  /** The map of the large-list path: every canonical name of the order, with its last position. */
  ghost predicate OrderMap(order: map<bytes, int>, keys: seq<bytes>) {
    forall name: bytes :: (if Canonical(name) in order then order[Canonical(name)] else -1) == Rank(name, keys)
  }

  method HeaderOrderRanksMap(kvs: array<KeyValues>, orderedKeys: seq<bytes>) returns (ranks: array<int>)
    ensures fresh(ranks) && ranks[..] == Ranks(kvs[..], orderedKeys)
  {
    hide Canonical;
    var order: map<bytes, int> := map[];
    for rank := 0 to |orderedKeys|
      invariant OrderMap(order, orderedKeys[..rank])
    {
      forall name: bytes
        ensures Rank(name, orderedKeys[..rank + 1]) == if Canonical(orderedKeys[rank]) == Canonical(name) then rank else Rank(name, orderedKeys[..rank])
      {
        RankOfLonger(name, orderedKeys, rank);
      }
      var canonical := CanonicalMIMEHeaderKey(orderedKeys[rank]);
      order := order[canonical := rank];
    }
    assert orderedKeys[..|orderedKeys|] == orderedKeys;
    ranks := new int[kvs.Length];
    for i := 0 to kvs.Length
      invariant forall j :: 0 <= j < i ==> ranks[j] == Rank(kvs[j].key, orderedKeys)
    {
      var key := CanonicalMIMEHeaderKey(kvs[i].key);
      var rank := if key in order then order[key] else -1;
      ranks[i] := rank;
    }
  }

  // ----- Sorting -----

  const LINEAR_HEADER_ORDER_SEARCH_LIMIT := 1024

  /** Every header carries its own rank. */
  ghost predicate Attached(kvs: seq<KeyValues>, ranks: seq<int>, order: seq<bytes>) {
    ranks == Ranks(kvs, order)
  }

  class Sorter {
    const ranks: array<int>
    const kvs: array<KeyValues>

    constructor (ranks: array<int>, kvs: array<KeyValues>)
      ensures this.ranks == ranks && this.kvs == kvs
    {
      this.ranks, this.kvs := ranks, kvs;
    }

    method Swap(i: nat, j: nat)
      requires i < kvs.Length == ranks.Length && j < kvs.Length
      modifies ranks, kvs
      ensures kvs[..] == old(kvs[..])[i := old(kvs[j])][j := old(kvs[i])]
      ensures ranks[..] == old(ranks[..])[i := old(ranks[j])][j := old(ranks[i])]
    {
      kvs[i], kvs[j] := kvs[j], kvs[i];
      ranks[i], ranks[j] := ranks[j], ranks[i];
    }

    method Less(i: nat, j: nat) returns (less: bool)
      requires i < ranks.Length && j < ranks.Length
      ensures ranks[i] >= 0 && ranks[j] >= 0 ==> less == (ranks[i] < ranks[j])
      ensures less == ((if ranks[i] >= 0 then ranks[i] else i) < (if ranks[j] >= 0 then ranks[j] else j))
    {
      var a, b := i, j;
      if ranks[i] >= 0 {
        a := ranks[i];
      }
      if ranks[j] >= 0 {
        b := ranks[j];
      }
      return a < b;
    }
  }

  lemma SwapKeeps(kvs: seq<KeyValues>, order: seq<bytes>, i: nat, j: nat)
    requires i < |kvs| && j < |kvs|
    ensures Ranks(kvs[i := kvs[j]][j := kvs[i]], order) == Ranks(kvs, order)[i := Ranks(kvs, order)[j]][j := Ranks(kvs, order)[i]]
    ensures multiset(kvs[i := kvs[j]][j := kvs[i]]) == multiset(kvs)
  {
    hide Rank;
  }

  /** In order, except that position j may hold too small a rank for its place. */
  predicate InOrderBut(ranks: seq<int>, n: nat, j: nat)
    requires n <= |ranks|
  {
    forall a, b :: 0 <= a < b < n && b != j ==> ranks[a] <= ranks[b]
  }

  predicate AllRanked(ranks: seq<int>) {
    forall i :: 0 <= i < |ranks| ==> ranks[i] >= 0
  }

  predicate InOrder(ranks: seq<int>, n: nat)
    requires n <= |ranks|
  {
    forall a, b :: 0 <= a < b < n ==> ranks[a] <= ranks[b]
  }

  lemma SwapDown(ranks: seq<int>, n: nat, j: nat)
    requires 0 < j < n <= |ranks| && InOrderBut(ranks, n, j) && ranks[j] < ranks[j - 1]
    ensures InOrderBut(ranks[j := ranks[j - 1]][j - 1 := ranks[j]], n, j - 1)
  {
  }

  /** One comparison and swap of neighbours on the way down. */
  method Sink(s: Sorter, j: nat, ghost order: seq<bytes>) returns (swapped: bool)
    requires 0 < j < s.kvs.Length == s.ranks.Length && Attached(s.kvs[..], s.ranks[..], order)
    modifies s.kvs, s.ranks
    ensures Attached(s.kvs[..], s.ranks[..], order) && multiset(s.kvs[..]) == multiset(old(s.kvs[..]))
    ensures AllRanked(old(s.ranks[..])) ==>
              && swapped == (old(s.ranks[j]) < old(s.ranks[j - 1]))
              && AllRanked(s.ranks[..])
              && s.ranks[..] == if swapped then old(s.ranks[..])[j := old(s.ranks[j - 1])][j - 1 := old(s.ranks[j])] else old(s.ranks[..])
  {
    hide Rank;
    swapped := s.Less(j, j - 1);
    if swapped {
      SwapKeeps(s.kvs[..], order, j, j - 1);
      s.Swap(j, j - 1);
    }
  }

  /** Less, on values. */
  predicate LessAt(ranks: seq<int>, i: nat, j: nat)
    requires i < |ranks| && j < |ranks|
  {
    (if ranks[i] >= 0 then ranks[i] else i) < (if ranks[j] >= 0 then ranks[j] else j)
  }

  predicate InvertedAt(ranks: seq<int>, i: nat)
    requires 0 < i < |ranks|
  {
    LessAt(ranks, i, i - 1)
  }

  predicate NoInversion(ranks: seq<int>) {
    forall i :: 0 < i < |ranks| ==> !InvertedAt(ranks, i)
  }

  /** Ranked headers are in order as soon as no neighbours are the wrong way round, however they got there. */
  lemma {:induction false} NoInversionIsOrder(ranks: seq<int>, n: nat)
    requires AllRanked(ranks) && NoInversion(ranks) && n <= |ranks|
    ensures InOrder(ranks, n)
  {
    if n > 1 {
      NoInversionIsOrder(ranks, n - 1);
      assert !InvertedAt(ranks, n - 1);
    }
  }

  /** sort.IsSorted. */
  method IsSorted(s: Sorter) returns (sorted: bool)
    requires s.kvs.Length == s.ranks.Length
    ensures sorted == NoInversion(s.ranks[..])
  {
    var i := s.kvs.Length - 1;
    while i > 0
      invariant i < s.kvs.Length
      invariant forall j :: 0 < j < s.kvs.Length && i < j ==> !InvertedAt(s.ranks[..], j)
    {
      var less := s.Less(i, i - 1);
      assert less == InvertedAt(s.ranks[..], i);
      if less {
        return false;
      }
      i := i - 1;
    }
    return true;
  }

  /** sort.Sort: any run of comparisons and swaps, at any places. One that leaves neighbours the wrong way round is not over
      and goes on, by insertion here; the standard library's own runs end without. */
  method Sort(s: Sorter, ghost order: seq<bytes>)
    requires s.kvs.Length == s.ranks.Length && Attached(s.kvs[..], s.ranks[..], order)
    modifies s.kvs, s.ranks
    ensures Attached(s.kvs[..], s.ranks[..], order)
    ensures multiset(s.kvs[..]) == multiset(old(s.kvs[..]))
    ensures AllRanked(old(s.ranks[..])) ==> InOrder(s.ranks[..], s.ranks.Length)
  {
    hide Rank;
    Shuffle(s, order);
    ghost var ranked := AllRanked(s.ranks[..]);
    var sorted := IsSorted(s);
    if sorted {
      if ranked {
        NoInversionIsOrder(s.ranks[..], s.ranks.Length);
      }
      return;
    }
    for i := 0 to s.kvs.Length
      invariant Attached(s.kvs[..], s.ranks[..], order)
      invariant multiset(s.kvs[..]) == multiset(old(s.kvs[..]))
      invariant ranked ==> AllRanked(s.ranks[..]) && InOrder(s.ranks[..], i)
    {
      Insert(s, i, order);
    }
  }

  /** Insertion of position i into the ordered positions before it. */
  method Insert(s: Sorter, i: nat, ghost order: seq<bytes>)
    requires i < s.kvs.Length == s.ranks.Length && Attached(s.kvs[..], s.ranks[..], order)
    modifies s.kvs, s.ranks
    ensures Attached(s.kvs[..], s.ranks[..], order) && multiset(s.kvs[..]) == multiset(old(s.kvs[..]))
    ensures AllRanked(old(s.ranks[..])) ==> AllRanked(s.ranks[..])
    ensures AllRanked(old(s.ranks[..])) && InOrder(old(s.ranks[..]), i) ==> InOrder(s.ranks[..], i + 1)
  {
    hide Rank, Ranks;
    ghost var ranked := AllRanked(s.ranks[..]);
    ghost var ordered := ranked && InOrder(s.ranks[..], i);
    var j := i;
    while j > 0
      invariant 0 <= j <= i
      invariant Attached(s.kvs[..], s.ranks[..], order) && multiset(s.kvs[..]) == multiset(old(s.kvs[..]))
      invariant ranked ==> AllRanked(s.ranks[..])
      invariant ordered ==> InOrderBut(s.ranks[..], i + 1, j)
    {
      ghost var before := s.ranks[..];
      var swapped := Sink(s, j, order);
      if !swapped {
        break;
      }
      if ordered {
        SwapDown(before, i + 1, j);
      }
      j := j - 1;
    }
  }

  method Shuffle(s: Sorter, ghost order: seq<bytes>)
    requires s.kvs.Length == s.ranks.Length && Attached(s.kvs[..], s.ranks[..], order)
    modifies s.kvs, s.ranks
    ensures Attached(s.kvs[..], s.ranks[..], order) && multiset(s.kvs[..]) == multiset(old(s.kvs[..]))
    ensures AllRanked(old(s.ranks[..])) ==> AllRanked(s.ranks[..])
  {
    hide Rank;
    ghost var ranked := AllRanked(s.ranks[..]);
    var rounds: nat := *;
    while rounds > 0
      invariant Attached(s.kvs[..], s.ranks[..], order)
      invariant multiset(s.kvs[..]) == multiset(old(s.kvs[..]))
      invariant ranked ==> AllRanked(s.ranks[..])
      decreases rounds
    {
      var i, j := *, *;
      if 0 <= i < s.kvs.Length && 0 <= j < s.kvs.Length {
        var _ := s.Less(i, j);
        SwapKeeps(s.kvs[..], order, i, j);
        s.Swap(i, j);
      }
      rounds := rounds - 1;
    }
  }

  /** SortKeyValues rearranges the headers, whichever way the ranks are computed; when every header has a rank, they end up
      in the order asked for. */
  method SortKeyValues(kvs: array<KeyValues>, orderedKeys: seq<bytes>)
    modifies kvs
    ensures multiset(kvs[..]) == multiset(old(kvs[..]))
    ensures |orderedKeys| == 0 || kvs.Length < 2 ==> kvs[..] == old(kvs[..])
    ensures AllRanked(Ranks(old(kvs[..]), orderedKeys)) ==> InOrder(Ranks(kvs[..], orderedKeys), kvs.Length)
  {
    hide Rank;
    if kvs.Length < 2 || |orderedKeys| == 0 {
      NoneRanked(kvs[..], orderedKeys);
      return;
    }
    var ranks;
    if kvs.Length <= LINEAR_HEADER_ORDER_SEARCH_LIMIT / |orderedKeys| {
      ranks := HeaderOrderRanksLinear(kvs, orderedKeys);
    } else {
      ranks := HeaderOrderRanksMap(kvs, orderedKeys);
    }
    assert ranks.Length == kvs.Length;
    var s := new Sorter(ranks, kvs);
    Sort(s, orderedKeys);
  }

  lemma NoneRanked(kvs: seq<KeyValues>, order: seq<bytes>)
    requires |kvs| < 2 || order == []
    ensures AllRanked(Ranks(kvs, order)) ==> InOrder(Ranks(kvs, order), |kvs|)
  {
    assert |kvs| > 0 && order == [] ==> Ranks(kvs, order)[0] == -1;
  }
}
