/**
 Counting and finding the occurrences of one text in another: by bytes, as the
 count does, and by characters, as the position finder does.
 */
module Search {
  import opened Utf8

  /** `p` stands in `s` at position `i`. */
  predicate MatchAt<T(==)>(s: seq<T>, p: seq<T>, i: int) {
    0 <= i && i + |p| <= |s| && s[i..i + |p|] == p
  }

  /** The matches a scan from the left takes, starting at `i` and jumping over each match. */
  function Leftmost<T(==)>(s: seq<T>, p: seq<T>, i: nat): seq<nat>
    requires p != []
    decreases |s| - i
  {
    if i + |p| > |s| then []
    else if s[i..i + |p|] == p then [i] + Leftmost(s, p, i + |p|)
    else Leftmost(s, p, i + 1)
  }

  // --------------------------------------------------------------------------
  // What the leftmost scan promises on any sequence
  // --------------------------------------------------------------------------

  /** Increasing positions at which `p` matches, no two matches overlapping. */
  ghost predicate Separate<T>(s: seq<T>, p: seq<T>, at: seq<nat>) {
    && (forall k :: 0 <= k < |at| ==> MatchAt(s, p, at[k]))
    && (forall j, k :: 0 <= j < k < |at| ==> at[j] + |p| <= at[k])
  }

  lemma {:induction false} LeftmostSeparate<T>(s: seq<T>, p: seq<T>, i: nat)
    requires p != []
    ensures Separate(s, p, Leftmost(s, p, i))
    ensures forall k :: 0 <= k < |Leftmost(s, p, i)| ==> i <= Leftmost(s, p, i)[k]
    decreases |s| - i
  {
    if i + |p| <= |s| {
      LeftmostSeparate(s, p, if s[i..i + |p|] == p then i + |p| else i + 1);
    }
  }

  /** Matches at `i` or after, any two of them apart. */
  ghost predicate Packing<T>(s: seq<T>, p: seq<T>, i: nat, q: set<nat>) {
    && (forall a :: a in q ==> i <= a && MatchAt(s, p, a))
    && (forall a, b :: a in q && b in q && a < b ==> a + |p| <= b)
  }

  lemma LeftmostMatched<T>(s: seq<T>, p: seq<T>, i: nat, j: nat)
    requires p != [] && MatchAt(s, p, i) && j == i + |p|
    ensures Leftmost(s, p, i) == [i] + Leftmost(s, p, j)
  {
  }

  function From(q: set<nat>, bound: nat): set<nat> {
    set a | a in q && bound <= a
  }

  /** Two matches that keep apart cannot both start within one pattern length. */
  lemma OneStartsHere(q: set<nat>, i: nat, n: nat)
    requires forall a :: a in q ==> i <= a
    requires forall a, b :: a in q && b in q && a < b ==> a + n <= b
    ensures |q| <= |From(q, i + n)| + 1
  {
    var later := From(q, i + n);
    if m :| m in q && m < i + n {
      assert q == later + {m};
    } else {
      assert q == later;
    }
  }

  /** No choice of matches that keep apart is larger than the leftmost one. */
  lemma {:induction false} LeftmostIsLargest<T>(s: seq<T>, p: seq<T>, i: nat, q: set<nat>)
    requires p != [] && Packing(s, p, i, q)
    ensures |q| <= |Leftmost(s, p, i)|
    decreases |s| - i
  {
    if i + |p| > |s| {
      assert forall a :: i <= a ==> !MatchAt(s, p, a);
      assert q == {};
    } else if MatchAt(s, p, i) {
      OneStartsHere(q, i, |p|);
      LeftmostIsLargest(s, p, i + |p|, From(q, i + |p|));
      LeftmostMatched(s, p, i, i + |p|);
    } else {
      LeftmostIsLargest(s, p, i + 1, q);
    }
  }

  lemma LeftmostIsLargestOfAll<T>(s: seq<T>, p: seq<T>)
    requires p != []
    ensures forall q :: Packing(s, p, 0, q) ==> |q| <= |Leftmost(s, p, 0)|
  {
    forall q | Packing(s, p, 0, q) ensures |q| <= |Leftmost(s, p, 0)| {
      LeftmostIsLargest(s, p, 0, q);
    }
  }

  /** A stretch with no match in it is passed over. */
  lemma {:induction false} SkipUnmatched<T>(s: seq<T>, p: seq<T>, i: nat, j: nat)
    requires p != [] && i <= j
    requires forall k :: i <= k < j ==> !MatchAt(s, p, k)
    ensures Leftmost(s, p, i) == Leftmost(s, p, j)
    decreases j - i
  {
    if i < j {
      assert !MatchAt(s, p, i);
      SkipUnmatched(s, p, i + 1, j);
    }
  }

  // --------------------------------------------------------------------------
  // The byte scan visits the same matches as the character scan
  // --------------------------------------------------------------------------

  lemma MatchIsPrefix<T>(s: seq<T>, p: seq<T>, i: nat)
    requires i <= |s|
    ensures MatchAt(s, p, i) <==> p <= s[i..]
  {
    if i + |p| <= |s| {
      assert s[i..i + |p|] == s[i..][..|p|];
    }
  }

  lemma MatchIffByteMatch(s: string, p: string, i: nat)
    requires i <= |s|
    ensures MatchAt(s, p, i) <==> MatchAt(Bytes(s), Bytes(p), Offset(s, i))
  {
    BytesSplit(s, i);
    PrefixIffBytes(s[i..], p);
    MatchIsPrefix(s, p, i);
    MatchIsPrefix(Bytes(s), Bytes(p), Offset(s, i));
  }

  lemma MatchLength(s: string, p: string, i: nat)
    requires MatchAt(s, p, i)
    ensures Offset(s, i + |p|) == Offset(s, i) + |Bytes(p)|
  {
    OffsetSum(s, i, |p|);
    assert s[i..][..|p|] == p;
  }

  /** No match can start inside a character. */
  lemma NoMatchInside(s: string, p: string, i: nat, b: nat)
    requires p != [] && i < |s| && Offset(s, i) < b < Offset(s, i + 1)
    ensures !MatchAt(Bytes(s), Bytes(p), b)
  {
    InsideIsContinuation(s, i, b);
    EncodeShape(p[0]);
    if b + |Bytes(p)| <= |Bytes(s)| {
      assert Bytes(s)[b..b + |Bytes(p)|][0] == Bytes(s)[b] != Bytes(p)[0];
    }
  }

  /** The byte offsets of character positions. */
  function Offsets(s: string, at: seq<nat>): seq<nat> {
    if at == [] then []
    else [if at[0] <= |s| then Offset(s, at[0]) else |Bytes(s)|] + Offsets(s, at[1..])
  }

  lemma {:induction false} OffsetsLength(s: string, at: seq<nat>)
    ensures |Offsets(s, at)| == |at|
  {
    if at != [] {
      OffsetsLength(s, at[1..]);
    }
  }

  lemma CharacterUnmatched(s: string, p: string, i: nat)
    requires p != [] && i < |s| && !MatchAt(s, p, i)
    ensures Bytes(p) != []
    ensures Leftmost(Bytes(s), Bytes(p), Offset(s, i)) == Leftmost(Bytes(s), Bytes(p), Offset(s, i + 1))
  {
    EncodeShape(p[0]);
    MatchIffByteMatch(s, p, i);
    forall b | Offset(s, i) <= b < Offset(s, i + 1) ensures !MatchAt(Bytes(s), Bytes(p), b) {
      if b > Offset(s, i) {
        NoMatchInside(s, p, i, b);
      }
    }
    OffsetMonotone(s, i, i + 1);
    SkipUnmatched(Bytes(s), Bytes(p), Offset(s, i), Offset(s, i + 1));
  }

  lemma BytesNonEmpty(p: string)
    requires p != []
    ensures Bytes(p) != []
  {
    EncodeShape(p[0]);
  }

  lemma OffsetsOfMatched(s: string, p: string, i: nat)
    requires p != [] && MatchAt(s, p, i)
    ensures Offsets(s, Leftmost(s, p, i)) == [Offset(s, i)] + Offsets(s, Leftmost(s, p, i + |p|))
  {
    LeftmostMatched(s, p, i, i + |p|);
    assert Leftmost(s, p, i)[1..] == Leftmost(s, p, i + |p|);
  }

  lemma CharacterMatched(s: string, p: string, i: nat)
    requires p != [] && MatchAt(s, p, i)
    ensures Bytes(p) != []
    ensures Leftmost(Bytes(s), Bytes(p), Offset(s, i))
            == [Offset(s, i)] + Leftmost(Bytes(s), Bytes(p), Offset(s, i + |p|))
  {
    BytesNonEmpty(p);
    MatchIffByteMatch(s, p, i);
    MatchLength(s, p, i);
    LeftmostMatched(Bytes(s), Bytes(p), Offset(s, i), Offset(s, i + |p|));
  }

  lemma NothingAtEnd(s: string, p: string)
    requires p != []
    ensures Bytes(p) != []
    ensures Leftmost(Bytes(s), Bytes(p), Offset(s, |s|)) == [] == Leftmost(s, p, |s|)
  {
    EncodeShape(p[0]);
    assert s[..|s|] == s;
  }

  /** The byte scan finds the byte offsets of exactly the matches the character scan finds. */
  lemma {:induction false} ByteScanIsCharScan(s: string, p: string, i: nat)
    requires p != [] && i <= |s|
    ensures Bytes(p) != [] && ScansAgree(s, p, i)
    decreases |s| - i
  {
    BytesNonEmpty(p);
    if i == |s| {
      NothingAtEnd(s, p);
      assert ScansAgree(s, p, i);
    } else if MatchAt(s, p, i) {
      ByteScanIsCharScan(s, p, i + |p|);
      ScansAgreeAtMatch(s, p, i);
    } else {
      ByteScanIsCharScan(s, p, i + 1);
      ScansAgreeUnmatched(s, p, i);
    }
  }

  predicate ScansAgree(s: string, p: string, i: nat)
    requires p != [] && Bytes(p) != [] && i <= |s|
  {
    Leftmost(Bytes(s), Bytes(p), Offset(s, i)) == Offsets(s, Leftmost(s, p, i))
  }

  lemma ScansAgreeAtMatch(s: string, p: string, i: nat)
    requires p != [] && Bytes(p) != [] && MatchAt(s, p, i) && ScansAgree(s, p, i + |p|)
    ensures ScansAgree(s, p, i)
  {
    CharacterMatched(s, p, i);
    OffsetsOfMatched(s, p, i);
  }

  lemma ScansAgreeUnmatched(s: string, p: string, i: nat)
    requires p != [] && Bytes(p) != [] && i < |s| && !MatchAt(s, p, i) && ScansAgree(s, p, i + 1)
    ensures ScansAgree(s, p, i)
  {
    CharacterUnmatched(s, p, i);
    SkipUnmatched(s, p, i, i + 1);
  }

  /** Both scans count the same. */
  lemma SameCount(s: string, p: string)
    requires p != []
    ensures Bytes(p) != []
    ensures |Leftmost(Bytes(s), Bytes(p), 0)| == |Leftmost(s, p, 0)|
  {
    ByteScanIsCharScan(s, p, 0);
    OffsetsLength(s, Leftmost(s, p, 0));
    assert Offset(s, 0) == 0;
  }

  // --------------------------------------------------------------------------
  // The searches
  // --------------------------------------------------------------------------

  /** Non-overlapping occurrences: the pattern's bytes are counted in the text's. */
  method CountStr(s: string, pat: string) returns (count: nat)
    ensures pat == [] ==> count == 0
    ensures pat != [] ==> count == |Leftmost(s, pat, 0)|
    ensures pat != [] ==> forall q :: Packing(s, pat, 0, q) ==> |q| <= count
  {
    if pat == [] {
      return 0;
    }
    SameCount(s, pat);
    LeftmostIsLargestOfAll(s, pat);
    count := CountBytes(Bytes(s), Bytes(pat));
  }

  method CountBytes(bytes: seq<Byte>, patBytes: seq<Byte>) returns (count: nat)
    requires patBytes != []
    ensures count == |Leftmost(bytes, patBytes, 0)|
  {
    count := 0;
    var start := 0;
    while start + |patBytes| <= |bytes|
      invariant count + |Leftmost(bytes, patBytes, start)| == |Leftmost(bytes, patBytes, 0)|
    {
      if bytes[start..start + |patBytes|] == patBytes {
        count := count + 1;
        start := start + |patBytes|;
      } else {
        start := start + 1;
      }
    }
  }

  /** The 1-based positions where `pat` starts, found by stepping through characters. */
  method FindPositionsStr(s: string, pat: string) returns (result: seq<int>)
    ensures pat == [] ==> result == []
    ensures pat != [] ==> |result| == |Leftmost(s, pat, 0)|
    ensures pat != [] ==> forall k :: 0 <= k < |result| ==> result[k] == Leftmost(s, pat, 0)[k] + 1
    ensures forall k :: 0 <= k < |result| ==> MatchAt(s, pat, result[k] - 1)
    ensures forall j, k :: 0 <= j < k < |result| ==> result[j] + |pat| <= result[k]
    ensures pat != [] ==> forall q :: Packing(s, pat, 0, q) ==> |q| <= |result|
  {
    if pat == [] {
      return [];
    }
    result := [];
    var i := 0;
    ghost var found: seq<nat> := [];
    while i + |pat| <= |s|
      invariant found + Leftmost(s, pat, i) == Leftmost(s, pat, 0)
      invariant |found| == |result| && forall k :: 0 <= k < |result| ==> result[k] == found[k] + 1
    {
      if s[i..i + |pat|] == pat {
        result := result + [i + 1];
        assert found + Leftmost(s, pat, i) == (found + [i]) + Leftmost(s, pat, i + |pat|);
        found := found + [i];
        i := i + |pat|;
      } else {
        i := i + 1;
      }
    }
    assert found == Leftmost(s, pat, 0);
    LeftmostSeparate(s, pat, 0);
    LeftmostIsLargestOfAll(s, pat);
  }

  // --------------------------------------------------------------------------
  // Single characters
  // --------------------------------------------------------------------------

  function CountChar(s: string, c: char): nat {
    if s == [] then 0 else CountChar(s[..|s| - 1], c) + (if s[|s| - 1] == c then 1 else 0)
  }

  /** The 1-based positions of `c`, as the finder's description asks for them. */
  function PositionsOf(s: string, c: char): seq<int> {
    if s == [] then [] else PositionsOf(s[..|s| - 1], c) + (if s[|s| - 1] == c then [|s|] else [])
  }

  /** What the finder answers: it numbers after filtering, so it counts the matches out. */
  function FindPositionsChar(s: string, c: char): seq<int> {
    seq(CountChar(s, c), i => i + 1)
  }

  /** Every occurrence of `c` comes before every other character. */
  ghost predicate OnlyLeading(s: string, c: char) {
    forall j, k :: 0 <= j < k < |s| && s[k] == c ==> s[j] == c
  }

  lemma {:induction false} PositionsCount(s: string, c: char)
    ensures |PositionsOf(s, c)| == CountChar(s, c) <= |s|
    ensures CountChar(s, c) == |s| <==> forall j :: 0 <= j < |s| ==> s[j] == c
  {
    if s != [] {
      PositionsCount(s[..|s| - 1], c);
    }
  }

  /** The positions ascend and are those of `c`, counted from 1. */
  lemma {:induction false} PositionsAreExact(s: string, c: char)
    ensures forall k :: 0 <= k < |PositionsOf(s, c)| ==>
              1 <= PositionsOf(s, c)[k] <= |s| && s[PositionsOf(s, c)[k] - 1] == c
    ensures forall j, k :: 0 <= j < k < |PositionsOf(s, c)| ==> PositionsOf(s, c)[j] < PositionsOf(s, c)[k]
    ensures forall i :: 0 <= i < |s| && s[i] == c ==> i + 1 in PositionsOf(s, c)
  {
    if s != [] {
      PositionsAreExact(s[..|s| - 1], c);
    }
  }

  lemma {:induction false} PositionsChar(s: string, c: char)
    ensures FindPositionsChar(s, c) == PositionsOf(s, c) <==> OnlyLeading(s, c)
  {
    if s != [] {
      var t := s[..|s| - 1];
      PositionsCount(t, c);
      PositionsChar(t, c);
      assert OnlyLeading(s, c) <==> OnlyLeading(t, c) && (s[|s| - 1] == c ==> CountChar(t, c) == |t|);
      if s[|s| - 1] == c {
        assert FindPositionsChar(s, c) == FindPositionsChar(t, c) + [CountChar(t, c) + 1];
        AppendEqual(FindPositionsChar(t, c), CountChar(t, c) + 1, PositionsOf(t, c), |s|);
      } else {
        assert PositionsOf(s, c) == PositionsOf(t, c);
      }
    }
  }

  lemma AppendEqual(a: seq<int>, x: int, b: seq<int>, y: int)
    ensures a + [x] == b + [y] <==> a == b && x == y
  {
    if a + [x] == b + [y] {
      assert a == (a + [x])[..|a|] && b == (b + [y])[..|b|] && |a| == |b|;
      assert (a + [x])[|a|] == x && (b + [y])[|b|] == y;
    }
  }

  /** The finder answers positions exactly when the character occurs only in front. */
  lemma FindPositionsCharIffOnlyLeading(s: string, c: char)
    ensures FindPositionsChar(s, c) == PositionsOf(s, c) <==> OnlyLeading(s, c)
  {
    PositionsChar(s, c);
  }

  lemma FindPositionsCharCounterexample()
    ensures FindPositionsChar("ba", 'a') == [1] && PositionsOf("ba", 'a') == [2]
  {
    assert "ba"[..1] == "b" && "b"[..0] == "";
    assert CountChar("ba", 'a') == 1;
  }
}
