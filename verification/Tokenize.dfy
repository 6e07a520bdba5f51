/** `split` of tokenize.hh, for the one-character separators its callers pass. */
module Tokenize {
  import opened Text

  /** Positions of `c` in `s` at or after `from`. */
  function Positions(s: string, c: char, from: nat): seq<nat>
    requires from <= |s|
    decreases |s| - from
  {
    if from == |s| then []
    else if s[from] == c then [from] + Positions(s, c, from + 1)
    else Positions(s, c, from + 1)
  }

  /** The stretches of `s` from `from` on that lie between the cut positions. */
  function Pieces(s: string, cuts: seq<nat>, from: nat): (r: seq<string>)
    requires from <= |s|
    requires forall i | 0 <= i < |cuts| :: from <= cuts[i] < |s|
    requires forall i, j | 0 <= i < j < |cuts| :: cuts[i] < cuts[j]
    ensures |r| == |cuts| + 1
    decreases |cuts|
  {
    if cuts == [] then [s[from..]]
    else [s[from..cuts[0]]] + Pieces(s, cuts[1..], cuts[0] + 1)
  }

  lemma {:induction false} PositionsSorted(s: string, c: char, from: nat)
    requires from <= |s|
    ensures forall i | 0 <= i < |Positions(s, c, from)| :: from <= Positions(s, c, from)[i] < |s|
    ensures forall i, j | 0 <= i < j < |Positions(s, c, from)| :: Positions(s, c, from)[i] < Positions(s, c, from)[j]
    decreases |s| - from
  {
    if from < |s| {
      PositionsSorted(s, c, from + 1);
    }
  }

  /** The tokens of `s` between occurrences of `c`. */
  function Tokens(s: string, c: char): (r: seq<string>)
    ensures |r| >= 1
  {
    PositionsSorted(s, c, 0);
    Pieces(s, Positions(s, c, 0), 0)
  }

  /** Tokens put back together with the separator between them. */
  function Join(tokens: seq<string>, c: char): string
    requires |tokens| >= 1
  {
    if |tokens| == 1 then tokens[0] else tokens[0] + [c] + Join(tokens[1..], c)
  }

  predicate Free(s: string, c: char) {
    forall i | 0 <= i < |s| :: s[i] != c
  }

  /** Skipping ahead over characters that are not separators changes nothing. */
  lemma {:induction false} PositionsSkip(s: string, c: char, from: nat, to: nat)
    requires from <= to <= |s|
    requires forall i | from <= i < to :: s[i] != c
    ensures Positions(s, c, from) == Positions(s, c, to)
    decreases |s| - from
  {
    if from < to {
      PositionsSkip(s, c, from + 1, to);
    }
  }

  lemma {:induction false} PiecesJoin(s: string, c: char, from: nat)
    requires from <= |s|
    requires forall i | 0 <= i < |Positions(s, c, from)| :: from <= Positions(s, c, from)[i] < |s|
    requires forall i, j | 0 <= i < j < |Positions(s, c, from)| :: Positions(s, c, from)[i] < Positions(s, c, from)[j]
    ensures Join(Pieces(s, Positions(s, c, from), from), c) == s[from..]
    ensures forall k | 0 <= k < |Pieces(s, Positions(s, c, from), from)| :: Free(Pieces(s, Positions(s, c, from), from)[k], c)
    decreases |s| - from
  {
    hide Positions, FindFrom, Join, Free;
    var cuts := Positions(s, c, from);
    var next := FindFrom(s, [c], from);
    NextPosition(s, c, from);
    NotBefore(s, c, from);
    if next.Some? {
      var k := next.value;
      assert cuts[1..] == Positions(s, c, k + 1);
      PositionsSorted(s, c, k + 1);
      PiecesJoin(s, c, k + 1);
      PutInFront(s, c, from, k, Pieces(s, cuts[1..], k + 1));
    } else {
      assert s[from..|s|] == s[from..];
      OneToken(s[from..], c);
    }
  }

  lemma OneToken(t: string, c: char)
    ensures Join([t], c) == t
  {}

  lemma PutInFront(s: string, c: char, from: nat, k: nat, rest: seq<string>)
    requires from <= k < |s| && s[k] == c && Free(s[from..k], c)
    requires |rest| >= 1 && Join(rest, c) == s[k + 1..] && forall i | 0 <= i < |rest| :: Free(rest[i], c)
    ensures Join([s[from..k]] + rest, c) == s[from..]
    ensures forall i | 0 <= i < |[s[from..k]] + rest| :: Free(([s[from..k]] + rest)[i], c)
  {
    hide Free;
    var all := [s[from..k]] + rest;
    assert all[1..] == rest;
    assert s[from..] == s[from..k] + [c] + s[k + 1..];
  }

  /** Splitting loses nothing: joining the tokens gives the string back, and no token holds the separator. */
  lemma SplitJoin(s: string, c: char)
    ensures Join(Tokens(s, c), c) == s
    ensures forall k | 0 <= k < |Tokens(s, c)| :: Free(Tokens(s, c)[k], c)
  {
    PositionsSorted(s, c, 0);
    PiecesJoin(s, c, 0);
    assert s[0..] == s;
  }

  /** Those two facts determine the tokens. */
  lemma {:induction false} JoinSplit(tokens: seq<string>, c: char)
    requires |tokens| >= 1
    requires forall k | 0 <= k < |tokens| :: Free(tokens[k], c)
    ensures Tokens(Join(tokens, c), c) == tokens
  {
    SplitJoin(Join(tokens, c), c);
    JoinInjective(Tokens(Join(tokens, c), c), tokens, c);
  }

  lemma {:induction false} JoinInjective(a: seq<string>, b: seq<string>, c: char)
    requires |a| >= 1 && |b| >= 1
    requires forall k | 0 <= k < |a| :: Free(a[k], c)
    requires forall k | 0 <= k < |b| :: Free(b[k], c)
    requires Join(a, c) == Join(b, c)
    ensures a == b
  {
    HeadOfJoin(a, c);
    HeadOfJoin(b, c);
    var s := Join(a, c);
    assert Free(a[0], c) && Free(b[0], c);
    assert |a[0]| == |b[0]|;
    assert a[0] == s[..|a[0]|] == b[0];
    if |a| > 1 {
      assert Join(a[1..], c) == s[|a[0]| + 1..] == Join(b[1..], c);
      JoinInjective(a[1..], b[1..], c);
      assert a == [a[0]] + a[1..] && b == [b[0]] + b[1..];
    }
  }

  lemma HeadOfJoin(a: seq<string>, c: char)
    requires |a| >= 1
    ensures a[0] <= Join(a, c)
    ensures |a| == 1 ==> Join(a, c) == a[0]
    ensures |a| > 1 ==> |a[0]| < |Join(a, c)| && Join(a, c)[|a[0]|] == c && Join(a, c)[|a[0]| + 1..] == Join(a[1..], c)
  {}

  /** `split`: one loop collects the separator positions, a second cuts the string there. */
  method Split(s: string, c: char) returns (ret: seq<string>)
    ensures ret == Tokens(s, c)
    ensures Join(ret, c) == s
    ensures forall k | 0 <= k < |ret| :: Free(ret[k], c)
  {
    SplitJoin(s, c);
    PositionsSorted(s, c, 0);
    hide Positions, Free, Join, Pieces;
    var indices := FindPositions(s, c);
    if indices == [] {
      WholeToken(s, c);
      return [s];
    }
    ret := Cut(s, indices);
  }

  lemma WholeToken(s: string, c: char)
    requires Positions(s, c, 0) == []
    ensures Tokens(s, c) == [s]
  {
    hide Positions;
  }

  /** The first half of `split`. */
  method FindPositions(s: string, c: char) returns (indices: seq<nat>)
    ensures indices == Positions(s, c, 0)
  {
    hide Positions, FindFrom;
    indices := [];
    var nextToken := 0;
    var found := FindFrom(s, [c], nextToken);
    while found.Some?
      invariant nextToken <= |s| && found == FindFrom(s, [c], nextToken)
      invariant indices + Positions(s, c, nextToken) == Positions(s, c, 0)
      decreases |s| - nextToken
    {
      NextPosition(s, c, nextToken);
      indices := indices + [found.value];
      nextToken := found.value + 1;
      found := FindFrom(s, [c], nextToken);
    }
    NextPosition(s, c, nextToken);
    assert indices == Positions(s, c, 0);
  }

  /** The second half of `split`: the first token, the inner tokens, the last token. */
  method Cut(s: string, indices: seq<nat>) returns (ret: seq<string>)
    requires indices != []
    requires forall i | 0 <= i < |indices| :: indices[i] < |s|
    requires forall i, j | 0 <= i < j < |indices| :: indices[i] < indices[j]
    ensures ret == Pieces(s, indices, 0)
  {
    ret := [s[..indices[0]]];
    var i := 0;
    while i < |indices| - 1
      invariant 0 <= i < |indices|
      invariant ret + Pieces(s, indices[i + 1..], indices[i] + 1) == Pieces(s, indices, 0)
    {
      assert indices[i + 1..][1..] == indices[i + 2..];
      ret := ret + [s[indices[i] + 1..indices[i + 1]]];
      i := i + 1;
    }
    ret := ret + [s[indices[|indices| - 1] + 1..]];
  }

  lemma NotBefore(s: string, c: char, from: nat)
    requires from <= |s|
    ensures var found := FindFrom(s, [c], from);
            var stop := if found.None? then |s| else found.value;
            stop <= |s| && Free(s[from..stop], c) && (found.Some? ==> stop < |s| && s[stop] == c)
  {
    var found := FindFrom(s, [c], from);
    var stop := if found.None? then |s| else found.value;
    forall i | from <= i < stop ensures s[i] != c {
      assert !At(s, [c], i);
      assert s[i..i + 1] == [s[i]];
    }
    if found.Some? {
      assert s[stop..stop + 1][0] == s[stop];
    }
  }

  lemma NextPosition(s: string, c: char, from: nat)
    requires from <= |s|
    ensures var found := FindFrom(s, [c], from);
            Positions(s, c, from) == if found.None? then [] else [found.value] + Positions(s, c, found.value + 1)
  {
    var found := FindFrom(s, [c], from);
    var stop := if found.None? then |s| else found.value;
    forall i | from <= i < stop ensures s[i] != c {
      assert !At(s, [c], i);
      assert s[i..i + 1] == [s[i]];
    }
    PositionsSkip(s, c, from, stop);
    if found.Some? {
      assert s[stop..stop + 1][0] == s[stop];
    }
  }
}
