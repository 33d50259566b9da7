/** The substitute_option loop: replaces every occurrence of a search string, left to right. */
module Substitution {

  const NPOS: int := -1

  predicate OccursAt(s: string, search: string, i: int)
  {
    0 <= i <= |s| - |search| && s[i..i + |search|] == search
  }

  /** The position is that of the first occurrence at or after pos, or NPOS if there is none. */
  ghost predicate IsFirst(s: string, search: string, pos: nat, i: int)
  {
    && (i == NPOS || (pos <= i && OccursAt(s, search, i)))
    && forall j :: pos <= j && (i == NPOS || j < i) ==> !OccursAt(s, search, j)
  }

  /** std::string::find: the first position at or after pos where search occurs, or NPOS. */
  function Find(s: string, search: string, pos: nat): (i: int)
    ensures IsFirst(s, search, pos, i)
    decreases |s| - pos
  {
    if OccursAt(s, search, pos) then pos
    else if pos >= |s| then NPOS
    else Find(s, search, pos + 1)
  }

  /** The contract of Find has one solution. */
  lemma FindIs(s: string, search: string, pos: nat, i: int)
    requires IsFirst(s, search, pos, i)
    ensures Find(s, search, pos) == i
  {
    hide Find, OccursAt;
  }

  lemma OccursInSuffix(done: string, tail: string, search: string, i: int)
    requires i >= 0
    ensures OccursAt(done + tail, search, |done| + i) <==> OccursAt(tail, search, i)
  {
    if i <= |tail| - |search| {
      assert (done + tail)[|done| + i..|done| + i + |search|] == tail[i..i + |search|];
    }
  }

  lemma FirstInSuffix(done: string, tail: string, search: string, i: int)
    requires IsFirst(tail, search, 0, i)
    ensures IsFirst(done + tail, search, |done|, if i == NPOS then NPOS else |done| + i)
  {
    hide OccursAt;
    forall j | |done| <= j && (i == NPOS || j < |done| + i) ensures !OccursAt(done + tail, search, j) {
      OccursInSuffix(done, tail, search, j - |done|);
    }
    if i != NPOS {
      OccursInSuffix(done, tail, search, i);
    }
  }

  lemma FindFits(s: string, search: string)
    ensures Find(s, search, 0) != NPOS ==> 0 <= Find(s, search, 0) <= |s| - |search|
  {
  }

  /** Where a find stops is decided by what follows the position it starts from. */
  lemma FindInSuffix(done: string, tail: string, search: string)
    ensures Find(done + tail, search, |done|)
         == if Find(tail, search, 0) == NPOS then NPOS else |done| + Find(tail, search, 0)
  {
    hide IsFirst, Find;
    var i := Find(tail, search, 0);
    FirstInSuffix(done, tail, search, i);
    FindIs(done + tail, search, |done|, if i == NPOS then NPOS else |done| + i);
  }

  /** Reference definition: cut the string at the leftmost occurrences that do not overlap. */
  function Pieces(s: string, search: string): (ps: seq<string>)
    requires search != ""
    ensures ps != []
    decreases |s|
  {
    var i := Find(s, search, 0);
    if i == NPOS then [s] else [s[..i]] + Pieces(s[i + |search|..], search)
  }

  function Join(ps: seq<string>, separator: string): string
    requires ps != []
  {
    if |ps| == 1 then ps[0] else ps[0] + separator + Join(ps[1..], separator)
  }

  /** A piece that ends where the search string starts does not contain it. */
  lemma PieceHasNoMatch(s: string, search: string)
    requires search != "" && Find(s, search, 0) != NPOS
    ensures Find(s[..Find(s, search, 0)], search, 0) == NPOS
  {
    hide Find;
    var i := Find(s, search, 0);
    var p := s[..i];
    forall j | 0 <= j ensures !OccursAt(p, search, j) {
      if j <= |p| - |search| {
        assert p[j..j + |search|] == s[j..j + |search|];
        assert !OccursAt(s, search, j);
      }
    }
    FindIs(p, search, 0, NPOS);
  }

  lemma PiecesStep(s: string, search: string)
    requires search != ""
    ensures var i := Find(s, search, 0);
      if i == NPOS then Pieces(s, search) == [s]
      else 0 <= i <= |s| - |search| && Pieces(s, search) == [s[..i]] + Pieces(s[i + |search|..], search)
  {
    hide Find, IsFirst;
    FindFits(s, search);
  }

  /** The pieces joined by the search string are the original, and no piece contains the search string. */
  lemma {:induction false} PiecesPartition(s: string, search: string)
    requires search != ""
    ensures Join(Pieces(s, search), search) == s
    ensures forall n :: 0 <= n < |Pieces(s, search)| ==> Find(Pieces(s, search)[n], search, 0) == NPOS
    decreases |s|
  {
    hide Find, Pieces, IsFirst;
    var i := Find(s, search, 0);
    PiecesStep(s, search);
    if i != NPOS {
      PieceHasNoMatch(s, search);
      var rest := s[i + |search|..];
      PiecesPartition(rest, search);
      assert Pieces(s, search)[1..] == Pieces(rest, search);
      SplitAtMatch(s, search);
    }
  }

  lemma SplitAtMatch(s: string, search: string)
    requires Find(s, search, 0) != NPOS
    ensures var i := Find(s, search, 0); i + |search| <= |s| && s == s[..i] + search + s[i + |search|..]
  {
  }

  function Substituted(s: string, search: string, replace: string): string
    requires search != ""
  {
    Join(Pieces(s, search), replace)
  }

  lemma SubstitutedStep(s: string, search: string, replace: string)
    requires search != ""
    ensures var i := Find(s, search, 0);
      Substituted(s, search, replace) ==
        if i == NPOS then s else s[..i] + replace + Substituted(s[i + |search|..], search, replace)
  {
    hide Find, Pieces, IsFirst;
    var i := Find(s, search, 0);
    PiecesStep(s, search);
    if i != NPOS {
      assert Pieces(s, search)[1..] == Pieces(s[i + |search|..], search);
    }
  }

  /** The loop computes the reference definition, for every search string but the empty one. */
  method SubstituteOption(value: string, search: string, replace: string) returns (result: string)
    requires search != ""
    ensures result == Substituted(value, search, replace)
  {
    hide Find, Pieces, Substituted, IsFirst;
    result := value;
    var pos: int := 0;
    ghost var tail := value;
    while true
      invariant 0 <= pos <= |result| && tail == result[pos..]
      invariant Substituted(value, search, replace) == result[..pos] + Substituted(tail, search, replace)
      decreases |tail|
    {
      ghost var done := result[..pos];
      assert result == done + tail;
      FindInSuffix(done, tail, search);
      FindFits(tail, search);
      SubstitutedStep(tail, search, replace);
      pos := Find(result, search, pos);
      if pos == NPOS {
        break;
      }
      ghost var i := pos - |done|;
      ghost var rest := tail[i + |search|..];
      assert result[..pos] == done + tail[..i] && result[pos + |search|..] == rest;
      result := result[..pos] + replace + result[pos + |search|..];
      pos := pos + |replace|;
      assert result[..pos] == done + tail[..i] + replace && result[pos..] == rest;
      tail := rest;
    }
  }

  /** The length changes by the same amount for every match. */
  lemma {:induction false} SubstitutedLength(s: string, search: string, replace: string)
    requires search != ""
    ensures |Substituted(s, search, replace)| == |s| + (|Pieces(s, search)| - 1) * (|replace| - |search|)
    decreases |s|
  {
    hide Find, Pieces, Substituted, IsFirst;
    SubstitutedStep(s, search, replace);
    var i := Find(s, search, 0);
    PiecesStep(s, search);
    if i != NPOS {
      var rest := s[i + |search|..];
      SubstitutedLength(rest, search, replace);
      var n, d := |Pieces(rest, search)| - 1, |replace| - |search|;
      assert (n + 1) * d == n * d + d;
    }
  }

  /** A single character that the replacement does not contain is gone afterwards. */
  lemma {:induction false} SingleCharacterGone(s: string, c: char, replace: string)
    requires c !in replace
    ensures c !in Substituted(s, [c], replace)
    decreases |s|
  {
    SubstitutedStep(s, [c], replace);
    var i := Find(s, [c], 0);
    var end := if i == NPOS then |s| else i;
    forall j | 0 <= j < end ensures s[j] != c {
      assert s[j..j + 1] == [s[j]];
      assert !OccursAt(s, [c], j);
    }
    if i != NPOS {
      SingleCharacterGone(s[i + 1..], c, replace);
    }
  }

  /** With an empty search string the loop never ends: find succeeds at once, and again after each step. */
  lemma EmptySearchNeverStops(value: string, replace: string, pos: nat)
    requires pos <= |value|
    ensures Find(value, "", pos) == pos
    ensures var value' := value[..pos] + replace + value[pos..];
      pos + |replace| <= |value'| && Find(value', "", pos + |replace|) != NPOS
  {
    var value' := value[..pos] + replace + value[pos..];
    assert value[pos..pos + 0] == "" && value'[pos + |replace|..pos + |replace| + 0] == "";
  }
}
