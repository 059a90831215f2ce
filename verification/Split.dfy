/** Splitting strings and byte spans at a delimiter, and joining the pieces again. */
module Split {
  import opened Wrappers

  ghost predicate OccursAt<T>(s: seq<T>, d: seq<T>, i: nat) {
    i + |d| <= |s| && s[i..i + |d|] == d
  }

  /** `find`: the first occurrence from `from` on. */
  function Find<T(==)>(s: seq<T>, d: seq<T>, from: nat := 0): (pos: Option<nat>)
    requires from <= |s|
    ensures pos.Some? ==> from <= pos.value && OccursAt(s, d, pos.value)
    ensures forall i :: from <= i <= |s| && (pos.Some? ==> i < pos.value) ==> !OccursAt(s, d, i)
    decreases |s| - from
  {
    if from + |d| <= |s| && s[from..from + |d|] == d then Some(from)
    else if from == |s| then None
    else Find(s, d, from + 1)
  }

  /** `find_first_of`. */
  function FindFirstOf<T(==)>(s: seq<T>, delims: seq<T>, from: nat := 0): (pos: Option<nat>)
    requires from <= |s|
    ensures pos.Some? ==> from <= pos.value < |s| && s[pos.value] in delims
    ensures forall i :: from <= i < (if pos.Some? then pos.value else |s|) ==> s[i] !in delims
    decreases |s| - from
  {
    if from == |s| then None
    else if s[from] in delims then Some(from)
    else FindFirstOf(s, delims, from + 1)
  }

  /** The pieces `split` yields. */
  ghost function Pieces<T>(s: seq<T>, d: seq<T>): seq<seq<T>>
    requires d != []
  {
    if s == [] then [] else
    match Find(s, d)
    case None => [s]
    case Some(p) => [s[..p]] + Pieces(s[p + |d|..], d)
  }

  lemma PiecesOfNothing<T>(d: seq<T>)
    requires d != []
    ensures Pieces([], d) == []
  {
  }

  lemma PiecesUnfold<T>(s: seq<T>, d: seq<T>)
    requires s != [] && d != []
    ensures Find(s, d) == None ==> Pieces(s, d) == [s]
    ensures Find(s, d).Some? ==> Pieces(s, d) == [s[..Find(s, d).value]] + Pieces(s[Find(s, d).value + |d|..], d)
  {
    hide Find;
  }

  /** The pieces `splitAny` yields if it keeps empty ones. */
  ghost function PiecesAny<T>(s: seq<T>, delims: seq<T>): seq<seq<T>> {
    if s == [] then [] else
    match FindFirstOf(s, delims)
    case None => [s]
    case Some(p) => [s[..p]] + PiecesAny(s[p + 1..], delims)
  }

  ghost function NonEmpty<T>(pieces: seq<seq<T>>): seq<seq<T>> {
    if pieces == [] then [] else (if pieces[0] == [] then [] else [pieces[0]]) + NonEmpty(pieces[1..])
  }

  // ---------------------------------------------------------------------------------- iterators

  class Split<T(==)> {
    var input: seq<T>
    const delim: seq<T>

    constructor (s: seq<T>, d: seq<T>)
      ensures input == s && delim == d
    {
      input := s;
      delim := d;
    }

    method Next() returns (item: Option<seq<T>>)
      modifies this
      ensures old(input) == [] ==> item == None && input == []
      ensures old(input) != [] && delim != [] ==>
                item.Some? && Pieces(old(input), delim) == [item.value] + Pieces(input, delim) && |input| < |old(input)|
      ensures old(input) != [] && delim == [] ==> item == Some([]) && input == old(input)
    {
      if input == [] {
        return None;
      }
      hide Pieces;
      var pos := Find(input, delim);
      if delim != [] {
        PiecesUnfold(input, delim);
        PiecesOfNothing(delim);
      }
      if pos == None {
        item, input := Some(input), [];
        return;
      }
      item := Some(input[..pos.value]);
      input := input[pos.value + |delim|..];
    }

    /** Draining ends if the delimiter is not empty. */
    method Collect() returns (cont: seq<seq<T>>)
      requires delim != []
      modifies this
      ensures cont == Pieces(old(input), delim) && input == []
    {
      cont := [];
      while input != []
        invariant Pieces(old(input), delim) == cont + Pieces(input, delim)
        decreases |input|
      {
        var item := Next();
        cont := cont + [item.value];
      }
    }
  }

  /** The byte-span version of `_nextSplit`, which looks for its one-byte delimiter itself. */
  method NextSplitBytes(inp: seq<bv8>, delim: bv8) returns (out: seq<bv8>, rest: seq<bv8>)
    requires inp != []
    ensures Pieces(inp, [delim]) == [out] + Pieces(rest, [delim]) && |rest| < |inp|
  {
    var pos := 0;
    while pos < |inp| && inp[pos] != delim
      invariant pos <= |inp| && forall i :: 0 <= i < pos ==> inp[i] != delim
    {
      pos := pos + 1;
    }
    FindSingle(inp, delim, pos);
    PiecesUnfold(inp, [delim]);
    PiecesOfNothing([delim]);
    assert inp[..|inp|] == inp;
    out := inp[..pos];
    rest := if pos < |inp| then inp[pos + 1..] else [];
  }

  lemma OccursSingle<T>(s: seq<T>, c: T, i: nat)
    ensures OccursAt(s, [c], i) <==> i < |s| && s[i] == c
  {
    assert i < |s| ==> s[i..i + 1] == [s[i]] && s[i..i + 1][0] == s[i];
  }

  lemma FindSingle<T>(s: seq<T>, c: T, pos: nat)
    requires pos <= |s| && (forall i :: 0 <= i < pos ==> s[i] != c) && (pos < |s| ==> s[pos] == c)
    ensures Find(s, [c]) == if pos < |s| then Some(pos) else None
  {
    hide Find;
    hide OccursAt;
    var found := Find(s, [c]);
    OccursSingle(s, c, pos);
    if found.Some? {
      OccursSingle(s, c, found.value);
    }
  }

  class SplitAny<T(==)> {
    var input: seq<T>
    const delims: seq<T>
    const skipEmpty: bool

    constructor (s: seq<T>, d: seq<T>, skip: bool)
      ensures input == s && delims == d && skipEmpty == skip
    {
      input := s;
      delims := d;
      skipEmpty := skip;
    }

    /** What is still to come. */
    ghost function Ahead(): seq<seq<T>>
      reads this
    {
      if skipEmpty then NonEmpty(PiecesAny(input, delims)) else PiecesAny(input, delims)
    }

    method Next() returns (item: Option<seq<T>>)
      modifies this
      ensures item == None ==> old(Ahead()) == [] && input == []
      ensures item.Some? ==> old(Ahead()) == [item.value] + Ahead() && |input| < |old(input)|
    {
      while input != []
        invariant Ahead() == old(Ahead()) && |input| <= |old(input)|
        decreases |input|
      {
        var ret := NextSplitAny();
        if !skipEmpty || ret != [] {
          return Some(ret);
        }
      }
      return None;
    }

    method NextSplitAny() returns (out: seq<T>)
      requires input != []
      modifies this
      ensures PiecesAny(old(input), delims) == [out] + PiecesAny(input, delims) && |input| < |old(input)|
    {
      var pos := FindFirstOf(input, delims);
      if pos == None {
        out, input := input, [];
        return;
      }
      out := input[..pos.value];
      input := input[pos.value + 1..];
    }

    method Collect() returns (cont: seq<seq<T>>)
      modifies this
      ensures cont == old(Ahead()) && input == []
    {
      hide NonEmpty;
      hide PiecesAny;
      cont := [];
      ghost var all := Ahead();
      while true
        invariant all == cont + Ahead()
        decreases |input|
      {
        var item := Next();
        if item == None {
          return;
        }
        OneMore(cont, item.value, Ahead());
        cont := cont + [item.value];
      }
    }
  }

  lemma OneMore<T>(s: seq<T>, x: T, rest: seq<T>)
    ensures s + ([x] + rest) == (s + [x]) + rest
  {
  }

  // --------------------------------------------------------------------------- splitting, joining

  ghost function Join<T>(pieces: seq<seq<T>>, d: seq<T>): seq<T> {
    if pieces == [] then []
    else if |pieces| == 1 then pieces[0]
    else pieces[0] + d + Join(pieces[1..], d)
  }

  lemma {:induction false} JoinAppend<T>(pieces: seq<seq<T>>, last: seq<T>, d: seq<T>)
    requires pieces != []
    ensures Join(pieces + [last], d) == Join(pieces, d) + d + last
  {
    if |pieces| == 1 {
      assert (pieces + [last])[1..] == [last];
    } else {
      JoinAppend(pieces[1..], last, d);
      assert (pieces + [last])[1..] == pieces[1..] + [last];
    }
  }

  /** One more item: a separator before it, unless it is the first. */
  lemma JoinNext<T>(pieces: seq<seq<T>>, last: seq<T>, d: seq<T>)
    ensures Join(pieces + [last], d) == (if pieces == [] then [] else Join(pieces, d) + d) + last
  {
    if pieces != [] {
      JoinAppend(pieces, last, d);
    } else {
      assert pieces + [last] == [last];
    }
  }

  ghost predicate Free<T>(s: seq<T>, d: seq<T>) { forall i: nat :: !OccursAt(s, d, i) }

  /** The first occurrence of the delimiter in `piece + d` is the one at the end of the piece. */
  ghost predicate EndsFirst<T>(piece: seq<T>, d: seq<T>) {
    forall i: nat :: i < |piece| ==> !OccursAt(piece + d, d, i)
  }

  lemma OccursInPrefix<T>(s: seq<T>, t: seq<T>, d: seq<T>, i: nat)
    requires i + |d| <= |s|
    ensures OccursAt(s + t, d, i) <==> OccursAt(s, d, i)
  {
    assert (s + t)[i..i + |d|] == s[i..i + |d|];
  }

  /** A delimiter found at `p` is the first one. */
  lemma FindFirst<T>(s: seq<T>, d: seq<T>, p: nat)
    requires OccursAt(s, d, p) && forall i: nat :: i < p ==> !OccursAt(s, d, i)
    ensures Find(s, d) == Some(p)
  {
  }

  /** There is no occurrence before the first one. */
  lemma FreeBefore<T>(s: seq<T>, d: seq<T>, p: nat)
    requires p <= |s| && d != [] && forall i: nat :: i < p ==> !OccursAt(s, d, i)
    ensures Free(s[..p], d)
  {
    forall i: nat
      ensures !OccursAt(s[..p], d, i)
    {
      if i + |d| <= p {
        assert s == s[..p] + s[p..];
        OccursInPrefix(s[..p], s[p..], d, i);
      }
    }
  }

  /** No piece contains the delimiter. */
  lemma {:induction false} PiecesAreFree<T>(s: seq<T>, d: seq<T>)
    requires d != []
    ensures forall piece :: piece in Pieces(s, d) ==> Free(piece, d)
    decreases |s|
  {
    hide Find;
    hide Pieces;
    if s == [] {
      PiecesOfNothing(d);
    } else {
      PiecesUnfold(s, d);
      var pos := Find(s, d);
      hide OccursAt;
      if pos.Some? {
        FreeBefore(s, d, pos.value);
        PiecesAreFree(Rest(s, d, pos.value), d);
      }
    }
  }

  ghost function Rest<T>(s: seq<T>, d: seq<T>, p: nat): (r: seq<T>)
    requires d != [] && OccursAt(s, d, p)
    ensures r == s[p + |d|..] && |r| < |s|
  {
    s[p + |d|..]
  }

  /** Joining the pieces gives back the input, or the input without one delimiter at its end. */
  lemma {:induction false} JoinOfPieces<T>(s: seq<T>, d: seq<T>)
    requires d != []
    ensures s == Join(Pieces(s, d), d) || s == Join(Pieces(s, d), d) + d
    decreases |s|
  {
    if s != [] && Find(s, d).Some? {
      var p := Find(s, d).value;
      var rest := s[p + |d|..];
      JoinOfPieces(rest, d);
      PiecesUnfold(s, d);
      hide Pieces;
      hide Find;
      FoundSplit(s, d, p);
      JoinFront(s[..p], Pieces(rest, d), d);
      PiecesEmpty(rest, d);
      hide Join;
      Reassociate(s[..p], d, rest, Join(Pieces(rest, d), d));
    }
  }

  lemma Reassociate<T>(first: seq<T>, d: seq<T>, rest: seq<T>, joined: seq<T>)
    ensures rest == joined + d ==> first + d + rest == (first + d + joined) + d
    ensures rest == [] ==> first + d + rest == first + d
  {
  }

  lemma FoundSplit<T>(s: seq<T>, d: seq<T>, p: nat)
    requires OccursAt(s, d, p)
    ensures s == s[..p] + d + s[p + |d|..]
  {
    assert s == s[..p] + s[p..p + |d|] + s[p + |d|..];
  }

  lemma JoinFront<T>(first: seq<T>, pieces: seq<seq<T>>, d: seq<T>)
    ensures Join([first] + pieces, d) == if pieces == [] then first else first + d + Join(pieces, d)
  {
    assert ([first] + pieces)[1..] == pieces;
  }

  lemma PiecesEmpty<T>(s: seq<T>, d: seq<T>)
    requires d != []
    ensures Pieces(s, d) == [] <==> s == []
  {
  }

  /** The lists of pieces that a delimiter separates unambiguously. */
  ghost predicate Separable<T>(pieces: seq<seq<T>>, d: seq<T>) {
    pieces != [] ==>
      var n := |pieces| - 1;
      pieces[n] != [] && Free(pieces[n], d) && forall i :: 0 <= i < n ==> EndsFirst(pieces[i], d)
  }

  lemma FirstInJoin<T>(piece: seq<T>, rest: seq<T>, d: seq<T>)
    requires d != []
    ensures EndsFirst(piece, d) <==> Find(piece + d + rest, d) == Some(|piece|)
  {
    var s := piece + d + rest;
    assert OccursAt(s, d, |piece|) by {
      assert s[|piece|..|piece| + |d|] == d;
    }
    forall i: nat | i < |piece|
      ensures OccursAt(s, d, i) <==> OccursAt(piece + d, d, i)
    {
      OccursInPrefix(piece + d, rest, d, i);
    }
    if EndsFirst(piece, d) {
      FindFirst(s, d, |piece|);
    }
  }

  lemma SeparableTail<T>(pieces: seq<seq<T>>, d: seq<T>)
    requires |pieces| >= 2
    ensures Separable(pieces, d) <==> EndsFirst(pieces[0], d) && Separable(pieces[1..], d)
  {
    var tail := pieces[1..];
    assert forall i :: 0 <= i < |tail| ==> tail[i] == pieces[i + 1];
    if EndsFirst(pieces[0], d) && Separable(tail, d) {
      forall i | 0 <= i < |pieces| - 1
        ensures EndsFirst(pieces[i], d)
      {
        assert i > 0 ==> EndsFirst(tail[i - 1], d);
      }
    }
  }

  /** Splitting a join gives back the pieces exactly when they are separable. */
  lemma {:induction false} PiecesOfJoin<T>(pieces: seq<seq<T>>, d: seq<T>)
    requires d != []
    ensures Pieces(Join(pieces, d), d) == pieces <==> Separable(pieces, d)
    decreases |pieces|
  {
    if |pieces| == 1 {
      var s := pieces[0];
      assert Join(pieces, d) == s;
      if s != [] && Find(s, d).Some? {
        assert |Pieces(s, d)[0]| < |s|;
      }
    } else if |pieces| >= 2 {
      var tail := pieces[1..];
      var s := Join(pieces, d);
      assert s == pieces[0] + d + Join(tail, d);
      FirstInJoin(pieces[0], Join(tail, d), d);
      PiecesOfJoin(tail, d);
      SeparableTail(pieces, d);
      if Find(s, d) == Some(|pieces[0]|) {
        assert s[..|pieces[0]|] == pieces[0] && s[|pieces[0]| + |d|..] == Join(tail, d);
        assert Pieces(s, d) == [pieces[0]] + Pieces(Join(tail, d), d);
        assert pieces == [pieces[0]] + tail;
      } else if Find(s, d).Some? {
        assert |Pieces(s, d)[0]| == Find(s, d).value;
      }
    }
  }

  // ------------------------------------------------------------------------ any of several delimiters

  lemma PiecesAnyUnfold<T>(s: seq<T>, delims: seq<T>)
    requires s != []
    ensures FindFirstOf(s, delims) == None ==> PiecesAny(s, delims) == [s]
    ensures forall p :: FindFirstOf(s, delims) == Some(p) ==>
              PiecesAny(s, delims) == [s[..p]] + PiecesAny(s[p + 1..], delims)
  {
  }

  /** With a single delimiter `splitAny` is `split`. */
  lemma {:induction false} SingleDelimiter<T>(s: seq<T>, c: T)
    ensures PiecesAny(s, [c]) == Pieces(s, [c])
    decreases |s|
  {
    if s != [] {
      var pos := FindFirstOf(s, [c]);
      FindSingle(s, c, if pos.Some? then pos.value else |s|);
      PiecesUnfold(s, [c]);
      PiecesAnyUnfold(s, [c]);
      PiecesOfNothing([c]);
      hide *;
      if pos.Some? {
        SingleDelimiter(s[pos.value + 1..], c);
      }
    }
  }

  /** Every delimiter replaced by `c`. */
  ghost function Unified<T>(s: seq<T>, delims: seq<T>, c: T): (r: seq<T>)
    ensures |r| == |s|
  {
    seq(|s|, i requires 0 <= i < |s| => if s[i] in delims then c else s[i])
  }

  lemma UnifiedFinds<T>(s: seq<T>, delims: seq<T>, c: T)
    requires c in delims
    ensures FindFirstOf(Unified(s, delims, c), [c]) == FindFirstOf(s, delims)
  {
    var u := Unified(s, delims, c);
    var a, b := FindFirstOf(u, [c]), FindFirstOf(s, delims);
    assert forall i :: 0 <= i < |s| ==> (u[i] == c <==> s[i] in delims);
  }

  lemma UnifiedParts<T>(s: seq<T>, delims: seq<T>, c: T, p: nat)
    requires p <= |s| && forall i :: 0 <= i < p ==> s[i] !in delims
    ensures Unified(s, delims, c)[..p] == s[..p]
    ensures p < |s| ==> Unified(s, delims, c)[p + 1..] == Unified(s[p + 1..], delims, c)
  {
  }

  /** `splitAny` is `split` at one of the delimiters after all of them were replaced by it: so empty pieces
      between adjacent delimiters are kept, whichever delimiters they are. */
  lemma {:induction false} AnyIsSplitUnified<T>(s: seq<T>, delims: seq<T>, c: T)
    requires c in delims
    ensures PiecesAny(s, delims) == Pieces(Unified(s, delims, c), [c])
    decreases |s|
  {
    var u := Unified(s, delims, c);
    SingleDelimiter(u, c);
    UnifiedAny(s, delims, c);
  }

  /** One step of `splitAny` on both strings. */
  lemma UnifiedStep<T>(s: seq<T>, delims: seq<T>, c: T)
    requires c in delims && s != []
    ensures var u, pos := Unified(s, delims, c), FindFirstOf(s, delims);
            if pos == None then PiecesAny(s, delims) == [s] == PiecesAny(u, [c])
            else var rest := s[pos.value + 1..];
                 && PiecesAny(s, delims) == [s[..pos.value]] + PiecesAny(rest, delims)
                 && PiecesAny(u, [c]) == [s[..pos.value]] + PiecesAny(Unified(rest, delims, c), [c])
  {
    var u, pos := Unified(s, delims, c), FindFirstOf(s, delims);
    UnifiedFinds(s, delims, c);
    PiecesAnyUnfold(s, delims);
    PiecesAnyUnfold(u, [c]);
    UnifiedParts(s, delims, c, if pos.Some? then pos.value else |s|);
    hide PiecesAny;
    hide FindFirstOf;
    hide Unified;
    assert pos == None ==> u[..|u|] == u && s[..|s|] == s;
  }

  lemma {:induction false} UnifiedAny<T>(s: seq<T>, delims: seq<T>, c: T)
    requires c in delims
    ensures PiecesAny(s, delims) == PiecesAny(Unified(s, delims, c), [c])
    decreases |s|
  {
    if s == [] {
      assert Unified(s, delims, c) == [] && PiecesAny([], delims) == [] && PiecesAny([], [c]) == [];
    } else {
      hide *;
      UnifiedStep(s, delims, c);
      var pos := FindFirstOf(s, delims);
      if pos.Some? {
        UnifiedAny(s[pos.value + 1..], delims, c);
      }
    }
  }

  datatype Run = Run(start: nat, end: nat)

  /** `s[r.start..r.end]` is a maximal run without delimiters. */
  ghost predicate IsRun<T>(s: seq<T>, delims: seq<T>, r: Run) {
    && r.start < r.end <= |s|
    && (forall k :: r.start <= k < r.end ==> s[k] !in delims)
    && (r.start == 0 || s[r.start - 1] in delims)
    && (r.end == |s| || s[r.end] in delims)
  }

  ghost function Runs<T>(s: seq<T>, delims: seq<T>, from: nat): seq<Run>
    requires from <= |s|
    decreases |s| - from
  {
    if from == |s| then [] else
    match FindFirstOf(s, delims, from)
    case None => [Run(from, |s|)]
    case Some(p) => (if p > from then [Run(from, p)] else []) + Runs(s, delims, p + 1)
  }

  ghost function Slice<T>(s: seq<T>, r: Run): seq<T> {
    if r.start <= r.end <= |s| then s[r.start..r.end] else []
  }

  ghost function Slices<T>(s: seq<T>, runs: seq<Run>): seq<seq<T>> {
    seq(|runs|, k requires 0 <= k < |runs| => Slice(s, runs[k]))
  }

  /** A run starting at or before the first delimiter after a delimiter ends there. */
  lemma RunEndsAt<T>(s: seq<T>, delims: seq<T>, from: nat, r: Run)
    requires from < |s| && IsRun(s, delims, r) && from <= r.start
    ensures var pos := FindFirstOf(s, delims, from);
            if pos.Some? && pos.value < r.start then true
            else r == Run(from, if pos.Some? then pos.value else |s|)
  {
  }

  lemma RunsUnfold<T>(s: seq<T>, delims: seq<T>, from: nat)
    requires from < |s|
    ensures var pos := FindFirstOf(s, delims, from);
            if pos == None then Runs(s, delims, from) == [Run(from, |s|)]
            else if pos.value == from then Runs(s, delims, from) == Runs(s, delims, from + 1)
            else Runs(s, delims, from) == [Run(from, pos.value)] + Runs(s, delims, pos.value + 1)
  {
  }

  lemma RunsAtEnd<T>(s: seq<T>, delims: seq<T>)
    ensures Runs(s, delims, |s|) == []
  {
  }

  lemma RunInside<T>(s: seq<T>, delims: seq<T>, r: Run)
    requires IsRun(s, delims, r)
    ensures r.start < |s|
  {
  }

  /** The run from `from` on, if there is one, and where a run from there on is. */
  lemma FirstRun<T>(s: seq<T>, delims: seq<T>, from: nat, r: Run)
    requires from < |s| && (from == 0 || s[from - 1] in delims)
    ensures var pos := FindFirstOf(s, delims, from);
            var end := if pos.Some? then pos.value else |s|;
            && (from < end ==> IsRun(s, delims, Run(from, end)))
            && (from <= r.start && IsRun(s, delims, r) ==>
                  (r == Run(from, end) && from < end) || (pos.Some? && pos.value < r.start))
            && (pos.Some? ==> s[pos.value] in delims)
  {
    if from <= r.start && IsRun(s, delims, r) {
      RunEndsAt(s, delims, from, r);
    }
    hide FindFirstOf;
  }

  lemma {:induction false} RunsAreRuns<T>(s: seq<T>, delims: seq<T>, from: nat, r: Run)
    requires from <= |s| && (from == 0 || s[from - 1] in delims)
    ensures r in Runs(s, delims, from) <==> from <= r.start && IsRun(s, delims, r)
    decreases |s| - from
  {
    hide *;
    if from < |s| {
      var pos := FindFirstOf(s, delims, from);
      RunsUnfold(s, delims, from);
      FirstRun(s, delims, from, r);
      if pos.Some? {
        RunsAreRuns(s, delims, pos.value + 1, r);
      }
    } else {
      RunsAtEnd(s, delims);
      if IsRun(s, delims, r) {
        RunInside(s, delims, r);
      }
    }
  }

  lemma {:induction false} RunsInOrder<T>(s: seq<T>, delims: seq<T>, from: nat, k: nat, l: nat)
    requires from <= |s| && k < l < |Runs(s, delims, from)|
    ensures Runs(s, delims, from)[k].end < Runs(s, delims, from)[l].start
    decreases |s| - from
  {
    hide *;
    RunsAtEnd(s, delims);
    var runs := Runs(s, delims, from);
    RunsUnfold(s, delims, from);
    var p := FindFirstOf(s, delims, from).value;
    var rest := Runs(s, delims, p + 1);
    if p == from {
      RunsInOrder(s, delims, p + 1, k, l);
    } else {
      assert runs[l] == rest[l - 1];
      if k == 0 {
        RunsAreRuns(s, delims, p + 1, rest[l - 1]);
      } else {
        RunsInOrder(s, delims, p + 1, k - 1, l - 1);
      }
    }
  }

  lemma FindFirstOfSuffix<T>(s: seq<T>, delims: seq<T>, from: nat)
    requires from <= |s|
    ensures FindFirstOf(s[from..], delims) ==
            match FindFirstOf(s, delims, from) case None => None case Some(p) => Some(p - from)
  {
    var a, b := FindFirstOf(s[from..], delims), FindFirstOf(s, delims, from);
    assert a.Some? ==> s[from..][a.value] == s[from + a.value];
    assert b.Some? ==> s[from..][b.value - from] == s[b.value];
  }

  lemma NonEmptyFront<T>(first: seq<T>, pieces: seq<seq<T>>)
    ensures NonEmpty([first] + pieces) == (if first == [] then [] else [first]) + NonEmpty(pieces)
  {
    assert ([first] + pieces)[1..] == pieces;
  }

  lemma PiecesAnySuffix<T>(s: seq<T>, delims: seq<T>, from: nat, p: nat)
    requires from < |s| && FindFirstOf(s, delims, from) == Some(p)
    ensures PiecesAny(s[from..], delims) == [s[from..p]] + PiecesAny(s[p + 1..], delims)
  {
    FindFirstOfSuffix(s, delims, from);
    PiecesAnyUnfold(s[from..], delims);
    hide FindFirstOf;
    hide PiecesAny;
    SuffixSlices(s, from, p);
  }

  lemma SuffixSlices<T>(s: seq<T>, from: nat, p: nat)
    requires from <= p < |s|
    ensures s[from..][..p - from] == s[from..p] && s[from..][p - from + 1..] == s[p + 1..]
  {
  }

  lemma SlicesFront<T>(s: seq<T>, r: Run, runs: seq<Run>)
    ensures Slices(s, [r] + runs) == [Slice(s, r)] + Slices(s, runs)
  {
  }

  /** What is left of the last run, without a delimiter after it. */
  lemma LastRun<T>(s: seq<T>, delims: seq<T>, from: nat)
    requires from < |s| && FindFirstOf(s, delims, from) == None
    ensures NonEmpty(PiecesAny(s[from..], delims)) == [s[from..]] == Slices(s, Runs(s, delims, from))
  {
    FindFirstOfSuffix(s, delims, from);
    RunsUnfold(s, delims, from);
    PiecesAnyUnfold(s[from..], delims);
    hide FindFirstOf;
    hide PiecesAny;
    hide Runs;
    NonEmptyFront(s[from..], []);
    assert s[from..|s|] == s[from..];
  }

  lemma {:induction false} RunsArePieces<T>(s: seq<T>, delims: seq<T>, from: nat)
    requires from <= |s|
    ensures NonEmpty(PiecesAny(s[from..], delims)) == Slices(s, Runs(s, delims, from))
    decreases |s| - from
  {
    if from < |s| {
      hide *;
      var pos := FindFirstOf(s, delims, from);
      if pos.Some? {
        var p := pos.value;
        RunsUnfold(s, delims, from);
        PiecesAnySuffix(s, delims, from, p);
        RunsArePieces(s, delims, p + 1);
        NonEmptyFront(s[from..p], PiecesAny(s[p + 1..], delims));
        SlicesFront(s, Run(from, p), Runs(s, delims, p + 1));
        assert Slice(s, Run(from, p)) == s[from..p] by {
          SliceIs(s, from, p);
        }
      } else {
        LastRun(s, delims, from);
      }
    }
  }

  lemma SliceIs<T>(s: seq<T>, i: nat, j: nat)
    requires i <= j <= |s|
    ensures Slice(s, Run(i, j)) == s[i..j]
  {
  }

  /** With `skipEmpty`, `splitAny` yields exactly the maximal runs without delimiters, in order. */
  lemma SkipEmptyYieldsRuns<T>(s: seq<T>, delims: seq<T>)
    ensures NonEmpty(PiecesAny(s, delims)) == Slices(s, Runs(s, delims, 0))
    ensures forall r :: r in Runs(s, delims, 0) <==> IsRun(s, delims, r)
    ensures var runs := Runs(s, delims, 0); forall k, l :: 0 <= k < l < |runs| ==> runs[k].end < runs[l].start
  {
    RunsArePieces(s, delims, 0);
    assert s[0..] == s;
    forall r
      ensures r in Runs(s, delims, 0) <==> IsRun(s, delims, r)
    {
      RunsAreRuns(s, delims, 0, r);
    }
    forall k, l | 0 <= k < l < |Runs(s, delims, 0)|
      ensures Runs(s, delims, 0)[k].end < Runs(s, delims, 0)[l].start
    {
      RunsInOrder(s, delims, 0, k, l);
    }
  }
}
