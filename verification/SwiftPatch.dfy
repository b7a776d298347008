/** The line transformation of the patch tool: hunks applied to a file, line by line. */
module SwiftPatch {
  import opened Text

  /** A hunk line by its marker; the content keeps its line ending. */
  datatype Line =
    | Context(content: string)
    | Removed(content: string)
    | Added(content: string)
      // "\ No newline at end of file", which is skipped
    | NoNewline
    | Invalid

  datatype Header = Header(oldStart: int, oldCount: nat, newCount: nat)

  /** A header that does not match the pattern is None. */
  datatype Hunk = Hunk(header: Option<Header>, lines: seq<Line>)

  function Min(a: int, b: int): int { if a < b then a else b }

  /** A Python slice: bounds past the end are cut off. */
  function Slice(s: seq<string>, lo: nat, hi: nat): seq<string>
    requires lo <= hi
  {
    s[Min(lo, |s|)..Min(hi, |s|)]
  }

  /** The lines of a hunk from a position: the position after them and what they emit. */
  function ApplyLines(original: seq<string>, position: nat, lines: seq<Line>): Option<(nat, seq<string>)>
    decreases |lines|
  {
    if lines == [] then Some((position, []))
    else
      match lines[0]
      case Invalid => None
      case NoNewline => ApplyLines(original, position, lines[1..])
      case Added(content) =>
        (match ApplyLines(original, position, lines[1..])
         case None => None
         case Some((end, output)) => Some((end, [content] + output)))
      case _ =>
        if position >= |original| || original[position] != lines[0].content then None
        else
          match ApplyLines(original, position + 1, lines[1..])
          case None => None
          case Some((end, output)) => Some((end, (if lines[0].Context? then [lines[0].content] else []) + output))
  }

  /** The hunks from a position to the end of the file; None is an error. */
  function ApplyHunks(original: seq<string>, position: nat, hunks: seq<Hunk>): Option<seq<string>>
    decreases |hunks|
  {
    if hunks == [] then Some(original[Min(position, |original|)..])
    else if hunks[0].header.None? || hunks[0].header.value.oldStart - 1 < position then None
    else
      var target := hunks[0].header.value.oldStart - 1;
      match ApplyLines(original, target, hunks[0].lines)
      case None => None
      case Some((end, output)) =>
        if end - target != hunks[0].header.value.oldCount || |output| != hunks[0].header.value.newCount || end < target then None
        else
          match ApplyHunks(original, end, hunks[1..])
          case None => None
          case Some(others) => Some(Slice(original, position, target) + output + others)
  }

  /** `apply_file`, as the source writes it, without reading and replacing the file. */
  method ApplyFile(original: seq<string>, hunks: seq<Hunk>) returns (result: Option<seq<string>>)
    ensures result == ApplyHunks(original, 0, hunks)
  {
    var output: seq<string> := [];
    var sourceIndex := 0;
    assert hunks[0..] == hunks;
    PrefixNothing(ApplyHunks(original, 0, hunks));
    for i := 0 to |hunks|
      invariant 0 <= sourceIndex
      invariant ApplyHunks(original, 0, hunks) == Prefixed(output, ApplyHunks(original, sourceIndex, hunks[i..]))
    {
      var hunk := hunks[i];
      assert hunks[i..][0] == hunk && hunks[i..][1..] == hunks[i + 1..];
      if hunk.header.None? {
        return None;
      }
      var targetIndex := hunk.header.value.oldStart - 1;
      if targetIndex < sourceIndex {
        return None;
      }
      var copied := Slice(original, sourceIndex, targetIndex);
      ghost var rest := ApplyHunks(original, sourceIndex, hunks[i..]);
      var end, emitted := ApplyHunkLines(original, targetIndex, hunk.lines);
      if end.None? || end.value - targetIndex != hunk.header.value.oldCount || |emitted| != hunk.header.value.newCount {
        return None;
      }
      assert rest == Prefixed(copied + emitted, ApplyHunks(original, end.value, hunks[i + 1..]));
      PrefixTwice(output, copied + emitted, ApplyHunks(original, end.value, hunks[i + 1..]));
      output := output + (copied + emitted);
      sourceIndex := end.value;
    }
    assert hunks[|hunks|..] == [];
    result := Some(output + original[Min(sourceIndex, |original|)..]);
  }

  function Prefixed(output: seq<string>, others: Option<seq<string>>): Option<seq<string>> {
    match others case None => None case Some(rest) => Some(output + rest)
  }

  lemma PrefixNothing(others: Option<seq<string>>)
    ensures Prefixed([], others) == others
  {
    if others.Some? {
      assert [] + others.value == others.value;
    }
  }

  lemma PrefixTwice(a: seq<string>, b: seq<string>, others: Option<seq<string>>)
    ensures Prefixed(a, Prefixed(b, others)) == Prefixed(a + b, others)
  {
    if others.Some? {
      assert a + (b + others.value) == a + b + others.value;
    }
  }

  /** The inner loop: consumes and emits line by line; no end means an error. */
  method ApplyHunkLines(original: seq<string>, start: nat, lines: seq<Line>) returns (end: Option<nat>, emitted: seq<string>)
    ensures match ApplyLines(original, start, lines)
            case None => end.None?
            case Some((stop, output)) => end == Some(stop) && emitted == output && stop >= start
  {
    emitted := [];
    var sourceIndex := start;
    assert lines[0..] == lines;
    EmitNothing(ApplyLines(original, start, lines));
    for i := 0 to |lines|
      invariant start <= sourceIndex
      invariant ApplyLines(original, start, lines) == Emitted(emitted, ApplyLines(original, sourceIndex, lines[i..]))
    {
      var line := lines[i];
      assert lines[i..][0] == line && lines[i..][1..] == lines[i + 1..];
      if line.NoNewline? {
        continue;
      }
      if line.Context? || line.Removed? {
        if sourceIndex >= |original| || original[sourceIndex] != line.content {
          return None, [];
        }
        sourceIndex := sourceIndex + 1;
      }
      if line.Context? || line.Added? {
        EmitTwice(emitted, [line.content], ApplyLines(original, sourceIndex, lines[i + 1..]));
        emitted := emitted + [line.content];
      } else {
        EmitTwice(emitted, [], ApplyLines(original, sourceIndex, lines[i + 1..]));
        EmitNothing(ApplyLines(original, sourceIndex, lines[i + 1..]));
      }
      if line.Invalid? {
        return None, [];
      }
    }
    assert lines[|lines|..] == [];
    end := Some(sourceIndex);
  }

  function Emitted(emitted: seq<string>, others: Option<(nat, seq<string>)>): Option<(nat, seq<string>)> {
    match others case None => None case Some((end, rest)) => Some((end, emitted + rest))
  }

  lemma EmitNothing(others: Option<(nat, seq<string>)>)
    ensures Emitted([], others) == others
  {
    if others.Some? {
      assert [] + others.value.1 == others.value.1;
    }
  }

  lemma EmitTwice(a: seq<string>, b: seq<string>, others: Option<(nat, seq<string>)>)
    ensures Emitted(a, Emitted(b, others)) == Emitted(a + b, others)
  {
    if others.Some? {
      assert a + (b + others.value.1) == a + b + others.value.1;
    }
  }

  // ---- What an accepted patch means ----

  /** The lines a hunk expects, and the lines it leaves. */
  function OldSide(lines: seq<Line>): seq<string> {
    if lines == [] then []
    else (if lines[0].Context? || lines[0].Removed? then [lines[0].content] else []) + OldSide(lines[1..])
  }

  function NewSide(lines: seq<Line>): seq<string> {
    if lines == [] then []
    else (if lines[0].Context? || lines[0].Added? then [lines[0].content] else []) + NewSide(lines[1..])
  }

  /** The lines at a position are those expected; expecting nothing succeeds anywhere. */
  predicate Found(original: seq<string>, position: nat, expected: seq<string>) {
    expected == [] || (position + |expected| <= |original| && original[position..position + |expected|] == expected)
  }

  lemma {:induction false} LinesExactly(original: seq<string>, position: nat, lines: seq<Line>)
    ensures ApplyLines(original, position, lines) ==
            if Invalid !in lines && Found(original, position, OldSide(lines))
            then Some((position + |OldSide(lines)|, NewSide(lines)))
            else None
    decreases |lines|
  {
    if lines != [] {
      var line, others := lines[0], lines[1..];
      assert lines == [line] + others;
      assert [] + OldSide(others) == OldSide(others) && [] + NewSide(others) == NewSide(others);
      hide Found;
      if line.Context? || line.Removed? {
        LinesExactly(original, position + 1, others);
        FoundOneMore(original, position, line.content, OldSide(others));
        assert OldSide(lines) == [line.content] + OldSide(others);
      } else {
        LinesExactly(original, position, others);
        assert OldSide(lines) == OldSide(others);
      }
    }
  }

  lemma FoundOneMore(original: seq<string>, position: nat, line: string, expected: seq<string>)
    ensures Found(original, position, [line] + expected) <==>
            position < |original| && original[position] == line && Found(original, position + 1, expected)
  {
    var more := [line] + expected;
    if position + |more| <= |original| {
      var found := original[position..position + |more|];
      assert found == [original[position]] + original[position + 1..position + |more|];
      assert found == more ==> found[0] == line && found[1..] == expected;
    }
  }

  function Sides(hunks: seq<Hunk>, was: bool): (sides: seq<seq<string>>)
    ensures |sides| == |hunks|
  {
    if hunks == [] then []
    else [if was then OldSide(hunks[0].lines) else NewSide(hunks[0].lines)] + Sides(hunks[1..], was)
  }

  /** Chunks of untouched lines with the sides of the hunks between them. */
  function Weave(chunks: seq<seq<string>>, sides: seq<seq<string>>): seq<string>
    requires |chunks| == |sides| + 1
  {
    if sides == [] then chunks[0] else chunks[0] + sides[0] + Weave(chunks[1..], sides[1..])
  }

  /** The hunk has no invalid line, and its header counts its lines. */
  predicate HunkWellFormed(h: Hunk) {
    && h.header.Some? && Invalid !in h.lines
    && |OldSide(h.lines)| == h.header.value.oldCount && |NewSide(h.lines)| == h.header.value.newCount
  }

  predicate WellFormed(hunks: seq<Hunk>) {
    hunks == [] || (HunkWellFormed(hunks[0]) && WellFormed(hunks[1..]))
  }

  /** Each hunk starts right after the chunk before it. */
  predicate StartsAfterChunks(hunks: seq<Hunk>, chunks: seq<seq<string>>, position: nat)
    requires |chunks| == |hunks| + 1
  {
    hunks == [] ||
    (hunks[0].header.Some? && hunks[0].header.value.oldStart - 1 == position + |chunks[0]| &&
     StartsAfterChunks(hunks[1..], chunks[1..], position + |chunks[0]| + |OldSide(hunks[0].lines)|))
  }

  lemma FirstSide(hunks: seq<Hunk>)
    requires hunks != []
    ensures Sides(hunks, true) == [OldSide(hunks[0].lines)] + Sides(hunks[1..], true)
    ensures Sides(hunks, false) == [NewSide(hunks[0].lines)] + Sides(hunks[1..], false)
  {
  }

  lemma FirstWoven(chunks: seq<seq<string>>, side: seq<string>, sides: seq<seq<string>>)
    requires |chunks| == |sides| + 2
    ensures Weave(chunks, [side] + sides) == chunks[0] + side + Weave(chunks[1..], sides)
  {
    assert ([side] + sides)[1..] == sides;
  }

  lemma WovenHunk(chunks: seq<seq<string>>, hunks: seq<Hunk>)
    requires hunks != [] && |chunks| == |hunks| + 1
    ensures Weave(chunks, Sides(hunks, true)) == chunks[0] + OldSide(hunks[0].lines) + Weave(chunks[1..], Sides(hunks[1..], true))
    ensures Weave(chunks, Sides(hunks, false)) == chunks[0] + NewSide(hunks[0].lines) + Weave(chunks[1..], Sides(hunks[1..], false))
  {
    hide Weave, Sides, OldSide, NewSide;
    FirstSide(hunks);
    FirstWoven(chunks, OldSide(hunks[0].lines), Sides(hunks[1..], true));
    FirstWoven(chunks, NewSide(hunks[0].lines), Sides(hunks[1..], false));
  }

  lemma LastWoven(chunks: seq<seq<string>>)
    requires |chunks| == 1
    ensures Weave(chunks, []) == chunks[0]
  {
  }

  /** Well-formed hunks that start right after their chunks turn the chunks woven with the old sides into the
      chunks woven with the new sides. */
  lemma {:induction false} WovenIsAccepted(before: seq<string>, chunks: seq<seq<string>>, hunks: seq<Hunk>)
    requires |chunks| == |hunks| + 1 && WellFormed(hunks) && StartsAfterChunks(hunks, chunks, |before|)
    ensures ApplyHunks(before + Weave(chunks, Sides(hunks, true)), |before|, hunks) == Some(Weave(chunks, Sides(hunks, false)))
    decreases |hunks|
  {
    hide ApplyHunks, OldSide, NewSide, Weave, Sides, Found, Slice;
    if hunks == [] {
      NothingIsWoven(before + chunks[0], |before|);
      LastWoven(chunks);
      assert (before + chunks[0])[|before|..] == chunks[0];
      assert Sides(hunks, true) == [] && Sides(hunks, false) == [];
    } else {
      var was, tail := OldSide(hunks[0].lines), Weave(chunks[1..], Sides(hunks[1..], true));
      WovenHunk(chunks, hunks);
      WovenIsAccepted(before + chunks[0] + was, chunks[1..], hunks[1..]);
      PartsOf(before, chunks[0], was, tail);
      OneHunk(before + chunks[0] + was + tail, |before|, hunks, chunks[0], Weave(chunks[1..], Sides(hunks[1..], false)));
    }
  }

  /** The first hunk of a patch, given the rest. */
  lemma OneHunk(original: seq<string>, position: nat, hunks: seq<Hunk>, chunk: seq<string>, rest: seq<string>)
    requires hunks != [] && hunks[0].header.Some? && Invalid !in hunks[0].lines
    requires hunks[0].header.value.oldStart - 1 == position + |chunk|
    requires hunks[0].header.value.oldCount == |OldSide(hunks[0].lines)|
    requires hunks[0].header.value.newCount == |NewSide(hunks[0].lines)|
    requires Slice(original, position, position + |chunk|) == chunk
    requires Found(original, position + |chunk|, OldSide(hunks[0].lines))
    requires ApplyHunks(original, position + |chunk| + |OldSide(hunks[0].lines)|, hunks[1..]) == Some(rest)
    ensures ApplyHunks(original, position, hunks) == Some(chunk + NewSide(hunks[0].lines) + rest)
  {
    hide Found, Slice, OldSide, NewSide, ApplyLines;
    LinesExactly(original, position + |chunk|, hunks[0].lines);
  }

  lemma PartsOf(before: seq<string>, chunk: seq<string>, was: seq<string>, tail: seq<string>)
    ensures var original := before + chunk + was + tail;
            var target := |before| + |chunk|;
            && original == before + (chunk + was + tail)
            && Slice(original, |before|, target) == chunk
            && Found(original, target, was)
            && |before + chunk + was| == target + |was|
  {
  }

  /** The chunks an accepted patch leaves alone. */
  function ChunksOf(original: seq<string>, position: nat, hunks: seq<Hunk>): (chunks: seq<seq<string>>)
    requires ApplyHunks(original, position, hunks).Some?
    ensures |chunks| == |hunks| + 1
    decreases |hunks|
  {
    if hunks == [] then [original[Min(position, |original|)..]]
    else
      var target := hunks[0].header.value.oldStart - 1;
      [Slice(original, position, target)] + ChunksOf(original, ApplyLines(original, target, hunks[0].lines).value.0, hunks[1..])
  }

  /** An accepted patch is a decomposition: the file is untouched chunks woven with what the hunks expect, and
      the result is the same chunks, in the same order, woven with what they leave. */
  lemma {:induction false} AcceptedIsWoven(original: seq<string>, position: nat, hunks: seq<Hunk>)
    requires ApplyHunks(original, position, hunks).Some?
    ensures WellFormed(hunks)
    ensures var chunks := ChunksOf(original, position, hunks);
            && original[Min(position, |original|)..] == Weave(chunks, Sides(hunks, true))
            && ApplyHunks(original, position, hunks) == Some(Weave(chunks, Sides(hunks, false)))
    decreases |hunks|
  {
    hide OldSide, NewSide, ApplyLines, ApplyHunks, ChunksOf, Slice, Found, Min, Weave, Sides;
    if hunks == [] {
      NothingIsWoven(original, position);
    } else {
      AcceptedParts(original, position, hunks);
      AcceptedIsWoven(original, hunks[0].header.value.oldStart - 1 + |OldSide(hunks[0].lines)|, hunks[1..]);
      FirstIsWoven(original, position, hunks);
    }
  }

  lemma NothingIsWoven(original: seq<string>, position: nat)
    ensures ApplyHunks(original, position, []) == Some(original[Min(position, |original|)..])
    ensures ChunksOf(original, position, []) == [original[Min(position, |original|)..]]
    ensures Weave(ChunksOf(original, position, []), Sides([], true)) == original[Min(position, |original|)..]
    ensures Weave(ChunksOf(original, position, []), Sides([], false)) == original[Min(position, |original|)..]
  {
    LastWoven(ChunksOf(original, position, []));
  }

  lemma FirstIsWoven(original: seq<string>, position: nat, hunks: seq<Hunk>)
    requires hunks != [] && ApplyHunks(original, position, hunks).Some? && hunks[0].header.Some?
    requires hunks[0].header.value.oldStart - 1 >= position
    requires var end := hunks[0].header.value.oldStart - 1 + |OldSide(hunks[0].lines)|;
             && ApplyHunks(original, end, hunks[1..]).Some?
             && var chunks := ChunksOf(original, end, hunks[1..]);
             && original[Min(end, |original|)..] == Weave(chunks, Sides(hunks[1..], true))
             && ApplyHunks(original, end, hunks[1..]) == Some(Weave(chunks, Sides(hunks[1..], false)))
    ensures var chunks := ChunksOf(original, position, hunks);
            && original[Min(position, |original|)..] == Weave(chunks, Sides(hunks, true))
            && ApplyHunks(original, position, hunks) == Some(Weave(chunks, Sides(hunks, false)))
  {
    hide OldSide, NewSide, ApplyLines, ApplyHunks, ChunksOf, Slice, Found, Min, Weave, Sides;
    AcceptedParts(original, position, hunks);
    SplitAt(original, position, hunks[0].header.value.oldStart - 1, OldSide(hunks[0].lines));
    WovenHunk(ChunksOf(original, position, hunks), hunks);
  }

  /** The parts of an accepted patch: its first hunk, and the rest after it. */
  lemma AcceptedParts(original: seq<string>, position: nat, hunks: seq<Hunk>)
    requires hunks != [] && ApplyHunks(original, position, hunks).Some?
    ensures HunkWellFormed(hunks[0]) && hunks[0].header.value.oldStart - 1 >= position
    ensures var target := hunks[0].header.value.oldStart - 1;
            var end := target + |OldSide(hunks[0].lines)|;
            && Found(original, target, OldSide(hunks[0].lines))
            && ApplyHunks(original, end, hunks[1..]).Some?
            && ApplyHunks(original, position, hunks) ==
               Some(Slice(original, position, target) + NewSide(hunks[0].lines) + ApplyHunks(original, end, hunks[1..]).value)
            && ChunksOf(original, position, hunks)[0] == Slice(original, position, target)
            && ChunksOf(original, position, hunks)[1..] == ChunksOf(original, end, hunks[1..])
  {
    hide OldSide, NewSide, ApplyLines, Slice, Found;
    LinesExactly(original, hunks[0].header.value.oldStart - 1, hunks[0].lines);
  }

  lemma SplitAt(original: seq<string>, position: nat, target: nat, was: seq<string>)
    requires position <= target && Found(original, target, was)
    ensures original[Min(position, |original|)..] ==
            Slice(original, position, target) + was + original[Min(target + |was|, |original|)..]
  {
  }

  // ---- The inverse patch ----

  function InvertLine(line: Line): Line {
    match line
    case Removed(content) => Added(content)
    case Added(content) => Removed(content)
    case _ => line
  }

  function InvertLines(lines: seq<Line>): (r: seq<Line>)
    ensures |r| == |lines|
  {
    if lines == [] then [] else [InvertLine(lines[0])] + InvertLines(lines[1..])
  }

  /** The hunks with - and + swapped, starting where the chunks leave off in the output. */
  function Inverse(hunks: seq<Hunk>, chunks: seq<seq<string>>, position: nat): seq<Hunk>
    requires |chunks| == |hunks| + 1 && WellFormed(hunks)
  {
    if hunks == [] then []
    else
      var h := hunks[0].header.value;
      var start := position + |chunks[0]|;
      [Hunk(Some(Header(start + 1, h.newCount, h.oldCount)), InvertLines(hunks[0].lines))] +
      Inverse(hunks[1..], chunks[1..], start + |NewSide(hunks[0].lines)|)
  }

  lemma {:induction false} InvertedSides(lines: seq<Line>)
    ensures OldSide(InvertLines(lines)) == NewSide(lines) && NewSide(InvertLines(lines)) == OldSide(lines)
    ensures Invalid in InvertLines(lines) <==> Invalid in lines
  {
    if lines != [] {
      InvertedSides(lines[1..]);
      var inverted := InvertLines(lines);
      assert inverted[0] == InvertLine(lines[0]) && inverted[1..] == InvertLines(lines[1..]);
      assert lines == [lines[0]] + lines[1..] && inverted == [inverted[0]] + inverted[1..];
    }
  }

  lemma {:induction false} InverseIsWellFormed(hunks: seq<Hunk>, chunks: seq<seq<string>>, position: nat)
    requires |chunks| == |hunks| + 1 && WellFormed(hunks)
    ensures var inverse := Inverse(hunks, chunks, position);
            && |inverse| == |hunks| && WellFormed(inverse)
            && StartsAfterChunks(inverse, chunks, position)
            && Sides(inverse, true) == Sides(hunks, false) && Sides(inverse, false) == Sides(hunks, true)
    decreases |hunks|
  {
    if hunks != [] {
      hide OldSide, NewSide, InvertLines, Sides;
      InvertedSides(hunks[0].lines);
      var next := position + |chunks[0]| + |NewSide(hunks[0].lines)|;
      var inverse, rest := Inverse(hunks, chunks, position), Inverse(hunks[1..], chunks[1..], next);
      InverseIsWellFormed(hunks[1..], chunks[1..], next);
      assert inverse == [inverse[0]] + rest && inverse[1..] == rest;
      hide Inverse;
      FirstSide(hunks);
      FirstSide(inverse);
    }
  }

  /** Patch inverse: whenever hunks are accepted on a file, their inverse is accepted on the result and
      restores the file. */
  lemma InverseRestores(original: seq<string>, hunks: seq<Hunk>)
    requires ApplyHunks(original, 0, hunks).Some?
    ensures WellFormed(hunks)
    ensures ApplyHunks(ApplyHunks(original, 0, hunks).value, 0, Inverse(hunks, ChunksOf(original, 0, hunks), 0)) == Some(original)
  {
    AcceptedIsWoven(original, 0, hunks);
    var chunks := ChunksOf(original, 0, hunks);
    InverseIsWellFormed(hunks, chunks, 0);
    var inverse := Inverse(hunks, chunks, 0);
    WovenIsAccepted([], chunks, inverse);
    assert [] + Weave(chunks, Sides(inverse, true)) == Weave(chunks, Sides(inverse, true));
    assert original[Min(0, |original|)..] == original;
  }

  function NetGrowth(hunks: seq<Hunk>): int
    requires WellFormed(hunks)
  {
    if hunks == [] then 0 else hunks[0].header.value.newCount - hunks[0].header.value.oldCount + NetGrowth(hunks[1..])
  }

  lemma {:induction false} WeaveLengths(chunks: seq<seq<string>>, hunks: seq<Hunk>)
    requires |chunks| == |hunks| + 1 && WellFormed(hunks)
    ensures |Weave(chunks, Sides(hunks, false))| == |Weave(chunks, Sides(hunks, true))| + NetGrowth(hunks)
    decreases |hunks|
  {
    if hunks != [] {
      assert Sides(hunks, true)[1..] == Sides(hunks[1..], true) && Sides(hunks, false)[1..] == Sides(hunks[1..], false);
      WeaveLengths(chunks[1..], hunks[1..]);
    }
  }

  /** The length changes by the sum of new minus old counts. */
  lemma LengthChange(original: seq<string>, hunks: seq<Hunk>)
    requires ApplyHunks(original, 0, hunks).Some?
    ensures WellFormed(hunks)
    ensures |ApplyHunks(original, 0, hunks).value| == |original| + NetGrowth(hunks)
  {
    AcceptedIsWoven(original, 0, hunks);
    WeaveLengths(ChunksOf(original, 0, hunks), hunks);
    assert original[Min(0, |original|)..] == original;
  }

  /** Every hunk that expects at least one line lies within the file. */
  lemma {:induction false} ExpectingHunksAreInRange(original: seq<string>, position: nat, hunks: seq<Hunk>, i: nat)
    requires ApplyHunks(original, position, hunks).Some? && i < |hunks|
    requires hunks[i].header.Some? && hunks[i].header.value.oldCount > 0
    ensures position < hunks[i].header.value.oldStart
    ensures hunks[i].header.value.oldStart - 1 + hunks[i].header.value.oldCount <= |original|
    decreases |hunks|
  {
    var target := hunks[0].header.value.oldStart - 1;
    LinesExactly(original, target, hunks[0].lines);
    if i > 0 {
      ExpectingHunksAreInRange(original, ApplyLines(original, target, hunks[0].lines).value.0, hunks[1..], i - 1);
    }
  }

  // ---- What an edit does ----

  /** Context lines, then lines marked -, then lines marked +. */
  function Edit(context: seq<string>, removed: seq<string>, added: seq<string>): (lines: seq<Line>)
    ensures |lines| == |context| + |removed| + |added|
  {
    if context != [] then [Context(context[0])] + Edit(context[1..], removed, added)
    else if removed != [] then [Removed(removed[0])] + Edit([], removed[1..], added)
    else if added != [] then [Added(added[0])] + Edit([], [], added[1..])
    else []
  }

  lemma {:induction false} AddedSides(added: seq<string>)
    ensures var lines := Edit([], [], added);
            OldSide(lines) == [] && NewSide(lines) == added && Invalid !in lines
  {
    hide OldSide, NewSide;
    if added != [] {
      AddedSides(added[1..]);
      OneLine(Added(added[0]), Edit([], [], added[1..]));
      assert added == [added[0]] + added[1..];
    } else {
      NoLines();
    }
  }

  lemma {:induction false} RemovedSides(removed: seq<string>, added: seq<string>)
    ensures var lines := Edit([], removed, added);
            OldSide(lines) == removed && NewSide(lines) == added && Invalid !in lines
    decreases |removed|
  {
    hide OldSide, NewSide;
    if removed != [] {
      RemovedSides(removed[1..], added);
      OneLine(Removed(removed[0]), Edit([], removed[1..], added));
      assert removed == [removed[0]] + removed[1..];
    } else {
      AddedSides(added);
    }
  }

  lemma {:induction false} EditSides(context: seq<string>, removed: seq<string>, added: seq<string>)
    ensures var lines := Edit(context, removed, added);
            OldSide(lines) == context + removed && NewSide(lines) == context + added && Invalid !in lines
    decreases |context|
  {
    hide OldSide, NewSide, Edit;
    if context != [] {
      EditSides(context[1..], removed, added);
      OneLine(Context(context[0]), Edit(context[1..], removed, added));
      ContextFirst(context, removed, added);
      FirstOf(context, removed);
      FirstOf(context, added);
    } else {
      RemovedSides(removed, added);
      assert context + removed == removed && context + added == added;
    }
  }

  lemma ContextFirst(context: seq<string>, removed: seq<string>, added: seq<string>)
    requires context != []
    ensures Edit(context, removed, added) == [Context(context[0])] + Edit(context[1..], removed, added)
  {
  }

  lemma FirstOf(context: seq<string>, others: seq<string>)
    requires context != []
    ensures [context[0]] + (context[1..] + others) == context + others
  {
  }

  lemma OneLine(line: Line, others: seq<Line>)
    ensures OldSide([line] + others) == (if line.Context? || line.Removed? then [line.content] else []) + OldSide(others)
    ensures NewSide([line] + others) == (if line.Context? || line.Added? then [line.content] else []) + NewSide(others)
  {
    assert ([line] + others)[1..] == others;
  }

  lemma NoLines()
    ensures OldSide([]) == [] && NewSide([]) == []
  {
  }

  /** Lines marked - give way to lines marked +, at the place the header names and after its context; the file
      before and after stays as it is. */
  lemma EditIsMade(before: seq<string>, context: seq<string>, removed: seq<string>, added: seq<string>, after: seq<string>)
    ensures var was, now := context + removed, context + added;
            ApplyHunks(before + was + after, 0, [Hunk(Some(Header(|before| + 1, |was|, |now|)), Edit(context, removed, added))])
            == Some(before + now + after)
  {
    hide ApplyHunks, Edit, OldSide, NewSide;
    EditSides(context, removed, added);
    ReplacedAt(before, Edit(context, removed, added), after);
  }

  /** One hunk, wherever its header puts it. */
  lemma ReplacedAt(before: seq<string>, lines: seq<Line>, after: seq<string>)
    requires Invalid !in lines
    ensures ApplyHunks(before + OldSide(lines) + after, 0, [Hunk(Some(Header(|before| + 1, |OldSide(lines)|, |NewSide(lines)|)), lines)])
            == Some(before + NewSide(lines) + after)
  {
    hide ApplyHunks, OldSide, NewSide, Found, Slice;
    var original := before + OldSide(lines) + after;
    var hunks := [Hunk(Some(Header(|before| + 1, |OldSide(lines)|, |NewSide(lines)|)), lines)];
    PartsOf([], before, OldSide(lines), after);
    assert [] + before + OldSide(lines) + after == original;
    NothingIsWoven(original, |before| + |OldSide(lines)|);
    EndOf(before + OldSide(lines), after);
    assert hunks[1..] == [];
    OneHunk(original, 0, hunks, before, after);
  }

  lemma EndOf(front: seq<string>, after: seq<string>)
    ensures (front + after)[Min(|front|, |front + after|)..] == after
  {
  }
}
