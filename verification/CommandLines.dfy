/** Command lines of blanked shell text and the way back to a place in the source
    (scripts/report/scripts_gate_content.py). */
module CommandLines {
  import opened Chars
  import opened ShellAligned

  /** A physical line starts at `offset` of the joined text. */
  datatype Segment = Segment(offset: nat, index: nat)

  datatype Command = Command(text: string, segments: seq<Segment>)

  datatype Position = Position(index: nat, column: nat)

  /** A line that ends in a backslash, and is not the last one. */
  predicate Continued(blanked: seq<string>, i: nat)
    requires i < |blanked|
  {
    var line := RStrip(blanked[i]);
    line != "" && line[|line| - 1] == '\\' && i + 1 < |blanked|
  }

  /** What line `i` contributes: the backslash and anything behind it become one space. */
  function Piece(blanked: seq<string>, i: nat): string
    requires i < |blanked|
  {
    if Continued(blanked, i) then
      var line := RStrip(blanked[i]);
      line[..|line| - 1] + " "
    else blanked[i]
  }

  lemma PieceIsOverlay(blanked: seq<string>, i: nat)
    requires i < |blanked|
    ensures Overlay(Piece(blanked, i), blanked[i])
  {
  }

  function Pieces(blanked: seq<string>): (r: seq<string>)
    ensures |r| == |blanked|
  {
    seq(|blanked|, i requires 0 <= i < |blanked| => Piece(blanked, i))
  }

  /** Pieces `first` up to `next`, joined. */
  function Joined(pieces: seq<string>, first: nat, next: nat): string
    requires first <= next <= |pieces|
  {
    if first == next then "" else Joined(pieces, first, next - 1) + pieces[next - 1]
  }

  /** One segment for each of those lines: where its piece starts. */
  function Segments(pieces: seq<string>, first: nat, next: nat): seq<Segment>
    requires first <= next <= |pieces|
  {
    if first == next then []
    else Segments(pieces, first, next - 1) + [Segment(|Joined(pieces, first, next - 1)|, next - 1)]
  }

  /** `c` is the command of lines `first` up to `next`: every line but its last one is continued. */
  ghost predicate Covers(blanked: seq<string>, c: Command, first: nat, next: nat) {
    && first < next <= |blanked|
    && (forall k :: first <= k < next ==> (Continued(blanked, k) <==> k + 1 < next))
    && c == Command(Joined(Pieces(blanked), first, next), Segments(Pieces(blanked), first, next))
  }

  /** The physical line a command starts on. */
  function First(c: Command): nat {
    if c.segments == [] then 0 else c.segments[0].index
  }

  /** Where command `k` stops: where the next one starts. */
  function StopOf(commands: seq<Command>, k: nat, stop: nat): nat {
    if k + 1 < |commands| then First(commands[k + 1]) else stop
  }

  /** The commands cover every physical line once, in order: each one starts where the one before it stops. */
  ghost predicate Partition(blanked: seq<string>, commands: seq<Command>, stop: nat) {
    && (commands == [] ==> stop == 0)
    && (commands != [] ==> First(commands[0]) == 0)
    && forall k :: 0 <= k < |commands| ==> Covers(blanked, commands[k], First(commands[k]), StopOf(commands, k, stop))
  }

  lemma OneMorePiece(pieces: seq<string>, first: nat, i: nat)
    requires first <= i < |pieces|
    ensures Joined(pieces, first, i + 1) == Joined(pieces, first, i) + pieces[i]
    ensures Segments(pieces, first, i + 1) == Segments(pieces, first, i) + [Segment(|Joined(pieces, first, i)|, i)]
  {
  }

  lemma PieceAt(blanked: seq<string>, i: nat)
    requires i < |blanked|
    ensures |Pieces(blanked)| == |blanked| && Pieces(blanked)[i] == Piece(blanked, i)
  {
  }

  lemma {:induction false} SegmentsStart(pieces: seq<string>, first: nat, i: nat)
    requires first < i <= |pieces|
    ensures Segments(pieces, first, i) != [] && Segments(pieces, first, i)[0].index == first
  {
    hide Joined;
    if i - 1 > first { SegmentsStart(pieces, first, i - 1); }
  }

  lemma TakenCovers(blanked: seq<string>, first: nat, i: nat)
    requires first < i <= |blanked| && forall k :: first <= k < i ==> (Continued(blanked, k) <==> k + 1 < i)
    ensures var c := Command(Joined(Pieces(blanked), first, i), Segments(Pieces(blanked), first, i));
      Covers(blanked, c, first, i) && First(c) == first
  {
    hide Continued, Pieces, Joined;
    SegmentsStart(Pieces(blanked), first, i);
  }

  method TakeCommand(blanked: seq<string>, first: nat) returns (c: Command, i: nat)
    requires first < |blanked|
    ensures Covers(blanked, c, first, i) && First(c) == first
  {
    i := first;
    var text, segments := "", [];
    ghost var pieces := Pieces(blanked);
    while true
      invariant first <= i < |blanked|
      invariant text == Joined(pieces, first, i) && segments == Segments(pieces, first, i)
      invariant forall k :: first <= k < i ==> Continued(blanked, k)
      decreases |blanked| - i
    {
      hide Continued, Piece, Pieces, Joined, Segments;
      OneMorePiece(pieces, first, i);
      PieceAt(blanked, i);
      segments := segments + [Segment(|text|, i)];
      var continued := Continued(blanked, i);
      text := text + Piece(blanked, i);
      i := i + 1;
      if !continued {
        break;
      }
    }
    hide Continued, Pieces, Joined, Segments, Covers, First;
    c := Command(text, segments);
    TakenCovers(blanked, first, i);
  }

  lemma PartitionGrows(blanked: seq<string>, commands: seq<Command>, stop: nat, c: Command, next: nat)
    requires Partition(blanked, commands, stop) && Covers(blanked, c, stop, next) && First(c) == stop
    ensures Partition(blanked, commands + [c], next)
  {
    hide Covers, First;
    var more := commands + [c];
    forall k | 0 <= k < |more|
      ensures Covers(blanked, more[k], First(more[k]), StopOf(more, k, next))
    {
      if k < |commands| {
        assert Covers(blanked, commands[k], First(commands[k]), StopOf(commands, k, stop));
        assert more[k] == commands[k] && (k + 1 < |commands| ==> more[k + 1] == commands[k + 1]);
      }
    }
  }

  method CommandLines(blanked: seq<string>) returns (commands: seq<Command>)
    ensures Partition(blanked, commands, |blanked|)
  {
    commands := [];
    var i := 0;
    while i < |blanked|
      invariant 0 <= i <= |blanked| && Partition(blanked, commands, i)
    {
      hide Partition, Covers, First;
      var c, next := TakeCommand(blanked, i);
      PartitionGrows(blanked, commands, i, c, next);
      commands, i := commands + [c], next;
    }
  }

  /** The last segment that starts at or before the position; none is an error in the source. */
  function PhysicalPosition(segments: seq<Segment>, position: nat): Option<Position> {
    if segments == [] then None
    else
      var s := segments[|segments| - 1];
      if s.offset <= position then Some(Position(s.index, position - s.offset))
      else PhysicalPosition(segments[..|segments| - 1], position)
  }

  lemma {:induction false} PositionInPieces(pieces: seq<string>, first: nat, next: nat, position: nat)
    requires first <= next <= |pieces| && position < |Joined(pieces, first, next)|
    ensures var p := PhysicalPosition(Segments(pieces, first, next), position);
      && p.Some? && first <= p.value.index < next && p.value.column < |pieces[p.value.index]|
      && Joined(pieces, first, next)[position] == pieces[p.value.index][p.value.column]
    decreases next
  {
    var before := Joined(pieces, first, next - 1);
    var segments := Segments(pieces, first, next);
    assert segments[..|segments| - 1] == Segments(pieces, first, next - 1);
    if position < |before| {
      PositionInPieces(pieces, first, next - 1, position);
    }
  }

  // ---- from the joined text back to the source -------------------------------

  /** Offset of physical line `k`, summed up line by line with one for each line break. */
  function LineStart(lines: seq<string>, k: nat): nat
    requires k <= |lines|
  {
    if k == 0 then 0 else LineStart(lines, k - 1) + |lines[k - 1]| + 1
  }

  lemma {:induction false} LineStartOfPrefix(a: seq<string>, b: seq<string>, k: nat)
    requires k < |a| && k < |b| && a[..k] == b[..k]
    ensures LineStart(a, k) == LineStart(b, k)
  {
    if k > 0 {
      assert a[..k][..k - 1] == a[..k - 1] && b[..k][..k - 1] == b[..k - 1];
      assert a[..k][k - 1] == b[..k][k - 1];
      LineStartOfPrefix(a, b, k - 1);
    }
  }

  /** One more character opens a line, or extends the last one. */
  lemma StepOfLines(text: string, n: nat)
    requires 0 < n <= |text|
    ensures var a, b := LinesTo(text, n - 1), LinesTo(text, n);
      var last := |a| - 1;
      && |b| >= |a| && a[..last] == b[..last] && (forall k :: 0 <= k < last ==> a[k] == b[k])
      && (text[n - 1] == '\n' ==> |b| == |a| + 1 && b[last] == a[last] && b[last + 1] == "")
      && (text[n - 1] == '\n' ==> LineStart(b, last + 1) == LineStart(b, last) + |a[last]| + 1)
      && (text[n - 1] != '\n' ==> |b| == |a| && b[last] == a[last] + [text[n - 1]])
  {
  }

  lemma SliceGrows(text: string, s: nat, n: nat)
    requires s <= n < |text|
    ensures text[s..n + 1] == text[s..n] + [text[n]]
  {
  }

  /** Physical line `k` is the slice of the text at its offset, and the last one ends there. */
  lemma {:induction false} LinesAreSlices(text: string, n: nat, k: nat)
    requires n <= |text| && k < |LinesTo(text, n)|
    ensures var lines := LinesTo(text, n);
      var s := LineStart(lines, k);
      && s + |lines[k]| <= n && text[s..s + |lines[k]|] == lines[k]
      && (k == |lines| - 1 ==> s + |lines[k]| == n)
  {
    if n > 0 {
      var a, b := LinesTo(text, n - 1), LinesTo(text, n);
      var last := |a| - 1;
      LinesAreSlices(text, n - 1, last);
      StepOfLines(text, n);
      hide LinesTo;
      if k < last {
        LinesAreSlices(text, n - 1, k);
        LineStartOfPrefix(a, b, k);
      } else {
        LineStartOfPrefix(a, b, last);
        hide LineStart;
        if text[n - 1] != '\n' { SliceGrows(text, LineStart(a, last), n - 1); }
      }
    }
  }

  lemma ColumnInText(text: string, k: nat, column: nat)
    requires k < |Lines(text)| && column < |Lines(text)[k]|
    ensures var at := LineStart(Lines(text), k) + column;
      at < |text| && text[at] == Lines(text)[k][column] && text[at] != '\n'
  {
    LinesAreSlices(text, |text|, k);
    LinesHoldNoBreak(text, |text|);
    var s := LineStart(Lines(text), k);
    assert text[s + column] == text[s..s + |Lines(text)[k]|][column];
  }

  /** Every column of every command line of aligned entries maps back to its own offset in the source. */
  lemma ColumnsMapBack(text: string, blanked: seq<string>, c: Command, first: nat, next: nat, position: nat)
    requires Aligned(text, blanked)
    requires Covers(blanked, c, first, next) && position < |c.text|
    ensures var p := PhysicalPosition(c.segments, position);
      && p.Some? && first <= p.value.index < next && p.value.index < |Lines(text)|
      && var at := LineStart(Lines(text), p.value.index) + p.value.column;
        at < |text| && text[at] != '\n' && (c.text[position] == text[at] || c.text[position] == ' ')
  {
    PositionInPieces(Pieces(blanked), first, next, position);
    var p := PhysicalPosition(c.segments, position).value;
    PieceIsOverlay(blanked, p.index);
    assert Overlay(blanked[p.index], Lines(text)[p.index]);
    ColumnInText(text, p.index, p.column);
  }
}
