/** The parent's loop that collects a batch's output lines. */
module UdfHandle {
  import opened UdfLines

  class OutputReader {
    /** Lines drained while waiting for the response. */
    var pendingLines: seq<Line>
    /** What readline has yet to return: the read buffer, the pipe and what the worker still writes. */
    var stream: seq<char>

    constructor (stream: seq<char>)
      ensures pendingLines == [] && this.stream == stream
    {
      pendingLines, this.stream := [], stream;
    }

    method ReadLine() returns (line: Line)
      modifies this`stream
      ensures line != [] ==> '\n' !in line[..|line| - 1] && (line[|line| - 1] == '\n' || stream == [])
      ensures old(stream) == [] ==> line == [] && stream == []
      ensures old(stream) != [] ==>
              line != [] && old(stream) == line + stream && [line] + Lines(stream) == Lines(old(stream))
    {
      if stream == [] {
        return [];
      }
      var n := LineEnd(stream);
      line, stream := stream[..n], stream[n..];
    }

    /** Takes the next line: from the drained ones first, empty at the end of the output. */
    method NextLine() returns (line: Line)
      requires forall i :: 0 <= i < |pendingLines| ==> pendingLines[i] != []
      modifies this
      ensures forall i :: 0 <= i < |pendingLines| ==> pendingLines[i] != []
      ensures line == [] ==> old(pendingLines) + Lines(old(stream)) == [] && pendingLines == [] && stream == []
      ensures line != [] ==> old(pendingLines) + Lines(old(stream)) == [line] + (pendingLines + Lines(stream))
      ensures line != [] ==>
                || |pendingLines| < |old(pendingLines)|
                || (pendingLines == old(pendingLines) && |stream| < |old(stream)|)
    {
      if pendingLines != [] {
        line, pendingLines := pendingLines[0], pendingLines[1..];
      } else {
        line := ReadLine();
      }
    }

    /**
     Returns the lines up to the divider or to the end of the output, and leaves exactly those after it.
     The worker is found alive `alive` times, and exited from then on.
     */
    method Trace(divider: Line, alive: nat) returns (lines: seq<string>)
      requires IsDivider(divider)
      requires forall i :: 0 <= i < |pendingLines| ==> pendingLines[i] != []
      modifies this
      ensures Framed(lines, pendingLines + Lines(stream))
              == FrameWhile(old(pendingLines) + Lines(old(stream)), divider, alive)
    {
      ghost var whole := FrameWhile(pendingLines + Lines(stream), divider, alive);
      lines := [];
      var polls := 0;
      while true
        invariant polls <= alive && forall i :: 0 <= i < |pendingLines| ==> pendingLines[i] != []
        invariant var ahead := FrameWhile(pendingLines + Lines(stream), divider, alive - polls);
                  whole.lines == lines + ahead.lines && whole.left == ahead.left
        decreases |pendingLines|, |stream|
      {
        ghost var ahead := pendingLines + Lines(stream);
        var line := NextLine();
        assert line != [] ==> ahead[0] == line && ahead[1..] == pendingLines + Lines(stream);
        if line == ['\n'] {
          continue;
        }
        if line == [] || line == divider || polls == alive {
          break;
        }
        polls := polls + 1;
        lines := lines + [RStrip(line)];
      }
    }

    /** With the divider both processes use. */
    method TraceOutput(alive: nat) returns (lines: seq<string>)
      requires forall i :: 0 <= i < |pendingLines| ==> pendingLines[i] != []
      modifies this
      ensures var ls := old(pendingLines) + Lines(old(stream));
              Framed(lines, pendingLines + Lines(stream)) == FrameWhile(ls, OUTPUT_DIVIDER, alive)
    {
      OutputDividerIsDivider();
      lines := Trace(OUTPUT_DIVIDER, alive);
    }
  }
}
