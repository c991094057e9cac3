/**
 Lines of a worker's output and the divider that separates one batch's output from the next.
 Output is modelled as characters; a line keeps its newline, as `readline` returns it.
 */
module UdfLines {
  import opened Sequences

  type Line = seq<char>

  const OUTPUT_DIVIDER: Line := "_DAFT_OUTPUT_DIVIDER_\n"

  /** A single complete line. */
  predicate IsLine(d: Line) {
    d != [] && d[|d| - 1] == '\n' && forall i :: 0 <= i < |d| - 1 ==> d[i] != '\n'
  }

  /** Any complete line other than a bare newline can serve as divider. */
  predicate IsDivider(d: Line) {
    IsLine(d) && |d| > 1
  }

  lemma OutputDividerIsDivider()
    ensures IsDivider(OUTPUT_DIVIDER)
  {
  }

  /** What the worker writes after a batch: a newline of padding, then the divider. */
  function Mark(d: Line): seq<char> {
    ['\n'] + d
  }

  /** Length of the first line of `s`: up to its newline, or all of `s`. */
  function LineEnd(s: seq<char>): (k: nat)
    requires s != []
    ensures 0 < k <= |s|
    ensures s[k - 1] == '\n' || k == |s|
    ensures '\n' !in s[..k - 1]
  {
    if s[0] == '\n' || |s| == 1 then 1
    else
      var k := LineEnd(s[1..]);
      assert s[..k] == [s[0]] + s[1..][..k - 1];
      1 + k
  }

  function Lines(s: seq<char>): seq<Line> {
    if s == [] then [] else [s[..LineEnd(s)]] + Lines(s[LineEnd(s)..])
  }

  /** `s` stops at the end of a line. */
  predicate EndsLine(s: seq<char>) {
    s == [] || s[|s| - 1] == '\n'
  }

  /** A first line that is complete stays the first line, whatever follows. */
  lemma {:induction false} LineEndStable(a: seq<char>, b: seq<char>)
    requires '\n' in a
    ensures LineEnd(a + b) == LineEnd(a) && a[LineEnd(a) - 1] == '\n'
    decreases |a|
  {
    if a[0] != '\n' {
      assert '\n' in a[1..];
      assert (a + b)[1..] == a[1..] + b;
      LineEndStable(a[1..], b);
    }
  }

  lemma FirstLine(a: seq<char>, b: seq<char>)
    requires '\n' in a
    ensures Lines(a + b) == [a[..LineEnd(a)]] + Lines(a[LineEnd(a)..] + b)
    ensures EndsLine(a + b) ==> EndsLine(a[LineEnd(a)..] + b)
  {
    LineEndStable(a, b);
    var k := LineEnd(a);
    assert (a + b)[..k] == a[..k] && (a + b)[k..] == a[k..] + b;
  }

  lemma {:induction false} LinesConcat(a: seq<char>, b: seq<char>)
    requires EndsLine(a)
    ensures Lines(a + b) == Lines(a) + Lines(b)
    decreases |a|
  {
    if a == [] {
      assert a + b == b;
    } else {
      assert a[|a| - 1] in a;
      var k := LineEnd(a);
      FirstLine(a, b);
      assert EndsLine(a[k..]);
      LinesConcat(a[k..], b);
      assert Lines(a) == [a[..k]] + Lines(a[k..]);
    }
  }

  lemma OneLine(d: Line)
    requires IsLine(d) || (d != [] && '\n' !in d)
    ensures Lines(d) == [d]
  {
    var k := LineEnd(d);
    assert d[..k] == d && d[k..] == [];
  }

  lemma ThenOneLine(s: seq<char>, d: Line)
    requires EndsLine(s) && IsLine(d)
    ensures Lines(s + d) == Lines(s) + [d]
  {
    LinesConcat(s, d);
    OneLine(d);
  }

  // ---------------------------------------------------------------- right-stripping

  predicate IsSpace(c: char) {
    || '\t' <= c <= '\r' || '\U{1C}' <= c <= ' ' || c == '\U{85}' || c == '\U{A0}' || c == '\U{1680}'
    || '\U{2000}' <= c <= '\U{200A}' || c == '\U{2028}' || c == '\U{2029}' || c == '\U{202F}'
    || c == '\U{205F}' || c == '\U{3000}'
  }

  function RStrip(s: seq<char>): string {
    if s != [] && IsSpace(s[|s| - 1]) then RStrip(s[..|s| - 1]) else s
  }

  /**
   What stripping leaves: a prefix, cut exactly where only whitespace follows.  The numbers are the code
   points that count as whitespace.
   */
  lemma {:induction false} RStripMeans(s: seq<char>)
    ensures var blank: set<int> :=
              {9, 10, 11, 12, 13, 28, 29, 30, 31, 32, 0x85, 0xA0, 0x1680, 0x2000, 0x2001, 0x2002, 0x2003, 0x2004,
               0x2005, 0x2006, 0x2007, 0x2008, 0x2009, 0x200A, 0x2028, 0x2029, 0x202F, 0x205F, 0x3000};
            var r := RStrip(s);
            && r <= s
            && (forall i :: |r| <= i < |s| ==> s[i] as int in blank)
            && (r == [] || r[|r| - 1] as int !in blank)
  {
    if s == [] {
    } else if IsSpace(s[|s| - 1]) {
      RStripMeans(s[..|s| - 1]);
    }
  }

  /** The lines reported to the caller: bare newlines are dropped, the others right-stripped. */
  function Reported(ls: seq<Line>): seq<string> {
    if ls == [] then []
    else
      var l, rest := ls[0], Reported(ls[1..]);
      if l == ['\n'] then rest else [RStrip(l)] + rest
  }

  lemma ReportedOne(l: Line)
    ensures Reported([l]) == if l == ['\n'] then [] else [RStrip(l)]
  {
    assert [l][1..] == [];
  }

  lemma {:induction false} ReportedConcat(a: seq<Line>, b: seq<Line>)
    ensures Reported(a + b) == Reported(a) + Reported(b)
  {
    if a == [] {
      assert a + b == b;
    } else {
      ReportedConcat(a[1..], b);
      assert (a + b)[1..] == a[1..] + b;
    }
  }

  lemma ReportedSnoc(ls: seq<Line>, l: Line)
    ensures Reported(ls + [l]) == if l == ['\n'] then Reported(ls) else Reported(ls) + [RStrip(l)]
  {
    ReportedConcat(ls, [l]);
    ReportedOne(l);
  }

  // ---------------------------------------------------------------- framing

  /** What one call of trace_output makes of the lines it finds: its result and the lines it leaves. */
  datatype Framed = Framed(lines: seq<string>, left: seq<Line>)

  function Frame(ls: seq<Line>, d: Line): Framed {
    var k := IndexOf(ls, d);
    if k == |ls| then Framed(Reported(ls), []) else Framed(Reported(ls[..k]), ls[k + 1..])
  }

  /** The same when the worker exits: after `alive` reported lines the next one ends the reading. */
  function FrameWhile(ls: seq<Line>, d: Line, alive: nat): Framed {
    if ls == [] then Framed([], [])
    else if ls[0] == ['\n'] then FrameWhile(ls[1..], d, alive)
    else if ls[0] == d || alive == 0 then Framed([], ls[1..])
    else
      var rest := FrameWhile(ls[1..], d, alive - 1);
      Framed([RStrip(ls[0])] + rest.lines, rest.left)
  }

  lemma FrameCons(l: Line, ls: seq<Line>, d: Line)
    requires l != d
    ensures Frame([l] + ls, d).lines == Reported([l]) + Frame(ls, d).lines
            && Frame([l] + ls, d).left == Frame(ls, d).left
  {
    var all, k := [l] + ls, IndexOf(ls, d);
    assert all[1..] == ls && IndexOf(all, d) == k + 1;
    assert all[..k + 1] == [l] + ls[..k];
    assert k < |ls| ==> all[k + 2..] == ls[k + 1..];
    ReportedConcat([l], ls[..k]);
    assert ls[..|ls|] == ls;
  }

  /** A worker that stays alive long enough makes no difference. */
  lemma {:induction false} FrameWhileAlive(ls: seq<Line>, d: Line, alive: nat)
    requires IsDivider(d) && alive >= |ls|
    ensures FrameWhile(ls, d, alive) == Frame(ls, d)
  {
    if ls == [] {
    } else if ls[0] == d {
      assert ls[..0] == [];
    } else {
      FrameWhileAlive(ls[1..], d, if ls[0] == ['\n'] then alive else alive - 1);
      assert ls == [ls[0]] + ls[1..];
      FrameCons(ls[0], ls[1..], d);
      ReportedOne(ls[0]);
    }
  }

  /** Once the worker has exited, the next line that is not a bare newline is dropped and ends the reading. */
  lemma {:induction false} FrameWhileStops(a: seq<Line>, l: Line, b: seq<Line>, d: Line, alive: nat)
    requires d !in a && |Reported(a)| == alive && l != ['\n']
    ensures FrameWhile(a + [l] + b, d, alive) == Framed(Reported(a), b)
    decreases |a|
  {
    var ls := a + [l] + b;
    if a == [] {
      assert ls[0] == l && ls[1..] == b;
    } else {
      assert ls[0] == a[0] && ls[1..] == a[1..] + [l] + b;
      FrameWhileStops(a[1..], l, b, d, |Reported(a[1..])|);
    }
  }

  /** Stopping at the first divider is exactly what `Frame` says. */
  lemma FrameAt(seen: seq<Line>, left: seq<Line>, d: Line)
    requires d !in seen
    ensures Frame(seen + [d] + left, d) == Framed(Reported(seen), left)
  {
    var ls := seen + [d] + left;
    assert ls[|seen|] == d;
    var k := IndexOf(ls, d);
    IndexOfIsFirst(ls, d);
    assert forall i :: 0 <= i < |seen| ==> ls[i] == seen[i];
    assert forall i :: 0 <= i < k ==> ls[i] == ls[..k][i];
    assert ls[..k] == seen && ls[k + 1..] == left;
  }

  /** Does the output itself contain a line that reads as the divider? */
  predicate ContainsDivider(out: seq<char>, d: Line) {
    d in Lines(out + ['\n'])
  }

  lemma StreamLines(out: seq<char>, d: Line)
    requires IsDivider(d)
    ensures Lines(out + Mark(d)) == Lines(out + ['\n']) + [d]
  {
    assert out + Mark(d) == (out + ['\n']) + d;
    ThenOneLine(out + ['\n'], d);
  }

  lemma RStripNewline(s: seq<char>)
    ensures RStrip(s + ['\n']) == RStrip(s)
  {
    assert (s + ['\n'])[..|s|] == s;
  }

  /** The padding newline never shows: it ends an unfinished last line or is dropped as a bare newline. */
  lemma {:induction false} PaddingIsInvisible(out: seq<char>)
    ensures Reported(Lines(out + ['\n'])) == Reported(Lines(out))
    decreases |out|
  {
    if out == [] {
      assert out + ['\n'] == ['\n'];
      OneLine(['\n']);
      ReportedOne(['\n']);
    } else if '\n' in out {
      var k := LineEnd(out);
      FirstLine(out, ['\n']);
      FirstLine(out, []);
      assert out + [] == out && out[k..] + [] == out[k..];
      PaddingIsInvisible(out[k..]);
      ReportedConcat([out[..k]], Lines(out[k..] + ['\n']));
      ReportedConcat([out[..k]], Lines(out[k..]));
    } else {
      UnfinishedLine(out);
    }
  }

  lemma UnfinishedLine(out: seq<char>)
    requires out != [] && '\n' !in out
    ensures Reported(Lines(out + ['\n'])) == Reported(Lines(out))
  {
    OneLine(out + ['\n']);
    OneLine(out);
    RStripNewline(out);
    ReportedOne(out + ['\n']);
    ReportedOne(out);
  }

  /**
   A batch starting with nothing left over reports exactly its own lines and leaves nothing,
   if and only if its output contains no divider line.
   */
  lemma FramingIsExact(out: seq<char>, d: Line)
    requires IsDivider(d)
    ensures Frame(Lines(out + Mark(d)), d) == Framed(Reported(Lines(out)), []) <==> !ContainsDivider(out, d)
    ensures ContainsDivider(out, d) ==> d in Frame(Lines(out + Mark(d)), d).left
  {
    StreamLines(out, d);
    var ls := Lines(out + ['\n']);
    if !ContainsDivider(out, d) {
      FrameAt(ls, [], d);
      assert ls + [d] + [] == ls + [d];
      PaddingIsInvisible(out);
    } else {
      var all := ls + [d];
      var k := IndexOf(all, d);
      IndexOfIsFirst(all, d);
      var i :| 0 <= i < |ls| && ls[i] == d;
      assert all[i] == d;
      assert forall j :: 0 <= j < k ==> all[j] == all[..k][j];
      assert all[k + 1..][|ls| - k - 1] == d;
    }
  }

  lemma FrameOwn(left: seq<Line>, out: seq<char>, d: Line)
    requires IsDivider(d) && left == [] && !ContainsDivider(out, d)
    ensures Frame(left + Lines(out + Mark(d)), d) == Framed(Reported(Lines(out)), [])
  {
    FramingIsExact(out, d);
    assert left + Lines(out + Mark(d)) == Lines(out + Mark(d));
  }

  // ---------------------------------------------------------------- printed texts

  /** What printing each text on a line of its own writes. */
  function Print(ts: seq<string>): seq<char> {
    if ts == [] then [] else ts[0] + ['\n'] + Print(ts[1..])
  }

  /** The texts that are not empty. */
  function Visible(ts: seq<string>): seq<string> {
    if ts == [] then [] else if ts[0] == [] then Visible(ts[1..]) else [ts[0]] + Visible(ts[1..])
  }

  /** Single lines without trailing whitespace, none of which reads as the divider. */
  ghost predicate Tidy(ts: seq<string>, d: Line) {
    forall i :: 0 <= i < |ts| ==>
      '\n' !in ts[i] && ts[i] + ['\n'] != d && (ts[i] == [] || !IsSpace(ts[i][|ts[i]| - 1]))
  }

  lemma {:induction false} PrintEndsLine(ts: seq<string>)
    ensures EndsLine(Print(ts))
  {
    if ts == [] {
    } else {
      PrintEndsLine(ts[1..]);
    }
  }

  lemma FirstText(t: string, rest: seq<char>)
    requires '\n' !in t
    ensures Lines(t + ['\n'] + rest) == [t + ['\n']] + Lines(rest)
  {
    LinesConcat(t + ['\n'], rest);
    OneLine(t + ['\n']);
  }

  lemma {:induction false} NoDividerPrinted(ts: seq<string>, d: Line)
    requires Tidy(ts, d)
    ensures d !in Lines(Print(ts))
  {
    if ts == [] {
    } else {
      FirstText(ts[0], Print(ts[1..]));
      assert ts[0] + ['\n'] != d;
      NoDividerPrinted(ts[1..], d);
    }
  }

  lemma TextReported(t: string)
    requires t == [] || !IsSpace(t[|t| - 1])
    ensures Reported([t + ['\n']]) == if t == [] then [] else [t]
  {
    ReportedOne(t + ['\n']);
    RStripNewline(t);
    assert t != [] ==> (t + ['\n'])[0] == t[0] && |t + ['\n']| > 1;
  }

  lemma {:induction false} PrintIsReported(ts: seq<string>, d: Line)
    requires Tidy(ts, d)
    ensures Reported(Lines(Print(ts))) == Visible(ts)
  {
    if ts == [] {
    } else {
      FirstText(ts[0], Print(ts[1..]));
      ReportedConcat([ts[0] + ['\n']], Lines(Print(ts[1..])));
      TextReported(ts[0]);
      PrintIsReported(ts[1..], d);
    }
  }

  lemma PrintContainsNoDivider(ts: seq<string>, d: Line)
    requires Tidy(ts, d) && IsDivider(d)
    ensures !ContainsDivider(Print(ts), d)
  {
    PrintEndsLine(ts);
    ThenOneLine(Print(ts), ['\n']);
    NoDividerPrinted(ts, d);
  }

  lemma {:induction false} AllVisible(ts: seq<string>)
    requires forall i :: 0 <= i < |ts| ==> ts[i] != []
    ensures Visible(ts) == ts
  {
    if ts == [] {
    } else {
      AllVisible(ts[1..]);
    }
  }

  /** Texts printed in one batch come back as they are, without the empty ones, and nothing is left. */
  lemma PrintedTextsComeBack(ts: seq<string>, d: Line, alive: nat)
    requires IsDivider(d) && Tidy(ts, d) && alive >= |Lines(Print(ts) + Mark(d))|
    ensures FrameWhile(Lines(Print(ts) + Mark(d)), d, alive) == Framed(Visible(ts), [])
    ensures (forall i :: 0 <= i < |ts| ==> ts[i] != []) ==> Visible(ts) == ts
  {
    FrameWhileAlive(Lines(Print(ts) + Mark(d)), d, alive);
    PrintContainsNoDivider(ts, d);
    FramingIsExact(Print(ts), d);
    PrintIsReported(ts, d);
    if forall i :: 0 <= i < |ts| ==> ts[i] != [] {
      AllVisible(ts);
    }
  }
}
