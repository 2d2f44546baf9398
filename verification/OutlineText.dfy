/** The characters an outline is written as, and when they can be read back. */
module OutlineText {
  import opened Outline

  function Tabs(n: nat): string { seq(n, _ => '\t') }

  /** A line is its tabs, its text and a line break. */
  function Print(line: Line): string { Tabs(line.indent) + (line.text + "\r\n") }

  function Text(lines: seq<Line>): string {
    if lines == [] then "" else Print(lines[0]) + Text(lines[1..])
  }

  lemma Assoc(a: string, b: string, c: string)
    ensures a + (b + c) == a + b + c
  {
  }

  lemma {:induction false} TextAppend(a: seq<Line>, b: seq<Line>)
    ensures Text(a + b) == Text(a) + Text(b)
  {
    if a == [] {
      assert a + b == b;
    } else {
      TextAppend(a[1..], b);
      assert (a + b)[1..] == a[1..] + b;
      Assoc(Print(a[0]), Text(a[1..]), Text(b));
    }
  }

  /** The characters after the lines are written at the end of `base`, one by one. */
  function WriteLines(base: string, lines: seq<Line>): string
    decreases |lines|
  {
    if lines == [] then base else WriteLines(base + Print(lines[0]), lines[1..])
  }

  lemma {:induction false} WriteAppend(base: string, a: seq<Line>, b: seq<Line>)
    ensures WriteLines(base, a + b) == WriteLines(WriteLines(base, a), b)
    decreases |a|
  {
    if a == [] {
      assert a + b == b;
    } else {
      assert (a + b)[1..] == a[1..] + b;
      WriteAppend(base + Print(a[0]), a[1..], b);
    }
  }

  lemma {:induction false} WriteIsText(base: string, lines: seq<Line>)
    ensures WriteLines(base, lines) == base + Text(lines)
    decreases |lines|
  {
    if lines == [] {
      assert base + "" == base;
    } else {
      WriteIsText(base + Print(lines[0]), lines[1..]);
      Assoc(base, Print(lines[0]), Text(lines[1..]));
    }
  }

  // ---------- Reading lines ----------

  function LeadingTabs(s: string): (n: nat)
    ensures n <= |s|
  {
    if s != "" && s[0] == '\t' then 1 + LeadingTabs(s[1..]) else 0
  }

  /** Where the first line break is, or the length when there is none. */
  function BreakAt(s: string): (n: nat)
    ensures n <= |s|
  {
    if |s| < 2 then |s| else if s[0] == '\r' && s[1] == '\n' then 0 else 1 + BreakAt(s[1..])
  }

  /** The tabs, everything up to the line break, and what follows it. */
  function FirstLine(s: string): (r: (Line, string))
    requires s != ""
    ensures |r.1| < |s|
  {
    var k := LeadingTabs(s);
    var n := k + BreakAt(s[k..]);
    (Line(k, s[k..n]), if n + 2 <= |s| then s[n + 2..] else "")
  }

  function Split(s: string): seq<Line>
    decreases |s|
  {
    if s == "" then [] else [FirstLine(s).0] + Split(FirstLine(s).1)
  }

  /** The text holds no line break and does not start with a tab. */
  predicate IsOneLine(t: string) {
    && (t != "" ==> t[0] != '\t')
    && forall i :: 0 <= i < |t| - 1 ==> !(t[i] == '\r' && t[i + 1] == '\n')
  }

  lemma {:induction false} TabsLead(n: nat, s: string)
    ensures LeadingTabs(Tabs(n) + s) == n + LeadingTabs(s)
  {
    if n == 0 {
      assert Tabs(0) + s == s;
    } else {
      assert (Tabs(n) + s)[1..] == Tabs(n - 1) + s;
      TabsLead(n - 1, s);
    }
  }

  /** The break printed after a text is the first one just when the text holds none. */
  lemma {:induction false} BreakAfter(t: string, rest: string)
    ensures BreakAt(t + "\r\n" + rest) <= |t|
    ensures BreakAt(t + "\r\n" + rest) == |t|
            <==> forall i :: 0 <= i < |t| - 1 ==> !(t[i] == '\r' && t[i + 1] == '\n')
  {
    var s := t + "\r\n" + rest;
    if t != "" {
      assert s[1..] == t[1..] + "\r\n" + rest;
      BreakAfter(t[1..], rest);
      if |t| > 1 && !(t[0] == '\r' && t[1] == '\n') {
        assert forall i :: 0 < i < |t| - 1 ==> t[i] == t[1..][i - 1] && t[i + 1] == t[1..][i];
      }
    }
  }

  /** Where the text of a printed line begins. */
  lemma SplitAfterTabs(line: Line, rest: string)
    ensures var t := line.text + "\r\n" + rest;
            var s := Print(line) + rest;
            && LeadingTabs(s) == line.indent + LeadingTabs(t)
            && |s| == line.indent + |t| && s[line.indent..] == t
  {
    var t := line.text + "\r\n" + rest;
    assert Print(line) + rest == Tabs(line.indent) + t;
    TabsLead(line.indent, t);
  }

  /** The parts of what follows the tabs. */
  lemma Parts(s: string, k: nat, text: string, rest: string)
    requires k <= |s| && s[k..] == text + "\r\n" + rest
    ensures |s| == k + |text| + 2 + |rest|
    ensures s[k..k + |text|] == text && s[k + |text| + 2..] == rest
  {
    var t := text + "\r\n" + rest;
    assert s[k..k + |text|] == t[..|text|];
    assert s[k + |text| + 2..] == t[|text| + 2..];
  }

  lemma NoTab(text: string, rest: string)
    requires IsOneLine(text)
    ensures LeadingTabs(text + "\r\n" + rest) == 0
  {
    assert (text + "\r\n" + rest)[0] == if text == "" then '\r' else text[0];
  }

  lemma OneLineFirst(line: Line, rest: string)
    requires IsOneLine(line.text)
    ensures FirstLine(Print(line) + rest) == (line, rest)
  {
    var s, k := Print(line) + rest, line.indent;
    var n := k + |line.text|;
    assert k == LeadingTabs(s) && n == k + BreakAt(s[k..]) by {
      SplitAfterTabs(line, rest);
      NoTab(line.text, rest);
      BreakAfter(line.text, rest);
    }
    assert n + 2 <= |s| && s[k..n] == line.text && s[n + 2..] == rest by {
      SplitAfterTabs(line, rest);
      Parts(s, k, line.text, rest);
    }
  }

  lemma NotOneLineFirst(line: Line, rest: string)
    requires !IsOneLine(line.text)
    ensures FirstLine(Print(line) + rest).0 != line
  {
    var t := line.text + "\r\n" + rest;
    SplitAfterTabs(line, rest);
    BreakAfter(line.text, rest);
    if line.text[0] == '\t' {
      assert LeadingTabs(t) > 0;
    }
  }

  /** The characters give the lines back exactly when the text of each is one line. */
  lemma {:induction false} SplitText(lines: seq<Line>)
    ensures Split(Text(lines)) == lines <==> forall i :: 0 <= i < |lines| ==> IsOneLine(lines[i].text)
  {
    if lines != [] {
      SplitText(lines[1..]);
      if IsOneLine(lines[0].text) {
        OneLineFirst(lines[0], Text(lines[1..]));
        SameHead(lines[0], Split(Text(lines[1..])), lines);
      } else {
        NotOneLineFirst(lines[0], Text(lines[1..]));
      }
    }
  }

  lemma SameHead(head: Line, rest: seq<Line>, lines: seq<Line>)
    requires lines != [] && lines[0] == head
    ensures [head] + rest == lines <==> rest == lines[1..]
  {
    assert ([head] + rest)[1..] == rest;
  }

  /** The forest can be read back from its characters exactly when every line can. */
  lemma ForestReadsBack(f: Forest, d: nat)
    ensures var lines := Render(f, d);
            Parse(Split(Text(lines)), d) == (f, []) <==>
            forall i :: 0 <= i < |lines| ==> IsOneLine(lines[i].text)
  {
    var lines := Render(f, d);
    SplitText(lines);
    ReadBack(f, d);
    RenderParse(Split(Text(lines)), d);
  }
}
