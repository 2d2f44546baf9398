/** Indented outlines: the lines a forest of entries is printed as, and how the
    indentation alone gives the forest back. */
module Outline {
  /** A list of entries, each with the list of its children. */
  datatype Forest = Nil | Cons(text: string, kids: Forest, rest: Forest)

  datatype Line = Line(indent: nat, text: string)

  /** The entries in pre-order, children one tab deeper than their parent. */
  function Render(f: Forest, d: nat): seq<Line> {
    match f
    case Nil => []
    case Cons(text, kids, rest) => [Line(d, text)] + Render(kids, d + 1) + Render(rest, d)
  }

  function Append(f: Forest, g: Forest): Forest {
    match f
    case Nil => g
    case Cons(text, kids, rest) => Cons(text, kids, Append(rest, g))
  }

  lemma {:induction false} AppendAssoc(f: Forest, g: Forest, h: Forest)
    ensures Append(Append(f, g), h) == Append(f, Append(g, h))
  {
    if f.Cons? {
      AppendAssoc(f.rest, g, h);
    }
  }

  lemma {:induction false} AppendNil(f: Forest)
    ensures Append(f, Nil) == f
  {
    if f.Cons? {
      AppendNil(f.rest);
    }
  }

  lemma {:induction false} RenderAppend(f: Forest, g: Forest, d: nat)
    ensures Render(Append(f, g), d) == Render(f, d) + Render(g, d)
  {
    if f.Cons? {
      RenderAppend(f.rest, g, d);
    }
  }

  /** The indentation never grows by more than one from a line to the next. */
  ghost predicate Gradual(lines: seq<Line>) {
    forall i :: 0 < i < |lines| ==> lines[i].indent <= lines[i - 1].indent + 1
  }

  /** An outline: it starts at indentation d, never goes below it, and is gradual. */
  ghost predicate IsOutline(lines: seq<Line>, d: nat) {
    && (lines != [] ==> lines[0].indent == d)
    && (forall i :: 0 <= i < |lines| ==> lines[i].indent >= d)
    && Gradual(lines)
  }

  lemma {:induction false} RenderIsOutline(f: Forest, d: nat)
    ensures IsOutline(Render(f, d), d)
  {
    if f.Cons? {
      RenderIsOutline(f.kids, d + 1);
      RenderIsOutline(f.rest, d);
      var head, kids, rest := [Line(d, f.text)], Render(f.kids, d + 1), Render(f.rest, d);
      assert IsOutline(head + kids, d);
      OutlineConcat(head + kids, rest, d);
    }
  }

  lemma OutlineConcat(a: seq<Line>, b: seq<Line>, d: nat)
    requires IsOutline(a, d) && IsOutline(b, d)
    ensures IsOutline(a + b, d)
  {
    var c := a + b;
    forall i | 0 < i < |c| ensures c[i].indent <= c[i - 1].indent + 1 {
      if i < |a| {
        assert c[i] == a[i] && c[i - 1] == a[i - 1];
      } else if i > |a| {
        assert c[i] == b[i - |a|] && c[i - 1] == b[i - |a| - 1];
      }
    }
  }

  /** Reads the entries at indentation d off the front of `lines`. */
  function Parse(lines: seq<Line>, d: nat): (r: (Forest, seq<Line>))
    ensures |r.1| <= |lines|
    decreases |lines|
  {
    if lines == [] || lines[0].indent != d then (Nil, lines)
    else
      var (kids, after) := Parse(lines[1..], d + 1);
      var (rest, tail) := Parse(after, d);
      (Cons(lines[0].text, kids, rest), tail)
  }

  /** Indentation loses nothing: reading a printed forest gives it back. */
  lemma {:induction false} ParseRender(f: Forest, d: nat, tail: seq<Line>)
    requires tail == [] || tail[0].indent < d
    ensures Parse(Render(f, d) + tail, d) == (f, tail)
  {
    if f.Cons? {
      var rest := Render(f.rest, d) + tail;
      var lines := Render(f, d) + tail;
      assert lines[1..] == Render(f.kids, d + 1) + rest;
      ParseRender(f.rest, d, tail);
      RenderIsOutline(f.rest, d);
      ParseRender(f.kids, d + 1, rest);
    } else {
      assert Render(f, d) + tail == tail;
    }
  }

  lemma GradualTail(lines: seq<Line>)
    requires Gradual(lines) && lines != []
    ensures Gradual(lines[1..])
    ensures |lines| > 1 ==> lines[1].indent <= lines[0].indent + 1
  {
  }

  /** What is read prints as what was read. */
  lemma {:induction false} RenderParse(lines: seq<Line>, d: nat)
    ensures lines == Render(Parse(lines, d).0, d) + Parse(lines, d).1
    decreases |lines|
  {
    if lines != [] && lines[0].indent == d {
      var (kids, after) := Parse(lines[1..], d + 1);
      var (rest, tail) := Parse(after, d);
      RenderParse(lines[1..], d + 1);
      RenderParse(after, d);
      assert lines == [lines[0]] + lines[1..];
      Regroup([lines[0]], Render(kids, d + 1), Render(rest, d), tail);
    }
  }

  lemma Regroup(a: seq<Line>, b: seq<Line>, c: seq<Line>, d: seq<Line>)
    ensures a + (b + (c + d)) == a + b + c + d
  {
  }

  /** Reading gradual lines stops at the end or at a smaller indentation only. */
  lemma {:induction false} ParseStops(lines: seq<Line>, d: nat)
    requires Gradual(lines) && (lines != [] ==> lines[0].indent <= d)
    ensures var tail := Parse(lines, d).1;
            Gradual(tail) && (tail != [] ==> tail[0].indent < d)
    decreases |lines|
  {
    if lines != [] && lines[0].indent == d {
      GradualTail(lines);
      ParseStops(lines[1..], d + 1);
      ParseStops(Parse(lines[1..], d + 1).1, d);
    }
  }

  /** The outlines are exactly the printed forests. */
  lemma OutlineIsRendering(lines: seq<Line>, d: nat)
    ensures IsOutline(lines, d) <==> exists f :: Render(f, d) == lines
  {
    if IsOutline(lines, d) {
      var (f, tail) := Parse(lines, d);
      RenderParse(lines, d);
      assert tail != [] ==> lines[|Render(f, d)|] == tail[0];
      ParseStops(lines, d);
      assert Render(f, d) == lines;
    }
    if f :| Render(f, d) == lines {
      RenderIsOutline(f, d);
    }
  }

  // ---------- Several trees in a row ----------

  function Join(fs: seq<Forest>): Forest {
    if fs == [] then Nil else Append(fs[0], Join(fs[1..]))
  }

  lemma {:induction false} JoinOne(fs: seq<Forest>, last: Forest)
    ensures Join(fs + [last]) == Append(Join(fs), last)
  {
    if fs == [] {
      assert (fs + [last])[1..] == [];
      AppendNil(last);
    } else {
      assert (fs + [last])[1..] == fs[1..] + [last];
      JoinOne(fs[1..], last);
      AppendAssoc(fs[0], Join(fs[1..]), last);
    }
  }

  function RenderAll(fs: seq<Forest>, d: nat): seq<Line> {
    if fs == [] then [] else Render(fs[0], d) + RenderAll(fs[1..], d)
  }

  lemma {:induction false} RenderJoin(fs: seq<Forest>, d: nat)
    ensures RenderAll(fs, d) == Render(Join(fs), d)
  {
    if fs != [] {
      RenderJoin(fs[1..], d);
      RenderAppend(fs[0], Join(fs[1..]), d);
    }
  }

  lemma ReadBack(f: Forest, d: nat)
    ensures IsOutline(Render(f, d), d) && Parse(Render(f, d), d) == (f, [])
  {
    RenderIsOutline(f, d);
    ParseRender(f, d, []);
    assert Render(f, d) + [] == Render(f, d);
  }
}
