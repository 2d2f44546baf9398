/** The type dumper of test.cpp: a set of visited pairs, a stack of symbol details and
    an output buffer changed in place. It writes the outline of the tree of DumpTree. */
module Dumper {
  import opened Outline
  import opened OutlineText
  import opened DumpTree

  datatype SymbolDetail = SymbolDetail(info: Info, logged: bool)

  const NEW_DETAIL := SymbolDetail(BLANK, false)

  /** The stack entry of an entry being filled in: it is logged once its line is written. */
  function Entry(node: Node): SymbolDetail {
    SymbolDetail(node.info, node.shown.Shown?)
  }

  /** The stack after PrintSymbolDetail, and the line it writes. */
  function Printed(stack: seq<SymbolDetail>): seq<SymbolDetail> {
    if stack == [] || stack[|stack| - 1].logged || stack[|stack| - 1].info.IsEmpty() then stack
    else stack[|stack| - 1 := stack[|stack| - 1].(logged := true)]
  }

  function Pending(stack: seq<SymbolDetail>): seq<Line> {
    if stack == [] || stack[|stack| - 1].logged || stack[|stack| - 1].info.IsEmpty() then []
    else [Line(|stack|, stack[|stack| - 1].info.ToText())]
  }

  ghost predicate AllLogged(stack: seq<SymbolDetail>) {
    forall i :: 0 <= i < |stack| ==> stack[i].logged
  }

  /** Printing the top entry is freezing it. */
  lemma PrintFreezes(below: seq<SymbolDetail>, node: Node, base: string)
    ensures var stack := below + [Entry(node)];
            var d := |below| + 1;
            && Printed(stack) == below + [Entry(node.Freeze())]
            && WriteLines(WriteLines(base, node.Lines(d)), Pending(stack)) == WriteLines(base, node.Freeze().Lines(d))
            && WriteLines(WriteLines(base, node.Lines(d)), Pending(stack)) == WriteLines(base, Render(node.Close(), d))
  {
    var stack, d := below + [Entry(node)], |below| + 1;
    FreezeLines(below, node);
    WriteAppend(base, node.Lines(d), Pending(stack));
  }

  lemma FreezeLines(below: seq<SymbolDetail>, node: Node)
    ensures var d := |below| + 1;
            node.Lines(d) + Pending(below + [Entry(node)]) == node.Freeze().Lines(d) == Render(node.Close(), d)
  {
    assert Render(Nil, |below| + 1) == [];
  }

  /** The lines of a parent grow by those of a finished child. */
  lemma ChildLines(parent: Node, child: Node, d: nat)
    requires parent.shown.Shown? || !parent.info.IsEmpty()
    ensures parent.Freeze().Lines(d) + Render(child.Close(), d + 1) == AddChild(parent, child).Lines(d)
  {
    RenderAppend(parent.Freeze().shown.kids, child.Close(), d + 1);
  }

  /** The stack and the buffer after a finished child is popped. */
  lemma ChildClosed(below: seq<SymbolDetail>, parent: Node, base: string, child: Node, start: string)
    requires parent.shown.Shown? || !parent.info.IsEmpty()
    requires start == WriteLines(base, parent.Freeze().Lines(|below| + 1))
    ensures var stack := below + [Entry(parent.Freeze())] + [Entry(child)];
            && Printed(stack)[..|stack| - 1] == below + [Entry(AddChild(parent, child))]
            && WriteLines(WriteLines(start, child.Lines(|below| + 2)), Pending(stack))
               == WriteLines(base, AddChild(parent, child).Lines(|below| + 1))
  {
    PrintFreezes(below + [Entry(parent.Freeze())], child, start);
    ChildLines(parent, child, |below| + 1);
    WriteAppend(base, parent.Freeze().Lines(|below| + 1), Render(child.Close(), |below| + 2));
  }

  lemma ReportStep(dbg: Debugger, syms: seq<Symbol>, i: nat)
    requires i < |syms|
    ensures var trees := SymbolTrees(dbg, syms);
            Text(RenderAll(trees[i..], 1))
            == Text(Render(SymbolTree(dbg, {}, syms[i]), 1)) + Text(RenderAll(trees[i + 1..], 1))
  {
    var trees := SymbolTrees(dbg, syms);
    assert trees[i..][0] == trees[i] && trees[i..][1..] == trees[i + 1..];
    TextAppend(Render(trees[i], 1), RenderAll(trees[i + 1..], 1));
  }

  class WheatyExceptionReport {
    const dbg: Debugger
    var symbols: set<Pair>
    var symbolDetails: seq<SymbolDetail>
    var buffer: string        // szBuffer
    var file: string          // the report file
    ghost var calls: nat      // calls of DumpTypeIndex so far

    constructor (dbg: Debugger)
      ensures this.dbg == dbg && symbolDetails == [] && file == ""
    {
      this.dbg := dbg;
      symbols, symbolDetails, buffer, file, calls := {}, [], "", "", 0;
    }

    /** The stack is `below`, all logged, and the entry being filled in, whose lines end
        the buffer. */
    ghost predicate At(below: seq<SymbolDetail>, node: Node, base: string)
      reads this
    {
      && AllLogged(below)
      && symbolDetails == below + [Entry(node)] && buffer == WriteLines(base, node.Lines(|below| + 1))
    }

    method StoreSymbol(ty: TypeId, offset: Address) returns (isNew: bool)
      modifies this`symbols
      ensures isNew == (Pair(ty, offset) !in old(symbols))
      ensures symbols == old(symbols) + {Pair(ty, offset)}
    {
      isNew := Pair(ty, offset) !in symbols;
      symbols := symbols + {Pair(ty, offset)};
    }

    method ClearSymbols()
      modifies this`symbols, this`symbolDetails
      ensures symbols == {} && symbolDetails == []
    {
      symbols := {};
      while symbolDetails != []
        invariant symbols == {}
        decreases |symbolDetails|
      {
        symbolDetails := symbolDetails[..|symbolDetails| - 1];
      }
    }

    /** The top entry is written when it is not logged and has a value or children: a tab for
        each entry of the stack, its text, and a line break. */
    method PrintSymbolDetail()
      modifies this`symbolDetails, this`buffer
      ensures var s, n := old(symbolDetails), |old(symbolDetails)|;
              if n > 0 && !s[n - 1].logged && (s[n - 1].info.value != "" || s[n - 1].info.hasChildren)
              then buffer == old(buffer) + seq(n, _ => '\t') + s[n - 1].info.ToText() + "\r\n"
                   && symbolDetails == s[..n - 1] + [s[n - 1].(logged := true)]
              else buffer == old(buffer) && symbolDetails == s
      ensures symbolDetails == Printed(old(symbolDetails))
      ensures buffer == WriteLines(old(buffer), Pending(old(symbolDetails)))
    {
      if symbolDetails == [] {
        return;
      }
      var n := |symbolDetails|;
      if symbolDetails[n - 1].logged || symbolDetails[n - 1].info.IsEmpty() {
        return;
      }
      for i := 0 to n
        invariant symbolDetails == old(symbolDetails)
        invariant buffer == old(buffer) + Tabs(i)
      {
        assert Tabs(i) + "\t" == Tabs(i + 1);
        Assoc(old(buffer), Tabs(i), "\t");
        buffer := buffer + "\t";
      }
      var text := symbolDetails[n - 1].info.ToText();
      symbolDetails := symbolDetails[n - 1 := symbolDetails[n - 1].(logged := true)];
      Assoc(old(buffer), Tabs(n), text + "\r\n");
      buffer := buffer + (text + "\r\n");
    }

    method PushSymbolDetail()
      modifies this`symbolDetails, this`buffer
      ensures symbolDetails == Printed(old(symbolDetails)) + [NEW_DETAIL]
      ensures buffer == WriteLines(old(buffer), Pending(old(symbolDetails)))
    {
      PrintSymbolDetail();
      symbolDetails := symbolDetails + [NEW_DETAIL];
    }

    method PopSymbolDetail()
      requires symbolDetails != []
      modifies this`symbolDetails, this`buffer
      ensures symbolDetails == old(symbolDetails)[..|old(symbolDetails)| - 1]
      ensures buffer == WriteLines(old(buffer), Pending(old(symbolDetails)))
    {
      PrintSymbolDetail();
      symbolDetails := symbolDetails[..|symbolDetails| - 1];
    }

    /** The fields of symbolDetails.top() */
    function Top(): Info
      requires symbolDetails != []
      reads this
    {
      symbolDetails[|symbolDetails| - 1].info
    }

    method SetTop(i: Info, ghost below: seq<SymbolDetail>, ghost node: Node, ghost base: string)
      requires At(below, node, base)
      modifies this`symbolDetails
      ensures At(below, node.(info := i), base)
    {
      symbolDetails := symbolDetails[|symbolDetails| - 1 := symbolDetails[|symbolDetails| - 1].(info := i)];
    }

    method SetName(name: string, ghost below: seq<SymbolDetail>, ghost node: Node, ghost base: string)
      requires At(below, node, base)
      modifies this`symbolDetails
      ensures At(below, Renamed(node, name), base)
    {
      if name != "" {
        SetTop(Top().(name := name), below, node, base);
      }
    }

    method SetDefaultType(s: string, ghost below: seq<SymbolDetail>, ghost node: Node, ghost base: string)
      requires At(below, node, base)
      modifies this`symbolDetails
      ensures At(below, node.(info := node.info.DefaultType(s)), base)
    {
      if Top().typeName == "" {
        SetTop(Top().(typeName := s), below, node, base);
      }
    }

    method SetValue(s: string, ghost below: seq<SymbolDetail>, ghost node: Node, ghost base: string)
      requires At(below, node, base)
      modifies this`symbolDetails
      ensures At(below, node.(info := node.info.(value := s)), base)
    {
      SetTop(Top().(value := s), below, node, base);
    }

    /** Fills in the top entry, or a new one pushed first. Whatever the types look like,
        it stops, leaves one entry above `below`, and writes the lines of the tree. */
    method DumpTypeIndex(ty: TypeId, nest: nat, offset: Address, name: string, newSymbol: bool, logChildren: bool,
                         ghost below: seq<SymbolDetail>, ghost node: Node, ghost base: string) returns (handled: bool)
      requires newSymbol ==> AllLogged(below) && below == Printed(symbolDetails) && node == FRESH
      requires newSymbol ==> base == WriteLines(buffer, Pending(symbolDetails))
      requires !newSymbol ==> At(below, node, base)
      modifies this`symbols, this`symbolDetails, this`buffer, this`calls
      ensures var r := Dump(dbg, old(symbols), node, ty, nest, offset, name, logChildren);
              && symbols == r.visited && handled == r.handled && calls == old(calls) + r.calls
              && At(below, r.node, base)
      decreases Universe() - symbols, 0, 0
    {
      handled := false;
      calls := calls + 1;
      if newSymbol {
        PushSymbolDetail();
      }
      assert At(below, node, base);
      var typeTag := dbg.tag(ty);
      if typeTag.None? {
        return;
      }
      var isString := TakeName(ty, offset, name, below, node, base);
      if isString {
        return true;
      }
      ghost var named := Named(dbg, node, ty, name);
      var isNew := StoreSymbol(ty, offset);
      if !isNew {
        assert symbols == old(symbols);
        return typeTag.value.BaseClass?;
      }
      assert Pair(ty, offset) in Universe();
      handled := SwitchOnTag(typeTag.value, ty, nest, offset, name, logChildren, below, named, base);
    }

    /** The name of the type and the name given; a std::string is printed at once. */
    method TakeName(ty: TypeId, offset: Address, name: string,
                    ghost below: seq<SymbolDetail>, ghost node: Node, ghost base: string) returns (isString: bool)
      requires At(below, node, base)
      modifies this`symbolDetails
      ensures isString == (dbg.name(ty) == Some(STD_STRING))
      ensures At(below, if isString then StringEntry(dbg, node, offset, name) else Named(dbg, node, ty, name), base)
    {
      var typeName := dbg.name(ty);
      if typeName.Some? {
        if typeName.value == STD_STRING {
          var value := dbg.format(BT_STD_STRING, 0, offset, 0);
          SetTop(Top().(typeName := "std::string", value := value), below, node, base);
          SetName(name, below, node.(info := node.info.(typeName := "std::string", value := value)), base);
          return true;
        }
        var cut := Cut(typeName.value);
        if name != "" {
          SetTop(Top().(typeName := cut, name := name), below, node, base);
        } else {
          SetName(cut, below, node, base);
        }
      } else {
        SetName(name, below, node, base);
      }
      return false;
    }

    method SwitchOnTag(tag: Tag, ty: TypeId, nest: nat, offset: Address, name: string, logChildren: bool,
                       ghost below: seq<SymbolDetail>, ghost node: Node, ghost base: string) returns (handled: bool)
      requires (name == "" || node.info.name == name) && At(below, node, base)
      modifies this`symbols, this`symbolDetails, this`buffer, this`calls
      ensures var r := DumpBody(dbg, old(symbols), node, tag, ty, nest, offset, name, logChildren);
              && symbols == r.visited && handled == r.handled && calls == old(calls) + r.calls
              && At(below, r.node, base)
      decreases Universe() - symbols, 3, 0
    {
      handled := false;
      var inner := dbg.inner(ty);
      match tag {
      case PointerType =>
        if inner.Some? {
          handled := PointerCase(ty, inner.value, nest, offset, name, logChildren, below, node, base);
          return;
        }
      case Data =>
        if inner.Some? && dbg.tag(inner.value).Some? {
          handled := DataCase(ty, inner.value, nest, offset, name, logChildren, below, node, base);
          return;
        }
      case ArrayType =>
        if inner.Some? {
          handled := ArrayCase(ty, inner.value, nest, offset, name, below, node, base);
          return;
        }
      case Enum =>
        return;
      case _ =>
      }
      handled := Children(ty, nest, offset, logChildren, false, below, Result(symbols, node, false, 0), base);
    }

    method PointerCase(ty: TypeId, inner: TypeId, nest: nat, offset: Address, name: string, logChildren: bool,
                       ghost below: seq<SymbolDetail>, ghost node: Node, ghost base: string) returns (handled: bool)
      requires (name == "" || node.info.name == name) && At(below, node, base)
      modifies this`symbols, this`symbolDetails, this`buffer, this`calls
      ensures var r := DumpPointer(dbg, old(symbols), node, ty, inner, nest, offset, name, logChildren);
              && symbols == r.visited && handled == r.handled && calls == old(calls) + r.calls
              && At(below, r.node, base)
      decreases Universe() - symbols, 2, 0
    {
      var address, log := PointerHeader(ty, nest, offset, name, logChildren, below, node, base);
      ghost var n := PointerEntry(dbg, node, ty, offset, name);
      ghost var r := Dump(dbg, symbols, n, inner, nest + 1, address, name, log);
      handled := DumpTypeIndex(inner, nest + 1, address, name, false, log, below, n, base);
      PointerUnfolds(dbg, old(symbols), node, ty, inner, nest, offset, name, logChildren);
      handled := PointerEnd(handled, ty, inner, nest, offset, address, log, below, r, base);
    }

    /** What follows once the target is dumped. */
    method PointerEnd(handled0: bool, ty: TypeId, inner: TypeId, nest: nat, offset: Address, address: Address, log: bool,
                      ghost below: seq<SymbolDetail>, ghost r0: Result, ghost base: string) returns (handled: bool)
      requires At(below, r0.node, base) && symbols == r0.visited && handled0 == r0.handled
      modifies this`symbols, this`symbolDetails, this`buffer, this`calls
      ensures var r := PointerRest(dbg, r0, ty, inner, nest, offset, address, log);
              && symbols == r.visited && handled == r.handled && calls + r0.calls == old(calls) + r.calls
              && At(below, r.node, base)
      decreases Universe() - symbols, 1, 1
    {
      ghost var r := r0;
      if !handled0 {
        PointerFooter(ty, inner, address, below, r.node, base);
        return true;
      } else if address == NULL {
        SetValue("NULL", below, r.node, base);
        r := r.(node := r.node.(info := r.node.info.(value := "NULL")));
      } else if address == UNREADABLE {
        SetValue("<Unable to read memory>", below, r.node, base);
        return true;
      }
      handled := Children(ty, nest, offset, log, true, below, r, base);
    }

    /** The pointer itself, where it points to, and whether that is looked into. */
    method PointerHeader(ty: TypeId, nest: nat, offset: Address, name: string, logChildren: bool,
                         ghost below: seq<SymbolDetail>, ghost node: Node, ghost base: string)
        returns (address: Address, log: bool)
      requires (name == "" || node.info.name == name) && At(below, node, base)
      modifies this`symbolDetails
      ensures address == dbg.memory(offset)
      ensures log == (logChildren && nest < MAX_NESTING_LEVEL && address != NULL && address != UNREADABLE)
      ensures At(below, PointerEntry(dbg, node, ty, offset, name), base)
    {
      SetName(name, below, node, base);
      ghost var n := Renamed(node, name);
      var mark := if dbg.isReference(ty) then "&" else "*";
      SetTop(Top().(suffix := Top().suffix + mark), below, n, base);
      address := dbg.memory(offset);
      SetValue(dbg.format(BT_VOID, 8, offset, 0), below, n.(info := n.info.(suffix := n.info.suffix + mark)), base);
      log := logChildren;
      if nest >= MAX_NESTING_LEVEL {
        log := false;
      }
      if address == NULL || address == UNREADABLE {
        log := false;
      }
    }

    /** A pointer to something that is not a structure. */
    method PointerFooter(ty: TypeId, inner: TypeId, address: Address,
                         ghost below: seq<SymbolDetail>, ghost node: Node, ghost base: string)
      requires At(below, node, base)
      modifies this`symbolDetails
      ensures At(below, node.(info := node.info.DefaultType(dbg.baseName(dbg.basic(ty)))
                                            .(value := PointerValue(dbg, ty, inner, address))), base)
    {
      var basic := dbg.basic(ty);
      SetDefaultType(dbg.baseName(basic), below, node, base);
      ghost var n := node.(info := node.info.DefaultType(dbg.baseName(basic)));
      if address == NULL {
        SetValue("NULL", below, n, base);
      } else if address == UNREADABLE {
        SetValue("<Unable to read memory>", below, n, base);
      } else {
        SetValue(dbg.format(basic, dbg.length(inner), address, 0), below, n, base);
      }
    }

    method DataCase(ty: TypeId, inner: TypeId, nest: nat, offset: Address, name: string, logChildren: bool,
                    ghost below: seq<SymbolDetail>, ghost node: Node, ghost base: string) returns (handled: bool)
      requires (name == "" || node.info.name == name) && At(below, node, base) && dbg.tag(inner).Some?
      modifies this`symbols, this`symbolDetails, this`buffer, this`calls
      ensures var r := DumpData(dbg, old(symbols), node, ty, inner, nest, offset, name, logChildren);
              && symbols == r.visited && handled == r.handled && calls == old(calls) + r.calls
              && At(below, r.node, base)
      decreases Universe() - symbols, 2, 0
    {
      var log := logChildren;
      if dbg.tag(inner).value.UDT? && nest >= MAX_NESTING_LEVEL {
        log := false;
      }
      ghost var r := DumpInner(dbg, symbols, node, inner, nest, offset, name, log);
      handled := InnerCase(inner, nest, offset, name, log, below, node, base);
      handled := Children(ty, nest, offset, log, handled, below, r, base);
    }

    /** The switch on the tag of the inner type. */
    method InnerCase(inner: TypeId, nest: nat, offset: Address, name: string, log: bool,
                     ghost below: seq<SymbolDetail>, ghost node: Node, ghost base: string) returns (handled: bool)
      requires (name == "" || node.info.name == name) && At(below, node, base) && dbg.tag(inner).Some?
      modifies this`symbols, this`symbolDetails, this`buffer, this`calls
      ensures var r := DumpInner(dbg, old(symbols), node, inner, nest, offset, name, log);
              && symbols == r.visited && handled == r.handled && calls == old(calls) + r.calls
              && At(below, r.node, base)
      decreases Universe() - symbols, 1, 0
    {
      handled := false;
      match dbg.tag(inner).value {
      case UDT =>
        handled := DumpTypeIndex(inner, nest + 1, offset, Top().name, false, log, below, node, base);
      case PointerType =>
        SetName(name, below, node, base);
        handled := DumpTypeIndex(inner, nest + 1, offset, Top().name, false, log, below, Renamed(node, name), base);
      case ArrayType =>
        handled := DumpTypeIndex(inner, nest + 1, offset, Top().name, false, log, below, node, base);
      case _ =>
      }
    }

    method ArrayCase(ty: TypeId, inner: TypeId, nest: nat, offset: Address, name: string,
                     ghost below: seq<SymbolDetail>, ghost node: Node, ghost base: string) returns (handled: bool)
      requires (name == "" || node.info.name == name) && At(below, node, base)
      modifies this`symbols, this`symbolDetails, this`buffer, this`calls
      ensures var r := DumpArray(dbg, old(symbols), node, ty, inner, nest, offset, name);
              && symbols == r.visited && handled == r.handled && calls == old(calls) + r.calls
              && At(below, r.node, base)
      decreases Universe() - symbols, 2, 0
    {
      SetTop(Top().(hasChildren := true), below, node, base);
      ghost var parent := node.(info := node.info.(hasChildren := true));
      var basic := BT_NO_TYPE;
      ghost var r := Dump(dbg, symbols, parent, inner, nest + 1, offset, name, false);
      handled := DumpTypeIndex(inner, nest + 1, offset, name, false, false, below, parent, base);
      SetValue("", below, r.node, base);
      ghost var n := r.node.(info := r.node.info.(value := ""));
      var count := dbg.count(ty);
      var size := "[" + (if count.Known? then Digits(count.n) else "<unknown count>") + "]";
      SetTop(Top().(suffix := Top().suffix + size), below, n, base);
      n := n.(info := n.info.(suffix := n.info.suffix + size));
      if !handled {
        basic := dbg.basic(ty);
        SetDefaultType(dbg.baseName(basic), below, n, base);
        n := n.(info := n.info.DefaultType(dbg.baseName(basic)));
        handled := true;
      }
      ElementsCase(basic, dbg.length(inner), offset, count.n, below, n, base);
    }

    /** The switch on the basic type of the elements. */
    method ElementsCase(basic: int, length: nat, offset: Address, count: nat,
                        ghost below: seq<SymbolDetail>, ghost node: Node, ghost base: string)
      requires At(below, node, base) && node.info.hasChildren
      modifies this`symbolDetails, this`buffer
      ensures At(below, DumpElements(dbg, node, basic, length, offset, count), base)
    {
      if basic == BT_CHAR || basic == BT_STD_STRING {
        SetValue(dbg.format(basic, length, offset, count), below, node, base);
      } else {
        ElementLoop(basic, length, offset, count, below, node, base);
      }
    }

    method ElementLoop(basic: int, length: nat, offset: Address, count: nat,
                       ghost below: seq<SymbolDetail>, ghost node: Node, ghost base: string)
      requires At(below, node, base) && node.info.hasChildren
      modifies this`symbolDetails, this`buffer
      ensures At(below, Elements(dbg, node, basic, length, offset, Listed(count)), base)
    {
      var index := 0;
      while index < count && index < MAX_ARRAY_ELEMENTS_COUNT
        invariant index <= Listed(count)
        invariant At(below, Elements(dbg, node, basic, length, offset, index), base)
      {
        Element(basic, length, offset, index, below, Elements(dbg, node, basic, length, offset, index), base);
        index := index + 1;
      }
      assert index == Listed(count);
    }

    method Element(basic: int, length: nat, offset: Address, index: nat,
                   ghost below: seq<SymbolDetail>, ghost node: Node, ghost base: string)
      requires At(below, node, base) && node.info.hasChildren
      modifies this`symbolDetails, this`buffer
      ensures At(below, AddChild(node, ElementEntry(dbg, basic, length, offset, index)), base)
    {
      ghost var start := OpenChild(below, node, base);
      PushSymbolDetail();
      ghost var inside := below + [Entry(node.Freeze())];
      var mark := "[" + Digits(index) + "]";
      assert "" + mark == mark;
      SetTop(Top().(suffix := Top().suffix + mark), inside, FRESH, start);
      ghost var n := FRESH.(info := BLANK.(suffix := mark));
      SetValue(dbg.format(basic, length, Plus(offset, length * index), 0), inside, n, start);
      CloseChild(below, node, base, ElementEntry(dbg, basic, length, offset, index), start);
    }

    /** Where the lines of a child will start; the entry above it will be logged. */
    ghost method OpenChild(below: seq<SymbolDetail>, node: Node, base: string) returns (start: string)
      requires At(below, node, base) && (node.shown.Shown? || !node.info.IsEmpty())
      ensures start == WriteLines(buffer, Pending(symbolDetails)) == WriteLines(base, node.Freeze().Lines(|below| + 1))
      ensures Printed(symbolDetails) == below + [Entry(node.Freeze())]
      ensures AllLogged(below + [Entry(node.Freeze())])
    {
      PrintFreezes(below, node, base);
      start := WriteLines(buffer, Pending(symbolDetails));
    }

    /** Pops a finished child: its parent has one more subtree. */
    method CloseChild(ghost below: seq<SymbolDetail>, ghost parent: Node, ghost base: string,
                      ghost child: Node, ghost start: string)
      requires AllLogged(below) && (parent.shown.Shown? || !parent.info.IsEmpty())
      requires start == WriteLines(base, parent.Freeze().Lines(|below| + 1))
      requires At(below + [Entry(parent.Freeze())], child, start)
      modifies this`symbolDetails, this`buffer
      ensures At(below, AddChild(parent, child), base)
    {
      ChildClosed(below, parent, base, child, start);
      PopSymbolDetail();
    }

    /** The end of DumpTypeIndex: the loop over the children of the type. */
    method Children(ty: TypeId, nest: nat, offset: Address, logChildren: bool, handled0: bool,
                    ghost below: seq<SymbolDetail>, ghost r0: Result, ghost base: string) returns (handled: bool)
      requires At(below, r0.node, base) && r0.visited == symbols && r0.handled == handled0
      modifies this`symbols, this`symbolDetails, this`buffer, this`calls
      ensures var r := DumpMembers(dbg, r0, ty, nest, offset, logChildren);
              && symbols == r.visited && handled == r.handled && calls + r0.calls == old(calls) + r.calls
              && At(below, r.node, base)
      decreases Universe() - symbols, 1, 0
    {
      var ids := dbg.children(ty).GetOr([]);
      if |ids| == 0 {
        return handled0;
      }
      ghost var r := r0;
      ghost var all := Members(dbg, r, ids, nest, offset, logChildren);
      for i := 0 to |ids|
        invariant old(symbols) <= symbols == r.visited && At(below, r.node, base)
        invariant calls + r0.calls == old(calls) + r.calls
        invariant all == Members(dbg, r, ids[i..], nest, offset, logChildren)
      {
        MembersStep(dbg, r, ids, i, nest, offset, logChildren);
        if Skipped(dbg, ids[i]) {
          continue;
        }
        SetTop(Top().(hasChildren := true), below, r.node, base);
        ghost var parent := r.node.(info := r.node.info.(hasChildren := true));
        if !logChildren {
          return false;
        }
        ghost var at := Plus(offset, dbg.memberOffset(ids[i]));
        ghost var child := Dump(dbg, symbols, FRESH, ids[i], nest + 1, at, "", true);
        Member(ids[i], nest, offset, below, parent, base);
        r := WithMember(r, parent, child, MemberEntry(dbg, child, ids[i], at));
      }
      return true;
    }

    /** One round of that loop, for a child that is reported. */
    method Member(id: TypeId, nest: nat, offset: Address,
                  ghost below: seq<SymbolDetail>, ghost node: Node, ghost base: string)
      requires At(below, node, base) && node.info.hasChildren
      modifies this`symbols, this`symbolDetails, this`buffer, this`calls
      ensures var at := Plus(offset, dbg.memberOffset(id));
              var r := Dump(dbg, old(symbols), FRESH, id, nest + 1, at, "", true);
              && symbols == r.visited && calls == old(calls) + r.calls
              && At(below, AddChild(node, MemberEntry(dbg, r, id, at)), base)
      decreases Universe() - symbols, 0, 1
    {
      var basic := dbg.basic(id);
      var at := Plus(offset, dbg.memberOffset(id));
      ghost var r := Dump(dbg, symbols, FRESH, id, nest + 1, at, "", true);
      ghost var start := OpenChild(below, node, base);
      ghost var inside := below + [Entry(node.Freeze())];
      var handled := DumpTypeIndex(id, nest + 1, at, "", true, true, inside, FRESH, start);
      if !handled {
        SetDefaultType(dbg.baseName(basic), inside, r.node, start);
        ghost var n := r.node.(info := r.node.info.DefaultType(dbg.baseName(basic)));
        SetValue(dbg.format(basic, dbg.length(dbg.memberType(id)), at, 0), inside, n, start);
      }
      CloseChild(below, node, base, MemberEntry(dbg, r, id, at), start);
    }

    method OpenSymbol(sym: Symbol, ghost base: string)
      requires symbolDetails == [] && base == buffer
      modifies this`symbolDetails, this`buffer
      ensures At([], SymbolStart(sym), base)
    {
      PushSymbolDetail();
      assert At([], FRESH, base);
      if sym.isParameter {
        SetTop(Top().(prefix := "Parameter "), [], FRESH, base);
      } else if sym.isLocal {
        SetTop(Top().(prefix := "Local "), [], FRESH, base);
      }
    }

    /** A variable that is not a structure. */
    method SymbolFooter(sym: Symbol, location: Address, ghost r: Result, ghost base: string)
      requires At([], r.node, base) && !r.handled && location == sym.Location()
      modifies this`symbolDetails
      ensures At([], SymbolEntry(dbg, r, sym), base)
    {
      var basic := dbg.basic(sym.ty);
      SetDefaultType(dbg.baseName(basic), [], r.node, base);
      ghost var n := r.node.(info := r.node.info.DefaultType(dbg.baseName(basic)));
      SetName(sym.name, [], n, base);
      SetValue(dbg.format(basic, sym.size, location, 0), [], Renamed(n, sym.name), base);
    }

    method CloseSymbol(ghost node: Node, ghost base: string)
      requires At([], node, base)
      modifies this`symbolDetails, this`buffer
      ensures symbolDetails == [] && buffer == WriteLines(base, Render(node.Close(), 1))
    {
      PrintFreezes([], node, base);
      PopSymbolDetail();
    }

    /** Writes the tree of a variable, and leaves the stack as it was when it was empty. */
    method FormatSymbolValue(sym: Symbol) returns (shown: bool)
      requires symbolDetails == []
      modifies this`symbols, this`symbolDetails, this`buffer, this`calls
      ensures symbolDetails == [] && shown == sym.Reported()
      ensures Within(dbg, old(symbols), symbols, calls - old(calls), 1)
      ensures buffer == WriteLines(old(buffer), Render(SymbolTree(dbg, old(symbols), sym), 1))
    {
      if sym.isFunction {
        return false;
      }
      var location;
      if sym.regRelative {
        location := Plus(sym.frame, sym.address);
      } else if sym.inRegister {
        return false;
      } else {
        location := sym.address;
      }
      ghost var base := buffer;
      OpenSymbol(sym, base);
      ghost var r := Dump(dbg, symbols, SymbolStart(sym), sym.ty, 0, location, sym.name, true);
      var handled := DumpTypeIndex(sym.ty, 0, location, sym.name, false, true, [], SymbolStart(sym), base);
      if !handled {
        SymbolFooter(sym, location, r, base);
      }
      CloseSymbol(SymbolEntry(dbg, r, sym), base);
      return true;
    }

    /** Appends the outline of the variable's tree to the report. */
    method EnumerateSymbolsCallback(sym: Symbol)
      modifies this
      ensures file == old(file) + Text(Render(SymbolTree(dbg, {}, sym), 1))
      ensures symbolDetails == []
      ensures calls <= old(calls) + 1 + Work(dbg, symbols)
    {
      buffer := "";
      ClearSymbols();
      var shown := FormatSymbolValue(sym);
      ghost var lines := Render(SymbolTree(dbg, {}, sym), 1);
      WriteIsText("", lines);
      assert "" + Text(lines) == Text(lines) && file + "" == file;
      if shown {
        file := file + buffer;
      }
    }

    /** SymEnumSymbols calls back once per variable. */
    method EnumerateSymbols(syms: seq<Symbol>)
      modifies this
      ensures file == old(file) + Text(Report(dbg, syms))
    {
      ghost var trees, done := SymbolTrees(dbg, syms), "";
      for i := 0 to |syms|
        invariant file == old(file) + done
        invariant done + Text(RenderAll(trees[i..], 1)) == Text(Report(dbg, syms))
      {
        ghost var more := Text(Render(SymbolTree(dbg, {}, syms[i]), 1));
        ReportStep(dbg, syms, i);
        EnumerateSymbolsCallback(syms[i]);
        Assoc(done, more, Text(RenderAll(trees[i + 1..], 1)));
        Assoc(old(file), done, more);
        done := done + more;
      }
      assert done + "" == done;
    }
  }
}
