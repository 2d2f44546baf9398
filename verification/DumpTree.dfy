/** What the crash report says about one variable, as a tree of entries: the recursion
    of DumpTypeIndex over the debugger's types, without its stack and its printing. */
module DumpTree {
  import opened Outline
  import opened OutlineText

  const MAX_ARRAY_ELEMENTS_COUNT := 10
  const MAX_NESTING_LEVEL := 5
  const TYPES := 0x1_0000_0000                     // DWORD
  const ADDRESSES := 0x1_0000_0000_0000_0000       // DWORD_PTR
  const STD_STRING := "std::basic_string<char,std::char_traits<char>,std::allocator<char> >"

  const BT_NO_TYPE := 0
  const BT_VOID := 1
  const BT_CHAR := 2
  const BT_STD_STRING := 101

  type TypeId = t: int | 0 <= t < TYPES
  type Address = a: int | 0 <= a < ADDRESSES
  const NULL: Address := 0
  const UNREADABLE: Address := ADDRESSES - 1

  datatype Option<+T> = None | Some(value: T) {
    function GetOr(default: T): T {
      if Some? then value else default
    }
  }

  datatype Tag = PointerType | Data | ArrayType | BaseType | Enum | UDT | BaseClass
    | Function | Typedef | VTable | OtherTag

  datatype Kind = StaticLocal | Global | StaticMember | OtherKind

  /** An element count; when it is unknown, `n` is what the variable happens to hold. */
  datatype Count = Known(n: nat) | Unknown(n: nat)

  /** The answers of the debugger and of the memory it reads. They are arbitrary, so the
      types and the pointers may form cycles. */
  datatype Debugger = Debugger(
    tag: TypeId -> Option<Tag>,             // TI_GET_SYMTAG
    name: TypeId -> Option<string>,         // TI_GET_SYMNAME
    inner: TypeId -> Option<TypeId>,        // TI_GET_TYPEID
    isReference: TypeId -> bool,            // TI_GET_IS_REFERENCE
    count: TypeId -> Count,                 // TI_GET_COUNT
    length: TypeId -> nat,                  // TI_GET_LENGTH
    children: TypeId -> Option<seq<TypeId>>,  // TI_GET_CHILDRENCOUNT, TI_FINDCHILDREN
    memberTag: TypeId -> Tag,               // TI_GET_SYMTAG of a child
    memberKind: TypeId -> Kind,             // TI_GET_DATAKIND of a child
    memberOffset: TypeId -> nat,            // TI_GET_OFFSET of a child
    memberType: TypeId -> TypeId,           // TI_GET_TYPEID of a child
    basic: TypeId -> int,                   // GetBasicType
    baseName: int -> string,                // rgBaseType
    memory: Address -> Address,             // DereferenceUnsafePointer
    format: (int, nat, Address, nat) -> string  // FormatOutputValue
  )

  /** A pair of StoreSymbol: a type seen at an address. */
  datatype Pair = Pair(ty: TypeId, offset: Address)

  /** SymbolPair::operator<, by offset and then by type. */
  predicate Before(p: Pair, q: Pair) {
    p.offset < q.offset || (p.offset == q.offset && p.ty < q.ty)
  }

  /** The ordered set of the source tells pairs apart just as equality does. */
  lemma BeforeIsStrictTotal(p: Pair, q: Pair, r: Pair)
    ensures !Before(p, q) && !Before(q, p) <==> p == q
    ensures Before(p, q) && Before(q, r) ==> Before(p, r)
  {
  }

  ghost function Universe(): set<Pair> {
    set t: TypeId, a: Address | 0 <= t < TYPES && 0 <= a < ADDRESSES :: Pair(t, a)
  }

  /** Address arithmetic wraps around at 2^64. */
  function Plus(a: Address, k: nat): (r: Address)
    ensures 0 <= r < 0x1_0000_0000_0000_0000 && (r - a - k) % 0x1_0000_0000_0000_0000 == 0
  {
    (a + k) % ADDRESSES
  }

  /** The texts of a symbol detail, and whether it has children. */
  datatype Info = Info(
    prefix: string, typeName: string, suffix: string, name: string, value: string, hasChildren: bool)
  {
    predicate IsEmpty() { value == "" && !hasChildren }

    function ToText(): string {
      var formatted := prefix + typeName + suffix;
      var named := if name == "" then formatted
                   else if formatted == "" then name else formatted + " " + name;
      if value == "" then named else named + " = " + value
    }

    /** A type still unnamed falls back to the name of its basic type. */
    function DefaultType(s: string): Info {
      if typeName == "" then this.(typeName := s) else this
    }
  }

  const BLANK := Info("", "", "", "", "", false)

  /** What is written of an entry: nothing yet, or its line and those of its children. */
  datatype Shown = NotYet | Shown(text: string, kids: Forest)

  /** An entry being filled in. Only an entry whose line is written has children. */
  datatype Node = Node(info: Info, shown: Shown)
  {
    /** Its line is written unless that was done before or there is nothing to say. */
    function Freeze(): Node {
      if shown.Shown? || info.IsEmpty() then this else Node(info, Shown(info.ToText(), Nil))
    }

    /** The finished entry, or nothing when it stayed empty. */
    function Close(): Forest {
      match Freeze().shown
      case NotYet => Nil
      case Shown(text, kids) => Cons(text, kids, Nil)
    }

    /** The lines written so far for an entry at indentation d. */
    function Lines(d: nat): seq<Line> {
      match shown
      case NotYet => []
      case Shown(text, kids) => [Line(d, text)] + Render(kids, d + 1)
    }
  }

  const FRESH := Node(BLANK, NotYet)

  /** Adds a finished child; the entry's own line is written first. */
  function AddChild(node: Node, child: Node): Node
    requires node.shown.Shown? || !node.info.IsEmpty()
  {
    var parent := node.Freeze();
    parent.(shown := Shown(parent.shown.text, Append(parent.shown.kids, child.Close())))
  }

  /** The outcome of a step, with the calls of DumpTypeIndex it took. */
  datatype Result = Result(visited: set<Pair>, node: Node, handled: bool, calls: nat)

  function Fanout(dbg: Debugger, ty: TypeId): nat { |dbg.children(ty).GetOr([])| }

  /** The sum over a set of pairs, each counted once, of one for the pair and one for each
      child that its type lists. */
  ghost function Work(dbg: Debugger, s: set<Pair>): nat {
    if s == {} then 0 else var p :| p in s; 1 + Fanout(dbg, p.ty) + Work(dbg, s - {p})
  }

  lemma {:induction false} WorkAdd(dbg: Debugger, s: set<Pair>, p: Pair)
    requires p !in s
    ensures Work(dbg, s + {p}) == Work(dbg, s) + 1 + Fanout(dbg, p.ty)
    ensures Fanout(dbg, p.ty) == |dbg.children(p.ty).GetOr([])|
    decreases |s|
  {
    var more := s + {p};
    var q :| q in more && Work(dbg, more) == 1 + Fanout(dbg, q.ty) + Work(dbg, more - {q});
    assert Fanout(dbg, p.ty) == |dbg.children(p.ty).GetOr([])|;
    if q == p {
      assert more - {q} == s;
    } else {
      assert more - {q} == s - {q} + {p} && s - {q} + {q} == s;
      WorkAdd(dbg, s - {q}, p);
      WorkAdd(dbg, s - {q}, q);
    }
  }

  /** A step from `visited` to `now` makes at most one call for each pair it adds, one for
      each child that the types of those pairs list, and `more`. */
  ghost predicate Within(dbg: Debugger, visited: set<Pair>, now: set<Pair>, calls: int, more: nat) {
    visited <= now && calls <= Work(dbg, now) - Work(dbg, visited) + more
  }

  /** An entry that is known to have children stays so. */
  predicate Keeps(node: Node, now: Node) {
    node.info.hasChildren ==> now.info.hasChildren
  }

  // ---------- DumpTypeIndex ----------

  function Cut(s: string): string { if |s| < 200 then s else s[..199] }

  function Renamed(node: Node, name: string): Node {
    if name == "" then node else node.(info := node.info.(name := name))
  }

  function Named(dbg: Debugger, node: Node, ty: TypeId, name: string): Node {
    match dbg.name(ty)
    case None => Renamed(node, name)
    case Some(full) =>
      if name != "" then node.(info := node.info.(typeName := Cut(full), name := name))
      else Renamed(node, Cut(full))
  }

  function StringEntry(dbg: Debugger, node: Node, offset: Address, name: string): Node {
    Renamed(node.(info := node.info.(typeName := "std::string",
                                         value := dbg.format(BT_STD_STRING, 0, offset, 0))), name)
  }

  function Dump(dbg: Debugger, visited: set<Pair>, node: Node, ty: TypeId, nest: nat,
                offset: Address, name: string, logChildren: bool): (r: Result)
    ensures Within(dbg, visited, r.visited, r.calls, 1) && Keeps(node, r.node)
    decreases Universe() - visited, 0, 0
  {
    match dbg.tag(ty)
    case None => Result(visited, node, false, 1)
    case Some(tag) =>
      if dbg.name(ty) == Some(STD_STRING) then
        Result(visited, StringEntry(dbg, node, offset, name), true, 1)
      else
        var named := Named(dbg, node, ty, name);
        if Pair(ty, offset) in visited then Result(visited, named, tag.BaseClass?, 1)
        else
          assert Pair(ty, offset) in Universe();
          WorkAdd(dbg, visited, Pair(ty, offset));
          var r := DumpBody(dbg, visited + {Pair(ty, offset)}, named, tag, ty, nest, offset, name, logChildren);
          r.(calls := r.calls + 1)
  }

  /** The switch on the tag, and the loop over the children after it. */
  function DumpBody(dbg: Debugger, visited: set<Pair>, node: Node, tag: Tag, ty: TypeId, nest: nat,
                    offset: Address, name: string, logChildren: bool): (r: Result)
    ensures Within(dbg, visited, r.visited, r.calls, 1 + Fanout(dbg, ty)) && Keeps(node, r.node)
    decreases Universe() - visited, 3, 0
  {
    var inner := dbg.inner(ty);
    if tag.PointerType? && inner.Some? then
      DumpPointer(dbg, visited, node, ty, inner.value, nest, offset, name, logChildren)
    else if tag.Data? && inner.Some? && dbg.tag(inner.value).Some? then
      DumpData(dbg, visited, node, ty, inner.value, nest, offset, name, logChildren)
    else if tag.ArrayType? && inner.Some? then
      DumpArray(dbg, visited, node, ty, inner.value, nest, offset, name)
    else if tag.Enum? then
      Result(visited, node, false, 0)
    else
      DumpMembers(dbg, Result(visited, node, false, 0), ty, nest, offset, logChildren)
  }

  function PointerEntry(dbg: Debugger, node: Node, ty: TypeId, offset: Address, name: string): Node {
    var n := Renamed(node, name);
    n.(info := n.info.(suffix := n.info.suffix + (if dbg.isReference(ty) then "&" else "*"),
                           value := dbg.format(BT_VOID, 8, offset, 0)))
  }

  function PointerValue(dbg: Debugger, ty: TypeId, inner: TypeId, address: Address): string {
    if address == NULL then "NULL"
    else if address == UNREADABLE then "<Unable to read memory>"
    else dbg.format(dbg.basic(ty), dbg.length(inner), address, 0)
  }

  function DumpPointer(dbg: Debugger, visited: set<Pair>, node: Node, ty: TypeId, inner: TypeId, nest: nat,
                       offset: Address, name: string, logChildren: bool): (r: Result)
    ensures Within(dbg, visited, r.visited, r.calls, 1 + Fanout(dbg, ty)) && Keeps(node, r.node)
    decreases Universe() - visited, 2, 0
  {
    var address := dbg.memory(offset);
    var log := logChildren && nest < MAX_NESTING_LEVEL && address != NULL && address != UNREADABLE;
    var r := Dump(dbg, visited, PointerEntry(dbg, node, ty, offset, name), inner, nest + 1, address, name, log);
    PointerRest(dbg, r, ty, inner, nest, offset, address, log)
  }

  /** What is said of a pointer once its target is dumped. */
  function PointerRest(dbg: Debugger, r: Result, ty: TypeId, inner: TypeId, nest: nat,
                       offset: Address, address: Address, log: bool): (r': Result)
    ensures Within(dbg, r.visited, r'.visited, r'.calls - r.calls, Fanout(dbg, ty)) && Keeps(r.node, r'.node)
    decreases Universe() - r.visited, 1, Fanout(dbg, ty) + 2
  {
    var d := r.node.info;
    if !r.handled then
      var typed := d.DefaultType(dbg.baseName(dbg.basic(ty)));
      r.(node := r.node.(info := typed.(value := PointerValue(dbg, ty, inner, address))), handled := true)
    else if address == UNREADABLE then
      r.(node := r.node.(info := d.(value := "<Unable to read memory>")))
    else if address == NULL then
      DumpMembers(dbg, r.(node := r.node.(info := d.(value := "NULL"))), ty, nest, offset, log)
    else
      DumpMembers(dbg, r, ty, nest, offset, log)
  }

  lemma PointerUnfolds(dbg: Debugger, visited: set<Pair>, node: Node, ty: TypeId, inner: TypeId, nest: nat,
                       offset: Address, name: string, logChildren: bool)
    ensures var address := dbg.memory(offset);
            var log := logChildren && nest < MAX_NESTING_LEVEL && address != NULL && address != UNREADABLE;
            var r := Dump(dbg, visited, PointerEntry(dbg, node, ty, offset, name), inner, nest + 1, address, name, log);
            DumpPointer(dbg, visited, node, ty, inner, nest, offset, name, logChildren)
            == PointerRest(dbg, r, ty, inner, nest, offset, address, log)
  {
  }

  function DumpData(dbg: Debugger, visited: set<Pair>, node: Node, ty: TypeId, inner: TypeId, nest: nat,
                    offset: Address, name: string, logChildren: bool): (r: Result)
    requires dbg.tag(inner).Some?
    ensures Within(dbg, visited, r.visited, r.calls, 1 + Fanout(dbg, ty)) && Keeps(node, r.node)
    decreases Universe() - visited, 2, 0
  {
    var log := logChildren && (dbg.tag(inner).value.UDT? ==> nest < MAX_NESTING_LEVEL);
    DumpMembers(dbg, DumpInner(dbg, visited, node, inner, nest, offset, name, log), ty, nest, offset, log)
  }

  /** A variable of structure, pointer or array type: its type is dumped in its place. */
  function DumpInner(dbg: Debugger, visited: set<Pair>, node: Node, inner: TypeId, nest: nat,
                     offset: Address, name: string, log: bool): (r: Result)
    requires dbg.tag(inner).Some?
    ensures Within(dbg, visited, r.visited, r.calls, 1) && Keeps(node, r.node)
    decreases Universe() - visited, 1, 0
  {
    var tag := dbg.tag(inner).value;
    var n := if tag.PointerType? then Renamed(node, name) else node;
    if tag.UDT? || tag.PointerType? || tag.ArrayType?
    then Dump(dbg, visited, n, inner, nest + 1, offset, n.info.name, log)
    else Result(visited, node, false, 0)
  }

  function Digits(n: nat): string {
    (if n < 10 then "" else Digits(n / 10)) + ["0123456789"[n % 10]]
  }

  function DumpArray(dbg: Debugger, visited: set<Pair>, node: Node, ty: TypeId, inner: TypeId, nest: nat,
                     offset: Address, name: string): (r: Result)
    ensures Within(dbg, visited, r.visited, r.calls, 1 + Fanout(dbg, ty)) && Keeps(node, r.node)
    decreases Universe() - visited, 2, 0
  {
    var parent := node.(info := node.info.(hasChildren := true));
    var r := Dump(dbg, visited, parent, inner, nest + 1, offset, name, false);
    var count := dbg.count(ty);
    var size := "[" + (if count.Known? then Digits(count.n) else "<unknown count>") + "]";
    var d := r.node.info.(value := "", suffix := r.node.info.suffix + size);
    var basic := if r.handled then BT_NO_TYPE else dbg.basic(ty);
    var typed := if r.handled then d else d.DefaultType(dbg.baseName(basic));
    var n := r.node.(info := typed);
    r.(node := DumpElements(dbg, n, basic, dbg.length(inner), offset, count.n), handled := true)
  }

  /** The first elements of an array, or its text when it is one of characters. */
  function DumpElements(dbg: Debugger, node: Node, basic: int, length: nat, offset: Address, count: nat): (r: Node)
    requires node.info.hasChildren
    ensures r.info.hasChildren
  {
    if basic == BT_CHAR || basic == BT_STD_STRING
    then node.(info := node.info.(value := dbg.format(basic, length, offset, count)))
    else Elements(dbg, node, basic, length, offset, Listed(count))
  }

  /** How many elements are listed. */
  function Listed(count: nat): nat {
    if count < MAX_ARRAY_ELEMENTS_COUNT then count else MAX_ARRAY_ELEMENTS_COUNT
  }

  function ElementEntry(dbg: Debugger, basic: int, length: nat, offset: Address, index: nat): Node {
    FRESH.(info := BLANK.(suffix := "[" + Digits(index) + "]",
                            value := dbg.format(basic, length, Plus(offset, length * index), 0)))
  }

  /** The entry with its first n elements added. */
  function Elements(dbg: Debugger, node: Node, basic: int, length: nat, offset: Address, n: nat): (r: Node)
    requires node.info.hasChildren
    ensures r.info == node.info
    decreases n
  {
    if n == 0 then node
    else AddChild(Elements(dbg, node, basic, length, offset, n - 1), ElementEntry(dbg, basic, length, offset, n - 1))
  }

  function ElementTrees(dbg: Debugger, basic: int, length: nat, offset: Address, n: nat): seq<Forest> {
    seq(n, i requires 0 <= i => ElementEntry(dbg, basic, length, offset, i).Close())
  }

  /** The loop adds the trees of exactly the first n elements, in order, below what was
      there before. */
  lemma {:induction false} ElementsAreListed(dbg: Debugger, node: Node, basic: int, length: nat, offset: Address, n: nat)
    requires node.info.hasChildren && n > 0
    ensures var kids := Append(node.Freeze().shown.kids, Join(ElementTrees(dbg, basic, length, offset, n)));
            Elements(dbg, node, basic, length, offset, n) == Node(node.info, Shown(node.Freeze().shown.text, kids))
    decreases n
  {
    var before, last := ElementTrees(dbg, basic, length, offset, n - 1), ElementEntry(dbg, basic, length, offset, n - 1).Close();
    assert ElementTrees(dbg, basic, length, offset, n) == before + [last];
    JoinOne(before, last);
    if n > 1 {
      ElementsAreListed(dbg, node, basic, length, offset, n - 1);
      AppendAssoc(node.Freeze().shown.kids, Join(before), last);
    }
  }

  /** An element is one entry with its index and its value, unless its value is empty. */
  lemma ElementIsOneEntry(dbg: Debugger, basic: int, length: nat, offset: Address, index: nat)
    ensures var value := dbg.format(basic, length, Plus(offset, length * index), 0);
            ElementEntry(dbg, basic, length, offset, index).Close()
            == if value == "" then Nil else Cons("[" + Digits(index) + "]" + " = " + value, Nil, Nil)
  {
    assert "" + "" == "" && "" + ("[" + Digits(index) + "]") == "[" + Digits(index) + "]";
  }

  /** The loop over the children, when there are any and they can be listed. */
  function DumpMembers(dbg: Debugger, r0: Result, ty: TypeId, nest: nat, offset: Address, logChildren: bool): (r: Result)
    ensures Within(dbg, r0.visited, r.visited, r.calls - r0.calls, Fanout(dbg, ty))
    ensures Keeps(r0.node, r.node)
    decreases Universe() - r0.visited, 1, Fanout(dbg, ty) + 1
  {
    var ids := dbg.children(ty).GetOr([]);
    if ids == [] then r0
    else Members(dbg, r0, ids, nest, offset, logChildren)
  }

  /** Functions, nested types and static fields are passed over. */
  predicate Skipped(dbg: Debugger, id: TypeId) {
    || dbg.memberTag(id).Function? || dbg.memberTag(id).Enum?
    || dbg.memberTag(id).Typedef? || dbg.memberTag(id).VTable?
    || !dbg.memberKind(id).OtherKind?
  }

  function Members(dbg: Debugger, r0: Result, ids: seq<TypeId>, nest: nat,
                   offset: Address, logChildren: bool): (r: Result)
    ensures Within(dbg, r0.visited, r.visited, r.calls - r0.calls, |ids|)
    ensures Keeps(r0.node, r.node)
    decreases Universe() - r0.visited, 1, |ids|
  {
    if ids == [] then r0.(handled := true)
    else if Skipped(dbg, ids[0]) then Members(dbg, r0, ids[1..], nest, offset, logChildren)
    else
      var parent := r0.node.(info := r0.node.info.(hasChildren := true));
      if !logChildren then r0.(node := parent, handled := false)
      else
        var at := Plus(offset, dbg.memberOffset(ids[0]));
        var r := Dump(dbg, r0.visited, FRESH, ids[0], nest + 1, at, "", true);
        Members(dbg, WithMember(r0, parent, r, MemberEntry(dbg, r, ids[0], at)), ids[1..], nest, offset, logChildren)
  }

  /** One round of the loop, for the i-th child. */
  lemma MembersStep(dbg: Debugger, r0: Result, ids: seq<TypeId>, i: nat, nest: nat, offset: Address, logChildren: bool)
    requires i < |ids|
    ensures var id, rest := ids[i], ids[i + 1..];
            var parent := r0.node.(info := r0.node.info.(hasChildren := true));
            var at := Plus(offset, dbg.memberOffset(id));
            Members(dbg, r0, ids[i..], nest, offset, logChildren)
            == if Skipped(dbg, id) then Members(dbg, r0, rest, nest, offset, logChildren)
               else if !logChildren then r0.(node := parent, handled := false)
               else
                 var r := Dump(dbg, r0.visited, FRESH, id, nest + 1, at, "", true);
                 Members(dbg, WithMember(r0, parent, r, MemberEntry(dbg, r, id, at)), rest, nest, offset, logChildren)
  {
    assert ids[i..][0] == ids[i] && ids[i..][1..] == ids[i + 1..];
  }

  /** The loop's state after the child found by r. */
  function WithMember(r0: Result, parent: Node, r: Result, child: Node): Result
    requires parent.info.hasChildren
  {
    Result(r.visited, AddChild(parent, child), r0.handled, r0.calls + r.calls)
  }

  /** A member that is not a structure gets its type and its value. */
  function MemberEntry(dbg: Debugger, r: Result, id: TypeId, at: Address): Node {
    if r.handled then r.node
    else
      var typed := r.node.info.DefaultType(dbg.baseName(dbg.basic(id)));
      r.node.(info := typed.(value := dbg.format(dbg.basic(id), dbg.length(dbg.memberType(id)), at, 0)))
  }

  // ---------- FormatSymbolValue ----------

  /** A variable found by SymEnumSymbols; `frame` is the address of its stack frame. */
  datatype Symbol = Symbol(
    isFunction: bool, regRelative: bool, inRegister: bool, isParameter: bool, isLocal: bool,
    address: Address, frame: Address, ty: TypeId, name: string, size: nat)
  {
    /** Functions and register variables are not reported. */
    predicate Reported() { !isFunction && (regRelative || !inRegister) }

    function Location(): Address { if regRelative then Plus(frame, address) else address }
  }

  function SymbolStart(sym: Symbol): Node {
    FRESH.(info := BLANK.(prefix := if sym.isParameter then "Parameter "
                                      else if sym.isLocal then "Local " else ""))
  }

  function SymbolEntry(dbg: Debugger, r: Result, sym: Symbol): Node {
    if r.handled then r.node
    else
      var n := Renamed(r.node.(info := r.node.info.DefaultType(dbg.baseName(dbg.basic(sym.ty)))), sym.name);
      n.(info := n.info.(value := dbg.format(dbg.basic(sym.ty), sym.size, sym.Location(), 0)))
  }

  /** However the types and the pointers are tangled, DumpTypeIndex is called at most once
      per pair it expands, once per child the types of those pairs list, and once more. */
  function DumpSymbol(dbg: Debugger, visited: set<Pair>, sym: Symbol): (r: Result)
    ensures Within(dbg, visited, r.visited, r.calls, 1)
  {
    var r := Dump(dbg, visited, SymbolStart(sym), sym.ty, 0, sym.Location(), sym.name, true);
    r.(node := SymbolEntry(dbg, r, sym))
  }

  /** The tree of a variable: one entry, or none when there is nothing to say. */
  function SymbolTree(dbg: Debugger, visited: set<Pair>, sym: Symbol): Forest {
    if sym.Reported() then DumpSymbol(dbg, visited, sym).node.Close() else Nil
  }

  // ---------- The report on the variables of a frame ----------

  function SymbolTrees(dbg: Debugger, syms: seq<Symbol>): seq<Forest> {
    seq(|syms|, i requires 0 <= i < |syms| => SymbolTree(dbg, {}, syms[i]))
  }

  /** What EnumerateSymbolsCallback writes for one variable after the other. */
  function Report(dbg: Debugger, syms: seq<Symbol>): seq<Line> {
    RenderAll(SymbolTrees(dbg, syms), 1)
  }

  /** Whatever the debugger answers, the lines of the report on a frame are an outline at one
      tab, and their indentation alone gives back the tree of every variable in order. So do
      the characters of the file exactly when every text is one line. */
  lemma ReportIsOutline(dbg: Debugger, syms: seq<Symbol>)
    ensures var lines, f := Report(dbg, syms), Join(SymbolTrees(dbg, syms));
            && IsOutline(lines, 1) && Parse(lines, 1) == (f, [])
            && (Parse(Split(Text(lines)), 1) == (f, []) <==>
                forall i :: 0 <= i < |lines| ==> IsOneLine(lines[i].text))
  {
    RenderJoin(SymbolTrees(dbg, syms), 1);
    ReadBack(Join(SymbolTrees(dbg, syms)), 1);
    ForestReadsBack(Join(SymbolTrees(dbg, syms)), 1);
  }
}
