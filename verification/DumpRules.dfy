/** What the report shows of each kind of type, spelled out: the texts, the addresses, and
    which children appear. Each rule is about the outcome of a whole call. */
module DumpRules {
  import opened Outline
  import opened DumpTree

  const EMPTY := Node(Info("", "", "", "", "", false), NotYet)

  /** The type is expanded: it is not a std::string, and was not seen at this address. */
  predicate IsNew(dbg: Debugger, visited: set<Pair>, ty: TypeId, offset: Address) {
    && dbg.name(ty) != Some("std::basic_string<char,std::char_traits<char>,std::allocator<char> >")
    && Pair(ty, offset) !in visited
  }

  /** At most 199 characters of a type name are kept. */
  function Short(s: string): string { if |s| <= 199 then s else s[..199] }

  /** The type name goes to the type when a name is given, else to the name. */
  function WithNames(i: Info, full: Option<string>, name: string): Info {
    if name != "" then i.(name := name, typeName := if full.Some? then Short(full.value) else i.typeName)
    else i.(name := if full.Some? && full.value != "" then Short(full.value) else i.name)
  }

  function Typed(i: Info, s: string): Info { if i.typeName == "" then i.(typeName := s) else i }

  // ---------- Where the recursion ends ----------

  lemma UnknownShowsNothing(dbg: Debugger, visited: set<Pair>, node: Node, ty: TypeId, nest: nat,
                            offset: Address, name: string, log: bool)
    requires dbg.tag(ty).None?
    ensures var r := Dump(dbg, visited, node, ty, nest, offset, name, log);
            r.node == node && r.visited == visited && !r.handled
  {
  }

  lemma StringShows(dbg: Debugger, visited: set<Pair>, node: Node, ty: TypeId, nest: nat,
                    offset: Address, name: string, log: bool)
    requires dbg.tag(ty).Some?
    requires dbg.name(ty) == Some("std::basic_string<char,std::char_traits<char>,std::allocator<char> >")
    ensures var r := Dump(dbg, visited, node, ty, nest, offset, name, log);
            && r.node.shown == node.shown && r.visited == visited && r.handled
            && r.node.info == node.info.(typeName := "std::string", value := dbg.format(101, 0, offset, 0),
                                         name := if name == "" then node.info.name else name)
  {
  }

  /** A pair seen before and an enumeration only get their names; of the two only a base class
      seen before counts as done. */
  lemma NamesOnly(dbg: Debugger, visited: set<Pair>, node: Node, ty: TypeId, nest: nat,
                  offset: Address, name: string, log: bool)
    requires dbg.tag(ty).Some?
    requires dbg.name(ty) != Some("std::basic_string<char,std::char_traits<char>,std::allocator<char> >")
    requires Pair(ty, offset) in visited || dbg.tag(ty) == Some(Enum)
    ensures var r := Dump(dbg, visited, node, ty, nest, offset, name, log);
            && r.node == Node(WithNames(node.info, dbg.name(ty), name), node.shown)
            && r.visited == visited + {Pair(ty, offset)}
            && (r.handled <==> Pair(ty, offset) in visited && dbg.tag(ty) == Some(BaseClass))
  {
    assert Pair(ty, offset) in visited ==> visited + {Pair(ty, offset)} == visited;
  }

  // ---------- Children ----------

  /** Functions, enumerations, type definitions, tables and static variables are passed over. */
  predicate PassedOver(tag: Tag, kind: Kind) {
    || tag == Function || tag == Enum || tag == Typedef || tag == VTable
    || kind == StaticLocal || kind == Global || kind == StaticMember
  }

  /** The tree of a child at `at`: as it was dumped, with its type and value when it is not
      a structure. */
  function ChildTree(dbg: Debugger, id: TypeId, at: Address, r: Result): Forest {
    if r.handled then r.node.Close()
    else
      var i := Typed(r.node.info, dbg.baseName(dbg.basic(id)));
      Node(i.(value := dbg.format(dbg.basic(id), dbg.length(dbg.memberType(id)), at, 0)), r.node.shown).Close()
  }

  function ChildResult(dbg: Debugger, visited: set<Pair>, id: TypeId, nest: nat, offset: Address): Result {
    Dump(dbg, visited, EMPTY, id, nest + 1, Plus(offset, dbg.memberOffset(id)), "", true)
  }

  /** The trees of the children that are not passed over, in order, each at the address of
      the parent plus its own offset; and the pairs visited after them. */
  function ChildTrees(dbg: Debugger, visited: set<Pair>, ids: seq<TypeId>, nest: nat, offset: Address): (seq<Forest>, set<Pair>)
    decreases |ids|
  {
    if ids == [] then ([], visited)
    else if PassedOver(dbg.memberTag(ids[0]), dbg.memberKind(ids[0])) then
      ChildTrees(dbg, visited, ids[1..], nest, offset)
    else
      var r := ChildResult(dbg, visited, ids[0], nest, offset);
      var (trees, now) := ChildTrees(dbg, r.visited, ids[1..], nest, offset);
      ([ChildTree(dbg, ids[0], Plus(offset, dbg.memberOffset(ids[0])), r)] + trees, now)
  }

  lemma FirstIsListed(dbg: Debugger, visited: set<Pair>, id: TypeId, rest: seq<TypeId>, nest: nat, offset: Address)
    requires !PassedOver(dbg.memberTag(id), dbg.memberKind(id))
    ensures var r := ChildResult(dbg, visited, id, nest, offset);
            ChildTrees(dbg, visited, [id] + rest, nest, offset).0
            == [ChildTree(dbg, id, Plus(offset, dbg.memberOffset(id)), r)] + ChildTrees(dbg, r.visited, rest, nest, offset).0
  {
    assert ([id] + rest)[1..] == rest;
  }

  lemma FirstIsPassedOver(dbg: Debugger, visited: set<Pair>, id: TypeId, rest: seq<TypeId>, nest: nat, offset: Address)
    requires PassedOver(dbg.memberTag(id), dbg.memberKind(id))
    ensures ChildTrees(dbg, visited, [id] + rest, nest, offset).0 == ChildTrees(dbg, visited, rest, nest, offset).0
  {
    assert ([id] + rest)[1..] == rest;
  }

  /** An entry that gets trees below it: its line is written before them. */
  function Grown(node: Node, trees: seq<Forest>): Node {
    if trees == [] then node
    else
      var i := node.info.(hasChildren := true);
      match node.shown
      case NotYet => Node(i, Shown(i.ToText(), Join(trees)))
      case Shown(text, kids) => Node(i, Shown(text, Append(kids, Join(trees))))
  }

  lemma JoinOfOne(tree: Forest)
    ensures Join([tree]) == tree
  {
    assert [tree][1..] == [];
    AppendNil(tree);
  }

  lemma GrownByOne(node: Node, child: Node)
    ensures AddChild(node.(info := node.info.(hasChildren := true)), child) == Grown(node, [child.Close()])
  {
    JoinOfOne(child.Close());
  }

  lemma GrownTwice(node: Node, tree: Forest, trees: seq<Forest>)
    ensures Grown(Grown(node, [tree]), trees) == Grown(node, [tree] + trees)
  {
    JoinOfOne(tree);
    assert ([tree] + trees)[1..] == trees;
    assert Join([tree] + trees) == Append(tree, Join(trees));
    if trees == [] {
      assert [tree] + trees == [tree];
    } else if node.shown.Shown? {
      AppendAssoc(node.shown.kids, tree, Join(trees));
    }
  }

  lemma {:induction false} MembersAreShown(dbg: Debugger, r0: Result, ids: seq<TypeId>, nest: nat, offset: Address)
    ensures var r := Members(dbg, r0, ids, nest, offset, true);
            var (trees, now) := ChildTrees(dbg, r0.visited, ids, nest, offset);
            r.node == Grown(r0.node, trees) && r.visited == now && r.handled
    decreases |ids|
  {
    if ids != [] {
      if PassedOver(dbg.memberTag(ids[0]), dbg.memberKind(ids[0])) {
        MembersAreShown(dbg, r0, ids[1..], nest, offset);
      } else {
        var at := Plus(offset, dbg.memberOffset(ids[0]));
        var parent := r0.node.(info := r0.node.info.(hasChildren := true));
        var r := ChildResult(dbg, r0.visited, ids[0], nest, offset);
        var child := MemberEntry(dbg, r, ids[0], at);
        MembersAreShown(dbg, WithMember(r0, parent, r, child), ids[1..], nest, offset);
        GrownByOne(r0.node, child);
        GrownTwice(r0.node, child.Close(), ChildTrees(dbg, r.visited, ids[1..], nest, offset).0);
      }
    }
  }

  lemma {:induction false} MembersAreWithheld(dbg: Debugger, r0: Result, ids: seq<TypeId>, nest: nat, offset: Address)
    ensures var r := Members(dbg, r0, ids, nest, offset, false);
            var listed := exists id :: id in ids && !PassedOver(dbg.memberTag(id), dbg.memberKind(id));
            && r.visited == r0.visited && r.handled == !listed
            && r.node == if listed then Node(r0.node.info.(hasChildren := true), r0.node.shown) else r0.node
    decreases |ids|
  {
    if ids != [] {
      assert ids[0] in ids;
      if PassedOver(dbg.memberTag(ids[0]), dbg.memberKind(ids[0])) {
        MembersAreWithheld(dbg, r0, ids[1..], nest, offset);
        assert forall id :: id in ids <==> id == ids[0] || id in ids[1..];
      }
    }
  }

  /** The end of every expansion: the type's own children, when it lists any. When they are
      wanted they become subtrees; when not, it is only noted that there are some. */
  ghost predicate ShowsChildren(dbg: Debugger, before: Result, ty: TypeId, nest: nat, offset: Address, log: bool, after: Result) {
    var ids := if dbg.children(ty).Some? then dbg.children(ty).value else [];
    var trees := ChildTrees(dbg, before.visited, ids, nest, offset);
    var listed := exists id :: id in ids && !PassedOver(dbg.memberTag(id), dbg.memberKind(id));
    if ids == [] then
      after.node == before.node && after.visited == before.visited && after.handled == before.handled
    else if log then
      after.node == Grown(before.node, trees.0) && after.visited == trees.1 && after.handled
    else
      && after.node == (if listed then Node(before.node.info.(hasChildren := true), before.node.shown) else before.node)
      && after.visited == before.visited && after.handled == !listed
  }

  lemma ChildrenShow(dbg: Debugger, r0: Result, ty: TypeId, nest: nat, offset: Address, log: bool)
    ensures ShowsChildren(dbg, r0, ty, nest, offset, log, DumpMembers(dbg, r0, ty, nest, offset, log))
  {
    var ids := if dbg.children(ty).Some? then dbg.children(ty).value else [];
    if log {
      MembersAreShown(dbg, r0, ids, nest, offset);
    } else {
      MembersAreWithheld(dbg, r0, ids, nest, offset);
    }
  }

  // ---------- One rule for each kind of type ----------

  function Start(dbg: Debugger, visited: set<Pair>, node: Node, ty: TypeId, offset: Address, name: string): Result {
    Result(visited + {Pair(ty, offset)}, Node(WithNames(node.info, dbg.name(ty), name), node.shown), false, 0)
  }

  lemma DumpExpands(dbg: Debugger, visited: set<Pair>, node: Node, tag: Tag, ty: TypeId, nest: nat,
                    offset: Address, name: string, log: bool)
    requires IsNew(dbg, visited, ty, offset) && dbg.tag(ty) == Some(tag)
    ensures var start := Start(dbg, visited, node, ty, offset, name);
            var b := DumpBody(dbg, start.visited, start.node, tag, ty, nest, offset, name, log);
            Dump(dbg, visited, node, ty, nest, offset, name, log) == b.(calls := b.calls + 1)
  {
    assert Named(dbg, node, ty, name) == Start(dbg, visited, node, ty, offset, name).node;
  }

  /** Structures, base classes, base types and whatever has no type of its own below it. */
  lemma StructureShows(dbg: Debugger, visited: set<Pair>, node: Node, ty: TypeId, nest: nat,
                       offset: Address, name: string, log: bool)
    requires IsNew(dbg, visited, ty, offset) && dbg.tag(ty).Some? && dbg.tag(ty) != Some(Enum)
    requires dbg.tag(ty) in {Some(PointerType), Some(ArrayType)} ==> dbg.inner(ty).None?
    requires dbg.tag(ty) == Some(Data) ==> dbg.inner(ty).None? || dbg.tag(dbg.inner(ty).value).None?
    ensures ShowsChildren(dbg, Start(dbg, visited, node, ty, offset, name), ty, nest, offset, log,
                          Dump(dbg, visited, node, ty, nest, offset, name, log))
  {
    var start := Start(dbg, visited, node, ty, offset, name);
    ChildrenShow(dbg, start, ty, nest, offset, log);
    DumpExpands(dbg, visited, node, dbg.tag(ty).value, ty, nest, offset, name, log);
  }

  lemma InnerShows(dbg: Debugger, visited: set<Pair>, node: Node, inner: TypeId, nest: nat,
                   offset: Address, name: string, log: bool)
    requires dbg.tag(inner).Some? && (name == "" || node.info.name == name)
    ensures DumpInner(dbg, visited, node, inner, nest, offset, name, log)
            == if dbg.tag(inner) in {Some(UDT), Some(PointerType), Some(ArrayType)}
               then Dump(dbg, visited, node, inner, nest + 1, offset, node.info.name, log)
               else Result(visited, node, false, 0)
  {
    assert Renamed(node, name) == node;
  }

  /** A variable or field is shown as its structure, pointer or array type; a structure is
      opened below nesting level 5. */
  lemma DataShows(dbg: Debugger, visited: set<Pair>, node: Node, ty: TypeId, inner: TypeId, nest: nat,
                  offset: Address, name: string, log: bool)
    requires IsNew(dbg, visited, ty, offset) && dbg.tag(ty) == Some(Data)
    requires dbg.inner(ty) == Some(inner) && dbg.tag(inner).Some?
    ensures var start := Start(dbg, visited, node, ty, offset, name);
            var more := log && (dbg.tag(inner) == Some(UDT) ==> nest < 5);
            var s := if dbg.tag(inner) in {Some(UDT), Some(PointerType), Some(ArrayType)}
                     then Dump(dbg, start.visited, start.node, inner, nest + 1, offset, start.node.info.name, more)
                     else start;
            ShowsChildren(dbg, s, ty, nest, offset, more, Dump(dbg, visited, node, ty, nest, offset, name, log))
  {
    var start := Start(dbg, visited, node, ty, offset, name);
    var more := log && (dbg.tag(inner) == Some(UDT) ==> nest < 5);
    var s := DumpInner(dbg, start.visited, start.node, inner, nest, offset, name, more);
    ChildrenShow(dbg, s, ty, nest, offset, more);
    DumpExpands(dbg, visited, node, Data, ty, nest, offset, name, log);
    InnerShows(dbg, start.visited, start.node, inner, nest, offset, name, more);
  }

  /** The entry a pointer's target is shown in: a mark, and the pointer's own value. */
  function PointerStart(dbg: Debugger, i: Info, ty: TypeId, offset: Address): Info {
    i.(suffix := i.suffix + if dbg.isReference(ty) then "&" else "*", value := dbg.format(1, 8, offset, 0))
  }

  /** The target is shown in the pointer's entry; it is opened below nesting level 5 when the
      pointer is neither null nor unreadable. */
  function Target(dbg: Debugger, visited: set<Pair>, node: Node, ty: TypeId, inner: TypeId, nest: nat,
                  offset: Address, name: string, log: bool): Result {
    var start := Start(dbg, visited, node, ty, offset, name);
    var a := dbg.memory(offset);
    var more := log && nest < 5 && a != 0 && a != 0xFFFF_FFFF_FFFF_FFFF;
    Dump(dbg, start.visited, Node(PointerStart(dbg, start.node.info, ty, offset), node.shown), inner, nest + 1, a, name, more)
  }

  lemma PointerIsRest(dbg: Debugger, visited: set<Pair>, node: Node, ty: TypeId, inner: TypeId, nest: nat,
                      offset: Address, name: string, log: bool)
    requires IsNew(dbg, visited, ty, offset) && dbg.tag(ty) == Some(PointerType) && dbg.inner(ty) == Some(inner)
    ensures var a := dbg.memory(offset);
            var more := log && nest < 5 && a != 0 && a != 0xFFFF_FFFF_FFFF_FFFF;
            var rest := PointerRest(dbg, Target(dbg, visited, node, ty, inner, nest, offset, name, log),
                                    ty, inner, nest, offset, a, more);
            Dump(dbg, visited, node, ty, nest, offset, name, log) == rest.(calls := rest.calls + 1)
  {
    var start := Start(dbg, visited, node, ty, offset, name);
    DumpExpands(dbg, visited, node, PointerType, ty, nest, offset, name, log);
    PointerUnfolds(dbg, start.visited, start.node, ty, inner, nest, offset, name, log);
    assert PointerEntry(dbg, start.node, ty, offset, name)
           == Node(PointerStart(dbg, start.node.info, ty, offset), node.shown);
  }

  /** What a pointer to `a` shows when t is the outcome for its target. */
  ghost predicate ShowsPointer(dbg: Debugger, t: Result, ty: TypeId, inner: TypeId, nest: nat, offset: Address,
                               a: Address, log: bool, r: Result)
  {
    var value := if a == 0 then "NULL"
                 else if a == 0xFFFF_FFFF_FFFF_FFFF then "<Unable to read memory>"
                 else if t.handled then t.node.info.value
                 else dbg.format(dbg.basic(ty), dbg.length(inner), a, 0);
    && r.node.info.value == value
    && (if t.handled && a != 0xFFFF_FFFF_FFFF_FFFF then
          ShowsChildren(dbg, t.(node := Node(t.node.info.(value := value), t.node.shown)), ty, nest, offset, log, r)
        else
          && r.handled && r.visited == t.visited
          && r.node == Node((if t.handled then t.node.info else Typed(t.node.info, dbg.baseName(dbg.basic(ty))))
                            .(value := value), t.node.shown))
  }

  lemma RestShows(dbg: Debugger, t: Result, ty: TypeId, inner: TypeId, nest: nat, offset: Address, a: Address, log: bool)
    ensures ShowsPointer(dbg, t, ty, inner, nest, offset, a, log, PointerRest(dbg, t, ty, inner, nest, offset, a, log))
  {
    if t.handled && a == 0 {
      ChildrenShow(dbg, t.(node := t.node.(info := t.node.info.(value := "NULL"))), ty, nest, offset, log);
    } else if t.handled && a != 0xFFFF_FFFF_FFFF_FFFF {
      ChildrenShow(dbg, t, ty, nest, offset, log);
    }
  }

  /** A null pointer reads NULL and one that cannot be read says so; other pointers show the
      value at their target, or what the target shows of itself. */
  lemma PointerShows(dbg: Debugger, visited: set<Pair>, node: Node, ty: TypeId, inner: TypeId, nest: nat,
                     offset: Address, name: string, log: bool)
    requires IsNew(dbg, visited, ty, offset) && dbg.tag(ty) == Some(PointerType) && dbg.inner(ty) == Some(inner)
    ensures var a := dbg.memory(offset);
            var more := log && nest < 5 && a != 0 && a != 0xFFFF_FFFF_FFFF_FFFF;
            ShowsPointer(dbg, Target(dbg, visited, node, ty, inner, nest, offset, name, log), ty, inner, nest, offset,
                         a, more, Dump(dbg, visited, node, ty, nest, offset, name, log))
  {
    var a := dbg.memory(offset);
    var more := log && nest < 5 && a != 0 && a != 0xFFFF_FFFF_FFFF_FFFF;
    PointerIsRest(dbg, visited, node, ty, inner, nest, offset, name, log);
    RestShows(dbg, Target(dbg, visited, node, ty, inner, nest, offset, name, log), ty, inner, nest, offset, a, more);
  }

  /** Element i of an array: its index, and the value at the address of the array plus i
      times the length of an element. */
  function ElementNode(dbg: Debugger, basic: int, length: nat, offset: Address, i: nat): Node {
    Node(Info("", "", "[" + Digits(i) + "]", "", dbg.format(basic, length, Plus(offset, length * i), 0), false), NotYet)
  }

  /** The entry of an array after its element type was shown in it. */
  function ArrayNode(dbg: Debugger, s: Result, ty: TypeId, inner: TypeId, offset: Address): Node {
    var count, length := dbg.count(ty), dbg.length(inner);
    var size := if count.Known? then "[" + Digits(count.n) + "]" else "[<unknown count>]";
    var typed := if s.handled then s.node.info else Typed(s.node.info, dbg.baseName(dbg.basic(ty)));
    var i := typed.(value := "", suffix := typed.suffix + size);
    var basic := if s.handled then 0 else dbg.basic(ty);
    var shown := if count.n < 10 then count.n else 10;
    if basic == 2 || basic == 101 then Node(i.(value := dbg.format(basic, length, offset, count.n)), s.node.shown)
    else Grown(Node(i, s.node.shown), seq(shown, k requires 0 <= k => ElementNode(dbg, basic, length, offset, k).Close()))
  }

  /** An array has its size in the suffix and no value of its own; below it are its first ten
      elements, unless it is one of characters, whose text is its value. */
  lemma ArrayShows(dbg: Debugger, visited: set<Pair>, node: Node, ty: TypeId, inner: TypeId, nest: nat,
                   offset: Address, name: string, log: bool)
    requires IsNew(dbg, visited, ty, offset) && dbg.tag(ty) == Some(ArrayType) && dbg.inner(ty) == Some(inner)
    ensures var start := Start(dbg, visited, node, ty, offset, name);
            var s := Dump(dbg, start.visited, Node(start.node.info.(hasChildren := true), node.shown), inner, nest + 1,
                          offset, name, false);
            var r := Dump(dbg, visited, node, ty, nest, offset, name, log);
            r.handled && r.visited == s.visited && r.node == ArrayNode(dbg, s, ty, inner, offset)
  {
    var start := Start(dbg, visited, node, ty, offset, name);
    DumpExpands(dbg, visited, node, ArrayType, ty, nest, offset, name, log);
    ArrayIsGrown(dbg, start.visited, start.node, ty, inner, nest, offset, name);
  }

  lemma ArrayIsGrown(dbg: Debugger, visited: set<Pair>, node: Node, ty: TypeId, inner: TypeId, nest: nat,
                     offset: Address, name: string)
    ensures var s := Dump(dbg, visited, Node(node.info.(hasChildren := true), node.shown), inner, nest + 1,
                          offset, name, false);
            var r := DumpArray(dbg, visited, node, ty, inner, nest, offset, name);
            r.handled && r.visited == s.visited && r.node == ArrayNode(dbg, s, ty, inner, offset)
  {
    var s := Dump(dbg, visited, Node(node.info.(hasChildren := true), node.shown), inner, nest + 1, offset, name, false);
    var count := dbg.count(ty);
    var size := if count.Known? then "[" + Digits(count.n) + "]" else "[<unknown count>]";
    var typed := if s.handled then s.node.info else Typed(s.node.info, dbg.baseName(dbg.basic(ty)));
    var n := Node(typed.(value := "", suffix := typed.suffix + size), s.node.shown);
    assert count.Unknown? ==> size == "[" + "<unknown count>" + "]";
    ElementsGrow(dbg, n, if s.handled then 0 else dbg.basic(ty), dbg.length(inner), offset, Listed(count.n));
  }

  lemma ElementsGrow(dbg: Debugger, node: Node, basic: int, length: nat, offset: Address, n: nat)
    requires node.info.hasChildren
    ensures Elements(dbg, node, basic, length, offset, n)
            == Grown(node, seq(n, k requires 0 <= k => ElementNode(dbg, basic, length, offset, k).Close()))
  {
    var trees := seq(n, k requires 0 <= k => ElementNode(dbg, basic, length, offset, k).Close());
    assert trees == ElementTrees(dbg, basic, length, offset, n);
    if n > 0 {
      ElementsAreListed(dbg, node, basic, length, offset, n);
    }
  }

  // ---------- Whole variables and structures ----------

  /** A local, a parameter or a global variable; what is not a structure gets its value. */
  lemma VariableShows(dbg: Debugger, visited: set<Pair>, sym: Symbol)
    ensures var at := if sym.regRelative then Plus(sym.frame, sym.address) else sym.address;
            var prefix := if sym.isParameter then "Parameter " else if sym.isLocal then "Local " else "";
            var r := Dump(dbg, visited, Node(Info(prefix, "", "", "", "", false), NotYet), sym.ty, 0, at, sym.name, true);
            var typed := Typed(r.node.info, dbg.baseName(dbg.basic(sym.ty)));
            var named := if sym.name == "" then typed else typed.(name := sym.name);
            SymbolTree(dbg, visited, sym)
            == if sym.isFunction || (sym.inRegister && !sym.regRelative) then Nil
               else if r.handled then r.node.Close()
               else Node(named.(value := dbg.format(dbg.basic(sym.ty), sym.size, at, 0)), r.node.shown).Close()
  {
  }

  /** A field of structure type is opened below nesting level 5: below it are the trees of
      the structure's children. */
  lemma StructureIsOpened(dbg: Debugger, visited: set<Pair>, node: Node, ty: TypeId, inner: TypeId, nest: nat,
                          offset: Address, name: string)
    requires nest < 5 && IsNew(dbg, visited, ty, offset) && dbg.tag(ty) == Some(Data) && dbg.inner(ty) == Some(inner)
    requires dbg.tag(inner) == Some(UDT) && inner != ty && IsNew(dbg, visited, inner, offset)
    requires dbg.children(ty).GetOr([]) == [] && dbg.children(inner).GetOr([]) != []
    ensures var r := Dump(dbg, visited, node, ty, nest, offset, name, true);
            var i := WithNames(node.info, dbg.name(ty), name);
            var now := visited + {Pair(ty, offset)} + {Pair(inner, offset)};
            var trees := ChildTrees(dbg, now, dbg.children(inner).value, nest + 1, offset);
            && r.node == Grown(Node(WithNames(i, dbg.name(inner), i.name), node.shown), trees.0)
            && r.visited == trees.1 && r.handled
  {
    var start := Start(dbg, visited, node, ty, offset, name);
    DataShows(dbg, visited, node, ty, inner, nest, offset, name, true);
    StructureShows(dbg, start.visited, start.node, inner, nest + 1, offset, start.node.info.name, true);
  }

  /** A named field of a base type, with a short name. */
  ghost predicate IsScalar(dbg: Debugger, id: TypeId) {
    && dbg.tag(id) == Some(Data) && dbg.inner(id).Some? && dbg.children(id).GetOr([]) == []
    && dbg.tag(dbg.inner(id).value) in {Some(BaseType), Some(Enum)}
    && dbg.name(id).Some? && 0 < |dbg.name(id).value| <= 199
    && dbg.name(id) != Some("std::basic_string<char,std::char_traits<char>,std::allocator<char> >")
  }

  /** The line of such a field: type, name and the value at its address. */
  function ScalarLine(dbg: Debugger, id: TypeId, at: Address): string {
    var typed, name := dbg.baseName(dbg.basic(id)), dbg.name(id).GetOr("");
    (if typed == "" then name else typed + " " + name) + " = " + ScalarValue(dbg, id, at)
  }

  function ScalarValue(dbg: Debugger, id: TypeId, at: Address): string {
    dbg.format(dbg.basic(id), dbg.length(dbg.memberType(id)), at, 0)
  }

  lemma ScalarShows(dbg: Debugger, visited: set<Pair>, id: TypeId, nest: nat, offset: Address)
    requires IsScalar(dbg, id)
    requires var at := Plus(offset, dbg.memberOffset(id));
             Pair(id, at) !in visited && ScalarValue(dbg, id, at) != ""
    ensures var at := Plus(offset, dbg.memberOffset(id));
            var r := ChildResult(dbg, visited, id, nest, offset);
            && r.visited == visited + {Pair(id, at)}
            && ChildTree(dbg, id, at, r) == Cons(ScalarLine(dbg, id, at), Nil, Nil)
  {
    var at := Plus(offset, dbg.memberOffset(id));
    DataShows(dbg, visited, EMPTY, id, dbg.inner(id).value, nest + 1, at, "", true);
    var i := Typed(WithNames(EMPTY.info, dbg.name(id), ""), dbg.baseName(dbg.basic(id)));
    assert "" + i.typeName + "" == i.typeName;
  }

  ghost predicate IsListedScalar(dbg: Debugger, id: TypeId, offset: Address) {
    && IsScalar(dbg, id) && !PassedOver(dbg.memberTag(id), dbg.memberKind(id))
    && ScalarValue(dbg, id, Plus(offset, dbg.memberOffset(id))) != ""
  }

  /** A structure of such fields: one line for each field, in order, with the value at the
      address of the structure plus the offset of the field. */
  lemma {:induction false} ScalarsShow(dbg: Debugger, visited: set<Pair>, ids: seq<TypeId>, nest: nat, offset: Address)
    requires forall id :: id in ids ==> IsListedScalar(dbg, id, offset)
    requires forall p :: p in visited ==> p.ty !in ids
    requires forall i, j :: 0 <= i < j < |ids| ==> ids[i] != ids[j]
    ensures ChildTrees(dbg, visited, ids, nest, offset).0
            == seq(|ids|, i requires 0 <= i < |ids| =>
                 Cons(ScalarLine(dbg, ids[i], Plus(offset, dbg.memberOffset(ids[i]))), Nil, Nil))
    decreases |ids|
  {
    if ids != [] {
      assert ids[0] in ids;
      ScalarShows(dbg, visited, ids[0], nest, offset);
      ScalarsShow(dbg, ChildResult(dbg, visited, ids[0], nest, offset).visited, ids[1..], nest, offset);
    }
  }
}
