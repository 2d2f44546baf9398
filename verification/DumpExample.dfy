/** One variable from beginning to end: a local structure with a number, a function, a null
    pointer and a structure inside. */
module DumpExample {
  import opened Outline
  import opened DumpTree
  import opened DumpRules

  const S: TypeId := 1      // struct S { int n; void f(); int *p; T in; }
  const N: TypeId := 2
  const F: TypeId := 3
  const P: TypeId := 4
  const IN: TypeId := 5
  const X: TypeId := 6
  const INT: TypeId := 7
  const INT_STAR: TypeId := 8
  const T: TypeId := 9      // struct T { int x; }

  function TagOf(t: TypeId): Option<Tag> {
    if t == S || t == T then Some(UDT) else if t == F then Some(Function) else if t == INT then Some(BaseType)
    else if t == INT_STAR then Some(PointerType) else Some(Data)
  }

  function NameOf(t: TypeId): Option<string> {
    if t == S then Some("S") else if t == T then Some("T") else if t == N then Some("n") else if t == F then Some("f")
    else if t == P then Some("p") else if t == IN then Some("in") else if t == X then Some("x") else None
  }

  function InnerOf(t: TypeId): Option<TypeId> {
    if t == N || t == X || t == INT_STAR then Some(INT) else if t == P then Some(INT_STAR)
    else if t == IN then Some(T) else None
  }

  function ChildrenOf(t: TypeId): Option<seq<TypeId>> {
    if t == S then Some([N, F, P, IN]) else if t == T then Some([X]) else None
  }

  function OffsetOf(t: TypeId): nat { if t == P then 8 else if t == IN then 16 else if t == X then 4 else 0 }

  /** The number at 1000 is 5, the one at 1020 is 7. */
  function FormatOf(basic: int, length: nat, at: Address, count: nat): string {
    if at == 1000 then "0x5" else if at == 1020 then "0x7" else "0x0"
  }

  const DBG := Debugger(
    TagOf, NameOf, InnerOf, _ => false, _ => Known(1), _ => 4, ChildrenOf,
    t => if t == F then Function else Data, _ => OtherKind, OffsetOf, _ => INT, _ => 6, _ => "int", _ => 0, FormatOf)

  const VARIABLE := Symbol(false, false, false, false, true, 1000, 0, S, "s", 24)

  /** The number n and the number x are lines with their values. */
  lemma NumberLine(visited: set<Pair>, id: TypeId, nest: nat, offset: Address)
    requires (id == N && offset == 1000) || (id == X && offset == 1016)
    requires Pair(id, Plus(offset, OffsetOf(id))) !in visited
    ensures var at := Plus(offset, OffsetOf(id));
            var r := ChildResult(DBG, visited, id, nest, offset);
            && r.visited == visited + {Pair(id, at)}
            && ChildTree(DBG, id, at, r) == Cons(if id == N then "int n = 0x5" else "int x = 0x7", Nil, Nil)
  {
    var at := Plus(offset, OffsetOf(id));
    assert at == if id == N then 1000 else 1020;
    assert DBG.format(6, 4, at, 0) == FormatOf(6, 4, at, 0);
    assert NameOf(id).value in {"n", "x"} && |NameOf(id).value| == 1;
    assert ScalarLine(DBG, id, at) == if id == N then "int n = 0x5" else "int x = 0x7";
    ScalarShows(DBG, visited, id, nest, offset);
  }

  lemma TargetIsInt(visited: set<Pair>, node: Node, nest: nat)
    requires Pair(INT, 0) !in visited && node.info.name == "p"
    ensures var r := Dump(DBG, visited, node, INT, nest, 0, "p", false);
            r.node == node && !r.handled && r.visited == visited + {Pair(INT, 0)}
  {
    StructureShows(DBG, visited, node, INT, nest, 0, "p", false);
    assert DBG.children(INT) == None && DBG.name(INT) == None;
  }

  lemma PointerIsNull(visited: set<Pair>, nest: nat, at: Address)
    requires Pair(INT_STAR, at) !in visited && Pair(INT, 0) !in visited
    ensures var r := Dump(DBG, visited, Node(Info("", "", "", "p", "", false), NotYet), INT_STAR, nest, at, "p", true);
            && r.node == Node(Info("", "int", "*", "p", "NULL", false), NotYet) && r.handled
            && r.visited == visited + {Pair(INT_STAR, at)} + {Pair(INT, 0)}
  {
    var node := Node(Info("", "", "", "p", "", false), NotYet);
    PointerShows(DBG, visited, node, INT_STAR, INT, nest, at, "p", true);
    assert DBG.name(INT_STAR) == None && DBG.memory(at) == 0 && DBG.basic(INT_STAR) == 6;
    assert "" + "*" == "*";
    var entry := Node(PointerStart(DBG, node.info, INT_STAR, at), NotYet);
    TargetIsInt(visited + {Pair(INT_STAR, at)}, entry, nest + 1);
  }

  lemma TextOfPointer()
    ensures Info("", "int", "*", "p", "NULL", false).ToText() == "int* p = NULL"
  {
    assert "" + "int" + "*" == "int*";
  }

  lemma PointerNode(visited: set<Pair>, nest: nat)
    requires forall p :: p in visited ==> p.ty !in {P, INT_STAR, INT}
    ensures var at := Plus(1000, 8);
            var r := Dump(DBG, visited, EMPTY, P, nest, at, "", true);
            && r.visited == visited + {Pair(P, at)} + {Pair(INT_STAR, at)} + {Pair(INT, 0)} && r.handled
            && r.node == Node(Info("", "int", "*", "p", "NULL", false), NotYet)
  {
    var at := Plus(1000, 8);
    assert DBG.name(P) == Some("p") && DBG.inner(P) == Some(INT_STAR) && DBG.children(P) == None;
    assert DBG.tag(P) == Some(Data) && DBG.tag(INT_STAR) == Some(PointerType);
    DataShows(DBG, visited, EMPTY, P, INT_STAR, nest, at, "", true);
    PointerIsNull(visited + {Pair(P, at)}, nest + 1, at);
  }

  /** The pointer is null. */
  lemma PointerLine(visited: set<Pair>, nest: nat)
    requires forall p :: p in visited ==> p.ty !in {P, INT_STAR, INT}
    ensures var at := Plus(1000, 8);
            var r := ChildResult(DBG, visited, P, nest, 1000);
            && r.visited == visited + {Pair(P, at)} + {Pair(INT_STAR, at)} + {Pair(INT, 0)}
            && ChildTree(DBG, P, at, r) == Cons("int* p = NULL", Nil, Nil)
  {
    PointerNode(visited, nest + 1);
    TextOfPointer();
  }

  lemma NumberTree(visited: set<Pair>, nest: nat)
    requires Pair(X, Plus(1016, 4)) !in visited
    ensures ChildTrees(DBG, visited, [X], nest, 1016).0 == [Cons("int x = 0x7", Nil, Nil)]
  {
    assert !PassedOver(DBG.memberTag(X), DBG.memberKind(X)) && DBG.memberOffset(X) == 4;
    NumberLine(visited, X, nest, 1016);
    FirstIsListed(DBG, visited, X, [], nest, 1016);
    assert [X] + [] == [X];
  }

  lemma TextOfInside()
    ensures Info("", "T", "", "in", "", true).ToText() == "T in"
  {
    assert "" + "T" + "" == "T";
  }

  lemma InsideNode(visited: set<Pair>, nest: nat)
    requires nest <= 2 && forall p :: p in visited ==> p.ty !in {IN, T, X}
    ensures var r := Dump(DBG, visited, EMPTY, IN, nest, 1016, "", true);
            r.handled && r.node == Node(Info("", "T", "", "in", "", true), Shown("T in", Cons("int x = 0x7", Nil, Nil)))
  {
    assert DBG.children(IN) == None && DBG.children(T) == Some([X]) && DBG.inner(IN) == Some(T);
    assert DBG.name(IN) == Some("in") && DBG.name(T) == Some("T");
    StructureIsOpened(DBG, visited, EMPTY, IN, T, nest, 1016, "");
    NumberTree(visited + {Pair(IN, 1016)} + {Pair(T, 1016)}, nest + 1);
    JoinOfOne(Cons("int x = 0x7", Nil, Nil));
    TextOfInside();
  }

  /** The structure inside is opened. */
  lemma InsideLines(visited: set<Pair>, nest: nat)
    requires nest <= 1 && forall p :: p in visited ==> p.ty !in {IN, T, X}
    ensures ChildTree(DBG, IN, Plus(1000, 16), ChildResult(DBG, visited, IN, nest, 1000))
            == Cons("T in", Cons("int x = 0x7", Nil, Nil), Nil)
  {
    assert Plus(1000, 16) == 1016;
    InsideNode(visited, nest + 1);
  }

  const FIRST := Cons("int n = 0x5", Nil, Nil)
  const SECOND := Cons("int* p = NULL", Nil, Nil)
  const THIRD := Cons("T in", Cons("int x = 0x7", Nil, Nil), Nil)

  lemma LastField(visited: set<Pair>)
    requires forall p :: p in visited ==> p.ty !in {IN, T, X}
    ensures ChildTrees(DBG, visited, [IN], 0, 1000).0 == [THIRD]
  {
    InsideLines(visited, 0);
    FirstIsListed(DBG, visited, IN, [], 0, 1000);
  }

  lemma SecondField(visited: set<Pair>)
    requires forall p :: p in visited ==> p.ty in {S, N}
    ensures ChildTrees(DBG, visited, [P] + [IN], 0, 1000).0 == [SECOND, THIRD]
  {
    PointerLine(visited, 0);
    LastField(ChildResult(DBG, visited, P, 0, 1000).visited);
    FirstIsListed(DBG, visited, P, [IN], 0, 1000);
  }

  /** The function is passed over. */
  lemma Fields(visited: set<Pair>)
    requires forall p :: p in visited ==> p.ty == S
    ensures ChildTrees(DBG, visited, [N, F, P, IN], 0, 1000).0 == [FIRST, SECOND, THIRD]
  {
    NumberLine(visited, N, 0, 1000);
    var now := ChildResult(DBG, visited, N, 0, 1000).visited;
    SecondField(now);
    FirstIsPassedOver(DBG, now, F, [P] + [IN], 0, 1000);
    FirstIsListed(DBG, visited, N, [F] + ([P] + [IN]), 0, 1000);
    assert [N, F, P, IN] == [N] + ([F] + ([P] + [IN]));
  }

  lemma TextOfVariable()
    ensures Info("Local ", "S", "", "s", "", true).ToText() == "Local S s"
  {
    assert "Local " + "S" + "" == "Local S";
  }

  lemma JoinOfThree(a: Forest, b: Forest, c: Forest)
    ensures Join([a, b, c]) == Append(a, Append(b, c))
  {
    assert [a, b, c][1..] == [b, c] && [b, c][1..] == [c];
    JoinOfOne(c);
  }

  /** The tree of the variable. */
  lemma VariableTree()
    ensures SymbolTree(DBG, {}, VARIABLE) == Cons("Local S s", Append(FIRST, Append(SECOND, THIRD)), Nil)
  {
    var node := Node(Info("Local ", "", "", "", "", false), NotYet);
    assert DBG.name(S) == Some("S") && DBG.children(S) == Some([N, F, P, IN]);
    StructureShows(DBG, {}, node, S, 0, 1000, "s", true);
    Fields({} + {Pair(S, 1000)});
    JoinOfThree(FIRST, SECOND, THIRD);
    TextOfVariable();
    VariableShows(DBG, {}, VARIABLE);
  }

  lemma RenderOne(tree: Forest, d: nat)
    ensures RenderAll([tree], d) == Render(tree, d)
  {
    RenderJoin([tree], d);
    JoinOfOne(tree);
  }

  /** The report on this variable. */
  lemma VariableLines()
    ensures Report(DBG, [VARIABLE])
            == [Line(1, "Local S s"), Line(2, "int n = 0x5"), Line(2, "int* p = NULL"), Line(2, "T in"), Line(3, "int x = 0x7")]
  {
    var kids := Append(FIRST, Append(SECOND, THIRD));
    VariableTree();
    RenderOne(SymbolTree(DBG, {}, VARIABLE), 1);
    assert SymbolTrees(DBG, [VARIABLE]) == [SymbolTree(DBG, {}, VARIABLE)];
    assert Render(FIRST, 2) == [Line(2, "int n = 0x5")] && Render(SECOND, 2) == [Line(2, "int* p = NULL")];
    assert Render(THIRD, 2) == [Line(2, "T in"), Line(3, "int x = 0x7")];
    RenderAppend(SECOND, THIRD, 2);
    RenderAppend(FIRST, Append(SECOND, THIRD), 2);
    assert Render(Cons("Local S s", kids, Nil), 1) == [Line(1, "Local S s")] + Render(kids, 2) + [];
  }

}
