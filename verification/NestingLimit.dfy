/** What MAX_NESTING_LEVEL achieves: how deep the tree of a variable can get. */
module NestingLimit {
  import opened Outline
  import opened DumpTree

  function Max(a: nat, b: nat): nat { if a < b then b else a }

  function Height(f: Forest): nat {
    match f
    case Nil => 0
    case Cons(_, kids, rest) => Max(1 + Height(kids), Height(rest))
  }

  /** How many levels of entries are below an entry so far. */
  function Below(node: Node): nat {
    if node.shown.Shown? then Height(node.shown.kids) else 0
  }

  lemma {:induction false} HeightAppend(f: Forest, g: Forest)
    ensures Height(Append(f, g)) == Max(Height(f), Height(g))
  {
    if f.Cons? {
      HeightAppend(f.rest, g);
    }
  }

  lemma BelowAddChild(node: Node, child: Node)
    requires node.shown.Shown? || !node.info.IsEmpty()
    ensures Below(node) <= Below(AddChild(node, child)) <= Max(Below(node), 1 + Below(child))
  {
    HeightAppend(node.Freeze().shown.kids, child.Close());
  }

  // ---------- Where the limit is looked at ----------

  /** The type has a child that is not passed over. */
  ghost predicate Lists(dbg: Debugger, ty: TypeId) {
    exists id :: id in dbg.children(ty).GetOr([]) && !Skipped(dbg, id)
  }

  predicate HasTag(dbg: Debugger, ty: TypeId, tag: Tag) { dbg.tag(ty) == Some(tag) }

  /** At the limit the children of the type itself are not looked into: it has none, or it
      is a pointer, an array, an enumeration or a variable of structure type. */
  ghost predicate Stops(dbg: Debugger, ty: TypeId) {
    || !Lists(dbg, ty) || dbg.tag(ty).None? || HasTag(dbg, ty, Enum)
    || (dbg.inner(ty).Some? && (HasTag(dbg, ty, PointerType) || HasTag(dbg, ty, ArrayType)))
    || (dbg.inner(ty).Some? && HasTag(dbg, ty, Data) && HasTag(dbg, dbg.inner(ty).value, UDT))
  }

  /** Neither are those of the pointer or array type of a variable. */
  ghost predicate Limited(dbg: Debugger, ty: TypeId) {
    && Stops(dbg, ty)
    && (HasTag(dbg, ty, Data) && dbg.inner(ty).Some? ==>
          var inner := dbg.inner(ty).value;
          HasTag(dbg, inner, PointerType) || HasTag(dbg, inner, ArrayType) ==> Stops(dbg, inner))
  }

  /** Every child that is dumped is of a type that respects the limit. */
  ghost predicate Tame(dbg: Debugger) {
    forall ty: TypeId, id: TypeId :: id in dbg.children(ty).GetOr([]) && !Skipped(dbg, id) ==> Limited(dbg, id)
  }

  /** The levels that a type may add below its entry. */
  function Room(limited: bool, nest: nat, log: bool): nat {
    if !log then 1
    else if nest < MAX_NESTING_LEVEL - 1 then MAX_NESTING_LEVEL + 1 - nest
    else if limited && nest >= MAX_NESTING_LEVEL then 1
    else 2
  }

  ghost predicate Fits(node: Node, now: Node, room: nat) { Below(now) <= Max(Below(node), room) }

  lemma {:induction false} ElementsFit(dbg: Debugger, node: Node, basic: int, length: nat, offset: Address, n: nat)
    requires node.info.hasChildren
    ensures Fits(node, Elements(dbg, node, basic, length, offset, n), 1)
    decreases n
  {
    if n > 0 {
      ElementsFit(dbg, node, basic, length, offset, n - 1);
      BelowAddChild(Elements(dbg, node, basic, length, offset, n - 1), ElementEntry(dbg, basic, length, offset, n - 1));
    }
  }

  lemma {:induction false} DumpFits(dbg: Debugger, visited: set<Pair>, node: Node, ty: TypeId, nest: nat,
                                    offset: Address, name: string, log: bool, limited: bool)
    requires Tame(dbg) && (limited ==> Limited(dbg, ty))
    ensures Fits(node, Dump(dbg, visited, node, ty, nest, offset, name, log).node, Room(limited, nest, log))
    decreases Universe() - visited, 0, 0
  {
    if dbg.tag(ty).Some? && dbg.name(ty) != Some(STD_STRING) && Pair(ty, offset) !in visited {
      assert Pair(ty, offset) in Universe();
      WorkAdd(dbg, visited, Pair(ty, offset));
      BodyFits(dbg, visited + {Pair(ty, offset)}, Named(dbg, node, ty, name), dbg.tag(ty).value, ty, nest,
               offset, name, log, limited);
    }
  }

  lemma {:induction false} BodyFits(dbg: Debugger, visited: set<Pair>, node: Node, tag: Tag, ty: TypeId, nest: nat,
                                    offset: Address, name: string, log: bool, limited: bool)
    requires Tame(dbg) && dbg.tag(ty) == Some(tag) && (limited ==> Limited(dbg, ty))
    ensures Fits(node, DumpBody(dbg, visited, node, tag, ty, nest, offset, name, log).node, Room(limited, nest, log))
    decreases Universe() - visited, 3, 0
  {
    var inner := dbg.inner(ty);
    if tag.PointerType? && inner.Some? {
      PointerFits(dbg, visited, node, ty, inner.value, nest, offset, name, log, limited);
    } else if tag.Data? && inner.Some? && dbg.tag(inner.value).Some? {
      DataFits(dbg, visited, node, ty, inner.value, nest, offset, name, log, limited);
    } else if tag.ArrayType? && inner.Some? {
      ArrayFits(dbg, visited, node, ty, inner.value, nest, offset, name);
    } else if !tag.Enum? {
      MembersOfFit(dbg, Result(visited, node, false, 0), ty, nest, offset, log);
    }
  }

  lemma {:induction false} PointerFits(dbg: Debugger, visited: set<Pair>, node: Node, ty: TypeId, inner: TypeId, nest: nat,
                                       offset: Address, name: string, logChildren: bool, limited: bool)
    requires Tame(dbg)
    ensures Fits(node, DumpPointer(dbg, visited, node, ty, inner, nest, offset, name, logChildren).node,
                 Room(limited, nest, logChildren))
    decreases Universe() - visited, 2, 0
  {
    var address := dbg.memory(offset);
    var log := logChildren && nest < MAX_NESTING_LEVEL && address != NULL && address != UNREADABLE;
    var entry := PointerEntry(dbg, node, ty, offset, name);
    var r := Dump(dbg, visited, entry, inner, nest + 1, address, name, log);
    DumpFits(dbg, visited, entry, inner, nest + 1, address, name, log, false);
    PointerUnfolds(dbg, visited, node, ty, inner, nest, offset, name, logChildren);
    PointerRestFits(dbg, r, ty, inner, nest, offset, address, log);
  }

  lemma {:induction false} PointerRestFits(dbg: Debugger, r: Result, ty: TypeId, inner: TypeId, nest: nat,
                                           offset: Address, address: Address, log: bool)
    requires Tame(dbg)
    ensures Fits(r.node, PointerRest(dbg, r, ty, inner, nest, offset, address, log).node,
                 if log then 1 + Room(true, nest + 1, true) else 0)
    decreases Universe() - r.visited, 1, Fanout(dbg, ty) + 2
  {
    var d := r.node.info;
    if r.handled && address == NULL {
      MembersOfFit(dbg, r.(node := r.node.(info := d.(value := "NULL"))), ty, nest, offset, log);
    } else if r.handled && address != UNREADABLE {
      MembersOfFit(dbg, r, ty, nest, offset, log);
    }
  }

  lemma {:induction false} DataFits(dbg: Debugger, visited: set<Pair>, node: Node, ty: TypeId, inner: TypeId, nest: nat,
                                    offset: Address, name: string, logChildren: bool, limited: bool)
    requires Tame(dbg) && dbg.tag(ty) == Some(Data) && dbg.inner(ty) == Some(inner) && dbg.tag(inner).Some?
    requires limited ==> Limited(dbg, ty)
    ensures Fits(node, DumpData(dbg, visited, node, ty, inner, nest, offset, name, logChildren).node,
                 Room(limited, nest, logChildren))
    decreases Universe() - visited, 2, 0
  {
    var tag := dbg.tag(inner).value;
    var log := logChildren && (tag.UDT? ==> nest < MAX_NESTING_LEVEL);
    var n := if tag.PointerType? then Renamed(node, name) else node;
    if tag.UDT? || tag.PointerType? || tag.ArrayType? {
      DumpFits(dbg, visited, n, inner, nest + 1, offset, n.info.name, log, limited && !tag.UDT?);
    }
    MembersOfFit(dbg, DumpInner(dbg, visited, node, inner, nest, offset, name, log), ty, nest, offset, log);
  }

  lemma {:induction false} ArrayFits(dbg: Debugger, visited: set<Pair>, node: Node, ty: TypeId, inner: TypeId, nest: nat,
                                     offset: Address, name: string)
    requires Tame(dbg)
    ensures Fits(node, DumpArray(dbg, visited, node, ty, inner, nest, offset, name).node, 1)
    decreases Universe() - visited, 2, 0
  {
    var parent := node.(info := node.info.(hasChildren := true));
    var r := Dump(dbg, visited, parent, inner, nest + 1, offset, name, false);
    DumpFits(dbg, visited, parent, inner, nest + 1, offset, name, false, false);
    var count := dbg.count(ty);
    var size := "[" + (if count.Known? then Digits(count.n) else "<unknown count>") + "]";
    var d := r.node.info.(value := "", suffix := r.node.info.suffix + size);
    var basic := if r.handled then BT_NO_TYPE else dbg.basic(ty);
    var typed := if r.handled then d else d.DefaultType(dbg.baseName(basic));
    ElementsFit(dbg, r.node.(info := typed), basic, dbg.length(inner), offset, Listed(count.n));
  }

  /** The children add one level, and below it what a type that respects the limit may add. */
  lemma {:induction false} MembersOfFit(dbg: Debugger, r0: Result, ty: TypeId, nest: nat, offset: Address, log: bool)
    requires Tame(dbg)
    ensures var r := DumpMembers(dbg, r0, ty, nest, offset, log);
            if log && Lists(dbg, ty) then Fits(r0.node, r.node, 1 + Room(true, nest + 1, true))
            else Below(r.node) == Below(r0.node)
    decreases Universe() - r0.visited, 1, Fanout(dbg, ty) + 1
  {
    var ids := dbg.children(ty).GetOr([]);
    if ids != [] {
      MembersFit(dbg, r0, ids, ty, nest, offset, log);
    }
  }

  lemma {:induction false} MembersFit(dbg: Debugger, r0: Result, ids: seq<TypeId>, ty: TypeId, nest: nat,
                                      offset: Address, log: bool)
    requires Tame(dbg) && forall id :: id in ids ==> id in dbg.children(ty).GetOr([])
    ensures var r := Members(dbg, r0, ids, nest, offset, log);
            if log && Lists(dbg, ty) then Fits(r0.node, r.node, 1 + Room(true, nest + 1, true))
            else Below(r.node) == Below(r0.node)
    decreases Universe() - r0.visited, 1, |ids|
  {
    if ids != [] {
      assert ids[0] in ids;
      if Skipped(dbg, ids[0]) {
        MembersFit(dbg, r0, ids[1..], ty, nest, offset, log);
      } else if log {
        var parent := r0.node.(info := r0.node.info.(hasChildren := true));
        var at := Plus(offset, dbg.memberOffset(ids[0]));
        var r := Dump(dbg, r0.visited, FRESH, ids[0], nest + 1, at, "", true);
        var child := MemberEntry(dbg, r, ids[0], at);
        DumpFits(dbg, r0.visited, FRESH, ids[0], nest + 1, at, "", true, true);
        BelowAddChild(parent, child);
        MembersFit(dbg, WithMember(r0, parent, r, child), ids[1..], ty, nest, offset, log);
      }
    }
  }

  /** When every child dumped is of a type that respects the limit, the tree of a variable
      has at most seven levels, however long the chains of pointers are. */
  lemma TreeIsShallow(dbg: Debugger, visited: set<Pair>, sym: Symbol)
    requires Tame(dbg)
    ensures Height(SymbolTree(dbg, visited, sym)) <= 7
  {
    if sym.Reported() {
      DumpFits(dbg, visited, SymbolStart(sym), sym.ty, 0, sym.Location(), sym.name, true, false);
      assert Below(DumpSymbol(dbg, visited, sym).node) <= MAX_NESTING_LEVEL + 1;
    }
  }

  // ---------- Where it is not ----------

  /** Type k is a base class whose only child is type k + 1, up to type n. */
  function Bases(n: TypeId): Debugger {
    Debugger(_ => Some(BaseClass), _ => None, _ => None, _ => false, _ => Known(0), _ => 0,
             t => if t < n then Some([t + 1]) else None,
             _ => BaseClass, _ => OtherKind, _ => 0, _ => 0, _ => 0, _ => "", a => a, (_, _, _, _) => "0")
  }

  lemma LastBase(n: TypeId, visited: set<Pair>, node: Node, nest: nat, offset: Address)
    requires Pair(n, offset) !in visited
    ensures var r := Dump(Bases(n), visited, node, n, nest, offset, "", true);
            r.node == node && !r.handled
  {
    var dbg, now := Bases(n), visited + {Pair(n, offset)};
    var r0 := Result(now, node, false, 0);
    assert dbg.children(n) == None && dbg.name(n) == None;
    assert DumpMembers(dbg, r0, n, nest, offset, true) == r0;
    assert DumpBody(dbg, now, node, BaseClass, n, nest, offset, "", true) == r0;
    assert Named(dbg, node, n, "") == node;
  }

  /** A base class is dumped as its one child is, one level further down. */
  lemma BaseStep(n: TypeId, visited: set<Pair>, node: Node, t: TypeId, nest: nat, offset: Address)
    requires t < n && Pair(t, offset) !in visited
    ensures var now := visited + {Pair(t, offset)};
            var parent := node.(info := node.info.(hasChildren := true));
            var at := Plus(offset, 0);
            var child := Dump(Bases(n), now, FRESH, t + 1, nest + 1, at, "", true);
            var r := Dump(Bases(n), visited, node, t, nest, offset, "", true);
            r.node == AddChild(parent, MemberEntry(Bases(n), child, t + 1, at)) && r.handled
  {
    var dbg, now := Bases(n), visited + {Pair(t, offset)};
    var r0 := Result(now, node, false, 0);
    var at := Plus(offset, 0);
    var parent := node.(info := node.info.(hasChildren := true));
    var child := Dump(dbg, now, FRESH, t + 1, nest + 1, at, "", true);
    assert dbg.children(t) == Some([t + 1]) && dbg.name(t) == None;
    assert DumpBody(dbg, now, node, BaseClass, t, nest, offset, "", true)
           == DumpMembers(dbg, r0, t, nest, offset, true) == Members(dbg, r0, [t + 1], nest, offset, true);
    assert Named(dbg, node, t, "") == node;
    assert Members(dbg, r0, [t + 1], nest, offset, true)
           == WithMember(r0, parent, child, MemberEntry(dbg, child, t + 1, at)).(handled := true);
  }

  lemma {:induction false} BasesAreDumped(n: TypeId, visited: set<Pair>, node: Node, t: TypeId, nest: nat, offset: Address)
    requires t <= n && forall p :: p in visited ==> p.ty < t
    ensures var r := Dump(Bases(n), visited, node, t, nest, offset, "", true);
            Below(r.node) == Max(Below(node), n - t) && (if t < n then r.handled && r.node.info.hasChildren else !r.handled)
    decreases n - t
  {
    if t < n {
      var at := Plus(offset, 0);
      var parent := node.(info := node.info.(hasChildren := true));
      assert Bases(n).basic(t + 1) == 0 && Bases(n).format(0, 0, at, 0) == "0";
      var r := Dump(Bases(n), visited + {Pair(t, offset)}, FRESH, t + 1, nest + 1, at, "", true);
      BaseStep(n, visited, node, t, nest, offset);
      BasesAreDumped(n, visited + {Pair(t, offset)}, FRESH, t + 1, nest + 1, at);
      HeightAppend(parent.Freeze().shown.kids, MemberEntry(Bases(n), r, t + 1, at).Close());
    } else {
      LastBase(n, visited, node, nest, offset);
    }
  }

  /** Base classes are outside the limit: a chain of n + 1 of them gives n + 1 levels. */
  lemma BasesPassTheLimit(n: TypeId, sym: Symbol)
    requires sym.Reported() && sym.ty == 0 && sym.name == ""
    ensures Height(SymbolTree(Bases(n), {}, sym)) == n + 1
  {
    BasesAreDumped(n, {}, SymbolStart(sym), 0, 0, sym.Location());
  }

  lemma TameBases(n: TypeId)
    ensures Tame(Bases(n)) <==> n <= 1
  {
    var dbg := Bases(n);
    if n > 1 {
      var ty: TypeId, id: TypeId := 0, 1;
      assert dbg.children(ty) == Some([1]) && dbg.children(id) == Some([2]);
      assert id in dbg.children(ty).GetOr([]) && !Skipped(dbg, id);
      assert !Stops(dbg, id) by {
        var next: TypeId := 2;
        assert next in dbg.children(id).GetOr([]) && !Skipped(dbg, next);
      }
    } else {
      forall ty: TypeId, id: TypeId | id in dbg.children(ty).GetOr([]) && !Skipped(dbg, id) ensures Limited(dbg, id) {
        assert dbg.children(id) == None;
      }
    }
  }
}
