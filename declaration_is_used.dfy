/** The helpers of the "declaration usage" rule: method identity, declaration
    lookup through protocols, categories and superclasses, the subtype test on
    receivers, the pre-order statement collector and the scan of an
    implementation for uses of one method. This is the careful form of the
    method-usage analysis: it compares selectors, checks receiver types and
    reports weak evidence through an optional out-flag. */
module DeclarationIsUsedRule {
  import opened ObjCAst

  // ---------------------------------------------------------------- identity

  predicate MethodSelectorsAreEqual(a: MethodRef, b: MethodRef) {
    a.selector == b.selector
  }

  predicate MethodsAreEqual(a: MethodRef, b: MethodRef) {
    a.isClassMethod == b.isClassMethod && MethodSelectorsAreEqual(a, b)
  }

  /** Method equality is exactly equality of the (kind, selector) pair, so it is
      an equivalence relation. */
  lemma MethodsAreEqualIsIdentity(a: MethodRef, b: MethodRef, c: MethodRef)
    ensures MethodsAreEqual(a, b) <==> a.isClassMethod == b.isClassMethod && a.selector == b.selector
    ensures MethodsAreEqual(a, b) <==> a == b
    ensures MethodsAreEqual(a, a)
    ensures MethodsAreEqual(a, b) ==> MethodsAreEqual(b, a)
    ensures MethodsAreEqual(a, b) && MethodsAreEqual(b, c) ==> MethodsAreEqual(a, c)
  {
  }

  /** The accessors a property synthesises, getter first. */
  function Accessors(p: Property): seq<MethodRef> {
    (if p.getter.Some? then [p.getter.value] else []) + (if p.setter.Some? then [p.setter.value] else [])
  }

  /** Only instance methods are matched against a property, and then by
      selector alone. */
  predicate PropertyIncludesMethod(p: Property, m: MethodRef) {
    && !m.isClassMethod
    && ((p.getter.Some? && MethodSelectorsAreEqual(p.getter.value, m))
        || (p.setter.Some? && MethodSelectorsAreEqual(p.setter.value, m)))
  }

  lemma PropertyIncludesMethodIff(p: Property, m: MethodRef)
    ensures m.isClassMethod ==> !PropertyIncludesMethod(p, m)
    ensures PropertyIncludesMethod(p, m) <==>
              !m.isClassMethod && exists a :: a in Accessors(p) && a.selector == m.selector
    ensures p.setter.None? ==>
              (PropertyIncludesMethod(p, m) <==> !m.isClassMethod && p.getter.Some? && p.getter.value.selector == m.selector)
  {
    if PropertyIncludesMethod(p, m) {
      if p.getter.Some? && MethodSelectorsAreEqual(p.getter.value, m) {
        assert p.getter.value in Accessors(p);
      } else {
        assert p.setter.value in Accessors(p);
      }
    }
  }

  // ------------------------------------------------------ declaration lookup

  /** A container declares `m` when one of its methods is `m` or one of its
      properties includes it. */
  predicate ContainerDeclares(c: Members, m: MethodRef) {
    || (exists k :: 0 <= k < |c.methods| && MethodsAreEqual(c.methods[k], m))
    || (exists k :: 0 <= k < |c.properties| && PropertyIncludesMethod(c.properties[k], m))
  }

  lemma ContainerDeclaresIff(c: Members, m: MethodRef)
    ensures ContainerDeclares(c, m) <==>
              m in c.methods || exists p :: p in c.properties && PropertyIncludesMethod(p, m)
  {
    if ContainerDeclares(c, m) && m !in c.methods {
      var k :| 0 <= k < |c.properties| && PropertyIncludesMethod(c.properties[k], m);
      assert c.properties[k] in c.properties;
    }
    if m in c.methods {
      var k :| 0 <= k < |c.methods| && c.methods[k] == m;
      assert MethodsAreEqual(c.methods[k], m);
    }
  }

  method ContainerDeclaresMethod(c: Members, m: MethodRef) returns (r: bool)
    ensures r == ContainerDeclares(c, m)
  {
    var k := 0;
    while k < |c.methods|
      invariant 0 <= k <= |c.methods|
      invariant forall j :: 0 <= j < k ==> !MethodsAreEqual(c.methods[j], m)
    {
      if MethodsAreEqual(c.methods[k], m) {
        return true;
      }
      k := k + 1;
    }
    k := 0;
    while k < |c.properties|
      invariant 0 <= k <= |c.properties|
      invariant forall j :: 0 <= j < k ==> !PropertyIncludesMethod(c.properties[j], m)
    {
      if PropertyIncludesMethod(c.properties[k], m) {
        return true;
      }
      k := k + 1;
    }
    return false;
  }

  /** A protocol declares `m` itself or through a protocol it adopts. */
  predicate ProtocolDeclares(p: Protocol, m: MethodRef)
    decreases p
  {
    || ContainerDeclares(p.members, m)
    || exists k :: 0 <= k < |p.protocols| && ProtocolDeclares(p.protocols[k], m)
  }

  method ProtocolDeclaresMethod(p: Protocol, m: MethodRef) returns (r: bool)
    ensures r == ProtocolDeclares(p, m)
    decreases p
  {
    r := ContainerDeclaresMethod(p.members, m);
    if r {
      return;
    }
    var k := 0;
    while k < |p.protocols|
      invariant 0 <= k <= |p.protocols|
      invariant forall j :: 0 <= j < k ==> !ProtocolDeclares(p.protocols[j], m)
    {
      r := ProtocolDeclaresMethod(p.protocols[k], m);
      if r {
        return;
      }
      k := k + 1;
    }
    return false;
  }

  /** `q` adopts `p` directly or transitively; every protocol adopts itself. */
  predicate Adopts(q: Protocol, p: Protocol)
    decreases q
  {
    q == p || exists k :: 0 <= k < |q.protocols| && Adopts(q.protocols[k], p)
  }

  /** Adoption is monotone: whatever an adopted protocol declares, the adopting
      protocol declares too. */
  lemma {:induction false} AdoptionIsMonotone(q: Protocol, p: Protocol, m: MethodRef)
    requires Adopts(q, p) && ProtocolDeclares(p, m)
    ensures ProtocolDeclares(q, m)
    decreases q
  {
    if q != p {
      var k :| 0 <= k < |q.protocols| && Adopts(q.protocols[k], p);
      AdoptionIsMonotone(q.protocols[k], p, m);
    }
  }

  /** A protocol declares `m` exactly when the own members of some protocol in
      its adoption closure declare it. */
  lemma {:induction false} ProtocolDeclaresIffSomeAdoptedDeclares(q: Protocol, m: MethodRef)
    ensures ProtocolDeclares(q, m) <==> exists p :: Adopts(q, p) && ContainerDeclares(p.members, m)
    decreases q
  {
    if ProtocolDeclares(q, m) {
      if ContainerDeclares(q.members, m) {
        assert Adopts(q, q);
      } else {
        var k :| 0 <= k < |q.protocols| && ProtocolDeclares(q.protocols[k], m);
        ProtocolDeclaresIffSomeAdoptedDeclares(q.protocols[k], m);
        var p :| Adopts(q.protocols[k], p) && ContainerDeclares(p.members, m);
        assert Adopts(q, p);
      }
    }
    if exists p :: Adopts(q, p) && ContainerDeclares(p.members, m) {
      var p :| Adopts(q, p) && ContainerDeclares(p.members, m);
      AdoptionIsMonotone(q, p, m);
    }
  }

  /** An interface declares `m` itself or through one of all its referenced
      protocols (those of its class extensions included). */
  predicate InterfaceDeclares(i: Interface, m: MethodRef) {
    var ps := AllReferencedProtocols(i);
    || ContainerDeclares(i.members, m)
    || exists k :: 0 <= k < |ps| && ProtocolDeclares(ps[k], m)
  }

  method InterfaceDeclaresMethod(i: Interface, m: MethodRef) returns (r: bool)
    ensures r == InterfaceDeclares(i, m)
  {
    r := ContainerDeclaresMethod(i.members, m);
    if r {
      return;
    }
    var ps := AllReferencedProtocols(i);
    var k := 0;
    while k < |ps|
      invariant 0 <= k <= |ps|
      invariant forall j :: 0 <= j < k ==> !ProtocolDeclares(ps[j], m)
    {
      r := ProtocolDeclaresMethod(ps[k], m);
      if r {
        return;
      }
      k := k + 1;
    }
    return false;
  }

  predicate CategoryDeclares(c: Category, m: MethodRef) {
    || ContainerDeclares(c.members, m)
    || exists k :: 0 <= k < |c.protocols| && ProtocolDeclares(c.protocols[k], m)
  }

  method CategoryDeclaresMethod(c: Category, m: MethodRef) returns (r: bool)
    ensures r == CategoryDeclares(c, m)
  {
    r := ContainerDeclaresMethod(c.members, m);
    if r {
      return;
    }
    var k := 0;
    while k < |c.protocols|
      invariant 0 <= k <= |c.protocols|
      invariant forall j :: 0 <= j < k ==> !ProtocolDeclares(c.protocols[j], m)
    {
      r := ProtocolDeclaresMethod(c.protocols[k], m);
      if r {
        return;
      }
      k := k + 1;
    }
    return false;
  }

  /** An interface that refers to a protocol adopting `p`, directly or through
      a class extension, declares whatever `p` declares. */
  lemma InterfaceAdoptionIsMonotone(i: Interface, k: nat, p: Protocol, m: MethodRef)
    requires k < |AllReferencedProtocols(i)|
    requires Adopts(AllReferencedProtocols(i)[k], p) && ProtocolDeclares(p, m)
    ensures InterfaceDeclares(i, m)
  {
    AdoptionIsMonotone(AllReferencedProtocols(i)[k], p, m);
  }

  /** A category adopting a protocol that adopts `p` declares whatever `p`
      declares. */
  lemma CategoryAdoptionIsMonotone(c: Category, k: nat, p: Protocol, m: MethodRef)
    requires k < |c.protocols|
    requires Adopts(c.protocols[k], p) && ProtocolDeclares(p, m)
    ensures CategoryDeclares(c, m)
  {
    AdoptionIsMonotone(c.protocols[k], p, m);
  }

  // ------------------------------------------------------------ subtype test

  /** Some class on `a`'s superclass chain, `a` included, has `t`'s name. */
  predicate IsKindOf(a: Interface, t: Interface) {
    exists k :: 0 <= k < |Ancestors(a)| && Ancestors(a)[k].name == t.name
  }

  method InterfaceIsKindOfInterface(a: Interface, t: Interface) returns (r: bool)
    ensures r == IsKindOf(a, t)
  {
    var cur := Some(a);
    ghost var done: seq<Interface> := [];
    while cur.Some?
      invariant Ancestors(a) == done + Chain(cur)
      invariant forall k :: 0 <= k < |done| ==> done[k].name != t.name
      decreases |Chain(cur)|
    {
      ChainWalkStep(a, done, cur);
      if cur.value.name == t.name {
        return true;
      }
      done := done + [cur.value];
      cur := cur.value.superclass;
    }
    return false;
  }

  /** One step of the walk: `a` is a kind of `t` when it has `t`'s name or its
      superclass is a kind of `t`; when there is no superclass the name alone
      decides. In particular every interface is a kind of itself. */
  lemma {:induction false} IsKindOfUnfold(a: Interface, t: Interface)
    ensures IsKindOf(a, t) <==>
              a.name == t.name || (a.superclass.Some? && IsKindOf(a.superclass.value, t))
    ensures IsKindOf(a, a)
  {
    var rest := Chain(a.superclass);
    assert Ancestors(a) == [a] + rest;
    if a.superclass.Some? {
      var s := a.superclass.value;
      assert rest == Ancestors(s);
      if IsKindOf(a, t) && a.name != t.name {
        var k :| 0 <= k < |Ancestors(a)| && Ancestors(a)[k].name == t.name;
        assert Ancestors(s)[k - 1] == Ancestors(a)[k];
      }
      if IsKindOf(s, t) {
        var k :| 0 <= k < |Ancestors(s)| && Ancestors(s)[k].name == t.name;
        assert Ancestors(a)[k + 1] == Ancestors(s)[k];
      }
    } else {
      assert Ancestors(a) == [a];
    }
  }

  // ------------------------------------------------------- hierarchy lookup

  /** What one ancestor contributes: nothing without a definition, otherwise
      its interface's declarations and those of its visible categories. */
  predicate AncestorDeclares(i: Interface, m: MethodRef) {
    && i.hasDefinition
    && (|| InterfaceDeclares(i, m)
        || exists c :: 0 <= c < |i.categories| && CategoryDeclares(i.categories[c], m))
  }

  predicate HierarchyDeclares(i: Interface, m: MethodRef) {
    exists k :: 0 <= k < |Ancestors(i)| && AncestorDeclares(Ancestors(i)[k], m)
  }

  /** The body of the hierarchy walk for one interface: unless it has no
      definition, its interface and then each visible category in turn. */
  method AncestorDeclaresMethod(i: Interface, m: MethodRef) returns (r: bool)
    ensures r == AncestorDeclares(i, m)
  {
    if !i.hasDefinition {
      return false;
    }
    r := InterfaceDeclaresMethod(i, m);
    if r {
      return;
    }
    var c := 0;
    while c < |i.categories|
      invariant 0 <= c <= |i.categories|
      invariant forall j :: 0 <= j < c ==> !CategoryDeclares(i.categories[j], m)
    {
      r := CategoryDeclaresMethod(i.categories[c], m);
      if r {
        return;
      }
      c := c + 1;
    }
    return false;
  }

  method InterfaceHierarchyDeclaresMethod(i: Interface, m: MethodRef) returns (r: bool)
    ensures r == HierarchyDeclares(i, m)
  {
    var cur := Some(i);
    ghost var done: seq<Interface> := [];
    while cur.Some?
      invariant Ancestors(i) == done + Chain(cur)
      invariant forall k :: 0 <= k < |done| ==> !AncestorDeclares(done[k], m)
      decreases |Chain(cur)|
    {
      var definition := cur.value;
      ChainWalkStep(i, done, cur);
      r := AncestorDeclaresMethod(definition, m);
      if r {
        return;
      }
      done := done + [definition];
      cur := definition.superclass;
    }
    return false;
  }

  /** One step of the hierarchy walk; an ancestor without a definition is
      skipped and the walk goes on to its superclass. */
  lemma {:induction false} HierarchyDeclaresUnfold(i: Interface, m: MethodRef)
    ensures HierarchyDeclares(i, m) <==>
              AncestorDeclares(i, m) || (i.superclass.Some? && HierarchyDeclares(i.superclass.value, m))
    ensures !i.hasDefinition ==>
              (HierarchyDeclares(i, m) <==> i.superclass.Some? && HierarchyDeclares(i.superclass.value, m))
  {
    var P := x => AncestorDeclares(x, m);
    SomeAncestorUnfold(i, P);
    assert HierarchyDeclares(i, m) <==> exists k :: 0 <= k < |Ancestors(i)| && P(Ancestors(i)[k]);
    if i.superclass.Some? {
      var s := i.superclass.value;
      assert HierarchyDeclares(s, m) <==> exists k :: 0 <= k < |Ancestors(s)| && P(Ancestors(s)[k]);
    }
  }

  /** Declarations are inherited: whatever a superclass's hierarchy declares,
      the subclass's hierarchy declares. */
  lemma SuperclassDeclarationsAreInherited(i: Interface, m: MethodRef)
    requires i.superclass.Some? && HierarchyDeclares(i.superclass.value, m)
    ensures HierarchyDeclares(i, m)
  {
    HierarchyDeclaresUnfold(i, m);
  }

  // ------------------------------------------------------ statement collector

  /** The statements of a tree in pre-order: a node, then its children's
      statements one child after the other. Null slots are skipped. */
  function PreOrder(s: Stmt): (r: seq<Stmt>)
    ensures forall k :: 0 <= k < |r| ==> r[k].Node?
    ensures s.Null? <==> r == []
    ensures s.Node? ==> r[0] == s
    decreases s
  {
    match s
    case Null => []
    case Node(_, children) => [s] + PreOrderAll(children)
  }

  function PreOrderAll(children: seq<Stmt>): (r: seq<Stmt>)
    ensures forall k :: 0 <= k < |r| ==> r[k].Node?
    decreases children
  {
    if |children| == 0 then []
    else PreOrderAll(children[..|children| - 1]) + PreOrder(children[|children| - 1])
  }

  /** The vector a statement list is collected into. */
  class StmtVector {
    var items: seq<Stmt>

    constructor ()
      ensures items == []
    {
      items := [];
    }

    method PushBack(s: Stmt)
      modifies this
      ensures items == old(items) + [s]
    {
      items := items + [s];
    }
  }

  /** Appends the pre-order of `s` to `statements`, recursing into each child. */
  method HelperCollectMethodStatements(s: Stmt, statements: StmtVector)
    modifies statements
    ensures statements.items == old(statements.items) + PreOrder(s)
    decreases s
  {
    if s.Null? {
      return;
    }
    statements.PushBack(s);
    var children := s.children;
    var k := 0;
    while k < |children|
      invariant 0 <= k <= |children|
      invariant statements.items == old(statements.items) + [s] + PreOrderAll(children[..k])
    {
      HelperCollectMethodStatements(children[k], statements);
      assert children[..k + 1][..k] == children[..k];
      k := k + 1;
    }
    assert children[..k] == children;
  }

  method CollectMethodStatements(s: Stmt) returns (r: seq<Stmt>)
    ensures r == PreOrder(s)
  {
    var statements := new StmtVector();
    HelperCollectMethodStatements(s, statements);
    r := statements.items;
  }

  /** The number of non-null nodes of a tree, counted children first to last. */
  function NodeCount(s: Stmt): nat
    decreases s
  {
    match s
    case Null => 0
    case Node(_, children) => 1 + NodeCountAll(children)
  }

  function NodeCountAll(children: seq<Stmt>): nat
    decreases children
  {
    if |children| == 0 then 0 else NodeCount(children[0]) + NodeCountAll(children[1..])
  }

  lemma {:induction false} PreOrderAllSplit(children: seq<Stmt>, k: nat)
    requires k <= |children|
    ensures PreOrderAll(children) == PreOrderAll(children[..k]) + PreOrderAll(children[k..])
    decreases |children| - k
  {
    if k < |children| {
      PreOrderAllSplit(children, k + 1);
      var n := |children|;
      assert children[..k + 1][..k] == children[..k];
      assert PreOrderAll(children[..k + 1]) == PreOrderAll(children[..k]) + PreOrder(children[k]);
      PreOrderAllCons(children[k..]);
      assert children[k..][1..] == children[k + 1..];
    } else {
      assert children[..k] == children;
    }
  }

  lemma {:induction false} PreOrderAllCons(children: seq<Stmt>)
    requires |children| > 0
    ensures PreOrderAll(children) == PreOrder(children[0]) + PreOrderAll(children[1..])
    decreases |children|
  {
    var n := |children|;
    if n > 1 {
      PreOrderAllCons(children[..n - 1]);
      assert children[..n - 1][1..] == children[1..][..n - 2];
      assert children[1..][n - 2] == children[n - 1];
    } else {
      assert children[1..] == [];
      assert children[..0] == [];
    }
  }

  /** The collected list has one entry per node of the tree. */
  lemma {:induction false} PreOrderLength(s: Stmt)
    ensures |PreOrder(s)| == NodeCount(s)
    decreases s
  {
    match s
    case Null =>
    case Node(_, children) => PreOrderAllLength(children);
  }

  lemma {:induction false} PreOrderAllLength(children: seq<Stmt>)
    ensures |PreOrderAll(children)| == NodeCountAll(children)
    decreases children
  {
    if |children| > 0 {
      PreOrderAllCons(children);
      PreOrderLength(children[0]);
      PreOrderAllLength(children[1..]);
    }
  }

  /** The node comes first; then, for each child, the child's own pre-order
      sits after those of the children before it and before those after it. */
  lemma ChildrenKeepTheirOrder(s: Stmt, k: nat)
    requires s.Node? && k < |s.children|
    ensures PreOrder(s) ==
              [s] + PreOrderAll(s.children[..k]) + PreOrder(s.children[k]) + PreOrderAll(s.children[k + 1..])
  {
    PreOrderAllSplit(s.children, k);
    PreOrderAllCons(s.children[k..]);
    assert s.children[k..][1..] == s.children[k + 1..];
  }

  /** `x` is `s` or lies below it. */
  predicate Subtree(x: Stmt, s: Stmt)
    decreases s
  {
    x == s || (s.Node? && exists k :: 0 <= k < |s.children| && Subtree(x, s.children[k]))
  }

  /** The collector visits every non-null node of the tree and nothing else. */
  lemma {:induction false} PreOrderVisitsEverySubtree(s: Stmt, x: Stmt)
    ensures x in PreOrder(s) <==> x.Node? && Subtree(x, s)
    decreases s
  {
    match s
    case Null =>
    case Node(_, children) =>
      PreOrderAllVisitsEverySubtree(children, x);
  }

  lemma {:induction false} PreOrderAllVisitsEverySubtree(children: seq<Stmt>, x: Stmt)
    ensures x in PreOrderAll(children) <==>
              x.Node? && exists k :: 0 <= k < |children| && Subtree(x, children[k])
    decreases children
  {
    var n := |children|;
    if n > 0 {
      var init := children[..n - 1];
      PreOrderAllVisitsEverySubtree(init, x);
      PreOrderVisitsEverySubtree(children[n - 1], x);
      if x.Node? && exists k :: 0 <= k < n && Subtree(x, children[k]) {
        var k :| 0 <= k < n && Subtree(x, children[k]);
        if k < n - 1 {
          assert init[k] == children[k];
        }
      }
      if x in PreOrderAll(init) {
        var k :| 0 <= k < n - 1 && Subtree(x, init[k]);
        assert children[k] == init[k];
      }
    }
  }

  // ------------------------------------------------------- usage scan

  /** What one statement says about the use of `m` by code typed against
      `target`. */
  datatype Evidence = Confirmed | Possible | NoEvidence

  predicate SelectorExpressionMatchesMethod(e: Expr, m: MethodRef)
    requires e.SelectorExpr?
  {
    e.selector == m.selector
  }

  /** A matching access or send is confirmed when its receiver resolves to a
      definition that is a kind of `target`, and only possible when the
      receiver is unknown. */
  function ReceiverEvidence(receiver: Option<Interface>, target: Interface): Evidence {
    match ReceiverDefinition(receiver)
    case Some(r) => if IsKindOf(r, target) then Confirmed else NoEvidence
    case None => Possible
  }

  function StatementEvidence(s: Stmt, m: MethodRef, target: Interface): Evidence {
    if s.Null? then NoEvidence
    else match s.expr
      case SelectorExpr(_) =>
        if SelectorExpressionMatchesMethod(s.expr, m) then Possible else NoEvidence
      case PropertyRef(isGetter, getterSelector, isSetter, setterSelector, isSuper, receiver) =>
        if && !m.isClassMethod
           && ((isGetter && getterSelector == m.selector) || (isSetter && setterSelector == m.selector))
           && !isSuper
        then ReceiverEvidence(receiver, target)
        else NoEvidence
      case MessageSend(kind, decl, receiver) =>
        if && !IsSuperReceiver(kind)
           && !m.isClassMethod == IsInstanceMessage(kind)
           && decl.Some? && MethodsAreEqual(m, decl.value)
        then ReceiverEvidence(receiver, target)
        else NoEvidence
      case OtherStmt => NoEvidence
  }

  /** Confirmed evidence is always a non-super send of `m` itself or a non-super
      access to an accessor with `m`'s selector, on a resolved receiver that is
      a kind of `target`. */
  lemma ConfirmedEvidenceIsATypedUse(s: Stmt, m: MethodRef, target: Interface)
    requires StatementEvidence(s, m, target) == Confirmed
    ensures s.Node? && (s.expr.MessageSend? || s.expr.PropertyRef?)
    ensures s.expr.MessageSend? ==>
              && !IsSuperReceiver(s.expr.receiverKind)
              && (!m.isClassMethod <==> IsInstanceMessage(s.expr.receiverKind))
              && s.expr.methodDecl == Some(m)
              && s.expr.receiverInterface.Some? && s.expr.receiverInterface.value.hasDefinition
              && IsKindOf(s.expr.receiverInterface.value, target)
    ensures s.expr.PropertyRef? ==>
              && !m.isClassMethod && !s.expr.isSuperReceiver
              && ((s.expr.isMessagingGetter && s.expr.getterSelector == m.selector)
                  || (s.expr.isMessagingSetter && s.expr.setterSelector == m.selector))
              && s.expr.classReceiver.Some? && s.expr.classReceiver.value.hasDefinition
              && IsKindOf(s.expr.classReceiver.value, target)
  {
    MethodsAreEqualIsIdentity(m, m, m);
    if s.expr.MessageSend? {
      MethodsAreEqualIsIdentity(m, s.expr.methodDecl.value, m);
    }
  }

  /** Possible evidence is a selector literal naming `m`, or a non-super send
      of `m` itself or a non-super access to an accessor with `m`'s selector
      whose receiver does not resolve to a definition; nothing else. */
  lemma PossibleEvidenceIsAWeakUse(s: Stmt, m: MethodRef, target: Interface)
    ensures StatementEvidence(s, m, target) == Possible <==>
              && s.Node?
              && (|| (s.expr.SelectorExpr? && s.expr.selector == m.selector)
                  || (&& s.expr.PropertyRef? && !m.isClassMethod && !s.expr.isSuperReceiver
                      && ((s.expr.isMessagingGetter && s.expr.getterSelector == m.selector)
                          || (s.expr.isMessagingSetter && s.expr.setterSelector == m.selector))
                      && ReceiverDefinition(s.expr.classReceiver).None?)
                  || (&& s.expr.MessageSend? && !IsSuperReceiver(s.expr.receiverKind)
                      && (!m.isClassMethod <==> IsInstanceMessage(s.expr.receiverKind))
                      && s.expr.methodDecl == Some(m)
                      && ReceiverDefinition(s.expr.receiverInterface).None?))
  {
    MethodsAreEqualIsIdentity(m, m, m);
    if s.Node? && s.expr.MessageSend? && s.expr.methodDecl.Some? {
      MethodsAreEqualIsIdentity(m, s.expr.methodDecl.value, m);
    }
  }

  /** Super sends and super accesses are never evidence. */
  lemma SuperIsNeverEvidence(s: Stmt, m: MethodRef, target: Interface)
    requires s.Node?
    requires (s.expr.MessageSend? && IsSuperReceiver(s.expr.receiverKind))
             || (s.expr.PropertyRef? && s.expr.isSuperReceiver)
    ensures StatementEvidence(s, m, target) == NoEvidence
  {
  }

  /** The statements scanned for `m`: the pre-order of every method body in
      turn, leaving out the methods equal to `m`. */
  function Scanned(methods: seq<MethodImpl>, m: MethodRef): seq<Stmt> {
    if |methods| == 0 then []
    else
      var last := methods[|methods| - 1];
      Scanned(methods[..|methods| - 1], m) + (if MethodsAreEqual(last.decl, m) then [] else PreOrder(last.body))
  }

  /** A statement is scanned for `m` exactly when it is in the body of a method
      not equal to `m`: a method's own body never counts as its own use. */
  lemma ScannedIsOtherBodies(methods: seq<MethodImpl>, m: MethodRef, x: Stmt)
    ensures x in Scanned(methods, m) <==>
              exists k :: 0 <= k < |methods| && !MethodsAreEqual(methods[k].decl, m) && x in PreOrder(methods[k].body)
  {
    if x in Scanned(methods, m) {
      ScannedComesFromOtherBody(methods, m, x);
    }
    if exists k :: 0 <= k < |methods| && !MethodsAreEqual(methods[k].decl, m) && x in PreOrder(methods[k].body) {
      var k :| 0 <= k < |methods| && !MethodsAreEqual(methods[k].decl, m) && x in PreOrder(methods[k].body);
      OtherBodyIsScanned(methods, m, k, x);
    }
  }

  lemma {:induction false} ScannedComesFromOtherBody(methods: seq<MethodImpl>, m: MethodRef, x: Stmt)
    requires x in Scanned(methods, m)
    ensures exists k :: 0 <= k < |methods| && !MethodsAreEqual(methods[k].decl, m) && x in PreOrder(methods[k].body)
    decreases |methods|
  {
    var n := |methods|;
    var init, last := methods[..n - 1], methods[n - 1];
    var tail := if MethodsAreEqual(last.decl, m) then [] else PreOrder(last.body);
    assert Scanned(methods, m) == Scanned(init, m) + tail;
    if x in Scanned(init, m) {
      ScannedComesFromOtherBody(init, m, x);
      var k :| 0 <= k < n - 1 && !MethodsAreEqual(init[k].decl, m) && x in PreOrder(init[k].body);
      assert methods[k] == init[k];
    } else {
      assert x in tail;
      assert !MethodsAreEqual(methods[n - 1].decl, m) && x in PreOrder(methods[n - 1].body);
    }
  }

  lemma {:induction false} OtherBodyIsScanned(methods: seq<MethodImpl>, m: MethodRef, k: nat, x: Stmt)
    requires k < |methods| && !MethodsAreEqual(methods[k].decl, m) && x in PreOrder(methods[k].body)
    ensures x in Scanned(methods, m)
    decreases |methods|
  {
    var n := |methods|;
    var init, last := methods[..n - 1], methods[n - 1];
    var tail := if MethodsAreEqual(last.decl, m) then [] else PreOrder(last.body);
    assert Scanned(methods, m) == Scanned(init, m) + tail;
    if k < n - 1 {
      assert init[k] == methods[k];
      OtherBodyIsScanned(init, m, k, x);
    } else {
      assert x in tail;
    }
  }

  /** Replacing the body of a method equal to `m` changes nothing in the scan
      for `m`. */
  lemma {:induction false} ScannedIgnoresOwnBody(methods: seq<MethodImpl>, m: MethodRef, i: nat, body: Stmt)
    requires i < |methods| && MethodsAreEqual(methods[i].decl, m)
    ensures Scanned(methods[i := MethodImpl(methods[i].decl, body)], m) == Scanned(methods, m)
    decreases |methods|
  {
    var n := |methods|;
    var changed := methods[i := MethodImpl(methods[i].decl, body)];
    if i == n - 1 {
      assert changed[..n - 1] == methods[..n - 1];
    } else {
      assert changed[..n - 1] == methods[..n - 1][i := MethodImpl(methods[i].decl, body)];
      ScannedIgnoresOwnBody(methods[..n - 1], m, i, body);
    }
  }

  predicate EvidenceWithin(ss: seq<Stmt>, n: nat, m: MethodRef, target: Interface, e: Evidence) {
    exists k :: 0 <= k < n && k < |ss| && StatementEvidence(ss[k], m, target) == e
  }

  lemma EvidenceWithinStep(ss: seq<Stmt>, n: nat, m: MethodRef, target: Interface, e: Evidence)
    requires n < |ss|
    ensures EvidenceWithin(ss, n + 1, m, target, e) <==>
              EvidenceWithin(ss, n, m, target, e) || StatementEvidence(ss[n], m, target) == e
  {
    if EvidenceWithin(ss, n + 1, m, target, e) && StatementEvidence(ss[n], m, target) != e {
      var k :| 0 <= k < n + 1 && k < |ss| && StatementEvidence(ss[k], m, target) == e;
      assert k < n;
    }
  }

  predicate ConfirmedUse(impl: Implementation, m: MethodRef) {
    var ss := Scanned(impl.methods, m);
    EvidenceWithin(ss, |ss|, m, impl.classInterface, Confirmed)
  }

  predicate PossibleUse(impl: Implementation, m: MethodRef) {
    var ss := Scanned(impl.methods, m);
    EvidenceWithin(ss, |ss|, m, impl.classInterface, Possible)
  }

  lemma {:induction false} ScannedPrefix(methods: seq<MethodImpl>, m: MethodRef, i: nat)
    requires i < |methods|
    ensures Scanned(methods[..i + 1], m) ==
              Scanned(methods[..i], m) + (if MethodsAreEqual(methods[i].decl, m) then [] else PreOrder(methods[i].body))
    ensures Scanned(methods[..i + 1], m) <= Scanned(methods, m)
    decreases |methods| - i
  {
    assert methods[..i + 1][..i] == methods[..i];
    if i + 1 < |methods| {
      ScannedPrefix(methods, m, i + 1);
    } else {
      assert methods[..i + 1] == methods;
    }
  }

  /** The scan of the first `i` methods is the first `n` scanned statements. */
  ghost predicate ScanReached(methods: seq<MethodImpl>, m: MethodRef, i: nat, n: nat) {
    i <= |methods| && n <= |Scanned(methods, m)| && Scanned(methods[..i], m) == Scanned(methods, m)[..n]
  }

  /** When the scan has reached method `i` and it is not equal to `m`, its
      body comes next. */
  lemma ScannedBodyIsNext(methods: seq<MethodImpl>, m: MethodRef, i: nat, n: nat)
    requires i < |methods| && !MethodsAreEqual(methods[i].decl, m) && ScanReached(methods, m, i, n)
    ensures var body := PreOrder(methods[i].body);
            var all := Scanned(methods, m);
            && n + |body| <= |all|
            && all[n..n + |body|] == body
            && ScanReached(methods, m, i + 1, n + |body|)
  {
    ScannedPrefix(methods, m, i);
    var all := Scanned(methods, m);
    PrefixThenSlice(all[..n], PreOrder(methods[i].body), all);
  }

  /** When `front + body` is a prefix of `all`, `body` sits right after `front`. */
  lemma PrefixThenSlice(front: seq<Stmt>, body: seq<Stmt>, all: seq<Stmt>)
    requires front + body <= all
    ensures |front| + |body| <= |all|
    ensures all[|front|..|front| + |body|] == body
    ensures all[..|front| + |body|] == front + body
  {
    assert all[..|front + body|] == front + body;
    forall j | 0 <= j < |body|
      ensures all[|front| + j] == body[j]
    {
      assert (front + body)[|front| + j] == body[j];
    }
  }

  /** The scan starts before the first method. */
  lemma ScanStarts(methods: seq<MethodImpl>, m: MethodRef)
    ensures ScanReached(methods, m, 0, 0)
  {
    assert methods[..0] == [];
  }

  /** A method equal to `m` adds nothing to the scan. */
  lemma ScannedSkipsEqual(methods: seq<MethodImpl>, m: MethodRef, i: nat, n: nat)
    requires i < |methods| && MethodsAreEqual(methods[i].decl, m) && ScanReached(methods, m, i, n)
    ensures ScanReached(methods, m, i + 1, n)
  {
    ScannedPrefix(methods, m, i);
  }

  /** Once every method is scanned, the prefix is the whole scan. */
  lemma ScannedComplete(methods: seq<MethodImpl>, m: MethodRef, n: nat)
    requires ScanReached(methods, m, |methods|, n)
    ensures n == |Scanned(methods, m)|
  {
    assert methods[..|methods|] == methods;
  }

  /** One statement of the scan: whether it confirms a use of `m`, and the
      caller's flag after it. A matching selector literal, or a matching send
      or access whose receiver does not resolve, raises the flag; nothing lowers
      it. */
  method ScanStatement(statement: Stmt, m: MethodRef, target: Interface, possiblyIn: Option<bool>)
    returns (confirmed: bool, possiblyUsed: Option<bool>)
    requires statement.Node?
    ensures confirmed <==> StatementEvidence(statement, m, target) == Confirmed
    ensures possiblyUsed.Some? == possiblyIn.Some?
    ensures possiblyIn.Some? ==>
              (possiblyUsed.value <==>
                 possiblyIn.value || StatementEvidence(statement, m, target) == Possible)
  {
    confirmed := false;
    possiblyUsed := possiblyIn;
    var e := statement.expr;
    if e.SelectorExpr? {
      if possiblyUsed.Some? && !possiblyUsed.value {
        possiblyUsed := Some(SelectorExpressionMatchesMethod(e, m));
      }
    } else if !m.isClassMethod && e.PropertyRef? {
      if (e.isMessagingGetter && e.getterSelector == m.selector)
         || (e.isMessagingSetter && e.setterSelector == m.selector) {
        if !e.isSuperReceiver {
          var receiver := ReceiverDefinition(e.classReceiver);
          if receiver.Some? {
            confirmed := InterfaceIsKindOfInterface(receiver.value, target);
          } else {
            if possiblyUsed.Some? && !possiblyUsed.value {
              possiblyUsed := Some(true);
            }
          }
        }
      }
    } else if e.MessageSend? {
      if !IsSuperReceiver(e.receiverKind) {
        if !m.isClassMethod == IsInstanceMessage(e.receiverKind)
           && e.methodDecl.Some? && MethodsAreEqual(m, e.methodDecl.value) {
          var receiver := ReceiverDefinition(e.receiverInterface);
          if receiver.Some? {
            confirmed := InterfaceIsKindOfInterface(receiver.value, target);
          } else {
            if possiblyUsed.Some? && !possiblyUsed.value {
              possiblyUsed := Some(true);
            }
          }
        }
      }
    }
  }

  /** `ss[n]` is the first statement confirming a use of `m`, and the caller's
      flag `after` is raised iff `before` was raised or possible evidence came
      before it. */
  predicate FirstConfirmedAt(ss: seq<Stmt>, n: nat, m: MethodRef, target: Interface,
                             before: Option<bool>, after: Option<bool>)
  {
    && n < |ss|
    && StatementEvidence(ss[n], m, target) == Confirmed
    && !EvidenceWithin(ss, n, m, target, Confirmed)
    && after.Some? == before.Some?
    && (before.Some? ==> (after.value <==> before.value || EvidenceWithin(ss, n, m, target, Possible)))
  }

  /** The statements of one method body, which occupy `all[n..]`, scanned in
      turn until one confirms a use. */
  method ScanStatements(statements: seq<Stmt>, m: MethodRef, target: Interface,
                        ghost all: seq<Stmt>, ghost n: nat, ghost possiblyIn: Option<bool>, possiblyAt: Option<bool>)
    returns (confirmed: bool, possiblyUsed: Option<bool>)
    requires n + |statements| <= |all| && all[n..n + |statements|] == statements
    requires forall k :: 0 <= k < |statements| ==> statements[k].Node?
    requires !EvidenceWithin(all, n, m, target, Confirmed)
    requires possiblyAt.Some? == possiblyIn.Some?
    requires possiblyIn.Some? ==>
               (possiblyAt.value <==> possiblyIn.value || EvidenceWithin(all, n, m, target, Possible))
    ensures confirmed ==> exists k :: FirstConfirmedAt(all, k, m, target, possiblyIn, possiblyUsed)
    ensures !confirmed ==> !EvidenceWithin(all, n + |statements|, m, target, Confirmed)
    ensures possiblyUsed.Some? == possiblyIn.Some?
    ensures !confirmed && possiblyIn.Some? ==>
              (possiblyUsed.value <==> possiblyIn.value || EvidenceWithin(all, n + |statements|, m, target, Possible))
  {
    possiblyUsed := possiblyAt;
    var j := 0;
    while j < |statements|
      invariant 0 <= j <= |statements|
      invariant !EvidenceWithin(all, n + j, m, target, Confirmed)
      invariant possiblyUsed.Some? == possiblyIn.Some?
      invariant possiblyIn.Some? ==>
                  (possiblyUsed.value <==> possiblyIn.value || EvidenceWithin(all, n + j, m, target, Possible))
    {
      var statement := statements[j];
      assert all[n + j] == statement;
      ghost var before := possiblyUsed;
      confirmed, possiblyUsed := ScanStatement(statement, m, target, possiblyUsed);
      if confirmed {
        assert possiblyUsed == before;
        assert FirstConfirmedAt(all, n + j, m, target, possiblyIn, possiblyUsed);
        return;
      }
      EvidenceWithinStep(all, n + j, m, target, Confirmed);
      EvidenceWithinStep(all, n + j, m, target, Possible);
      j := j + 1;
    }
    return false, possiblyUsed;
  }

  /** Scans the other methods of `implementation` for a use of `m`. It answers
      true on the first confirmed use. `possiblyIn` is the caller's flag, None
      when the caller passes no flag; the flag is raised by a matching selector
      literal, or a matching send or access on an unknown receiver, seen
      before that point, and is never lowered. */
  method ImplementationCallsMethod(implementation: Implementation, m: MethodRef, possiblyIn: Option<bool>)
    returns (used: bool, possiblyUsed: Option<bool>)
    ensures used == ConfirmedUse(implementation, m)
    ensures possiblyUsed.Some? == possiblyIn.Some?
    ensures possiblyIn.Some? && possiblyIn.value ==> possiblyUsed.value
    ensures possiblyIn.Some? && !used ==>
              (possiblyUsed.value <==> possiblyIn.value || PossibleUse(implementation, m))
    ensures used ==>
              exists n :: FirstConfirmedAt(Scanned(implementation.methods, m), n, m, implementation.classInterface,
                                           possiblyIn, possiblyUsed)
  {
    var target := implementation.classInterface;
    var methods := implementation.methods;
    ghost var all := Scanned(methods, m);
    possiblyUsed := possiblyIn;
    var i := 0;
    ghost var n: nat := 0;
    ScanStarts(methods, m);
    while i < |methods|
      invariant 0 <= i <= |methods|
      invariant ScanReached(methods, m, i, n)
      invariant !EvidenceWithin(all, n, m, target, Confirmed)
      invariant possiblyUsed.Some? == possiblyIn.Some?
      invariant possiblyIn.Some? ==>
                  (possiblyUsed.value <==> possiblyIn.value || EvidenceWithin(all, n, m, target, Possible))
    {
      var testMethod := methods[i];
      if MethodsAreEqual(testMethod.decl, m) {
        ScannedSkipsEqual(methods, m, i, n);
        i := i + 1;
        continue;
      }
      var statements := CollectMethodStatements(testMethod.body);
      ScannedBodyIsNext(methods, m, i, n);
      var confirmed;
      confirmed, possiblyUsed := ScanStatements(statements, m, target, all, n, possiblyIn, possiblyUsed);
      if confirmed {
        return true, possiblyUsed;
      }
      n := n + |statements|;
      i := i + 1;
    }
    ScannedComplete(methods, m, n);
    return false, possiblyUsed;
  }
}
