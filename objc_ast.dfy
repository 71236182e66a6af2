/** The part of clang's Objective-C AST that the cocoa rules look at, as values.
    Declarations that clang links by pointer (a superclass, an adopted protocol,
    a visible category, the static type of a receiver) are nested values here, so
    every walk over them is structural recursion and always terminates. */
module ObjCAst {

  datatype Option<+T> = None | Some(value: T)

  type Selector = string

  /** What identifies an Objective-C method: the class-method flag and the
      selector. Bodies, return types and parameter names play no part. */
  datatype MethodRef = MethodRef(isClassMethod: bool, selector: Selector)

  /** clang's ObjCPropertyDecl::SetterKind. */
  datatype SetterKind = Assign | Retain | Copy | Weak

  /** clang's Type::ScalarTypeKind, the classification of a scalar type. A
      property of non-scalar type (a struct) has none, and is not represented. */
  datatype ScalarTypeKind =
    | CPointer | BlockPointer | ObjCObjectPointer | MemberPointer | Bool
    | Integral | Floating | IntegralComplex | FloatingComplex | FixedPoint

  /** A declared property. The accessors are the method declarations clang
      synthesises for it; either may be missing (a readonly property has no
      setter). */
  datatype Property = Property(
    name: string,
    isReadOnly: bool,
    setterKind: SetterKind,
    typeKind: ScalarTypeKind,
    getter: Option<MethodRef>,
    setter: Option<MethodRef>)

  /** The members every ObjCContainerDecl has: declared methods and properties. */
  datatype Members = Members(methods: seq<MethodRef>, properties: seq<Property>)

  datatype Protocol = Protocol(name: string, members: Members, protocols: seq<Protocol>)

  datatype Category = Category(name: string, members: Members, protocols: seq<Protocol>)

  /** An @interface. `hasDefinition` is false for a forward declaration
      (`@class X;`), whose getDefinition() is null. `protocols` are the ones
      listed on the @interface itself, `extensionProtocols` those added by class
      extensions, `categories` the visible categories. */
  datatype Interface = Interface(
    name: string,
    hasDefinition: bool,
    members: Members,
    superclass: Option<Interface>,
    protocols: seq<Protocol>,
    extensionProtocols: seq<Protocol>,
    categories: seq<Category>)

  /** clang's all_referenced_protocols(): the protocols merged in from class
      extensions followed by the directly adopted ones. clang drops an extension
      protocol that an adopted one already covers; that changes no lookup. */
  function AllReferencedProtocols(i: Interface): (r: seq<Protocol>)
    ensures forall k :: 0 <= k < |i.extensionProtocols| ==> i.extensionProtocols[k] in r
    ensures forall k :: 0 <= k < |i.protocols| ==> i.protocols[k] in r
    ensures forall p :: p in r ==> p in i.extensionProtocols || p in i.protocols
    ensures |r| == |i.extensionProtocols| + |i.protocols|
  {
    i.extensionProtocols + i.protocols
  }

  /** The superclass chain starting at `o`: `o` itself, its superclass, and so on
      until getSuperClass() is null. */
  function Chain(o: Option<Interface>): (r: seq<Interface>)
    ensures o.None? <==> r == []
    ensures o.Some? ==> r[0] == o.value
  {
    match o
    case None => []
    case Some(i) => [i] + Chain(i.superclass)
  }

  function Ancestors(i: Interface): (r: seq<Interface>)
    ensures |r| > 0 && r[0] == i
  {
    Chain(Some(i))
  }

  /** Some interface of the chain of `i` satisfies `P` exactly when `i` does or
      some interface of its superclass's chain does. */
  lemma SomeAncestorUnfold(i: Interface, P: Interface -> bool)
    ensures (exists k :: 0 <= k < |Ancestors(i)| && P(Ancestors(i)[k])) <==>
              P(i) || (i.superclass.Some? &&
                       exists k :: 0 <= k < |Ancestors(i.superclass.value)| && P(Ancestors(i.superclass.value)[k]))
  {
    var rest := Chain(i.superclass);
    assert Ancestors(i) == [i] + rest;
    if i.superclass.Some? {
      var s := i.superclass.value;
      assert rest == Ancestors(s);
      if exists k :: 0 <= k < |Ancestors(i)| && P(Ancestors(i)[k]) {
        var k :| 0 <= k < |Ancestors(i)| && P(Ancestors(i)[k]);
        if k > 0 {
          assert Ancestors(s)[k - 1] == Ancestors(i)[k];
        }
      }
      if exists k :: 0 <= k < |Ancestors(s)| && P(Ancestors(s)[k]) {
        var k :| 0 <= k < |Ancestors(s)| && P(Ancestors(s)[k]);
        assert Ancestors(i)[k + 1] == Ancestors(s)[k];
      }
    } else {
      assert Ancestors(i) == [i];
    }
  }

  /** One step of a walk up the superclass chain of `start`: the interfaces
      already visited are followed by the current one and then by its
      superclass chain, which is shorter. */
  lemma ChainWalkStep(start: Interface, done: seq<Interface>, cur: Option<Interface>)
    requires cur.Some? && Ancestors(start) == done + Chain(cur)
    ensures |done| < |Ancestors(start)| && Ancestors(start)[|done|] == cur.value
    ensures Ancestors(start) == (done + [cur.value]) + Chain(cur.value.superclass)
    ensures |Chain(cur.value.superclass)| < |Chain(cur)|
  {
    assert Chain(cur) == [cur.value] + Chain(cur.value.superclass);
    assert (done + [cur.value]) + Chain(cur.value.superclass) == done + Chain(cur);
  }

  /** clang's ObjCMessageExpr::ReceiverKind. */
  datatype ReceiverKind = Class | Instance | SuperClass | SuperInstance

  predicate IsInstanceMessage(k: ReceiverKind) {
    k == Instance || k == SuperInstance
  }

  predicate IsClassMessage(k: ReceiverKind) {
    k == Class || k == SuperClass
  }

  predicate IsSuperReceiver(k: ReceiverKind) {
    k == SuperClass || k == SuperInstance
  }

  /** The statement classes the rules distinguish; every other clang statement
      or expression class is `OtherStmt`. */
  datatype Expr =
    | SelectorExpr(selector: Selector)
    | PropertyRef(
        isMessagingGetter: bool, getterSelector: Selector,
        isMessagingSetter: bool, setterSelector: Selector,
        isSuperReceiver: bool, classReceiver: Option<Interface>)
    | MessageSend(
        receiverKind: ReceiverKind, methodDecl: Option<MethodRef>,
        receiverInterface: Option<Interface>)
    | OtherStmt

  /** A statement tree. `Null` is a null Stmt pointer: a missing body, or a
      child slot clang leaves empty (the condition variable of an `if` that
      declares none, the `else` it does not have). */
  datatype Stmt = Null | Node(expr: Expr, children: seq<Stmt>)

  datatype MethodImpl = MethodImpl(decl: MethodRef, body: Stmt)

  /** An @implementation: its class interface and its methods in order. */
  datatype Implementation = Implementation(classInterface: Interface, methods: seq<MethodImpl>)

  /** What getDefinition() gives for a receiver's static interface. */
  function ReceiverDefinition(r: Option<Interface>): (d: Option<Interface>)
    ensures d.Some? <==> r.Some? && r.value.hasDefinition
    ensures d.Some? ==> d == r
  {
    if r.Some? && r.value.hasDefinition then r else None
  }
}
