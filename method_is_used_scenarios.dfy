/** The example programs the "method is used" rule is exercised on, as values,
    and the verdicts the rule gives on them. A method body is its statement
    tree: a compound statement holding a return statement holding the returned
    expression. */
module MethodIsUsedScenarios {
  import opened ObjCAst
  import D = DeclarationIsUsedRule
  import opened MethodIsUsedRule

  const NoMembers := Members([], [])

  const Description := MethodRef(false, "description")
  const IsEqual := MethodRef(false, "isEqual:")
  const Hash := MethodRef(false, "hash")

  /** `@interface NSObject @end`, the root class of every example. */
  const EmptyRoot := Interface("NSObject", true, NoMembers, None, [], [], [])

  /** `@interface BaseObject : super <protocols> @end` with no members. */
  function BaseObject(super: Interface, protocols: seq<Protocol>): Interface {
    Interface("BaseObject", true, NoMembers, Some(super), protocols, [], [])
  }

  /** `{ return e; }` */
  function Returns(e: Stmt): Stmt {
    Node(OtherStmt, [Node(OtherStmt, [e])])
  }

  /** A body returning a literal: `{ return (void*)0; }`, `{ return YES; }`. */
  const ReturnsLiteral := Returns(Node(OtherStmt, []))

  /** `[self sel]`, an instance message to `self` of static type BaseObject. */
  function SendToSelf(self: Interface, sel: MethodRef): Stmt {
    Node(MessageSend(Instance, Some(sel), Some(self)), [Node(OtherStmt, [])])
  }

  lemma PreOrderOfLeaf(e: Expr)
    ensures D.PreOrder(Node(e, [])) == [Node(e, [])]
  {
  }

  lemma PreOrderOfOnlyChild(e: Expr, c: Stmt)
    ensures D.PreOrder(Node(e, [c])) == [Node(e, [c])] + D.PreOrder(c)
  {
    assert [c][..0] == [];
    assert D.PreOrderAll([c][..0]) == [];
    assert D.PreOrderAll([c]) == D.PreOrder(c);
  }

  /** The statements of `{ return (void*)0; }`. */
  lemma PreOrderOfReturnsLiteral()
    ensures D.PreOrder(ReturnsLiteral) == [ReturnsLiteral, ReturnsLiteral.children[0], Node(OtherStmt, [])]
  {
    PreOrderOfLeaf(OtherStmt);
    PreOrderOfOnlyChild(OtherStmt, Node(OtherStmt, []));
    PreOrderOfOnlyChild(OtherStmt, ReturnsLiteral.children[0]);
  }

  /** The statements of `{ return [self sel]; }`. */
  lemma PreOrderOfReturnsSend(self: Interface, sel: MethodRef)
    ensures var body := Returns(SendToSelf(self, sel));
            D.PreOrder(body) == [body, body.children[0], SendToSelf(self, sel), Node(OtherStmt, [])]
  {
    var send := SendToSelf(self, sel);
    PreOrderOfLeaf(OtherStmt);
    PreOrderOfOnlyChild(send.expr, Node(OtherStmt, []));
    PreOrderOfOnlyChild(OtherStmt, send);
    PreOrderOfOnlyChild(OtherStmt, Node(OtherStmt, [send]));
  }

  lemma ScannedOfOne(methods: seq<MethodImpl>)
    requires |methods| == 1
    ensures D.Scanned(methods, methods[0].decl) == []
  {
    var m := methods[0].decl;
    D.MethodsAreEqualIsIdentity(m, m, m);
    assert methods[..0] == [];
    assert D.Scanned(methods[..0], m) == [];
  }

  lemma ScannedOfTwo(methods: seq<MethodImpl>)
    requires |methods| == 2 && methods[0].decl != methods[1].decl
    ensures D.Scanned(methods, methods[0].decl) == D.PreOrder(methods[1].body)
    ensures D.Scanned(methods, methods[1].decl) == D.PreOrder(methods[0].body)
  {
    var a, b := methods[0].decl, methods[1].decl;
    D.MethodsAreEqualIsIdentity(a, b, a);
    D.MethodsAreEqualIsIdentity(b, a, b);
    assert methods[..1][..0] == [];
    assert D.Scanned(methods[..1][..0], a) == [] && D.Scanned(methods[..1][..0], b) == [];
    assert D.Scanned(methods[..1], a) == [];
    assert D.Scanned(methods[..1], b) == D.PreOrder(methods[0].body);
  }

  lemma ViolationsOfOne(impl: Implementation)
    requires |impl.methods| == 1
    ensures Violations(impl) == Reported(impl, impl.methods[0].decl)
  {
    assert impl.methods[..0] == [];
    assert ViolationsFor(impl, impl.methods[..0]) == [];
  }

  lemma ViolationsOfTwo(impl: Implementation)
    requires |impl.methods| == 2
    ensures Violations(impl) == Reported(impl, impl.methods[0].decl) + Reported(impl, impl.methods[1].decl)
  {
    assert impl.methods[..1][..0] == [];
    assert ViolationsFor(impl, impl.methods[..1][..0]) == [];
    assert ViolationsFor(impl, impl.methods[..1]) == Reported(impl, impl.methods[0].decl);
  }

  /** Statements that are all plain give neither kind of evidence. */
  lemma PlainIsNoEvidence(ss: seq<Stmt>, m: MethodRef)
    requires forall k :: 0 <= k < |ss| ==> ss[k].Node? && ss[k].expr == OtherStmt
    ensures !EvidenceWithin(ss, |ss|, m, UsedInternally) && !EvidenceWithin(ss, |ss|, m, PossiblyUsed)
  {
  }

  /** The same for the careful scan. */
  lemma PlainIsNoCarefulEvidence(ss: seq<Stmt>, m: MethodRef, target: Interface)
    requires forall k :: 0 <= k < |ss| ==> ss[k].Node? && ss[k].expr == OtherStmt
    ensures !D.EvidenceWithin(ss, |ss|, m, target, D.Confirmed) && !D.EvidenceWithin(ss, |ss|, m, target, D.Possible)
  {
  }

  /** Every statement of `{ return (void*)0; }` is plain. */
  lemma LiteralBodyIsPlain()
    ensures var ss := D.PreOrder(ReturnsLiteral);
            forall k :: 0 <= k < |ss| ==> ss[k].Node? && ss[k].expr == OtherStmt
  {
    PreOrderOfReturnsLiteral();
  }

  /** With two methods, the second returning a literal, the driver's scan
      finds no evidence for the first. */
  lemma OtherBodyLiteralIsNoEvidence(impl: Implementation)
    requires |impl.methods| == 2 && impl.methods[0].decl != impl.methods[1].decl
    requires impl.methods[1].body == ReturnsLiteral
    ensures var m := impl.methods[0].decl;
            !IsUsedInternally(impl, m) && !IsPossiblyUsed(impl, m)
  {
    ScannedOfTwo(impl.methods);
    LiteralBodyIsPlain();
    PlainIsNoEvidence(D.Scanned(impl.methods, impl.methods[0].decl), impl.methods[0].decl);
  }

  // Long string literals are compared piece by piece, one piece per lemma.

  lemma TailPieces()
    ensures " was defined but not exported or referenced here" == " was defined but not exported" + " or referenced here"
  {
  }

  lemma HeadPieces()
    ensures "The method isEqual:" + " was defined but not exported" == "The method isEqual: was defined but not exported"
  {
  }

  lemma LastPiece()
    ensures "The method isEqual: was defined but not exported" + " or referenced here" ==
            "The method isEqual: was defined but not exported or referenced here"
  {
  }

  lemma IsEqualMessageText()
    ensures "The method isEqual:" + " was defined but not exported or referenced here" ==
            "The method isEqual: was defined but not exported or referenced here"
  {
    TailPieces();
    HeadPieces();
    LastPiece();
  }

  lemma IsEqualMessage()
    ensures NotExportedMessage("isEqual:") == "The method isEqual: was defined but not exported or referenced here"
  {
    IsEqualMessageText();
    assert "The method " + "isEqual:" == "The method isEqual:";
  }

  lemma IsEqualNotExported(impl: Implementation)
    requires !DeclaredPublicly(impl, IsEqual) && !IsUsedInternally(impl, IsEqual) && !IsPossiblyUsed(impl, IsEqual)
    ensures Reported(impl, IsEqual) ==
              [Violation(IsEqual, "The method isEqual: was defined but not exported or referenced here")]
  {
    MethodViolationCases(impl, IsEqual);
    IsEqualMessage();
  }

  lemma CarefulConfirmed(impl: Implementation, m: MethodRef, k: nat)
    requires k < |D.Scanned(impl.methods, m)|
    requires D.StatementEvidence(D.Scanned(impl.methods, m)[k], m, impl.classInterface) == D.Confirmed
    ensures D.ConfirmedUse(impl, m)
  {
  }

  /** A readonly `description` property declared by NSObject, implemented by
      BaseObject: declared publicly through the superclass's property getter. */
  lemma MethodUsedSuperProperty()
    ensures var property := Property("description", true, Assign, ObjCObjectPointer, Some(Description), None);
            var root := Interface("NSObject", true, Members([], [property]), None, [], [], []);
            var impl := Implementation(BaseObject(root, []), [MethodImpl(Description, ReturnsLiteral)]);
            Violations(impl) == []
  {
    var property := Property("description", true, Assign, ObjCObjectPointer, Some(Description), None);
    var root := Interface("NSObject", true, Members([], [property]), None, [], [], []);
    var a := MethodImpl(Description, ReturnsLiteral);
    var impl := Implementation(BaseObject(root, []), [a]);
    ViolationsOfOne(impl);
    assert Ancestors(impl.classInterface)[1] == root;
    assert property in root.members.properties && property.getter == Some(Description);
    DeclaredMethodIsNotReported(impl, Description, 1);
  }

  /** `description` declared as a method of NSObject. */
  lemma MethodUsedSuperMethod()
    ensures var root := Interface("NSObject", true, Members([Description], []), None, [], [], []);
            var impl := Implementation(BaseObject(root, []), [MethodImpl(Description, ReturnsLiteral)]);
            Violations(impl) == []
  {
    var root := Interface("NSObject", true, Members([Description], []), None, [], [], []);
    var a := MethodImpl(Description, ReturnsLiteral);
    var impl := Implementation(BaseObject(root, []), [a]);
    ViolationsOfOne(impl);
    assert Ancestors(impl.classInterface)[1] == root;
    assert Description in root.members.methods;
    DeclaredMethodIsNotReported(impl, Description, 1);
  }

  /** `description` declared by the NSObject protocol that BaseObject adopts. */
  lemma MethodUsedProtocolMethod()
    ensures var protocol := Protocol("NSObject", Members([Description], []), []);
            var impl := Implementation(BaseObject(EmptyRoot, [protocol]), [MethodImpl(Description, ReturnsLiteral)]);
            Violations(impl) == []
  {
    var protocol := Protocol("NSObject", Members([Description], []), []);
    var a := MethodImpl(Description, ReturnsLiteral);
    var impl := Implementation(BaseObject(EmptyRoot, [protocol]), [a]);
    ViolationsOfOne(impl);
    assert D.MethodsAreEqual(protocol.members.methods[0], Description);
    assert ProtocolDeclares(impl.classInterface.protocols[0], Description);
    DeclaredMethodIsNotReported(impl, Description, 0);
  }

  /** BaseObject and NSObject declare nothing. */
  lemma NothingDeclared(impl: Implementation, m: MethodRef)
    requires impl.classInterface == BaseObject(EmptyRoot, [])
    ensures !DeclaredPublicly(impl, m)
  {
    assert Ancestors(impl.classInterface) == [impl.classInterface, EmptyRoot];
  }

  /** A lone `isEqual:` that nothing declares or uses is reported as defined
      but not exported. */
  lemma MethodNotUsed()
    ensures var impl := Implementation(BaseObject(EmptyRoot, []), [MethodImpl(IsEqual, ReturnsLiteral)]);
            Violations(impl) ==
              [Violation(IsEqual, "The method isEqual: was defined but not exported or referenced here")]
  {
    var a := MethodImpl(IsEqual, ReturnsLiteral);
    var impl := Implementation(BaseObject(EmptyRoot, []), [a]);
    ViolationsOfOne(impl);
    ScannedOfOne(impl.methods);
    NothingDeclared(impl, IsEqual);
    PlainIsNoEvidence([], IsEqual);
    IsEqualNotExported(impl);
  }

  /** `isEqual:` sends `hash` and `hash` sends `isEqual:`: both are used. */
  lemma MethodUsedInternally()
    ensures var self := BaseObject(EmptyRoot, []);
            var isEqualBody := Returns(Node(OtherStmt, [SendToSelf(self, Hash),
                                                        Node(MessageSend(Instance, Some(Hash), None), [])]));
            var hashBody := Returns(SendToSelf(self, IsEqual));
            var impl := Implementation(self, [MethodImpl(IsEqual, isEqualBody), MethodImpl(Hash, hashBody)]);
            Violations(impl) == []
  {
    var self := BaseObject(EmptyRoot, []);
    var sendHash := SendToSelf(self, Hash);
    var sendOther := Node(MessageSend(Instance, Some(Hash), None), []);
    var comparison := Node(OtherStmt, [sendHash, sendOther]);
    var isEqualBody := Returns(comparison);
    var hashBody := Returns(SendToSelf(self, IsEqual));
    var a := MethodImpl(IsEqual, isEqualBody);
    var b := MethodImpl(Hash, hashBody);
    var impl := Implementation(self, [a, b]);
    ViolationsOfTwo(impl);
    PreOrderOfReturnsSend(self, IsEqual);
    SendFromAnotherMethodIsUse(impl, IsEqual, 1, SendToSelf(self, IsEqual));
    PreOrderOfOnlyChild(OtherStmt, comparison);
    PreOrderOfOnlyChild(OtherStmt, isEqualBody.children[0]);
    D.PreOrderAllCons(comparison.children);
    assert sendHash in D.PreOrder(comparison);
    SendFromAnotherMethodIsUse(impl, Hash, 0, sendHash);
  }

  /** The class `BaseObject : NSObject` with `isEqual:` sending `hash` to
      `self` and `hash` returning a literal. */
  const OneUnusedSelf := BaseObject(EmptyRoot, [])
  const OneUnused := Implementation(OneUnusedSelf,
    [MethodImpl(IsEqual, Returns(SendToSelf(OneUnusedSelf, Hash))), MethodImpl(Hash, ReturnsLiteral)])

  /** In that class `hash` is used by `isEqual:` and is not reported. */
  lemma OneUnusedHashIsUsed()
    ensures Reported(OneUnused, Hash) == []
  {
    PreOrderOfReturnsSend(OneUnusedSelf, Hash);
    SendFromAnotherMethodIsUse(OneUnused, Hash, 0, SendToSelf(OneUnusedSelf, Hash));
  }

  /** In that class nothing uses `isEqual:`, so it is reported. */
  lemma OneUnusedIsEqualIsReported()
    ensures Reported(OneUnused, IsEqual) ==
              [Violation(IsEqual, "The method isEqual: was defined but not exported or referenced here")]
  {
    NothingDeclared(OneUnused, IsEqual);
    OtherBodyLiteralIsNoEvidence(OneUnused);
    IsEqualNotExported(OneUnused);
  }

  /** `isEqual:` sends `hash`, which sends nothing: `isEqual:` is the one
      reported, since `hash` is used by it. */
  lemma OneMethodNotUsed()
    ensures var self := BaseObject(EmptyRoot, []);
            var isEqualBody := Returns(SendToSelf(self, Hash));
            var impl := Implementation(self, [MethodImpl(IsEqual, isEqualBody), MethodImpl(Hash, ReturnsLiteral)]);
            Violations(impl) ==
              [Violation(IsEqual, "The method isEqual: was defined but not exported or referenced here")]
  {
    ViolationsOfTwo(OneUnused);
    OneUnusedHashIsUsed();
    OneUnusedIsEqualIsReported();
  }

  /** `[self sel]` on a defined class confirms the instance method `sel`. */
  lemma SendToSelfIsConfirmed(self: Interface, sel: MethodRef)
    requires self.hasDefinition && !sel.isClassMethod
    ensures D.StatementEvidence(SendToSelf(self, sel), sel, self) == D.Confirmed
  {
    D.IsKindOfUnfold(self, self);
    D.MethodsAreEqualIsIdentity(sel, sel, sel);
    assert D.ReceiverEvidence(Some(self), self) == D.Confirmed;
  }

  /** The careful scan agrees on the last example: the typed send `[self hash]`
      confirms `hash`, and nothing confirms `isEqual:`. */
  lemma OneMethodNotUsedCarefully()
    ensures var self := BaseObject(EmptyRoot, []);
            var isEqualBody := Returns(SendToSelf(self, Hash));
            var impl := Implementation(self, [MethodImpl(IsEqual, isEqualBody), MethodImpl(Hash, ReturnsLiteral)]);
            D.ConfirmedUse(impl, Hash) && !D.ConfirmedUse(impl, IsEqual) && !D.PossibleUse(impl, IsEqual)
  {
    OneUnusedHashIsConfirmed();
    OneUnusedIsEqualHasNoEvidence();
  }

  lemma OneUnusedHashIsConfirmed()
    ensures D.ConfirmedUse(OneUnused, Hash)
  {
    ScannedOfTwo(OneUnused.methods);
    PreOrderOfReturnsSend(OneUnusedSelf, Hash);
    SendToSelfIsConfirmed(OneUnusedSelf, Hash);
    assert D.Scanned(OneUnused.methods, Hash)[2] == SendToSelf(OneUnusedSelf, Hash);
    CarefulConfirmed(OneUnused, Hash, 2);
  }

  lemma OneUnusedIsEqualHasNoEvidence()
    ensures !D.ConfirmedUse(OneUnused, IsEqual) && !D.PossibleUse(OneUnused, IsEqual)
  {
    OtherBodyLiteralIsNoCarefulEvidence(OneUnused);
  }

  /** With two methods, the second returning a literal, the careful scan
      finds no evidence for the first. */
  lemma OtherBodyLiteralIsNoCarefulEvidence(impl: Implementation)
    requires |impl.methods| == 2 && impl.methods[0].decl != impl.methods[1].decl
    requires impl.methods[1].body == ReturnsLiteral
    ensures var m := impl.methods[0].decl;
            !D.ConfirmedUse(impl, m) && !D.PossibleUse(impl, m)
  {
    ScannedOfTwo(impl.methods);
    LiteralBodyIsPlain();
    PlainIsNoCarefulEvidence(D.Scanned(impl.methods, impl.methods[0].decl), impl.methods[0].decl, impl.classInterface);
  }
}
