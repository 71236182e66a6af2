/** The "method is used" rule: for every method of an @implementation it decides
    whether the method is declared publicly (in the class's interface or a
    superclass interface, or a protocol they adopt) or used by another method
    of the same implementation, and otherwise reports one of two violations.

    Its usage test is cruder than the careful scan of DeclarationIsUsedRule: any
    non-super message send of the same instance/class kind counts as a use,
    whatever its selector, and a matching non-super property access counts
    whatever its receiver.

    Two defects of the code as written are corrected here and modelled as
    written in the "as written" section at the end: the recursion of
    protocolDeclaresMethod passes the protocol itself instead of the adopted
    one, and containerDeclaresMethod compares a property's accessors without
    checking that they exist. The statement collector of this rule has no null
    check either; the model uses the null-checking collector of
    DeclarationIsUsedRule. */
module MethodIsUsedRule {
  import opened ObjCAst
  import D = DeclarationIsUsedRule

  // ------------------------------------------------------ declaration lookup

  /** An accessor matches `m` when it exists and equals `m`, class-method flag
      included. The code as written does not check that it exists. */
  predicate AccessorMatches(accessor: Option<MethodRef>, m: MethodRef) {
    accessor.Some? && D.MethodsAreEqual(accessor.value, m)
  }

  predicate ContainerDeclares(c: Members, m: MethodRef) {
    || (exists k :: 0 <= k < |c.methods| && D.MethodsAreEqual(c.methods[k], m))
    || (exists k :: 0 <= k < |c.properties| &&
          (AccessorMatches(c.properties[k].getter, m) || AccessorMatches(c.properties[k].setter, m)))
  }

  method ContainerDeclaresMethod(c: Members, m: MethodRef) returns (r: bool)
    ensures r == ContainerDeclares(c, m)
  {
    var k := 0;
    while k < |c.methods|
      invariant 0 <= k <= |c.methods|
      invariant forall j :: 0 <= j < k ==> !D.MethodsAreEqual(c.methods[j], m)
    {
      if D.MethodsAreEqual(c.methods[k], m) {
        return true;
      }
      k := k + 1;
    }
    k := 0;
    while k < |c.properties|
      invariant 0 <= k <= |c.properties|
      invariant forall j :: 0 <= j < k ==>
                  !AccessorMatches(c.properties[j].getter, m) && !AccessorMatches(c.properties[j].setter, m)
    {
      var getter := c.properties[k].getter;
      var setter := c.properties[k].setter;
      // the setter (and the getter) may be null: a readonly property has no setter
      if (getter.Some? && D.MethodsAreEqual(getter.value, m)) || (setter.Some? && D.MethodsAreEqual(setter.value, m)) {
        return true;
      }
      k := k + 1;
    }
    return false;
  }

  /** A readonly property is matched only through its getter, and a property
      matches a method exactly when one of its accessors is that method. */
  lemma ReadonlyPropertyMatchedOnlyByGetter(c: Members, m: MethodRef)
    requires forall k :: 0 <= k < |c.properties| ==> c.properties[k].setter.None?
    ensures ContainerDeclares(c, m) <==>
              || m in c.methods
              || exists p :: p in c.properties && p.getter == Some(m)
  {
    if ContainerDeclares(c, m) && m !in c.methods {
      var k :| 0 <= k < |c.properties| &&
          (AccessorMatches(c.properties[k].getter, m) || AccessorMatches(c.properties[k].setter, m));
      assert c.properties[k] in c.properties;
    }
    if m in c.methods {
      var k :| 0 <= k < |c.methods| && c.methods[k] == m;
      assert D.MethodsAreEqual(c.methods[k], m);
    } else if exists p :: p in c.properties && p.getter == Some(m) {
      var p :| p in c.properties && p.getter == Some(m);
      var k :| 0 <= k < |c.properties| && c.properties[k] == p;
      assert AccessorMatches(c.properties[k].getter, m);
    }
  }

  predicate ProtocolDeclares(p: Protocol, m: MethodRef)
    decreases p
  {
    || ContainerDeclares(p.members, m)
    || exists k :: 0 <= k < |p.protocols| && ProtocolDeclares(p.protocols[k], m)
  }

  /** The intended recursion: into each adopted protocol in turn. The code as
      written recurses into the protocol itself (see ProtocolDeclaresAsWritten). */
  method ProtocolDeclaresMethod(p: Protocol, m: MethodRef) returns (r: bool)
    ensures r == ProtocolDeclares(p, m)
    decreases p
  {
    var containerCheck := ContainerDeclaresMethod(p.members, m);
    if containerCheck {
      return true;
    }
    var k := 0;
    while k < |p.protocols|
      invariant 0 <= k <= |p.protocols|
      invariant forall j :: 0 <= j < k ==> !ProtocolDeclares(p.protocols[j], m)
    {
      var protocolCheck := ProtocolDeclaresMethod(p.protocols[k], m);
      if protocolCheck {
        return true;
      }
      k := k + 1;
    }
    return false;
  }

  /** Only the protocols listed on the interface itself are consulted (clang's
      protocol_begin), not those of class extensions, and no category. */
  predicate InterfaceDeclares(i: Interface, m: MethodRef) {
    || ContainerDeclares(i.members, m)
    || exists k :: 0 <= k < |i.protocols| && ProtocolDeclares(i.protocols[k], m)
  }

  method InterfaceDeclaresMethod(i: Interface, m: MethodRef) returns (r: bool)
    ensures r == InterfaceDeclares(i, m)
  {
    var containerCheck := ContainerDeclaresMethod(i.members, m);
    if containerCheck {
      return true;
    }
    var k := 0;
    while k < |i.protocols|
      invariant 0 <= k <= |i.protocols|
      invariant forall j :: 0 <= j < k ==> !ProtocolDeclares(i.protocols[j], m)
    {
      var protocolCheck := ProtocolDeclaresMethod(i.protocols[k], m);
      if protocolCheck {
        return true;
      }
      k := k + 1;
    }
    return false;
  }

  /** Some interface with a definition on the superclass chain of the
      implemented class, the class included, declares `m`. */
  predicate DeclaredPublicly(impl: Implementation, m: MethodRef) {
    var chain := Ancestors(impl.classInterface);
    exists k :: 0 <= k < |chain| && chain[k].hasDefinition && InterfaceDeclares(chain[k], m)
  }

  // -------------------------------------------------------------- usage test

  datatype Evidence = UsedInternally | PossiblyUsed | NoEvidence

  /** What one statement of another method's body says about `m`. */
  function StatementEvidence(s: Stmt, m: MethodRef): Evidence {
    if s.Null? then NoEvidence
    else match s.expr
      case SelectorExpr(selector) =>
        if selector == m.selector then PossiblyUsed else NoEvidence
      case PropertyRef(isGetter, getterSelector, isSetter, setterSelector, isSuper, _) =>
        if && !m.isClassMethod
           && ((isGetter && getterSelector == m.selector) || (isSetter && setterSelector == m.selector))
           && !isSuper
        then UsedInternally
        else NoEvidence
      case MessageSend(kind, _, _) =>
        if && !IsSuperReceiver(kind)
           && ((!m.isClassMethod && IsInstanceMessage(kind)) || (m.isClassMethod && IsClassMessage(kind)))
        then UsedInternally
        else NoEvidence
      case OtherStmt => NoEvidence
  }

  predicate EvidenceWithin(ss: seq<Stmt>, n: nat, m: MethodRef, e: Evidence) {
    exists k :: 0 <= k < n && k < |ss| && StatementEvidence(ss[k], m) == e
  }

  lemma EvidenceWithinStep(ss: seq<Stmt>, n: nat, m: MethodRef, e: Evidence)
    requires n < |ss|
    ensures EvidenceWithin(ss, n + 1, m, e) <==> EvidenceWithin(ss, n, m, e) || StatementEvidence(ss[n], m) == e
  {
    if EvidenceWithin(ss, n + 1, m, e) && StatementEvidence(ss[n], m) != e {
      var k :| 0 <= k < n + 1 && k < |ss| && StatementEvidence(ss[k], m) == e;
      assert k < n;
    }
  }

  /** Some statement of the body of a method not equal to `m` uses it. */
  predicate IsUsedInternally(impl: Implementation, m: MethodRef) {
    var ss := D.Scanned(impl.methods, m);
    EvidenceWithin(ss, |ss|, m, UsedInternally)
  }

  /** Some statement of the body of a method not equal to `m` is a selector
      literal naming it. */
  predicate IsPossiblyUsed(impl: Implementation, m: MethodRef) {
    var ss := D.Scanned(impl.methods, m);
    EvidenceWithin(ss, |ss|, m, PossiblyUsed)
  }

  /** The only weak evidence for this rule is a selector literal naming `m`. */
  lemma PossiblyUsedIsSelectorLiteral(s: Stmt, m: MethodRef)
    ensures StatementEvidence(s, m) == PossiblyUsed <==>
              s.Node? && s.expr.SelectorExpr? && s.expr.selector == m.selector
  {
  }

  /** Some method not equal to `m` has a selector literal naming `m` in its body. */
  predicate SelectorLiteralElsewhere(impl: Implementation, m: MethodRef) {
    exists i, s :: && 0 <= i < |impl.methods| && !D.MethodsAreEqual(impl.methods[i].decl, m)
                   && s in D.PreOrder(impl.methods[i].body)
                   && s.Node? && s.expr == SelectorExpr(m.selector)
  }

  /** A method is possibly used exactly when the body of another method holds
      a selector literal naming it. */
  lemma PossiblyUsedIffSelectorLiteralElsewhere(impl: Implementation, m: MethodRef)
    ensures IsPossiblyUsed(impl, m) <==> SelectorLiteralElsewhere(impl, m)
  {
    if IsPossiblyUsed(impl, m) {
      PossiblyUsedHasSelectorLiteral(impl, m);
    }
    if SelectorLiteralElsewhere(impl, m) {
      SelectorLiteralIsPossibleUse(impl, m);
    }
  }

  lemma PossiblyUsedHasSelectorLiteral(impl: Implementation, m: MethodRef)
    requires IsPossiblyUsed(impl, m)
    ensures SelectorLiteralElsewhere(impl, m)
  {
    var ss := D.Scanned(impl.methods, m);
    var k :| 0 <= k < |ss| && StatementEvidence(ss[k], m) == PossiblyUsed;
    var s := ss[k];
    PossiblyUsedIsSelectorLiteral(s, m);
    D.ScannedIsOtherBodies(impl.methods, m, s);
    var i :| 0 <= i < |impl.methods| && !D.MethodsAreEqual(impl.methods[i].decl, m) && s in D.PreOrder(impl.methods[i].body);
    assert s.Node? && s.expr == SelectorExpr(m.selector);
  }

  lemma SelectorLiteralIsPossibleUse(impl: Implementation, m: MethodRef)
    requires SelectorLiteralElsewhere(impl, m)
    ensures IsPossiblyUsed(impl, m)
  {
    var i, s :| && 0 <= i < |impl.methods| && !D.MethodsAreEqual(impl.methods[i].decl, m)
                && s in D.PreOrder(impl.methods[i].body)
                && s.Node? && s.expr == SelectorExpr(m.selector);
    var ss := D.Scanned(impl.methods, m);
    D.ScannedIsOtherBodies(impl.methods, m, s);
    var k :| 0 <= k < |ss| && ss[k] == s;
    assert StatementEvidence(ss[k], m) == PossiblyUsed;
  }

  /** One statement of the scan, updating the two flags of the loop. */
  method ScanStatement(statement: Stmt, m: MethodRef, usedIn: bool, possiblyIn: bool)
    returns (usedInternally: bool, possiblyUsed: bool)
    requires statement.Node?
    ensures usedInternally <==> usedIn || StatementEvidence(statement, m) == UsedInternally
    ensures possiblyUsed <==> possiblyIn || StatementEvidence(statement, m) == PossiblyUsed
  {
    usedInternally, possiblyUsed := usedIn, possiblyIn;
    var e := statement.expr;
    if e.SelectorExpr? {
      if e.selector == m.selector {
        possiblyUsed := true;
      }
    } else if !m.isClassMethod && e.PropertyRef? {
      if (e.isMessagingGetter && e.getterSelector == m.selector)
         || (e.isMessagingSetter && e.setterSelector == m.selector) {
        if !e.isSuperReceiver {
          usedInternally := true;
        }
      }
    } else if e.MessageSend? {
      if !IsSuperReceiver(e.receiverKind) {
        if !m.isClassMethod && IsInstanceMessage(e.receiverKind) {
          usedInternally := true;
        } else if m.isClassMethod && IsClassMessage(e.receiverKind) {
          usedInternally := true;
        }
      }
    }
  }

  // ------------------------------------------------------------------ verdict

  const MessageHead := "The method "
  const SelectorReferenceTail := " was referenced by @selector(...) but no where else"
  const NotExportedTail := " was defined but not exported or referenced here"

  /** The message for a method named only by a selector literal. */
  function ReferencedBySelectorMessage(name: string): (message: string)
    ensures |message| == |MessageHead| + |name| + |SelectorReferenceTail|
    ensures message[..|MessageHead|] == MessageHead
    ensures message[|MessageHead|..|MessageHead| + |name|] == name
    ensures message[|MessageHead| + |name|..] == SelectorReferenceTail
  {
    MessageHead + name + SelectorReferenceTail
  }

  /** The message for a method nothing declares or refers to. */
  function NotExportedMessage(name: string): (message: string)
    ensures |message| == |MessageHead| + |name| + |NotExportedTail|
    ensures message[..|MessageHead|] == MessageHead
    ensures message[|MessageHead|..|MessageHead| + |name|] == name
    ensures message[|MessageHead| + |name|..] == NotExportedTail
  {
    MessageHead + name + NotExportedTail
  }

  /** The message for method `m` given the three findings about it, if any. */
  function Verdict(m: MethodRef, declaredPublically: bool, usedInternally: bool, possiblyUsed: bool): Option<string> {
    if !declaredPublically && !usedInternally then
      Some(if possiblyUsed then ReferencedBySelectorMessage(m.selector) else NotExportedMessage(m.selector))
    else None
  }

  /** The violation message for method `m` of `impl`, if any. */
  function MethodViolation(impl: Implementation, m: MethodRef): Option<string> {
    Verdict(m, DeclaredPublicly(impl, m), IsUsedInternally(impl, m), IsPossiblyUsed(impl, m))
  }

  /** A reported violation: the method it is attached to and its message. */
  datatype Violation = Violation(decl: MethodRef, message: string)

  /** The violation reported for the method `m` of `impl`, if any. */
  function Reported(impl: Implementation, m: MethodRef): seq<Violation> {
    match MethodViolation(impl, m)
    case Some(message) => [Violation(m, message)]
    case None => []
  }

  /** What `report` gives for each of the methods `ms`, in their order. */
  function ReportsFor(ms: seq<MethodImpl>, report: MethodRef -> seq<Violation>): seq<Violation> {
    if |ms| == 0 then []
    else ReportsFor(ms[..|ms| - 1], report) + report(ms[|ms| - 1].decl)
  }

  /** The violations for the methods `ms` of `impl`, in their order. */
  function ViolationsFor(impl: Implementation, ms: seq<MethodImpl>): seq<Violation> {
    ReportsFor(ms, m => Reported(impl, m))
  }

  function Violations(impl: Implementation): seq<Violation> {
    ViolationsFor(impl, impl.methods)
  }

  /** Walks the superclass chain of the implemented class; stops at the first
      interface with a definition that declares `m`. */
  method CheckInterfaces(impl: Implementation, m: MethodRef) returns (declaredPublically: bool)
    ensures declaredPublically == DeclaredPublicly(impl, m)
  {
    var start := impl.classInterface;
    declaredPublically := false;
    var interface := Some(start);
    ghost var done: seq<Interface> := [];
    while interface.Some?
      invariant Ancestors(start) == done + Chain(interface)
      invariant forall k :: 0 <= k < |done| ==> !(done[k].hasDefinition && InterfaceDeclares(done[k], m))
      invariant !declaredPublically
      decreases |Chain(interface)|
    {
      var definition := interface.value;
      ChainWalkStep(start, done, interface);
      if definition.hasDefinition {
        declaredPublically := InterfaceDeclaresMethod(definition, m);
        if declaredPublically {
          return;
        }
      }
      done := done + [definition];
      interface := definition.superclass;
    }
  }

  /** The statements of one method body, which occupy `all[n..]`, scanned in
      turn. */
  method ScanStatements(statements: seq<Stmt>, m: MethodRef, ghost all: seq<Stmt>, ghost n: nat,
                        usedIn: bool, possiblyIn: bool)
    returns (usedInternally: bool, possiblyUsed: bool)
    requires n + |statements| <= |all| && all[n..n + |statements|] == statements
    requires forall k :: 0 <= k < |statements| ==> statements[k].Node?
    requires usedIn <==> EvidenceWithin(all, n, m, UsedInternally)
    requires possiblyIn <==> EvidenceWithin(all, n, m, PossiblyUsed)
    ensures usedInternally <==> EvidenceWithin(all, n + |statements|, m, UsedInternally)
    ensures possiblyUsed <==> EvidenceWithin(all, n + |statements|, m, PossiblyUsed)
  {
    usedInternally, possiblyUsed := usedIn, possiblyIn;
    var j := 0;
    while j < |statements|
      invariant 0 <= j <= |statements|
      invariant usedInternally <==> EvidenceWithin(all, n + j, m, UsedInternally)
      invariant possiblyUsed <==> EvidenceWithin(all, n + j, m, PossiblyUsed)
    {
      assert all[n + j] == statements[j];
      usedInternally, possiblyUsed := ScanStatement(statements[j], m, usedInternally, possiblyUsed);
      EvidenceWithinStep(all, n + j, m, UsedInternally);
      EvidenceWithinStep(all, n + j, m, PossiblyUsed);
      j := j + 1;
    }
  }

  /** Scans the bodies of the other methods of `impl` for uses of `m`. Unlike
      the careful scan it does not stop at the first use. */
  method CheckUses(impl: Implementation, m: MethodRef) returns (usedInternally: bool, possiblyUsed: bool)
    ensures usedInternally == IsUsedInternally(impl, m)
    ensures possiblyUsed == IsPossiblyUsed(impl, m)
  {
    var methods := impl.methods;
    ghost var all := D.Scanned(methods, m);
    usedInternally, possiblyUsed := false, false;
    var i := 0;
    ghost var n: nat := 0;
    D.ScanStarts(methods, m);
    while i < |methods|
      invariant 0 <= i <= |methods|
      invariant D.ScanReached(methods, m, i, n)
      invariant usedInternally <==> EvidenceWithin(all, n, m, UsedInternally)
      invariant possiblyUsed <==> EvidenceWithin(all, n, m, PossiblyUsed)
    {
      if D.MethodsAreEqual(methods[i].decl, m) {
        D.ScannedSkipsEqual(methods, m, i, n);
        i := i + 1;
        continue;
      }
      var statements := D.CollectMethodStatements(methods[i].body);
      D.ScannedBodyIsNext(methods, m, i, n);
      usedInternally, possiblyUsed := ScanStatements(statements, m, all, n, usedInternally, possiblyUsed);
      n := n + |statements|;
      i := i + 1;
    }
    D.ScannedComplete(methods, m, n);
  }

  /** The rule's entry point: one violation per method of `implementation` that
      is neither declared publicly nor used internally, in method order. */
  method VisitObjCImplementationDecl(implementation: Implementation) returns (violations: seq<Violation>)
    ensures violations == Violations(implementation)
  {
    var methods := implementation.methods;
    violations := [];
    var i := 0;
    while i < |methods|
      invariant 0 <= i <= |methods|
      invariant violations == ViolationsFor(implementation, methods[..i])
    {
      var decl := methods[i].decl;
      var declaredPublically := CheckInterfaces(implementation, decl);
      var usedInternally, possiblyUsed := CheckUses(implementation, decl);
      ghost var before := violations;
      ReportedFromFindings(implementation, decl, declaredPublically, usedInternally, possiblyUsed);
      if !declaredPublically && !usedInternally {
        if possiblyUsed {
          violations := violations + [Violation(decl, ReferencedBySelectorMessage(decl.selector))];
        } else {
          violations := violations + [Violation(decl, NotExportedMessage(decl.selector))];
        }
      }
      ViolationsForStep(implementation, methods, i);
      i := i + 1;
    }
    assert methods[..i] == methods;
  }

  /** The violation of `m` follows from the three findings the driver computes. */
  lemma ReportedFromFindings(impl: Implementation, m: MethodRef, declaredPublically: bool, usedInternally: bool,
                             possiblyUsed: bool)
    requires declaredPublically == DeclaredPublicly(impl, m)
    requires usedInternally == IsUsedInternally(impl, m)
    requires possiblyUsed == IsPossiblyUsed(impl, m)
    ensures Reported(impl, m) == match Verdict(m, declaredPublically, usedInternally, possiblyUsed)
                                 case Some(message) => [Violation(m, message)]
                                 case None => []
  {
  }

  /** One more method adds its own verdict at the end. */
  lemma ViolationsForStep(impl: Implementation, ms: seq<MethodImpl>, i: nat)
    requires i < |ms|
    ensures ViolationsFor(impl, ms[..i + 1]) == ViolationsFor(impl, ms[..i]) + Reported(impl, ms[i].decl)
  {
    ReportsForStep(ms, m => Reported(impl, m), i);
  }

  lemma ReportsForStep(ms: seq<MethodImpl>, report: MethodRef -> seq<Violation>, i: nat)
    requires i < |ms|
    ensures ReportsFor(ms[..i + 1], report) == ReportsFor(ms[..i], report) + report(ms[i].decl)
  {
    assert ms[..i + 1][..i] == ms[..i];
  }

  /** Each report comes from one of the methods. */
  lemma {:induction false} ReportsComeFromMethods(ms: seq<MethodImpl>, report: MethodRef -> seq<Violation>, v: Violation)
    requires v in ReportsFor(ms, report)
    ensures exists k :: 0 <= k < |ms| && v in report(ms[k].decl)
    decreases |ms|
  {
    var n := |ms|;
    var init := ms[..n - 1];
    if v in ReportsFor(init, report) {
      ReportsComeFromMethods(init, report, v);
      var k :| 0 <= k < n - 1 && v in report(init[k].decl);
      assert ms[k] == init[k];
    } else {
      assert v in report(ms[n - 1].decl);
    }
  }

  /** Each method's report is listed. */
  lemma {:induction false} ReportIsListed(ms: seq<MethodImpl>, report: MethodRef -> seq<Violation>, k: nat, v: Violation)
    requires k < |ms| && v in report(ms[k].decl)
    ensures v in ReportsFor(ms, report)
    decreases |ms|
  {
    var n := |ms|;
    var init := ms[..n - 1];
    if k < n - 1 {
      assert init[k] == ms[k];
      ReportIsListed(init, report, k, v);
    }
  }

  /** At most one report per method. */
  lemma {:induction false} ReportsAreAtMostOnePerMethod(ms: seq<MethodImpl>, report: MethodRef -> seq<Violation>)
    requires forall x :: |report(x)| <= 1
    ensures |ReportsFor(ms, report)| <= |ms|
    decreases |ms|
  {
    if |ms| > 0 {
      ReportsAreAtMostOnePerMethod(ms[..|ms| - 1], report);
    }
  }

  /** No two violations are attached to the same method. */
  predicate AttachedToDistinctMethods(vs: seq<Violation>) {
    forall i, j :: 0 <= i < j < |vs| ==> vs[i].decl != vs[j].decl
  }

  /** When each report is about its own method, at most one, methods with
      distinct declarations give reports with distinct declarations. */
  lemma {:induction false} ReportsAreDistinct(ms: seq<MethodImpl>, report: MethodRef -> seq<Violation>)
    requires forall i, j :: 0 <= i < j < |ms| ==> ms[i].decl != ms[j].decl
    requires forall x :: |report(x)| <= 1 && forall v :: v in report(x) ==> v.decl == x
    ensures AttachedToDistinctMethods(ReportsFor(ms, report))
    decreases |ms|
  {
    if |ms| > 0 {
      var n := |ms|;
      var init := ms[..n - 1];
      ReportsAreDistinct(init, report);
      var pre := ReportsFor(init, report);
      var vs := ReportsFor(ms, report);
      assert vs == pre + report(ms[n - 1].decl);
      assert AttachedToDistinctMethods(pre);
      forall i, j | 0 <= i < j < |vs|
        ensures vs[i].decl != vs[j].decl
      {
        if j >= |pre| {
          // the last method's report comes after every earlier one
          assert vs[j] in report(ms[n - 1].decl);
          assert vs[i] == pre[i];
          ReportsComeFromMethods(init, report, pre[i]);
          var k :| 0 <= k < n - 1 && pre[i] in report(init[k].decl);
          assert init[k] == ms[k];
          assert pre[i].decl == ms[k].decl && vs[j].decl == ms[n - 1].decl;
          assert ms[k].decl != ms[n - 1].decl;
        } else {
          assert vs[i] == pre[i] && vs[j] == pre[j];
          assert pre[i].decl != pre[j].decl;
        }
      }
    }
  }

  // ------------------------------------------------------- verdict properties

  /** Every violation belongs to one of the methods and carries that method's
      verdict; there are at most as many violations as methods. */
  lemma ViolationsAreVerdicts(impl: Implementation, ms: seq<MethodImpl>)
    ensures |ViolationsFor(impl, ms)| <= |ms|
    ensures forall v :: v in ViolationsFor(impl, ms) ==>
              && (exists k :: 0 <= k < |ms| && ms[k].decl == v.decl)
              && MethodViolation(impl, v.decl) == Some(v.message)
  {
    var report := m => Reported(impl, m);
    forall x | true
      ensures |report(x)| <= 1
    {
      ReportedIsVerdict(impl, x);
    }
    ReportsAreAtMostOnePerMethod(ms, report);
    forall v | v in ViolationsFor(impl, ms)
      ensures exists k :: 0 <= k < |ms| && ms[k].decl == v.decl
      ensures MethodViolation(impl, v.decl) == Some(v.message)
    {
      ReportsComeFromMethods(ms, report, v);
      var k :| 0 <= k < |ms| && v in report(ms[k].decl);
      ReportedIsVerdict(impl, ms[k].decl);
    }
  }

  /** At most one violation per method: when the methods are distinct, as
      clang's @implementation guarantees, so are the methods the violations
      are attached to. */
  lemma ViolationsAreOnePerMethod(impl: Implementation, ms: seq<MethodImpl>)
    requires forall i, j :: 0 <= i < j < |ms| ==> ms[i].decl != ms[j].decl
    ensures AttachedToDistinctMethods(ViolationsFor(impl, ms))
  {
    var report := m => Reported(impl, m);
    forall x | true
      ensures |report(x)| <= 1 && forall v :: v in report(x) ==> v.decl == x
    {
      ReportedIsVerdict(impl, x);
    }
    ReportsAreDistinct(ms, report);
    assert ViolationsFor(impl, ms) == ReportsFor(ms, report);
  }

  /** What is reported for one method is at most its own verdict. */
  lemma ReportedIsVerdict(impl: Implementation, m: MethodRef)
    ensures |Reported(impl, m)| <= 1
    ensures forall v :: v in Reported(impl, m) ==> v.decl == m && MethodViolation(impl, m) == Some(v.message)
  {
  }

  /** Every method with a verdict gets its violation. */
  lemma EveryVerdictIsReported(impl: Implementation, ms: seq<MethodImpl>, k: nat)
    requires k < |ms| && MethodViolation(impl, ms[k].decl).Some?
    ensures Violation(ms[k].decl, MethodViolation(impl, ms[k].decl).value) in ViolationsFor(impl, ms)
  {
    var v := Violation(ms[k].decl, MethodViolation(impl, ms[k].decl).value);
    assert Reported(impl, ms[k].decl) == [v];
    ReportIsListed(ms, m => Reported(impl, m), k, v);
  }

  /** A method gets a violation exactly when it is neither declared publicly
      nor used internally; the message is the selector-literal one when a
      selector literal in another method names it, the not-exported one
      otherwise. */
  lemma MethodViolationCases(impl: Implementation, m: MethodRef)
    ensures MethodViolation(impl, m).Some? <==> !DeclaredPublicly(impl, m) && !IsUsedInternally(impl, m)
    ensures MethodViolation(impl, m) == Some(ReferencedBySelectorMessage(m.selector)) <==>
              !DeclaredPublicly(impl, m) && !IsUsedInternally(impl, m) && IsPossiblyUsed(impl, m)
    ensures MethodViolation(impl, m) == Some(NotExportedMessage(m.selector)) <==>
              !DeclaredPublicly(impl, m) && !IsUsedInternally(impl, m) && !IsPossiblyUsed(impl, m)
  {
    MessagesDiffer(m.selector);
  }

  /** The two messages are distinguishable, whatever the selector. */
  lemma MessagesDiffer(name: string)
    ensures ReferencedBySelectorMessage(name) != NotExportedMessage(name)
  {
    // the two messages differ in length
    assert |SelectorReferenceTail| == 51;
    assert |NotExportedTail| == 48;
  }

  /** Each message names its method: different methods get different
      messages of either kind. */
  lemma MessagesNameTheMethod(a: string, b: string)
    ensures ReferencedBySelectorMessage(a) == ReferencedBySelectorMessage(b) ==> a == b
    ensures NotExportedMessage(a) == NotExportedMessage(b) ==> a == b
  {
    if ReferencedBySelectorMessage(a) == ReferencedBySelectorMessage(b) || NotExportedMessage(a) == NotExportedMessage(b) {
      assert |a| == |b|;
    }
  }

  /** A method declared in the implemented class's interface or a superclass
      interface that has a definition, as a method, as an accessor of one of
      its properties, or by a protocol it lists, is declared publicly and gets
      no violation, whatever its uses. */
  lemma DeclaredMethodIsNotReported(impl: Implementation, m: MethodRef, k: nat)
    requires k < |Ancestors(impl.classInterface)|
    requires Ancestors(impl.classInterface)[k].hasDefinition
    requires var i := Ancestors(impl.classInterface)[k];
             || m in i.members.methods
             || (exists p :: p in i.members.properties && (p.getter == Some(m) || p.setter == Some(m)))
             || (exists j :: 0 <= j < |i.protocols| && ProtocolDeclares(i.protocols[j], m))
    ensures DeclaredPublicly(impl, m)
    ensures MethodViolation(impl, m) == None
  {
    var i := Ancestors(impl.classInterface)[k];
    D.MethodsAreEqualIsIdentity(m, m, m);
    if m in i.members.methods {
      var j :| 0 <= j < |i.members.methods| && i.members.methods[j] == m;
      assert D.MethodsAreEqual(i.members.methods[j], m);
    } else if exists p :: p in i.members.properties && (p.getter == Some(m) || p.setter == Some(m)) {
      var p :| p in i.members.properties && (p.getter == Some(m) || p.setter == Some(m));
      var j :| 0 <= j < |i.members.properties| && i.members.properties[j] == p;
      assert AccessorMatches(i.members.properties[j].getter, m) || AccessorMatches(i.members.properties[j].setter, m);
    }
    assert InterfaceDeclares(i, m);
  }

  /** A method's own body is never evidence of its own use: replacing it leaves
      the method's verdict unchanged. */
  lemma OwnBodyIsNeverEvidence(impl: Implementation, i: nat, body: Stmt)
    requires i < |impl.methods|
    ensures var m := impl.methods[i].decl;
            var changed := impl.(methods := impl.methods[i := MethodImpl(m, body)]);
            MethodViolation(changed, m) == MethodViolation(impl, m)
  {
    var m := impl.methods[i].decl;
    D.MethodsAreEqualIsIdentity(m, m, m);
    D.ScannedIgnoresOwnBody(impl.methods, m, i, body);
  }

  /** A non-super send of the same kind in the body of another method is a use,
      whatever its selector and receiver. */
  lemma SendFromAnotherMethodIsUse(impl: Implementation, m: MethodRef, i: nat, s: Stmt)
    requires i < |impl.methods| && !D.MethodsAreEqual(impl.methods[i].decl, m)
    requires s in D.PreOrder(impl.methods[i].body)
    requires s.Node? && s.expr.MessageSend? &&
             (if m.isClassMethod then s.expr.receiverKind == Class else s.expr.receiverKind == Instance)
    ensures IsUsedInternally(impl, m)
    ensures MethodViolation(impl, m) == None
  {
    D.ScannedIsOtherBodies(impl.methods, m, s);
    var ss := D.Scanned(impl.methods, m);
    var k :| 0 <= k < |ss| && ss[k] == s;
    assert StatementEvidence(ss[k], m) == UsedInternally;
  }

  /** A non-super property access in the body of another method whose getter
      or setter selector is that of the instance method `m` is a use, whatever
      its receiver. */
  lemma AccessFromAnotherMethodIsUse(impl: Implementation, m: MethodRef, i: nat, s: Stmt)
    requires i < |impl.methods| && !D.MethodsAreEqual(impl.methods[i].decl, m)
    requires s in D.PreOrder(impl.methods[i].body)
    requires s.Node? && s.expr.PropertyRef? && !m.isClassMethod && !s.expr.isSuperReceiver
    requires (s.expr.isMessagingGetter && s.expr.getterSelector == m.selector)
             || (s.expr.isMessagingSetter && s.expr.setterSelector == m.selector)
    ensures IsUsedInternally(impl, m)
    ensures MethodViolation(impl, m) == None
  {
    D.ScannedIsOtherBodies(impl.methods, m, s);
    var ss := D.Scanned(impl.methods, m);
    var k :| 0 <= k < |ss| && ss[k] == s;
    assert StatementEvidence(ss[k], m) == UsedInternally;
  }

  /** A super send or super property access is never a use. */
  lemma SuperIsNeverEvidence(s: Stmt, m: MethodRef)
    requires s.Node?
    requires (s.expr.MessageSend? && IsSuperReceiver(s.expr.receiverKind))
             || (s.expr.PropertyRef? && s.expr.isSuperReceiver)
    ensures StatementEvidence(s, m) == NoEvidence
  {
  }

  /** Every use the careful scan confirms is also a use for this rule, and a
      selector literal is weak evidence for both. */
  lemma CarefulUseIsUse(impl: Implementation, m: MethodRef)
    ensures D.ConfirmedUse(impl, m) ==> IsUsedInternally(impl, m)
    ensures D.StatementEvidence(Node(SelectorExpr(m.selector), []), m, impl.classInterface) == D.Possible
    ensures StatementEvidence(Node(SelectorExpr(m.selector), []), m) == PossiblyUsed
  {
    if D.ConfirmedUse(impl, m) {
      var ss := D.Scanned(impl.methods, m);
      var k :| 0 <= k < |ss| && D.StatementEvidence(ss[k], m, impl.classInterface) == D.Confirmed;
      D.ConfirmedEvidenceIsATypedUse(ss[k], m, impl.classInterface);
      assert StatementEvidence(ss[k], m) == UsedInternally;
    }
  }

  /** A declaration this rule finds is found by the careful hierarchy lookup
      too, when every property accessor is an instance method (as clang
      synthesises them for instance properties). */
  lemma {:induction false} ContainerDeclaresIsCareful(c: Members, m: MethodRef)
    requires forall k :: 0 <= k < |c.properties| ==> InstanceAccessors(c.properties[k])
    ensures ContainerDeclares(c, m) <==> D.ContainerDeclares(c, m)
  {
    if ContainerDeclares(c, m) && !(exists k :: 0 <= k < |c.methods| && D.MethodsAreEqual(c.methods[k], m)) {
      var k :| 0 <= k < |c.properties| &&
          (AccessorMatches(c.properties[k].getter, m) || AccessorMatches(c.properties[k].setter, m));
      assert D.PropertyIncludesMethod(c.properties[k], m);
    }
    if D.ContainerDeclares(c, m) && !(exists k :: 0 <= k < |c.methods| && D.MethodsAreEqual(c.methods[k], m)) {
      var k :| 0 <= k < |c.properties| && D.PropertyIncludesMethod(c.properties[k], m);
      assert AccessorMatches(c.properties[k].getter, m) || AccessorMatches(c.properties[k].setter, m);
    }
  }

  predicate InstanceAccessors(p: Property) {
    (p.getter.Some? ==> !p.getter.value.isClassMethod) && (p.setter.Some? ==> !p.setter.value.isClassMethod)
  }

  predicate InstanceAccessorsIn(c: Members) {
    forall k :: 0 <= k < |c.properties| ==> InstanceAccessors(c.properties[k])
  }

  /** Every property of `p` and of the protocols it adopts has instance accessors. */
  predicate ProtocolHasInstanceAccessors(p: Protocol)
    decreases p
  {
    InstanceAccessorsIn(p.members) &&
    forall k :: 0 <= k < |p.protocols| ==> ProtocolHasInstanceAccessors(p.protocols[k])
  }

  lemma {:induction false} ProtocolDeclaresIsCareful(p: Protocol, m: MethodRef)
    requires ProtocolHasInstanceAccessors(p)
    ensures ProtocolDeclares(p, m) <==> D.ProtocolDeclares(p, m)
    decreases p
  {
    ContainerDeclaresIsCareful(p.members, m);
    forall k | 0 <= k < |p.protocols|
      ensures ProtocolDeclares(p.protocols[k], m) <==> D.ProtocolDeclares(p.protocols[k], m)
    {
      ProtocolDeclaresIsCareful(p.protocols[k], m);
    }
  }

  /** With instance accessors throughout, a method this rule treats as declared
      publicly is declared for the careful hierarchy lookup as well (which also
      looks at class extensions and categories). */
  lemma DeclaredPubliclyIsCarefulDeclaration(impl: Implementation, m: MethodRef)
    requires forall i :: i in Ancestors(impl.classInterface) ==>
               InstanceAccessorsIn(i.members) &&
               forall k :: 0 <= k < |i.protocols| ==> ProtocolHasInstanceAccessors(i.protocols[k])
    requires DeclaredPublicly(impl, m)
    ensures D.HierarchyDeclares(impl.classInterface, m)
  {
    var chain := Ancestors(impl.classInterface);
    var k :| 0 <= k < |chain| && chain[k].hasDefinition && InterfaceDeclares(chain[k], m);
    assert chain[k] in chain;
    InterfaceDeclaresIsCareful(chain[k], m);
    assert D.AncestorDeclares(chain[k], m);
  }

  lemma InterfaceDeclaresIsCareful(i: Interface, m: MethodRef)
    requires InstanceAccessorsIn(i.members)
    requires forall k :: 0 <= k < |i.protocols| ==> ProtocolHasInstanceAccessors(i.protocols[k])
    requires InterfaceDeclares(i, m)
    ensures D.InterfaceDeclares(i, m)
  {
    ContainerDeclaresIsCareful(i.members, m);
    if !ContainerDeclares(i.members, m) {
      var j :| 0 <= j < |i.protocols| && ProtocolDeclares(i.protocols[j], m);
      ProtocolDeclaresIsCareful(i.protocols[j], m);
      var all := AllReferencedProtocols(i);
      assert all[|i.extensionProtocols| + j] == i.protocols[j];
    }
  }

  // ------------------------------------------------------------- as written

  /** protocolDeclaresMethod as written: the loop over the adopted protocols
      calls protocolDeclaresMethod on the protocol itself. The container check
      is the null-checked ContainerDeclares, so that this member shows the
      self-recursion alone; the missing null check is ContainerDeclaresAsWritten. `fuel` bounds the
      recursion depth; None means the recursion has not returned within it.
      Every iteration makes the same call, so the loop's outcome is that of its
      first call. */
  function ProtocolDeclaresAsWritten(p: Protocol, m: MethodRef, fuel: nat): Option<bool>
    decreases fuel
  {
    if fuel == 0 then None
    else if ContainerDeclares(p.members, m) then Some(true)
    else if |p.protocols| == 0 then Some(false)
    else ProtocolDeclaresAsWritten(p, m, fuel - 1)
  }

  /** As written, the lookup returns only when the protocol's own members
      declare the method or it adopts no protocol; otherwise it never returns,
      however deep the recursion may go. */
  lemma {:induction false} ProtocolRecursionAsWrittenNeverReturns(p: Protocol, m: MethodRef, fuel: nat)
    ensures ProtocolDeclaresAsWritten(p, m, fuel).Some? ==>
              ContainerDeclares(p.members, m) || |p.protocols| == 0
    ensures !ContainerDeclares(p.members, m) && |p.protocols| > 0 ==>
              ProtocolDeclaresAsWritten(p, m, fuel) == None
    decreases fuel
  {
    if fuel > 0 {
      ProtocolRecursionAsWrittenNeverReturns(p, m, fuel - 1);
    }
  }

  /** A protocol that declares nothing itself but adopts one declaring `copy`:
      the intended lookup finds `copy`, the lookup as written never returns. */
  lemma ProtocolRecursionCounterexample(fuel: nat)
    ensures var copy := MethodRef(false, "copy");
            var copying := Protocol("NSCopying", Members([copy], []), []);
            var root := Protocol("NSObject", Members([], []), [copying]);
            ProtocolDeclares(root, copy) && ProtocolDeclaresAsWritten(root, copy, fuel) == None
  {
    var copy := MethodRef(false, "copy");
    var copying := Protocol("NSCopying", Members([copy], []), []);
    var root := Protocol("NSObject", Members([], []), [copying]);
    assert D.MethodsAreEqual(copying.members.methods[0], copy);
    assert ProtocolDeclares(root.protocols[0], copy);
    ProtocolRecursionAsWrittenNeverReturns(root, copy, fuel);
  }

  /** containerDeclaresMethod as written: the getter and the setter of each
      property are passed to methodsAreEqual without a null check. None means a
      null accessor was dereferenced. */
  function ContainerDeclaresAsWritten(c: Members, m: MethodRef): Option<bool> {
    if exists k :: 0 <= k < |c.methods| && D.MethodsAreEqual(c.methods[k], m) then Some(true)
    else PropertiesDeclareAsWritten(c.properties, m)
  }

  function PropertiesDeclareAsWritten(ps: seq<Property>, m: MethodRef): Option<bool> {
    if |ps| == 0 then Some(false)
    else if ps[0].getter.None? then None
    else if D.MethodsAreEqual(ps[0].getter.value, m) then Some(true)
    else if ps[0].setter.None? then None
    else if D.MethodsAreEqual(ps[0].setter.value, m) then Some(true)
    else PropertiesDeclareAsWritten(ps[1..], m)
  }

  /** Where every property has both accessors, the code as written and the
      corrected lookup agree. */
  lemma {:induction false} ContainerAsWrittenAgreesWithBothAccessors(c: Members, m: MethodRef)
    requires forall k :: 0 <= k < |c.properties| ==> c.properties[k].getter.Some? && c.properties[k].setter.Some?
    ensures ContainerDeclaresAsWritten(c, m) == Some(ContainerDeclares(c, m))
  {
    PropertiesAsWrittenAgree(c.properties, m);
    var ps := c.properties;
    assert (exists k :: 0 <= k < |ps| && (AccessorMatches(ps[k].getter, m) || AccessorMatches(ps[k].setter, m)))
        == AnyAccessorMatches(ps, m);
  }

  predicate AnyAccessorMatches(ps: seq<Property>, m: MethodRef) {
    exists k :: 0 <= k < |ps| && (AccessorMatches(ps[k].getter, m) || AccessorMatches(ps[k].setter, m))
  }

  lemma {:induction false} PropertiesAsWrittenAgree(ps: seq<Property>, m: MethodRef)
    requires forall k :: 0 <= k < |ps| ==> ps[k].getter.Some? && ps[k].setter.Some?
    ensures PropertiesDeclareAsWritten(ps, m) == Some(AnyAccessorMatches(ps, m))
    decreases |ps|
  {
    if |ps| > 0 {
      PropertiesAsWrittenAgree(ps[1..], m);
      if AnyAccessorMatches(ps[1..], m) {
        var k :| 0 <= k < |ps[1..]| && (AccessorMatches(ps[1..][k].getter, m) || AccessorMatches(ps[1..][k].setter, m));
        assert ps[k + 1] == ps[1..][k];
      }
      if AnyAccessorMatches(ps, m) && !(AccessorMatches(ps[0].getter, m) || AccessorMatches(ps[0].setter, m)) {
        var k :| 0 <= k < |ps| && (AccessorMatches(ps[k].getter, m) || AccessorMatches(ps[k].setter, m));
        assert ps[1..][k - 1] == ps[k];
      }
    }
  }

  /** A readonly property whose getter is not the method looked up: the code as
      written dereferences the missing setter; the corrected lookup answers
      false. NSObject's readonly `description` and the method `hash` are such a
      pair. */
  lemma ReadonlyPropertyAsWrittenDereferencesNull()
    ensures var description := Property("description", true, Assign, ObjCObjectPointer,
                                        Some(MethodRef(false, "description")), None);
            var c := Members([], [description]);
            var hash := MethodRef(false, "hash");
            ContainerDeclaresAsWritten(c, hash) == None && !ContainerDeclares(c, hash)
  {
    var description := Property("description", true, Assign, ObjCObjectPointer,
                                Some(MethodRef(false, "description")), None);
    var c := Members([], [description]);
    var hash := MethodRef(false, "hash");
    assert !AccessorMatches(c.properties[0].getter, hash);
  }

  /** helperCollectMethodStatements as written: no null check, so a null
      statement is pushed and then dereferenced. None stands for that. */
  function CollectAsWritten(s: Stmt): Option<seq<Stmt>>
    decreases s
  {
    match s
    case Null => None
    case Node(_, children) =>
      match CollectAllAsWritten(children)
      case None => None
      case Some(rest) => Some([s] + rest)
  }

  function CollectAllAsWritten(children: seq<Stmt>): Option<seq<Stmt>>
    decreases children
  {
    if |children| == 0 then Some([])
    else match CollectAllAsWritten(children[..|children| - 1])
      case None => None
      case Some(init) =>
        match CollectAsWritten(children[|children| - 1])
        case None => None
        case Some(last) => Some(init + last)
  }

  /** A tree in which no slot is null. */
  predicate NullFree(s: Stmt)
    decreases s
  {
    s.Node? && forall k :: 0 <= k < |s.children| ==> NullFree(s.children[k])
  }

  /** On trees without null slots the collector as written and the corrected
      one agree. */
  lemma {:induction false} CollectAsWrittenAgreesWhenNullFree(s: Stmt)
    requires NullFree(s)
    ensures CollectAsWritten(s) == Some(D.PreOrder(s))
    decreases s
  {
    CollectAllAsWrittenAgrees(s.children);
  }

  lemma {:induction false} CollectAllAsWrittenAgrees(children: seq<Stmt>)
    requires forall k :: 0 <= k < |children| ==> NullFree(children[k])
    ensures CollectAllAsWritten(children) == Some(D.PreOrderAll(children))
    decreases children
  {
    var n := |children|;
    if n > 0 {
      CollectAllAsWrittenAgrees(children[..n - 1]);
      CollectAsWrittenAgreesWhenNullFree(children[n - 1]);
    }
  }

  /** An `if` whose else slot is null: the collector as written dereferences
      the null child, the corrected one lists the two statements. */
  lemma NullChildAsWrittenDereferencesNull()
    ensures var thenStmt := Node(OtherStmt, []);
            var ifStmt := Node(OtherStmt, [thenStmt, Null]);
            CollectAsWritten(ifStmt) == None && D.PreOrder(ifStmt) == [ifStmt, thenStmt]
  {
    var thenStmt := Node(OtherStmt, []);
    var ifStmt := Node(OtherStmt, [thenStmt, Null]);
    assert [thenStmt, Null][..1] == [thenStmt];
    assert [thenStmt, Null][..1][..0] == [];
    assert D.PreOrderAll([thenStmt, Null]) == D.PreOrderAll([thenStmt]);
    assert CollectAllAsWritten([thenStmt, Null]) == None;
  }
}
