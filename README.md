# oclint Cocoa rules: method usage and safe object properties

This project models three OCLint rules for Objective-C and proves properties
of the model.

- **"declaration usage"** (`ObjCVerifyDeclarationIsUsedRule.cpp`) holds the
  careful helpers. `methodsAreEqual` compares a method's class/instance flag
  and its selector. The lookup helpers decide whether a container, protocol,
  interface, category or whole superclass hierarchy declares a method.
  `interfaceIsKindOfInterface` is the subtype test on receivers. The
  pre-order statement collector flattens a method body. `implementationCallsMethod`
  scans the other methods of an `@implementation` for a confirmed use of one
  method, and raises an optional "possibly used" flag on weak evidence.
- **"method is used"** (`ObjCVerifyMethodIsUsedRule.cpp`) is the driver. For
  every method of an `@implementation` it checks two things: is the method
  declared publicly in the class's interface chain, and is it used by another
  method of the same implementation? A method that passes neither test gets
  one of two violation messages.
- **"should use weak"** (`ObjCVerifySafeObjectsRule.cpp`) reports a writable
  property of object-pointer type whose setter semantics is `assign`.

Clang's declarations are modelled as values:

- A superclass is a nested `Option<Interface>`.
- Adopted protocols and visible categories are nested sequences.
- A method body is a `Stmt` tree with `Null` for an empty child slot.

So every walk terminates by structural recursion. The lookups, the subtype
test, the collector, the scans and the verdict loop are methods with loops,
written the way the C++ is written: early returns from inside the loops, and
flags updated statement by statement. Each is proved equal to a specification
predicate or function. The properties are then proved about those
specifications, for example:

- method equality is identity on (flag, selector);
- adoption is monotone;
- every interface is a kind of itself;
- the collector lists every node once, parents before children;
- a method's own body is never evidence of its use;
- exactly the methods that are neither declared nor used are reported, in
  order, with the right message.

Finally, the driver's test programs are stated as lemmas about the verdict.

Three behaviours of the code are worth stating:

- The driver counts any non-super send of the same instance/class kind as a
  use, whatever its selector; the careful scan also demands the method itself
  and a receiver of the implementing class.
- When `isEqual:` sends `hash` and nothing sends `isEqual:`, the violation is
  on `isEqual:`, because no other method sends anything. The careful scan
  agrees: it confirms `hash` and finds no evidence for `isEqual:`.
- `interfaceIsKindOfInterface` compares names along the whole chain. It does
  not stop at a root class.

## Model

| member | source | states |
|---|---|---|
| ObjCAst.AllReferencedProtocols | oclint-rules/rules/cocoa/ObjCVerifyDeclarationIsUsedRule.cpp:97 | the protocols an interface refers to are exactly those of its class extensions and those it adopts directly, every one of them included, one entry per listed protocol |
| ObjCAst.Chain | oclint-rules/rules/cocoa/ObjCVerifyDeclarationIsUsedRule.cpp:123 | the walk `interface = interface->getSuperClass()` visits nothing from a null start and starts at the given interface otherwise |
| ObjCAst.Ancestors | oclint-rules/rules/cocoa/ObjCVerifyDeclarationIsUsedRule.cpp:134 | the superclass chain of an interface is non-empty and starts with the interface itself |
| ObjCAst.ReceiverDefinition | oclint-rules/rules/cocoa/ObjCVerifyDeclarationIsUsedRule.cpp:184-189 | a receiver resolves exactly when it is present and has a definition, and then to that interface |
| DeclarationIsUsedRule.MethodsAreEqualIsIdentity | oclint-rules/rules/cocoa/ObjCVerifyDeclarationIsUsedRule.cpp:37-43 | two methods are equal iff their class flags and selectors agree, that is iff they are the same method; equality is reflexive, symmetric and transitive |
| DeclarationIsUsedRule.MethodSelectorsAreEqual | oclint-rules/rules/cocoa/ObjCVerifyDeclarationIsUsedRule.cpp:37-39 | two methods have equal selectors when their selector names agree |
| DeclarationIsUsedRule.MethodsAreEqual | oclint-rules/rules/cocoa/ObjCVerifyDeclarationIsUsedRule.cpp:41-43 | two methods are equal when both their class/instance flags and their selectors agree; MethodsAreEqualIsIdentity proves this is identity |
| DeclarationIsUsedRule.PropertyIncludesMethodIff | oclint-rules/rules/cocoa/ObjCVerifyDeclarationIsUsedRule.cpp:45-54 | a class method is never included; an instance method is included iff some existing accessor has its selector; without a setter only the getter counts |
| DeclarationIsUsedRule.PropertyIncludesMethod | oclint-rules/rules/cocoa/ObjCVerifyDeclarationIsUsedRule.cpp:45-54 | a property includes m when m is an instance method and an existing getter or setter has m's selector; PropertyIncludesMethodIff states the cases |
| DeclarationIsUsedRule.ContainerDeclaresIff | oclint-rules/rules/cocoa/ObjCVerifyDeclarationIsUsedRule.cpp:56-74 | a container declares m iff m is one of its methods or one of its properties includes m |
| DeclarationIsUsedRule.ContainerDeclaresMethod | oclint-rules/rules/cocoa/ObjCVerifyDeclarationIsUsedRule.cpp:59-74 | the two loops with early return answer exactly whether the container declares m |
| DeclarationIsUsedRule.ProtocolDeclaresMethod | oclint-rules/rules/cocoa/ObjCVerifyDeclarationIsUsedRule.cpp:76-89 | the recursive lookup answers exactly whether the protocol or, recursively, a protocol it adopts declares m |
| DeclarationIsUsedRule.AdoptionIsMonotone | oclint-rules/rules/cocoa/ObjCVerifyDeclarationIsUsedRule.cpp:76-89 | whatever a protocol declares, every protocol adopting it (directly or transitively) declares too |
| DeclarationIsUsedRule.ProtocolDeclaresIffSomeAdoptedDeclares | oclint-rules/rules/cocoa/ObjCVerifyDeclarationIsUsedRule.cpp:76-89 | a protocol declares m iff the own members of some protocol in its adoption closure declare m |
| DeclarationIsUsedRule.InterfaceDeclaresMethod | oclint-rules/rules/cocoa/ObjCVerifyDeclarationIsUsedRule.cpp:91-104 | answers exactly whether the interface's members or any of all its referenced protocols declare m |
| DeclarationIsUsedRule.InterfaceAdoptionIsMonotone | oclint-rules/rules/cocoa/ObjCVerifyDeclarationIsUsedRule.cpp:91-104 | an interface referring to a protocol that adopts p declares whatever p declares |
| DeclarationIsUsedRule.CategoryDeclaresMethod | oclint-rules/rules/cocoa/ObjCVerifyDeclarationIsUsedRule.cpp:106-119 | answers exactly whether the category's members or its protocols declare m |
| DeclarationIsUsedRule.CategoryAdoptionIsMonotone | oclint-rules/rules/cocoa/ObjCVerifyDeclarationIsUsedRule.cpp:106-119 | a category adopting a protocol that adopts p declares whatever p declares |
| DeclarationIsUsedRule.InterfaceIsKindOfInterface | oclint-rules/rules/cocoa/ObjCVerifyDeclarationIsUsedRule.cpp:121-130 | the chain walk answers true iff some class on a's superclass chain, a included, has t's name, and false when the chain ends without one |
| DeclarationIsUsedRule.IsKindOfUnfold | oclint-rules/rules/cocoa/ObjCVerifyDeclarationIsUsedRule.cpp:121-130 | a is a kind of t iff it has t's name or its superclass is a kind of t; every interface is a kind of itself |
| DeclarationIsUsedRule.InterfaceHierarchyDeclaresMethod | oclint-rules/rules/cocoa/ObjCVerifyDeclarationIsUsedRule.cpp:132-150 | the nested walk answers exactly whether some ancestor with a definition declares m in its interface or in one of its visible categories |
| DeclarationIsUsedRule.HierarchyDeclaresUnfold | oclint-rules/rules/cocoa/ObjCVerifyDeclarationIsUsedRule.cpp:132-150 | one step of the walk: the hierarchy declares m iff this ancestor contributes it or the superclass hierarchy does; an ancestor without a definition contributes nothing |
| DeclarationIsUsedRule.AncestorDeclaresMethod | oclint-rules/rules/cocoa/ObjCVerifyDeclarationIsUsedRule.cpp:135-146 | for one interface of the chain: false without a definition, otherwise exactly whether its interface or one of its visible categories declares m |
| DeclarationIsUsedRule.SuperclassDeclarationsAreInherited | oclint-rules/rules/cocoa/ObjCVerifyDeclarationIsUsedRule.cpp:134 | whatever a superclass's hierarchy declares, the subclass's hierarchy declares too |
| DeclarationIsUsedRule.PreOrder | oclint-rules/rules/cocoa/ObjCVerifyDeclarationIsUsedRule.cpp:244-251 | the collected list holds only real statements, is empty exactly for a null statement, and starts with the statement itself |
| DeclarationIsUsedRule.StmtVector.constructor | oclint-rules/rules/cocoa/ObjCVerifyDeclarationIsUsedRule.cpp:254 | a new vector is empty |
| DeclarationIsUsedRule.StmtVector.PushBack | oclint-rules/rules/cocoa/ObjCVerifyDeclarationIsUsedRule.cpp:246 | push_back appends one statement and changes nothing else |
| DeclarationIsUsedRule.HelperCollectMethodStatements | oclint-rules/rules/cocoa/ObjCVerifyDeclarationIsUsedRule.cpp:244-251 | the recursive helper appends exactly the pre-order of the statement to the vector, skipping null statements |
| DeclarationIsUsedRule.CollectMethodStatements | oclint-rules/rules/cocoa/ObjCVerifyDeclarationIsUsedRule.cpp:253-257 | the collected list is the pre-order of the body, empty for a null body |
| DeclarationIsUsedRule.PreOrderLength | oclint-rules/rules/cocoa/ObjCVerifyDeclarationIsUsedRule.cpp:244-251 | the list has exactly one entry per non-null node of the tree |
| DeclarationIsUsedRule.ChildrenKeepTheirOrder | oclint-rules/rules/cocoa/ObjCVerifyDeclarationIsUsedRule.cpp:246-250 | the node comes first, then the pre-orders of its children in their order |
| DeclarationIsUsedRule.PreOrderVisitsEverySubtree | oclint-rules/rules/cocoa/ObjCVerifyDeclarationIsUsedRule.cpp:244-251 | a statement is collected iff it is a non-null node of the tree |
| DeclarationIsUsedRule.ConfirmedEvidenceIsATypedUse | oclint-rules/rules/cocoa/ObjCVerifyDeclarationIsUsedRule.cpp:177-236 | a confirmed use is a non-super send of m itself, of m's instance/class kind, or a non-super getter or setter access whose accessor selector is m's, for an instance method m; in both cases on a resolved receiver with a definition that is a kind of the implementing class |
| DeclarationIsUsedRule.PossibleEvidenceIsAWeakUse | oclint-rules/rules/cocoa/ObjCVerifyDeclarationIsUsedRule.cpp:169-236 | a statement is possible evidence iff it is a selector literal naming m, or a non-super send of m itself of m's kind, or a non-super getter or setter access with m's selector for an instance method m, in both of the latter cases on a receiver without a definition |
| DeclarationIsUsedRule.SelectorExpressionMatchesMethod | oclint-rules/rules/cocoa/ObjCVerifyDeclarationIsUsedRule.cpp:152-154 | a selector literal matches m when it names m's selector |
| DeclarationIsUsedRule.StatementEvidence | oclint-rules/rules/cocoa/ObjCVerifyDeclarationIsUsedRule.cpp:169-236 | classifies one statement as confirmed, possible or no evidence for m; ConfirmedEvidenceIsATypedUse states what confirmed evidence requires, PossibleEvidenceIsAWeakUse what possible evidence requires, and SuperIsNeverEvidence that a super receiver gives none |
| DeclarationIsUsedRule.SuperIsNeverEvidence | oclint-rules/rules/cocoa/ObjCVerifyDeclarationIsUsedRule.cpp:182-210 | a super send or super property access is no evidence at all |
| DeclarationIsUsedRule.ScannedIsOtherBodies | oclint-rules/rules/cocoa/ObjCVerifyDeclarationIsUsedRule.cpp:158-168 | a statement is scanned for m iff it lies in the body of a method not equal to m |
| DeclarationIsUsedRule.ScannedIgnoresOwnBody | oclint-rules/rules/cocoa/ObjCVerifyDeclarationIsUsedRule.cpp:162-164 | replacing the body of m's own implementation changes nothing in the scan for m |
| DeclarationIsUsedRule.ScanStatement | oclint-rules/rules/cocoa/ObjCVerifyDeclarationIsUsedRule.cpp:169-236 | one statement confirms a use exactly when its evidence is confirmed; the caller's flag keeps its presence and is raised exactly by possible evidence |
| DeclarationIsUsedRule.ImplementationCallsMethod | oclint-rules/rules/cocoa/ObjCVerifyDeclarationIsUsedRule.cpp:156-242 | the answer is true iff some other method confirms a use; the optional flag keeps its presence and is never lowered; without a confirmed use it ends raised iff it was raised or some possible evidence was seen; with one, iff it was raised or possible evidence came before the first confirmed use |
| MethodIsUsedRule.ContainerDeclaresMethod | oclint-rules/rules/cocoa/ObjCVerifyMethodIsUsedRule.cpp:23-48 | answers exactly whether some declared method equals m or some existing property accessor equals m, class flag included |
| MethodIsUsedRule.ReadonlyPropertyMatchedOnlyByGetter | oclint-rules/rules/cocoa/ObjCVerifyMethodIsUsedRule.cpp:38-45 | when no property has a setter, a container declares m iff m is one of its methods or the getter of one of its properties |
| MethodIsUsedRule.ProtocolDeclaresMethod | oclint-rules/rules/cocoa/ObjCVerifyMethodIsUsedRule.cpp:50-67 | the lookup, recursing into each adopted protocol, answers exactly whether the protocol or one it adopts declares m |
| MethodIsUsedRule.InterfaceDeclaresMethod | oclint-rules/rules/cocoa/ObjCVerifyMethodIsUsedRule.cpp:69-87 | answers exactly whether the interface's members or one of its directly listed protocols declare m |
| MethodIsUsedRule.CheckInterfaces | oclint-rules/rules/cocoa/ObjCVerifyMethodIsUsedRule.cpp:134-143 | the chain walk, returning at the first interface that declares m, answers exactly whether some interface with a definition on the class's superclass chain declares m |
| MethodIsUsedRule.ScanStatement | oclint-rules/rules/cocoa/ObjCVerifyMethodIsUsedRule.cpp:163-199 | one statement raises usedInternally exactly on use evidence and possibillyUsed exactly on a matching selector literal; neither flag is lowered |
| MethodIsUsedRule.StatementEvidence | oclint-rules/rules/cocoa/ObjCVerifyMethodIsUsedRule.cpp:163-199 | classifies one statement as use, possible use or nothing for m; CarefulUseIsUse relates it to the careful classification |
| MethodIsUsedRule.PossiblyUsedIsSelectorLiteral | oclint-rules/rules/cocoa/ObjCVerifyMethodIsUsedRule.cpp:165-168 | a statement is weak evidence for this rule iff it is a selector literal naming m |
| MethodIsUsedRule.PossiblyUsedIffSelectorLiteralElsewhere | oclint-rules/rules/cocoa/ObjCVerifyMethodIsUsedRule.cpp:147-199 | a method is possibly used iff the body of some method not equal to it holds a selector literal naming it |
| MethodIsUsedRule.CheckUses | oclint-rules/rules/cocoa/ObjCVerifyMethodIsUsedRule.cpp:147-204 | the two flags end up true exactly when some statement of another method's body is a use, or a selector literal naming m |
| MethodIsUsedRule.VisitObjCImplementationDecl | oclint-rules/rules/cocoa/ObjCVerifyMethodIsUsedRule.cpp:127-217 | the verdict loop emits, in method order, exactly the violation of each method that has one |
| MethodIsUsedRule.ViolationsAreVerdicts | oclint-rules/rules/cocoa/ObjCVerifyMethodIsUsedRule.cpp:129-214 | there are at most as many violations as methods; every violation belongs to one of the methods and carries that method's message |
| MethodIsUsedRule.ViolationsAreOnePerMethod | oclint-rules/rules/cocoa/ObjCVerifyMethodIsUsedRule.cpp:129-214 | at most one violation per method: when the implementation's methods are distinct, so are the methods the violations are attached to |
| MethodIsUsedRule.EveryVerdictIsReported | oclint-rules/rules/cocoa/ObjCVerifyMethodIsUsedRule.cpp:129-214 | every method that is neither declared nor used gets its violation |
| MethodIsUsedRule.MethodViolationCases | oclint-rules/rules/cocoa/ObjCVerifyMethodIsUsedRule.cpp:206-211 | a method is reported iff it is neither declared publicly nor used internally; it gets the @selector message iff a selector literal names it, and the not-exported message otherwise |
| MethodIsUsedRule.Verdict | oclint-rules/rules/cocoa/ObjCVerifyMethodIsUsedRule.cpp:206-211 | from the three findings for a method: no violation when it is declared publicly or used internally, otherwise the @selector message when it is possibly used and the not-exported message when not |
| MethodIsUsedRule.ReferencedBySelectorMessage | oclint-rules/rules/cocoa/ObjCVerifyMethodIsUsedRule.cpp:208 | the message is "The method ", the method's name, then " was referenced by @selector(...) but no where else", in that order |
| MethodIsUsedRule.NotExportedMessage | oclint-rules/rules/cocoa/ObjCVerifyMethodIsUsedRule.cpp:210 | the message is "The method ", the method's name, then " was defined but not exported or referenced here", in that order |
| MethodIsUsedRule.MessagesNameTheMethod | oclint-rules/rules/cocoa/ObjCVerifyMethodIsUsedRule.cpp:206-211 | different method names give different messages of each kind |
| MethodIsUsedRule.MessagesDiffer | oclint-rules/rules/cocoa/ObjCVerifyMethodIsUsedRule.cpp:208-210 | the two messages differ for every method name |
| MethodIsUsedRule.DeclaredMethodIsNotReported | oclint-rules/rules/cocoa/ObjCVerifyMethodIsUsedRule.cpp:134-143 | a method that the class's interface declares, as a method, as the getter or setter of one of its properties, or through one of its listed protocols, is declared publicly and gets no violation |
| MethodIsUsedRule.OwnBodyIsNeverEvidence | oclint-rules/rules/cocoa/ObjCVerifyMethodIsUsedRule.cpp:150-153 | replacing a method's own body leaves its verdict unchanged |
| MethodIsUsedRule.SendFromAnotherMethodIsUse | oclint-rules/rules/cocoa/ObjCVerifyMethodIsUsedRule.cpp:188-198 | a non-super send of m's instance/class kind in another method's body, whatever its selector, makes m used and unreported |
| MethodIsUsedRule.AccessFromAnotherMethodIsUse | oclint-rules/rules/cocoa/ObjCVerifyMethodIsUsedRule.cpp:169-186 | a non-super getter or setter access with m's selector in another method's body, for an instance method m, makes m used and unreported, whatever its receiver |
| MethodIsUsedRule.SuperIsNeverEvidence | oclint-rules/rules/cocoa/ObjCVerifyMethodIsUsedRule.cpp:174-190 | a super send or super property access is not a use |
| MethodIsUsedRule.CarefulUseIsUse | oclint-rules/rules/cocoa/ObjCVerifyMethodIsUsedRule.cpp:163-199 | every use the careful scan confirms is a use for this rule; a matching selector literal is weak evidence for both |
| MethodIsUsedRule.ContainerDeclaresIsCareful | oclint-rules/rules/cocoa/ObjCVerifyMethodIsUsedRule.cpp:23-48 | with instance accessors only, this container lookup and the careful one agree |
| MethodIsUsedRule.ProtocolDeclaresIsCareful | oclint-rules/rules/cocoa/ObjCVerifyMethodIsUsedRule.cpp:50-67 | with instance accessors only, this protocol lookup and the careful one agree |
| MethodIsUsedRule.InterfaceDeclaresIsCareful | oclint-rules/rules/cocoa/ObjCVerifyMethodIsUsedRule.cpp:69-87 | with instance accessors only, an interface this rule finds declaring m declares it for the careful lookup too |
| MethodIsUsedRule.DeclaredPubliclyIsCarefulDeclaration | oclint-rules/rules/cocoa/ObjCVerifyMethodIsUsedRule.cpp:134-143 | with instance accessors only, a method this rule finds declared publicly is declared for the careful hierarchy lookup too |
| MethodIsUsedRule.ProtocolRecursionAsWrittenNeverReturns | oclint-rules/rules/cocoa/ObjCVerifyMethodIsUsedRule.cpp:58-64 | as written, the lookup returns only when the protocol's own members declare m or it adopts nothing; otherwise it recurses forever |
| MethodIsUsedRule.ProtocolRecursionCounterexample | oclint-rules/rules/cocoa/ObjCVerifyMethodIsUsedRule.cpp:58-64 | a protocol adopting NSCopying, which declares `copy`: the intended lookup finds `copy`, the code as written never returns |
| MethodIsUsedRule.ProtocolDeclaresAsWritten | oclint-rules/rules/cocoa/ObjCVerifyMethodIsUsedRule.cpp:50-67 | the lookup as written, with a recursion bound: true on the protocol's own members, false when it adopts nothing, otherwise the same call again; its container check is the null-checked one, so it shows the self-recursion alone |
| MethodIsUsedRule.ContainerAsWrittenAgreesWithBothAccessors | oclint-rules/rules/cocoa/ObjCVerifyMethodIsUsedRule.cpp:38-45 | when every property has both accessors, the lookup as written and the corrected one agree |
| MethodIsUsedRule.ContainerDeclaresAsWritten | oclint-rules/rules/cocoa/ObjCVerifyMethodIsUsedRule.cpp:23-48 | the lookup as written: methods first, then each property's getter and setter, with None where a missing accessor is dereferenced |
| MethodIsUsedRule.ReadonlyPropertyAsWrittenDereferencesNull | oclint-rules/rules/cocoa/ObjCVerifyMethodIsUsedRule.cpp:40-42 | a readonly property whose getter is not m: as written the missing setter is dereferenced; the corrected lookup answers false |
| MethodIsUsedRule.CollectAsWrittenAgreesWhenNullFree | oclint-rules/rules/cocoa/ObjCVerifyMethodIsUsedRule.cpp:89-104 | on trees without null slots, the collector as written gives the pre-order |
| MethodIsUsedRule.CollectAsWritten | oclint-rules/rules/cocoa/ObjCVerifyMethodIsUsedRule.cpp:89-96 | the collector as written: None as soon as a null slot is reached, otherwise the statement followed by its children's collections |
| MethodIsUsedRule.NullChildAsWrittenDereferencesNull | oclint-rules/rules/cocoa/ObjCVerifyMethodIsUsedRule.cpp:89-96 | an `if` without `else`: the collector as written dereferences the null child; the corrected one lists both statements |
| MethodIsUsedScenarios.MethodUsedSuperProperty | oclint-rules/test/cocoa/ObjCVerifyMethodIsUsedRuleTest.cpp:138-141 | `description` implemented by a subclass of NSObject, which declares it as a readonly property: no violation |
| MethodIsUsedScenarios.MethodUsedSuperMethod | oclint-rules/test/cocoa/ObjCVerifyMethodIsUsedRuleTest.cpp:143-146 | `description` declared as a method of the superclass: no violation |
| MethodIsUsedScenarios.MethodUsedProtocolMethod | oclint-rules/test/cocoa/ObjCVerifyMethodIsUsedRuleTest.cpp:148-151 | `description` declared by an adopted protocol: no violation |
| MethodIsUsedScenarios.MethodNotUsed | oclint-rules/test/cocoa/ObjCVerifyMethodIsUsedRuleTest.cpp:153-159 | a lone undeclared `isEqual:` gets exactly the violation "The method isEqual: was defined but not exported or referenced here" |
| MethodIsUsedScenarios.MethodUsedInternally | oclint-rules/test/cocoa/ObjCVerifyMethodIsUsedRuleTest.cpp:161-164 | `isEqual:` and `hash` sending each other: no violation |
| MethodIsUsedScenarios.OneMethodNotUsed | oclint-rules/test/cocoa/ObjCVerifyMethodIsUsedRuleTest.cpp:166-172 | `isEqual:` sends `hash` and nothing sends `isEqual:`: exactly one violation, on `isEqual:`, with the not-exported message |
| MethodIsUsedScenarios.OneMethodNotUsedCarefully | oclint-rules/rules/cocoa/ObjCVerifyDeclarationIsUsedRule.cpp:207-223 | on the same program the careful scan confirms `hash` through the typed send `[self hash]`, and finds no evidence at all for `isEqual:` |
| SafeObjectsRule.UnsafePropertyMessage | oclint-rules/rules/cocoa/ObjCVerifySafeObjectsRule.cpp:63-64 | the message is the fixed prefix, the property name and the fixed suffix, in that order |
| SafeObjectsRule.DeclIsObjectType | oclint-rules/rules/cocoa/ObjCVerifySafeObjectsRule.cpp:16-21 | a property has object type when its type is an Objective-C object pointer |
| SafeObjectsRule.DeclIsNotSafe | oclint-rules/rules/cocoa/ObjCVerifySafeObjectsRule.cpp:23-26 | a property is not safe when it is writable and its setter assigns |
| SafeObjectsRule.VisitObjCPropertyDecl | oclint-rules/rules/cocoa/ObjCVerifySafeObjectsRule.cpp:49-70 | a property gets a violation, at most one, iff it has object-pointer type, is writable and uses `assign`; the message is exactly the one naming that property |
| SafeObjectsRule.MessageNamesTheProperty | oclint-rules/rules/cocoa/ObjCVerifySafeObjectsRule.cpp:63-65 | the property name is read back from the message, which is exactly "property object property <name> should use strong, copy, or weak" |
| SafeObjectsRule.MessageIsInjective | oclint-rules/rules/cocoa/ObjCVerifySafeObjectsRule.cpp:63-64 | distinct property names give distinct messages |
| SafeObjectsRule.ReadonlyIsNeverReported | oclint-rules/rules/cocoa/ObjCVerifySafeObjectsRule.cpp:23-26 | a readonly property is never reported, whatever its setter kind and type |
| SafeObjectsRule.AdviceRemovesViolation | oclint-rules/rules/cocoa/ObjCVerifySafeObjectsRule.cpp:23-26 | switching the property to retain, copy or weak semantics removes the violation |

## Left out

- The clang API itself (`RecursiveASTVisitor`, `getStmtClass` casts, `getDefinition`, selector objects, `getScalarTypeKind`) is replaced by the datatypes of `ObjCAst`. Which declarations the visitor reaches is clang's business and is not modelled. `VisitObjCPropertyDecl` takes one property; `VisitObjCImplementationDecl` takes one implementation. A property of non-scalar type (a struct such as `CGRect`) has no `ScalarTypeKind` and cannot be represented: clang's `getScalarTypeKind` demands a scalar type, so `ObjCVerifySafeObjectsRule.cpp:19` has no defined result for it.
- Debug output (`cout`, `printf`, `dumpColor`) has no effect on the verdicts and is left out.
- The `new`/`delete` of the statement vectors is replaced by values. The collector's vector is a `StmtVector` object whose `PushBack` is proved to append.
- Rule metadata and registration (`name`, `priority`, `category`, `supportedLanguages`, the `RuleSet` statics) are left out. So are the source locations of `addViolation` and the test fixture with its location arguments.
- `CheckMethodsOutsideClass` and `VisitObjCMethodDecl` in the "declaration usage" rule have no behaviour and are left out.
- The visitors' `bool` result is always `true` and is not modelled.
- `ObjCAst.AllReferencedProtocols`: clang drops an extension protocol that a directly adopted one already covers. The model keeps the duplicate, which changes no lookup answer.
- `ObjCAst.Chain`: clang's `getSuperClass()` of an interface without a definition is null, so clang's walks end at a forward declaration. The model does not force a forward-declared interface to have no superclass, so it accepts chains clang cannot build. On such a chain all three walks (`interfaceHierarchyDeclaresMethod`, the driver's interface loop and `interfaceIsKindOfInterface`) go on to the superclass where clang stops. On chains where a forward declaration comes last, all three agree with clang.
- `DeclarationIsUsedRule.StatementEvidence`: a message send whose method declaration clang did not resolve counts as no match. The code passes that null declaration to `methodsAreEqual`.
- The driver's statement loop at `ObjCVerifyMethodIsUsedRule.cpp:154-159` also dereferences a missing method body. The model collects a null body as the empty list.
- `MethodIsUsedRule.ProtocolDeclaresMethod` and `MethodIsUsedRule.ContainerDeclaresMethod` are the corrected forms. The code as written is modelled by the members in the findings below.
- `ObjCVerifyMethodIsUsedRuleTest.cpp:130-136` checks rule metadata, which is left out (see above).

## Findings

| source | as written | input that shows it | evidently intended | confidence | as-written member | corrected member |
|---|---|---|---|---|---|---|
| oclint-rules/rules/cocoa/ObjCVerifyMethodIsUsedRule.cpp:58-64 | the loop over adopted protocols calls `protocolDeclaresMethod(interface, method)` on the protocol itself | a protocol with no members of its own that adopts a protocol declaring `copy`, looked up for `copy` | recurse into `*protocolIterator`, as `ObjCVerifyDeclarationIsUsedRule.cpp:82-86` does | not executed | MethodIsUsedRule.ProtocolRecursionCounterexample | MethodIsUsedRule.ProtocolDeclaresMethod |
| oclint-rules/rules/cocoa/ObjCVerifyMethodIsUsedRule.cpp:40-42 | getter and setter go to `methodsAreEqual` without a null check | NSObject's readonly property `description` (no setter), looked up for `hash` | skip a missing accessor, as `ObjCVerifyDeclarationIsUsedRule.cpp:49` does | not executed | MethodIsUsedRule.ReadonlyPropertyAsWrittenDereferencesNull | MethodIsUsedRule.ContainerDeclaresMethod |
| oclint-rules/rules/cocoa/ObjCVerifyMethodIsUsedRule.cpp:89-96 | every child is pushed and then dereferenced, including null children | an `if` statement without an `else` branch, or a `for (;;)` loop, whose init, condition and increment slots are null | return on a null statement, as `ObjCVerifyDeclarationIsUsedRule.cpp:245` does | not executed | MethodIsUsedRule.NullChildAsWrittenDereferencesNull | DeclarationIsUsedRule.CollectMethodStatements |
