/** The "should use weak" rule: a writable property of Objective-C object
    pointer type whose setter semantics is `assign` is reported, since under
    ARC it neither retains its value nor is cleared when the value goes away. */
module SafeObjectsRule {
  import opened ObjCAst

  /** The property's type is subject to ARC: its scalar type kind is the
      Objective-C object pointer kind. */
  predicate DeclIsObjectType(p: Property) {
    p.typeKind == ObjCObjectPointer
  }

  /** The property can be written and the setter assigns without retaining. */
  predicate DeclIsNotSafe(p: Property) {
    !p.isReadOnly && p.setterKind == Assign
  }

  const MessagePrefix := "property object property "
  const MessageSuffix := " should use strong, copy, or weak"

  function UnsafePropertyMessage(name: string): (message: string)
    ensures |message| == |MessagePrefix| + |name| + |MessageSuffix|
    ensures message[..|MessagePrefix|] == MessagePrefix
    ensures message[|MessagePrefix|..|MessagePrefix| + |name|] == name
    ensures message[|MessagePrefix| + |name|..] == MessageSuffix
  {
    MessagePrefix + name + MessageSuffix
  }

  /** The property name a message of this rule is about. */
  function MessageSubject(message: string): string
    requires |message| >= |MessagePrefix| + |MessageSuffix|
  {
    message[|MessagePrefix|..|message| - |MessageSuffix|]
  }

  /** The violation for one property declaration, if any. */
  function VisitObjCPropertyDecl(p: Property): (r: Option<string>)
    ensures r.Some? <==> p.typeKind == ObjCObjectPointer && !p.isReadOnly && p.setterKind == Assign
    ensures r.Some? ==> |r.value| >= |MessagePrefix| + |MessageSuffix| && MessageSubject(r.value) == p.name
    ensures r.Some? ==> r.value == UnsafePropertyMessage(p.name)
  {
    if DeclIsObjectType(p) then
      if DeclIsNotSafe(p) then Some(UnsafePropertyMessage(p.name))
      else None
    else None
  }

  /** The property name can be read back from the message. */
  lemma MessageNamesTheProperty(name: string)
    ensures MessageSubject(UnsafePropertyMessage(name)) == name
    ensures UnsafePropertyMessage(name) == "property object property " + name + " should use strong, copy, or weak"
  {
  }

  /** Distinct properties get distinct messages. */
  lemma MessageIsInjective(a: string, b: string)
    requires UnsafePropertyMessage(a) == UnsafePropertyMessage(b)
    ensures a == b
  {
    MessageNamesTheProperty(a);
    MessageNamesTheProperty(b);
  }

  /** A readonly property is never reported, whatever its setter kind and type. */
  lemma ReadonlyIsNeverReported(p: Property)
    requires p.isReadOnly
    ensures VisitObjCPropertyDecl(p) == None
  {
  }

  /** Following the message's advice removes the violation: with `strong`
      (retain), `copy` or `weak` semantics the property is not reported. */
  lemma AdviceRemovesViolation(p: Property, k: SetterKind)
    requires k != Assign
    ensures VisitObjCPropertyDecl(p.(setterKind := k)) == None
  {
  }
}
