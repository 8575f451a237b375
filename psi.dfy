/**
 * Abstract records standing for the parts of IntelliJ's Java PSI that the
 * plugin reads. What the host resolves (types, static-ness, the method a
 * call binds to, the names declared in a scope) is carried as data.
 */
module Psi {
  import opened Wrappers

  /** A resolved Java type: its canonical text and, for a class type, its simple class name. */
  datatype JavaType = JavaType(canonicalText: string, className: Option<string>)

  /** The method a call resolves to: whether it is static, and the qualified name of its class. */
  datatype ResolvedMethod = ResolvedMethod(isStatic: bool, containingClass: Option<string>)

  /**
   * A method call expression `qualifier.name(args)`: its whole text, the
   * referenced method name, the text of its argument list (with the
   * parentheses), its result type, the method it resolves to, and its qualifier.
   */
  datatype MethodCall = MethodCall(
    text: string,
    referenceName: Option<string>,
    argumentListText: string,
    callType: Option<JavaType>,
    resolved: Option<ResolvedMethod>,
    qualifier: Qualifier)

  /** The qualifier of a call: absent, another call, a plain reference, or any other expression. */
  datatype Qualifier =
    | NoQualifier
    | CallQualifier(call: MethodCall)
    | ReferenceQualifier(name: Option<string>, refText: string)
    | OtherQualifier(otherText: string)

  /** `qualifierExpression?.text`. */
  function QualifierText(q: Qualifier): (r: Option<string>)
    ensures r.None? <==> q.NoQualifier?
  {
    match q
    case NoQualifier => None
    case CallQualifier(c) => Some(c.text)
    case ReferenceQualifier(_, t) => Some(t)
    case OtherQualifier(t) => Some(t)
  }

  /** An expression: a method call, or anything else with its text and (possibly unknown) type. */
  datatype Expression =
    | CallExpression(call: MethodCall)
    | OtherExpression(exprText: string, exprType: Option<JavaType>)
  {
    function Text(): string {
      if CallExpression? then call.text else exprText
    }

    function Type(): Option<JavaType> {
      if CallExpression? then call.callType else exprType
    }
  }

  /** A local variable: its name identifier (absent in broken code), declared type and initializer. */
  datatype LocalVariable = LocalVariable(nameIdentifier: Option<string>, varType: JavaType, initializer: Option<Expression>)

  /** What a declaration statement declares: a local variable or something else (a local class). */
  datatype DeclaredElement = LocalElement(local: LocalVariable) | OtherElement

  datatype StatementKind =
    | DeclarationStatement(declared: seq<DeclaredElement>)
    | ExpressionStatement(expression: Expression)
    | OtherStatement

  /** A statement and its text range in the file. */
  datatype Statement = Statement(kind: StatementKind, startOffset: int, endOffset: int)

  /** `declaredElements.filterIsInstance<PsiLocalVariable>()`. */
  function Locals(elements: seq<DeclaredElement>): (r: seq<LocalVariable>)
    ensures |r| <= |elements|
    ensures forall v :: v in r <==> LocalElement(v) in elements
    decreases |elements|
  {
    if elements == [] then []
    else
      assert elements == [elements[0]] + elements[1..];
      (if elements[0].LocalElement? then [elements[0].local] else []) + Locals(elements[1..])
  }

  /** One import statement: static or not, on demand (`.*`) or not, and its reference's qualified name. */
  datatype ImportStatement = ImportStatement(isStatic: bool, isOnDemand: bool, qualifiedName: Option<string>)
}
