/**
 * The single-declaration stub intention: `T v = <init>;` is replaced by a
 * mock declaration of `v` and a `when(<init>).thenReturn(v)` stub.
 */
module MockStatement {
  import opened Wrappers
  import opened Psi
  import opened Intentions
  import Strings

  const STRING_TYPE: string := "java.lang.String"
  const UUID_EXPRESSION: string := "UUID.randomUUID().toString()"
  const MOCK_CALL: string := "mock()"
  const UUID_CLASS: string := "java.util.UUID"
  const UUID_PACKAGE: string := "java.util"

  /** The one local a declaration statement declares, if it declares exactly one. */
  function SingleLocal(statement: Statement): (r: Option<LocalVariable>)
    ensures r.Some? <==> statement.kind.DeclarationStatement? && |Locals(statement.kind.declared)| == 1
    ensures r.Some? ==> Locals(statement.kind.declared) == [r.value]
  {
    if statement.kind.DeclarationStatement? && |Locals(statement.kind.declared)| == 1 then
      Some(Locals(statement.kind.declared)[0])
    else None
  }

  /**
   * `canTransform`: a declaration of exactly one local, with an initialiser
   * whose text is not blank, a name, and an initialiser that is not itself a
   * Mockito `mock(...)` call.
   */
  predicate CanTransform(statement: Statement) {
    var local := SingleLocal(statement);
    local.Some?
    && local.value.initializer.Some?
    && local.value.nameIdentifier.Some?
    && !Strings.IsBlank(local.value.initializer.value.Text())
    && !IsMockitoMockExpression(local.value.initializer.value)
  }

  /** `isAvailable`: there are targets and every one of them can be transformed. */
  predicate IsAvailable(context: EditorContext) {
    var targets := FindTargetStatements(context);
    |targets| > 0 && forall s :: s in targets ==> CanTransform(s)
  }

  /** `resolveMockStatement`: a random UUID string for `java.lang.String`, a Mockito mock for anything else. */
  function ResolveMockStatement(typeCanonical: string): (r: string)
    ensures r == UUID_EXPRESSION <==> typeCanonical == STRING_TYPE
    ensures r == MOCK_CALL <==> typeCanonical != STRING_TYPE
  {
    if typeCanonical == STRING_TYPE then UUID_EXPRESSION else MOCK_CALL
  }

  /** `resolveTypeCanonicalText`: the initialiser's own type, or the declared type when the initialiser's is unknown. */
  function ResolveTypeCanonicalText(init: Expression, fallback: JavaType): (r: string)
    ensures init.Type().Some? ==> r == init.Type().value.canonicalText
    ensures init.Type().None? ==> r == fallback.canonicalText
  {
    (if init.Type().Some? then init.Type().value else fallback).canonicalText
  }

  /**
   * `transformStatement`: the two statements that replace the declaration,
   * as text; nothing when the local has no initialiser. The declaration
   * becomes a mock of the same variable, typed by the initialiser (or the
   * declared type), holding a UUID string exactly when that type is
   * `java.lang.String`; the stub replays the original initialiser and
   * returns the variable, `.thenReturn` on a new line and a newline after
   * it. The source casts the statement to a declaration of a single named
   * local, so those are its callers' obligations.
   */
  function TransformStatement(statement: Statement): (r: Option<seq<string>>)
    requires SingleLocal(statement).Some? && SingleLocal(statement).value.nameIdentifier.Some?
    ensures var v := SingleLocal(statement).value;
      && (r.Some? <==> v.initializer.Some?)
      && (r.Some? ==>
            var t := ResolveTypeCanonicalText(v.initializer.value, v.varType);
            var name := v.nameIdentifier.value;
            && |r.value| == 2
            && r.value[0] == t + " " + name + " = " + (if t == STRING_TYPE then UUID_EXPRESSION else MOCK_CALL) + ";"
            && r.value[1] == "when(" + v.initializer.value.Text() + ")" + "\n" + ".thenReturn(" + name + ");" + "\n")
  {
    var v := SingleLocal(statement).value;
    if v.initializer.None? then None
    else
      var typeCanonical := ResolveTypeCanonicalText(v.initializer.value, v.varType);
      Some(ReplacementTexts(typeCanonical, v.nameIdentifier.value, v.initializer.value.Text()))
  }

  /** The mock declaration and the stub, as `transformStatement` renders them. */
  function ReplacementTexts(typeCanonical: string, name: string, initText: string): (r: seq<string>)
    ensures |r| == 2
    ensures r[0] == typeCanonical + " " + name + " = " + (if typeCanonical == STRING_TYPE then UUID_EXPRESSION else MOCK_CALL) + ";"
    ensures r[1] == "when(" + initText + ")" + "\n" + ".thenReturn(" + name + ");" + "\n"
  {
    var expression := ResolveMockStatement(typeCanonical);
    assert expression == if typeCanonical == STRING_TYPE then UUID_EXPRESSION else MOCK_CALL;
    [Render(Declaration(typeCanonical, name, expression), "\n"), Render(Stub(initText, name), "\n") + "\n"]
  }

  /** Every statement the intention is offered on produces its two replacement statements. */
  lemma AvailableTargetsTransform(context: EditorContext)
    requires IsAvailable(context)
    ensures forall s :: s in FindTargetStatements(context) ==>
      SingleLocal(s).Some? && SingleLocal(s).value.nameIdentifier.Some?
      && TransformStatement(s).Some? && |TransformStatement(s).value| == 2
  {
  }

  /** `ensureImport`'s test as written: an on-demand import whose name is the class itself. */
  function UuidImportToAddAsWritten(importList: Option<seq<ImportStatement>>, uuidFound: bool): (r: bool)
    ensures r ==> importList.Some? && uuidFound
    ensures r <==> importList.Some? && uuidFound && !HasOnDemandImport(importList, UUID_CLASS)
  {
    importList.Some? && !HasOnDemandImport(importList, UUID_CLASS) && uuidFound
  }

  /** The statement `createImportStatement(uuidClass)` builds: `import java.util.UUID;`. */
  function ClassImport(fqn: string): ImportStatement {
    ImportStatement(false, false, Some(fqn))
  }

  /**
   * The import the source adds is not one its own test recognises: after
   * adding `import java.util.UUID;`, a second invocation adds it again.
   */
  lemma UuidImportRepeats()
    ensures var first := [];
      && UuidImportToAddAsWritten(Some(first), true)
      && UuidImportToAddAsWritten(Some(first + [ClassImport(UUID_CLASS)]), true)
  {
    var after: seq<ImportStatement> := [ClassImport(UUID_CLASS)];
    assert !HasOnDemandImport(Some(after), UUID_CLASS) by {
      forall i | i in after ensures !(!i.isStatic && i.isOnDemand && i.qualifiedName == Some(UUID_CLASS)) {
        assert i == ClassImport(UUID_CLASS);
      }
    }
  }

  /** `UUID` is already usable unqualified: imported by name, or its package on demand. */
  predicate UuidImported(importList: Option<seq<ImportStatement>>) {
    importList.Some?
    && (ClassImport(UUID_CLASS) in importList.value || HasOnDemandImport(importList, UUID_PACKAGE))
  }

  /** The intended decision: add `import java.util.UUID;` only when `UUID` is not already imported. */
  function UuidImportToAdd(importList: Option<seq<ImportStatement>>, uuidFound: bool): (r: bool)
    ensures r <==> importList.Some? && uuidFound && !UuidImported(importList)
  {
    importList.Some? && uuidFound && !UuidImported(importList)
  }

  /** The import list after `ensureImport` with the intended decision. */
  function AddUuidImport(imports: seq<ImportStatement>, uuidFound: bool): seq<ImportStatement> {
    if UuidImportToAdd(Some(imports), uuidFound) then imports + [ClassImport(UUID_CLASS)] else imports
  }

  /**
   * With the intended decision, a found `UUID` class is imported afterwards,
   * nothing is added twice, and a second invocation adds nothing.
   */
  lemma UuidImportIdempotent(imports: seq<ImportStatement>)
    ensures UuidImported(Some(AddUuidImport(imports, true)))
    ensures UuidImported(Some(imports)) ==> AddUuidImport(imports, true) == imports
    ensures !UuidImportToAdd(Some(AddUuidImport(imports, true)), true)
  {
    var after := AddUuidImport(imports, true);
    if !UuidImported(Some(imports)) {
      assert after[|imports|] == ClassImport(UUID_CLASS);
    }
  }

  /**
   * What `invoke` changes: the class and static imports it adds, and each
   * target's replacement texts in the order they are applied (last in the
   * file first).
   */
  datatype Invocation = Invocation(
    addUuidImport: bool,
    staticImports: seq<string>,
    replacements: seq<Option<seq<string>>>)

  /** Every target is a declaration of one named local, as `transformStatement`'s cast demands. */
  predicate CastsSucceed(targets: seq<Statement>) {
    forall s :: s in targets ==> SingleLocal(s).Some? && SingleLocal(s).value.nameIdentifier.Some?
  }

  /** Each statement transformed, in the given order. */
  function TransformAll(order: seq<Statement>): (r: seq<Option<seq<string>>>)
    requires CastsSucceed(order)
    ensures |r| == |order|
    ensures forall k :: 0 <= k < |order| ==> r[k] == TransformStatement(order[k])
  {
    seq(|order|, k requires 0 <= k < |order| => TransformStatement(order[k]))
  }

  /** Reordering the targets keeps the casts valid. */
  lemma CastsSucceedReordered(targets: seq<Statement>, order: seq<Statement>)
    requires CastsSucceed(targets) && multiset(order) == multiset(targets)
    ensures CastsSucceed(order)
    ensures forall s :: s in order ==> s in targets
  {
    forall s | s in order ensures s in targets {
      assert s in multiset(order);
    }
  }

  /**
   * `invoke` as written: nothing without targets; otherwise the `UUID`
   * import decided by `ensureImport`'s own test, the Mockito imports, then
   * each target transformed.
   */
  function Invoke(context: EditorContext, importList: Option<seq<ImportStatement>>, uuidFound: bool, mockitoFound: bool)
    : (r: Option<Invocation>)
    requires CastsSucceed(FindTargetStatements(context))
    ensures r.None? <==> FindTargetStatements(context) == []
    ensures r.Some? ==> r.value.addUuidImport == UuidImportToAddAsWritten(importList, uuidFound)
    ensures r.Some? ==> r.value.staticImports == MockitoImportsToAdd(importList, mockitoFound)
    ensures r.Some? ==> |r.value.replacements| == |FindTargetStatements(context)|
    ensures r.Some? ==> forall k :: 0 <= k < |r.value.replacements| ==>
      var s := ProcessingOrder(FindTargetStatements(context))[k];
      s in FindTargetStatements(context) && r.value.replacements[k] == TransformStatement(s)
  {
    var targets := FindTargetStatements(context);
    if targets == [] then None
    else
      var order := ProcessingOrder(targets);
      CastsSucceedReordered(targets, order);
      Some(Invocation(UuidImportToAddAsWritten(importList, uuidFound), MockitoImportsToAdd(importList, mockitoFound), TransformAll(order)))
  }

  /**
   * `invoke` with the intended `UUID` import decision: the same Mockito
   * imports and replacements, and `import java.util.UUID;` only when `UUID`
   * is not yet imported, so invoking it again adds no import.
   */
  function InvokeIntended(context: EditorContext, importList: Option<seq<ImportStatement>>, uuidFound: bool, mockitoFound: bool)
    : (r: Option<Invocation>)
    requires CastsSucceed(FindTargetStatements(context))
    ensures r.None? <==> FindTargetStatements(context) == []
    ensures r.Some? ==> r.value.addUuidImport == UuidImportToAdd(importList, uuidFound)
    ensures r.Some? ==> r.value.addUuidImport ==> !UuidImported(importList)
    ensures r.Some? ==> r.value.staticImports == Invoke(context, importList, uuidFound, mockitoFound).value.staticImports
    ensures r.Some? ==> r.value.replacements == Invoke(context, importList, uuidFound, mockitoFound).value.replacements
  {
    var written := Invoke(context, importList, uuidFound, mockitoFound);
    if written.None? then None
    else Some(written.value.(addUuidImport := UuidImportToAdd(importList, uuidFound)))
  }
}
