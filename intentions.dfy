/**
 * Logic that the three editing intentions (chain stubs, single-declaration
 * stub, verify wrapper) each carry a private copy of: recognising a Mockito
 * `mock(...)` call, reading the file's static imports, deciding which static
 * imports to add, and choosing the statements an invocation works on.
 */
module Intentions {
  import opened Wrappers
  import opened Psi
  import Sequences

  const MOCKITO_CLASS: string := "org.mockito.Mockito"

  /**
   * A call to Mockito's `mock`: the method name is `mock` and, when the call
   * resolves, its class is `org.mockito.Mockito`; when it does not resolve,
   * the qualifier is absent, `Mockito` or `org.mockito.Mockito`.
   */
  predicate IsMockitoMockExpression(e: Expression) {
    e.CallExpression?
    && e.call.referenceName == Some("mock")
    && if e.call.resolved.Some? then
         e.call.resolved.value.containingClass == Some(MOCKITO_CLASS)
       else
         var q := QualifierText(e.call.qualifier);
         q.None? || q.value == "Mockito" || q.value == MOCKITO_CLASS
  }

  /** `import static <classFqn>.*;` is present. A file without an import list has none. */
  predicate HasStaticOnDemandImport(importList: Option<seq<ImportStatement>>, classFqn: string) {
    importList.Some?
    && exists i :: i in importList.value && i.isStatic && i.isOnDemand && i.qualifiedName == Some(classFqn)
  }

  /** `import static <classFqn>.<member>;` is present. */
  predicate HasStaticMemberImport(importList: Option<seq<ImportStatement>>, classFqn: string, member: string) {
    importList.Some?
    && exists i :: i in importList.value && i.isStatic && !i.isOnDemand && i.qualifiedName == Some(classFqn + "." + member)
  }

  /** `import <classFqn>.*;` (a non-static on-demand import of exactly that name) is present. */
  predicate HasOnDemandImport(importList: Option<seq<ImportStatement>>, classFqn: string) {
    importList.Some?
    && exists i :: i in importList.value && !i.isStatic && i.isOnDemand && i.qualifiedName == Some(classFqn)
  }

  /** The statement `createImportStaticStatement(mockitoClass, member)` builds. */
  function StaticMemberImport(member: string): ImportStatement {
    ImportStatement(true, false, Some(MOCKITO_CLASS + "." + member))
  }

  /** The import list after adding one static member import per name, in order. */
  function AddStaticImports(imports: seq<ImportStatement>, members: seq<string>): (r: seq<ImportStatement>)
    ensures |r| == |imports| + |members|
    ensures forall i :: i in imports ==> i in r
    ensures forall m :: m in members ==> StaticMemberImport(m) in r
    decreases |members|
  {
    if members == [] then imports
    else AddStaticImports(imports + [StaticMemberImport(members[0])], members[1..])
  }

  /** A member of Mockito can be used unqualified: on-demand or member import. */
  predicate MockitoMemberCovered(importList: Option<seq<ImportStatement>>, member: string) {
    HasStaticOnDemandImport(importList, MOCKITO_CLASS) || HasStaticMemberImport(importList, MOCKITO_CLASS, member)
  }

  /**
   * The static imports `ensureMockitoMethodImport` adds, in order: nothing
   * without an import list, with a static on-demand Mockito import, or when
   * the Mockito class cannot be found; otherwise `mock` and then `when`,
   * each only when it is not already member-imported.
   */
  function MockitoImportsToAdd(importList: Option<seq<ImportStatement>>, mockitoFound: bool): (r: seq<string>)
    ensures forall m :: m in r ==> (m == "mock" || m == "when") && !MockitoMemberCovered(importList, m)
    ensures importList.Some? && mockitoFound ==>
      forall m :: (m == "mock" || m == "when") && !MockitoMemberCovered(importList, m) ==> m in r
    ensures |r| <= 2 && (|r| == 2 ==> r == ["mock", "when"])
    ensures importList.None? || !mockitoFound ==> r == []
  {
    if importList.None? || HasStaticOnDemandImport(importList, MOCKITO_CLASS) || !mockitoFound then []
    else
      (if HasStaticMemberImport(importList, MOCKITO_CLASS, "mock") then [] else ["mock"])
      + (if HasStaticMemberImport(importList, MOCKITO_CLASS, "when") then [] else ["when"])
  }

  /**
   * Once the decided imports are added, `mock` and `when` are both covered,
   * and a second run adds nothing.
   */
  lemma MockitoImportsComplete(imports: seq<ImportStatement>)
    ensures var after := AddStaticImports(imports, MockitoImportsToAdd(Some(imports), true));
      && MockitoMemberCovered(Some(after), "mock")
      && MockitoMemberCovered(Some(after), "when")
      && MockitoImportsToAdd(Some(after), true) == []
  {
    var added := MockitoImportsToAdd(Some(imports), true);
    var after := AddStaticImports(imports, added);
    if !MockitoMemberCovered(Some(imports), "mock") {
      assert StaticMemberImport("mock") in after;
    }
    if !MockitoMemberCovered(Some(imports), "when") {
      assert StaticMemberImport("when") in after;
    }
  }

  /** A statement an intention generates, before it is rendered as text. */
  datatype GeneratedStatement =
    | Declaration(typeText: string, name: string, expression: string)
    | Stub(callText: string, name: string)

  /** The text of a generated statement: `<type> <name> = <expression>;` or `when(<call>)<nl>.thenReturn(<name>);`. */
  function Render(g: GeneratedStatement, nl: string): string {
    match g
    case Declaration(typeText, name, expression) => typeText + " " + name + " = " + expression + ";"
    case Stub(callText, name) => "when(" + callText + ")" + nl + ".thenReturn(" + name + ");"
  }

  /**
   * Where the caret or selection is. With a selection, `candidates` is every
   * statement under the common parent of its two ends (absent when a lookup
   * fails); without one, the statement around the caret (absent if none).
   */
  datatype EditorContext =
    | Selection(start: int, end: int, candidates: Option<seq<Statement>>)
    | Caret(statementAtCaret: Option<Statement>)

  /** Statements lying fully inside [start, end], in document order. */
  function StatementsWithin(statements: seq<Statement>, start: int, end: int): (r: seq<Statement>)
    ensures |r| <= |statements|
    ensures forall s :: s in r <==> s in statements && s.startOffset >= start && s.endOffset <= end
    decreases |statements|
  {
    if statements == [] then []
    else
      var s := statements[0];
      assert statements == [s] + statements[1..];
      (if s.startOffset >= start && s.endOffset <= end then [s] else []) + StatementsWithin(statements[1..], start, end)
  }

  /** `findTargetStatements`. */
  function FindTargetStatements(context: EditorContext): (r: seq<Statement>)
    ensures context.Caret? ==> |r| <= 1
    ensures context.Selection? ==> forall s :: s in r ==> context.start <= s.startOffset && s.endOffset <= context.end
  {
    match context
    case Selection(start, end, candidates) =>
      if candidates.None? then [] else StatementsWithin(candidates.value, start, end)
    case Caret(statement) =>
      if statement.None? then [] else [statement.value]
  }

  /** The order targets are transformed in: by start offset, last in the file first. */
  function ProcessingOrder(targets: seq<Statement>): (r: seq<Statement>)
    ensures multiset(r) == multiset(targets)
    ensures forall i, j :: 0 <= i < j < |r| ==> r[i].startOffset >= r[j].startOffset
  {
    Sequences.SortDescending(targets, (s: Statement) => s.startOffset)
  }
}
