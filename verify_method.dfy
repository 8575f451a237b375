/**
 * The verify intention: the call statement `receiver.method(args);` under
 * the caret becomes `verify(receiver).method(args);`.
 */
module VerifyMethod {
  import opened Wrappers
  import opened Psi
  import opened Intentions
  import MockChain

  const VERIFY: string := "verify"

  /**
   * `resolveTargetCall`. `enclosing` is the expression of the innermost
   * expression statement around the caret (absent if there is none). The
   * target is that expression when it is a call with a qualifier, unless the
   * qualifier is itself a call named `verify`.
   */
  function ResolveTargetCall(enclosing: Option<Expression>): (r: Option<MethodCall>)
    ensures r.Some? <==>
      enclosing.Some? && enclosing.value.CallExpression?
      && !enclosing.value.call.qualifier.NoQualifier?
      && !(enclosing.value.call.qualifier.CallQualifier?
           && enclosing.value.call.qualifier.call.referenceName == Some(VERIFY))
    ensures r.Some? ==> r.value == enclosing.value.call && QualifierText(r.value.qualifier).Some?
  {
    if enclosing.None? || !enclosing.value.CallExpression? then None
    else
      var call := enclosing.value.call;
      if call.qualifier.NoQualifier? then None
      else if call.qualifier.CallQualifier? && call.qualifier.call.referenceName == Some(VERIFY) then None
      else Some(call)
  }

  /** `isAvailable`: there is a target call. */
  predicate IsAvailable(enclosing: Option<Expression>) {
    ResolveTargetCall(enclosing).Some?
  }

  /**
   * The replacement statement's text, `verify(<qualifier>)<nl>.<method><args>;`;
   * nothing when the call has no qualifier or no method name.
   */
  function VerifyText(call: MethodCall, nl: string): (r: Option<string>)
    ensures r.Some? <==> QualifierText(call.qualifier).Some? && call.referenceName.Some?
  {
    var qualifier := QualifierText(call.qualifier);
    if qualifier.None? || call.referenceName.None? then None
    else Some(VERIFY + "(" + qualifier.value + ")" + nl + "." + call.referenceName.value + call.argumentListText + ";")
  }

  /** The receiver the replacement passes to `verify`. */
  function VerifyReceiver(call: MethodCall, nl: string): string
    requires QualifierText(call.qualifier).Some?
  {
    VERIFY + "(" + QualifierText(call.qualifier).value + ")" + nl
  }

  /**
   * The replacement is the same call, re-rooted on `verify(<qualifier>)`:
   * the text the chain intention builds for a call on a new receiver.
   */
  lemma VerifyTextReroots(call: MethodCall, nl: string)
    requires QualifierText(call.qualifier).Some? && call.referenceName.Some?
    ensures VerifyText(call, nl) == Some(MockChain.BuildCallText(call, VerifyReceiver(call, nl)) + ";")
  {
  }

  /** The call expression the replacement parses to: the original method on the `verify(...)` call. */
  function VerifiedCall(call: MethodCall, nl: string): (r: MethodCall)
    requires QualifierText(call.qualifier).Some? && call.referenceName.Some?
    ensures r.referenceName == call.referenceName && r.argumentListText == call.argumentListText
    ensures r.qualifier.CallQualifier? && r.qualifier.call.referenceName == Some(VERIFY)
  {
    var qualifier := QualifierText(call.qualifier).value;
    var verifyCall := MethodCall(VERIFY + "(" + qualifier + ")", Some(VERIFY), "(" + qualifier + ")", None, None, NoQualifier);
    MethodCall(MockChain.BuildCallText(call, VerifyReceiver(call, nl)), call.referenceName, call.argumentListText,
               call.callType, call.resolved, CallQualifier(verifyCall))
  }

  /** Once a call is wrapped, the intention is not offered on it again. */
  lemma NotOfferedAgain(call: MethodCall, nl: string)
    requires IsAvailable(Some(CallExpression(call))) && call.referenceName.Some?
    ensures !IsAvailable(Some(CallExpression(VerifiedCall(call, nl))))
  {
  }

  /**
   * `ensureVerifyMethodImport`'s decision: add `import static
   * org.mockito.Mockito.verify;` unless there is no import list, `verify`
   * is already covered by an on-demand or member import, or Mockito cannot
   * be found.
   */
  function VerifyImportToAdd(importList: Option<seq<ImportStatement>>, mockitoFound: bool): (r: bool)
    ensures r ==> importList.Some? && mockitoFound && !MockitoMemberCovered(importList, VERIFY)
    ensures importList.Some? && mockitoFound && !MockitoMemberCovered(importList, VERIFY) ==> r
  {
    importList.Some?
    && !(HasStaticOnDemandImport(importList, MOCKITO_CLASS) || HasStaticMemberImport(importList, MOCKITO_CLASS, VERIFY))
    && mockitoFound
  }

  /** The import list after `ensureVerifyMethodImport`. */
  function AddVerifyImport(imports: seq<ImportStatement>, mockitoFound: bool): seq<ImportStatement> {
    if VerifyImportToAdd(Some(imports), mockitoFound) then imports + [StaticMemberImport(VERIFY)] else imports
  }

  /** Afterwards `verify` is covered, and a second invocation adds nothing. */
  lemma VerifyImportIdempotent(imports: seq<ImportStatement>)
    ensures MockitoMemberCovered(Some(AddVerifyImport(imports, true)), VERIFY)
    ensures !VerifyImportToAdd(Some(AddVerifyImport(imports, true)), true)
  {
    var after := AddVerifyImport(imports, true);
    if VerifyImportToAdd(Some(imports), true) {
      var added := after[|imports|];
      assert added == StaticMemberImport(VERIFY) && added in after;
      assert added.qualifiedName == Some(MOCKITO_CLASS + "." + VERIFY);
    }
  }

  /**
   * `invoke`: nothing without a target; otherwise whether the `verify`
   * import is added (decided before the replacement) and the replacement
   * text, if the call has a method name.
   */
  function Invoke(enclosing: Option<Expression>, importList: Option<seq<ImportStatement>>, mockitoFound: bool, nl: string)
    : (r: Option<(bool, Option<string>)>)
    ensures r.Some? <==> IsAvailable(enclosing)
    ensures r.Some? ==> r.value.0 == VerifyImportToAdd(importList, mockitoFound)
    ensures r.Some? ==> (r.value.1.Some? <==> enclosing.value.call.referenceName.Some?)
    ensures r.Some? ==> r.value.1 == VerifyText(enclosing.value.call, nl)
  {
    var target := ResolveTargetCall(enclosing);
    if target.None? then None
    else Some((VerifyImportToAdd(importList, mockitoFound), VerifyText(target.value, nl)))
  }
}
