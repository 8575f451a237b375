/**
 * The chain-stub intention: a local initialised by a chain of calls
 * `a.b().c().d()` is replaced by one mock per intermediate result, each
 * stubbed to return the next, and a final stub returning the variable.
 */
module MockChain {
  import opened Wrappers
  import opened Strings
  import opened Psi
  import opened Settings
  import opened Intentions
  import Sequences

  /** `isStaticMethodCall`: the call resolves, to a static method. */
  predicate IsStaticMethodCall(call: MethodCall) {
    call.resolved.Some? && call.resolved.value.isStatic
  }

  /** Each link is the call-qualifier of the link after it. */
  ghost predicate QualifierLinked(links: seq<MethodCall>) {
    forall i, j :: 0 <= i < j < |links| && j == i + 1 ==> links[j].qualifier == CallQualifier(links[i])
  }

  /**
   * Every call of the chain ending in `c`, outermost qualifier first: each
   * link is the call-qualifier of the next, and the first has none.
   */
  function Unroll(c: MethodCall): (r: seq<MethodCall>)
    ensures |r| >= 1 && r[|r| - 1] == c
    ensures QualifierLinked(r)
    ensures !r[0].qualifier.CallQualifier?
    decreases c
  {
    match c.qualifier
    case CallQualifier(q) => Unroll(q) + [c]
    case _ => [c]
  }

  /** The chain with its leading static calls dropped, always keeping the last link. */
  function StripStaticPrefix(links: seq<MethodCall>): (r: seq<MethodCall>)
    requires |links| >= 1
    ensures 1 <= |r| <= |links| && r == links[|links| - |r|..]
    ensures forall k :: 0 <= k < |links| - |r| ==> IsStaticMethodCall(links[k])
    ensures |r| == 1 || !IsStaticMethodCall(r[0])
    decreases |links|
  {
    if |links| > 1 && IsStaticMethodCall(links[0]) then StripStaticPrefix(links[1..]) else links
  }

  /** What `collectCallChain` returns for a call. */
  function CallChain(c: MethodCall): (r: seq<MethodCall>)
    ensures |r| >= 1 && r[|r| - 1] == c
    ensures QualifierLinked(r)
  {
    StripStaticPrefix(Unroll(c))
  }

  /**
   * `collectCallChain`: walks the call-qualifiers outwards collecting the
   * calls, reverses them, then skips leading static calls while more than
   * one link remains.
   */
  method CollectCallChain(targetInit: MethodCall) returns (chain: seq<MethodCall>)
    ensures chain == StripStaticPrefix(Unroll(targetInit))
  {
    var reversed: seq<MethodCall> := [];
    var current: Option<MethodCall> := Some(targetInit);
    while current.Some?
      invariant current.Some? ==> Unroll(current.value) + Sequences.Reverse(reversed) == Unroll(targetInit)
      invariant current.None? ==> Sequences.Reverse(reversed) == Unroll(targetInit)
      decreases if current.Some? then |Unroll(current.value)| else 0
    {
      var c := current.value;
      Sequences.ReverseSnoc(reversed, c);
      reversed := reversed + [c];
      current := if c.qualifier.CallQualifier? then Some(c.qualifier.call) else None;
    }
    var all := Sequences.Reverse(reversed);
    var from := 0;
    while |all| - from > 1 && IsStaticMethodCall(all[from])
      invariant 0 <= from < |all|
      invariant StripStaticPrefix(all[from..]) == StripStaticPrefix(all)
    {
      assert all[from..][1..] == all[from + 1..];
      from := from + 1;
    }
    chain := all[from..];
  }

  /** The chain has two links or more exactly when some call before the last one is not static. */
  lemma ChainLengthIff(c: MethodCall)
    ensures |CallChain(c)| >= 2 <==>
      exists k :: 0 <= k < |Unroll(c)| - 1 && !IsStaticMethodCall(Unroll(c)[k])
  {
    var links := Unroll(c);
    var r := CallChain(c);
    if |r| >= 2 {
      assert r[0] == links[|links| - |r|];
    }
  }

  /** The variable being replaced, its initialiser call, and the chain of that call. */
  datatype TransformData = TransformData(variable: LocalVariable, initCall: MethodCall, callChain: seq<MethodCall>)

  /**
   * The shape the transform relies on: a named variable and two links or
   * more, the last being the initialiser call, each but the last typed.
   */
  predicate ChainShape(data: TransformData) {
    data.variable.nameIdentifier.Some?
    && |data.callChain| >= 2
    && data.callChain[|data.callChain| - 1] == data.initCall
    && forall k :: 0 <= k < |data.callChain| - 1 ==> data.callChain[k].callType.Some?
  }

  /** What a non-null `resolveTransformData` guarantees. */
  predicate ValidTransformData(data: TransformData) {
    ChainShape(data)
    && data.variable.initializer == Some(CallExpression(data.initCall))
    && data.callChain == CallChain(data.initCall)
  }

  /**
   * `resolveTransformData`: a declaration of exactly one named local whose
   * initialiser is a call that is not a Mockito `mock`, with a chain of at
   * least two links, each but the last of known type.
   */
  function ResolveTransformData(statement: Statement): (r: Option<TransformData>)
    ensures r.Some? ==> ValidTransformData(r.value)
    ensures r.Some? ==> statement.kind.DeclarationStatement? && Locals(statement.kind.declared) == [r.value.variable]
  {
    if !statement.kind.DeclarationStatement? then None
    else
      var variables := Locals(statement.kind.declared);
      if |variables| != 1 then None
      else
        var variable := variables[0];
        if variable.nameIdentifier.None? then None
        else if variable.initializer.None? || !variable.initializer.value.CallExpression? then None
        else
          var init := variable.initializer.value.call;
          if IsMockitoMockExpression(CallExpression(init)) then None
          else
            var chain := CallChain(init);
            if |chain| < 2 then None
            else if exists k :: 0 <= k < |chain| - 1 && chain[k].callType.None? then None
            else Some(TransformData(variable, init, chain))
  }

  /** The tests `resolveTransformData` makes of the one local declared. */
  predicate ChainReady(v: LocalVariable) {
    v.nameIdentifier.Some? && v.initializer.Some? && v.initializer.value.CallExpression?
    && !IsMockitoMockExpression(v.initializer.value)
    && var chain := CallChain(v.initializer.value.call);
       |chain| >= 2 && forall k :: 0 <= k < |chain| - 1 ==> chain[k].callType.Some?
  }

  /** `resolveTransformData` succeeds on a declaration of one local that passes its tests. */
  lemma ResolveTransformDataReady(statement: Statement)
    ensures ResolveTransformData(statement).Some? <==>
      statement.kind.DeclarationStatement?
      && |Locals(statement.kind.declared)| == 1
      && ChainReady(Locals(statement.kind.declared)[0])
  {
    if statement.kind.DeclarationStatement? && |Locals(statement.kind.declared)| == 1 {
      var v := Locals(statement.kind.declared)[0];
      if v.initializer.Some? && v.initializer.value.CallExpression? {
        assert v.initializer.value == CallExpression(v.initializer.value.call);
      }
    }
  }

  /** The chain-length test is the same as asking for a non-static call before the initialiser. */
  lemma ChainReadyIff(v: LocalVariable)
    ensures ChainReady(v) <==> InitializedByChain(v)
  {
    if v.initializer.Some? && v.initializer.value.CallExpression? {
      ChainLengthIff(v.initializer.value.call);
    }
  }

  /** The intention applies to a statement exactly when it declares a single local, initialised by a chain. */
  lemma TransformDataIff(statement: Statement)
    ensures ResolveTransformData(statement).Some? <==>
      statement.kind.DeclarationStatement?
      && |Locals(statement.kind.declared)| == 1
      && InitializedByChain(Locals(statement.kind.declared)[0])
  {
    ResolveTransformDataReady(statement);
    if statement.kind.DeclarationStatement? && |Locals(statement.kind.declared)| == 1 {
      ChainReadyIff(Locals(statement.kind.declared)[0]);
    }
  }

  /**
   * A named local initialised by a call that is not a Mockito `mock`, where
   * some call before that one in its qualifier chain is not static, and
   * every kept link before the last has a type.
   */
  predicate InitializedByChain(v: LocalVariable) {
    v.nameIdentifier.Some? && v.initializer.Some? && v.initializer.value.CallExpression?
    && !IsMockitoMockExpression(v.initializer.value)
    && var init := v.initializer.value.call;
       (exists k :: 0 <= k < |Unroll(init)| - 1 && !IsStaticMethodCall(Unroll(init)[k]))
       && forall k :: 0 <= k < |CallChain(init)| - 1 ==> CallChain(init)[k].callType.Some?
  }

  /** `isAvailable`: there are targets and every one of them can be transformed. */
  predicate IsAvailable(context: EditorContext) {
    var targets := FindTargetStatements(context);
    |targets| > 0 && forall s :: s in targets ==> ResolveTransformData(s).Some?
  }

  /** `capitalize`: the first character upper-cased; the empty string is kept. */
  function Capitalize(text: string): (r: string)
    ensures |r| == |text|
    ensures text != [] ==> r[0] == UpperChar(text[0]) && r[1..] == text[1..]
  {
    if text == [] then text else UpperFirst(text)
  }

  /** `decapitalizeType`: the first character lower-cased; the empty name becomes `mockedValue`. */
  function DecapitalizeType(typeName: string): (r: string)
    ensures typeName == [] ==> r == "mockedValue"
    ensures typeName != [] ==> |r| == |typeName| && r[0] == LowerChar(typeName[0]) && r[1..] == typeName[1..]
  {
    if typeName == [] then "mockedValue" else LowerFirst(typeName)
  }

  /** `(type as? PsiClassType)?.className.orEmpty()`: empty when the type is unknown or not a class. */
  function SimpleTypeName(t: Option<JavaType>): string {
    if t.Some? then t.value.className.GetOr("") else ""
  }

  /** The name of a plain reference qualifier, if the call has one. */
  function QualifierReferenceName(call: MethodCall): Option<string> {
    if call.qualifier.ReferenceQualifier? then call.qualifier.name else None
  }

  /**
   * The base of a generated name. The first link is named after the target
   * when it yields an `Optional`, else after its receiver and method
   * (`repository` + `FindById`), else after its type; a later link extends
   * the previous mock's name with its own capitalised method name.
   */
  function BaseName(index: nat, call: MethodCall, targetName: string, previousMockName: Option<string>): string {
    var methodName := call.referenceName.GetOr("");
    var simpleType := SimpleTypeName(call.callType);
    if index == 0 && simpleType == "Optional" then targetName + "Optional"
    else if index == 0 then
      var qualifierName := QualifierReferenceName(call);
      if qualifierName.Some? && !IsBlank(qualifierName.value) && !IsBlank(methodName) then
        qualifierName.value + Capitalize(methodName)
      else
        DecapitalizeType(if IsBlank(simpleType) then "mockedValue" else simpleType)
    else
      var prev := previousMockName.GetOr("mockedValue");
      if IsBlank(methodName) then prev else prev + Capitalize(methodName)
  }

  /**
   * The base-name rules: `<target>Optional` for a first link of type
   * `Optional`; receiver name plus capitalised method for a first link with
   * a named receiver; otherwise the previous mock's name (or `mockedValue`)
   * extended by the capitalised method name, if there is one.
   */
  lemma BaseNameRules(index: nat, call: MethodCall, targetName: string, previousMockName: Option<string>)
    ensures var r := BaseName(index, call, targetName, previousMockName);
      (index == 0 && SimpleTypeName(call.callType) == "Optional" ==> r == targetName + "Optional")
      && (index == 0 && SimpleTypeName(call.callType) != "Optional" && QualifierReferenceName(call).Some?
          && !IsBlank(QualifierReferenceName(call).value) && !IsBlank(call.referenceName.GetOr(""))
          ==> r == QualifierReferenceName(call).value + Capitalize(call.referenceName.value))
      && (index > 0 ==> |r| >= |previousMockName.GetOr("mockedValue")|
                        && r[..|previousMockName.GetOr("mockedValue")|] == previousMockName.GetOr("mockedValue"))
      && (index == 0 && SimpleTypeName(call.callType) != "Optional"
          && !(QualifierReferenceName(call).Some? && !IsBlank(QualifierReferenceName(call).value)
               && !IsBlank(call.referenceName.GetOr("")))
          ==> r == DecapitalizeType(if IsBlank(SimpleTypeName(call.callType)) then "mockedValue" else SimpleTypeName(call.callType)))
      && (index > 0 && IsBlank(call.referenceName.GetOr("")) ==> r == previousMockName.GetOr("mockedValue"))
      && (index > 0 && !IsBlank(call.referenceName.GetOr(""))
          ==> r == previousMockName.GetOr("mockedValue") + Capitalize(call.referenceName.value))
  {
  }

  /** The `i`-th numbered variant of a base name, `"$base$i"`. */
  function Candidate(base: string, i: nat): string {
    base + NatToString(i)
  }

  /** A name is taken when it is already used or is the target variable's name. */
  predicate Taken(name: string, usedNames: set<string>, targetName: string) {
    name in usedNames || name == targetName
  }

  /** Different suffixes give different candidates. */
  lemma CandidateInjective(base: string, a: nat, b: nat)
    requires Candidate(base, a) == Candidate(base, b)
    ensures a == b
  {
    assert Candidate(base, a)[|base|..] == NatToString(a);
    assert Candidate(base, b)[|base|..] == NatToString(b);
    NatToStringInjective(a, b);
  }

  /** The candidates numbered 1 to `i`. */
  function CandidateSet(base: string, i: nat): (r: set<string>)
    ensures forall j :: 1 <= j <= i ==> Candidate(base, j) in r
    ensures forall x :: x in r ==> exists j :: 1 <= j <= i && x == Candidate(base, j)
  {
    if i == 0 then {} else CandidateSet(base, i - 1) + {Candidate(base, i)}
  }

  /** There are exactly `i` candidates numbered 1 to `i`. */
  lemma {:induction false} CandidateSetSize(base: string, i: nat)
    ensures |CandidateSet(base, i)| == i
  {
    if i > 0 {
      CandidateSetSize(base, i - 1);
      if Candidate(base, i) in CandidateSet(base, i - 1) {
        var j :| 1 <= j <= i - 1 && Candidate(base, i) == Candidate(base, j);
        CandidateInjective(base, i, j);
      }
    }
  }

  /** If candidates 1 to `i` are all taken, at least `i` names are taken: the search cannot run forever. */
  lemma CandidatesFillTaken(base: string, usedNames: set<string>, targetName: string, i: nat)
    requires forall j :: 1 <= j <= i ==> Taken(Candidate(base, j), usedNames, targetName)
    ensures i <= |usedNames + {targetName}|
  {
    CandidateSetSize(base, i);
    assert CandidateSet(base, i) <= usedNames + {targetName};
    SubsetSize(CandidateSet(base, i), usedNames + {targetName});
  }

  /** A subset is no larger than its superset. */
  lemma SubsetSize(a: set<string>, b: set<string>)
    requires a <= b
    ensures |a| <= |b|
  {
    assert b == a + (b - a);
  }

  /** The smallest suffix from `i` on whose candidate is free, given that those below `i` are taken. */
  function FirstFreeSuffix(base: string, usedNames: set<string>, targetName: string, i: nat): (r: nat)
    requires i >= 1
    requires forall j :: 1 <= j < i ==> Taken(Candidate(base, j), usedNames, targetName)
    ensures r >= i && !Taken(Candidate(base, r), usedNames, targetName)
    ensures forall j :: 1 <= j < r ==> Taken(Candidate(base, j), usedNames, targetName)
    decreases |usedNames + {targetName}| + 1 - i
  {
    if !Taken(Candidate(base, i), usedNames, targetName) then i
    else
      CandidatesFillTaken(base, usedNames, targetName, i);
      FirstFreeSuffix(base, usedNames, targetName, i + 1)
  }

  /**
   * The name `suggestChainVariableName` settles on for a base: the base
   * itself when free, else the base with the smallest positive suffix that
   * is free. It is never taken.
   */
  function FreeName(base: string, usedNames: set<string>, targetName: string): (r: string)
    ensures !Taken(r, usedNames, targetName)
    ensures !Taken(base, usedNames, targetName) ==> r == base
    ensures Taken(base, usedNames, targetName) ==>
      exists k :: k >= 1 && r == Candidate(base, k)
        && forall j :: 1 <= j < k ==> Taken(Candidate(base, j), usedNames, targetName)
  {
    if !Taken(base, usedNames, targetName) then base
    else Candidate(base, FirstFreeSuffix(base, usedNames, targetName, 1))
  }

  /** The free name is determined by its defining properties: any minimal free candidate is it. */
  lemma FreeNameUnique(base: string, usedNames: set<string>, targetName: string, k: nat)
    requires Taken(base, usedNames, targetName)
    requires k >= 1 && !Taken(Candidate(base, k), usedNames, targetName)
    requires forall j :: 1 <= j < k ==> Taken(Candidate(base, j), usedNames, targetName)
    ensures FreeName(base, usedNames, targetName) == Candidate(base, k)
  {
    var f := FirstFreeSuffix(base, usedNames, targetName, 1);
    assert !(f < k) && !(k < f);
  }

  /**
   * `suggestChainVariableName`: the base name, or failing that the first
   * free numbered variant, found by counting up from 1.
   */
  method SuggestChainVariableName(index: nat, call: MethodCall, targetName: string,
                                  previousMockName: Option<string>, usedNames: set<string>) returns (name: string)
    ensures name == FreeName(BaseName(index, call, targetName, previousMockName), usedNames, targetName)
  {
    var base := BaseName(index, call, targetName, previousMockName);
    if base !in usedNames && base != targetName {
      return base;
    }
    var i := 1;
    while true
      invariant i >= 1
      invariant forall j :: 1 <= j < i ==> Taken(Candidate(base, j), usedNames, targetName)
      decreases |usedNames + {targetName}| + 1 - i
    {
      var candidate := base + NatToString(i);
      if candidate !in usedNames && candidate != targetName {
        FreeNameUnique(base, usedNames, targetName, i);
        return candidate;
      }
      CandidatesFillTaken(base, usedNames, targetName, i);
      i := i + 1;
    }
  }

  /** The set of names a sequence holds. */
  function Elements(names: seq<string>): set<string> {
    set x | x in names
  }

  /** Extending a prefix by one name adds that name to its set. */
  lemma ElementsPrefixSnoc(names: seq<string>, i: nat)
    requires i < |names|
    ensures Elements(names[..i + 1]) == Elements(names[..i]) + {names[i]}
  {
    assert names[..i + 1] == names[..i] + [names[i]];
    assert forall y :: y in names[..i + 1] <==> y in names[..i] || y == names[i];
  }

  /** The empty prefix adds nothing to a set of names. */
  lemma ElementsEmptyPrefix(names: seq<string>, used: set<string>)
    ensures used + Elements(names[..0]) == used
  {
    assert names[..0] == [];
  }

  /** Picks a link's mock name from its position, its call, the previous mock's name and the names taken so far. */
  type Namer = (nat, MethodCall, Option<string>, set<string>) -> string

  /** The naming `suggestChainVariableName` applies for a given target variable. */
  function ChainNamer(targetName: string): Namer {
    (index: nat, call: MethodCall, previous: Option<string>, used: set<string>) =>
      FreeName(BaseName(index, call, targetName, previous), used, targetName)
  }

  /** The chain namer never picks a taken name. */
  lemma ChainNamerFree(targetName: string)
    ensures forall index, call, previous, used ::
      !Taken(ChainNamer(targetName)(index, call, previous, used), used, targetName)
  {
  }

  /**
   * The names given to the first `count` links of `links`, in order: link
   * `k` is named from its position, its call and the previous link's name,
   * with `usedNames` and every earlier link's name taken.
   */
  function MockNames(links: seq<MethodCall>, namer: Namer, usedNames: set<string>, count: nat): (r: seq<string>)
    requires count <= |links|
    ensures |r| == count
  {
    if count == 0 then []
    else
      var prior := MockNames(links, namer, usedNames, count - 1);
      var previous := if count == 1 then None else Some(prior[count - 2]);
      prior + [namer(count - 1, links[count - 1], previous, usedNames + Elements(prior))]
  }

  /** Naming more links does not change the names of the earlier ones. */
  lemma {:induction false} MockNamesPrefix(links: seq<MethodCall>, namer: Namer, usedNames: set<string>, i: nat, j: nat)
    requires i <= j <= |links|
    ensures MockNames(links, namer, usedNames, i) == MockNames(links, namer, usedNames, j)[..i]
    decreases j
  {
    if i < j {
      MockNamesPrefix(links, namer, usedNames, i, j - 1);
      var shorter := MockNames(links, namer, usedNames, j - 1);
      assert MockNames(links, namer, usedNames, j)[..j - 1] == shorter;
      assert shorter[..i] == MockNames(links, namer, usedNames, j)[..i];
    }
  }

  /**
   * With a namer that never picks a taken name, no generated name is used
   * already or is the target's, and no two are equal.
   */
  lemma {:induction false} MockNamesFresh(links: seq<MethodCall>, namer: Namer, targetName: string, usedNames: set<string>, count: nat)
    requires count <= |links|
    requires forall index, call, previous, used :: !Taken(namer(index, call, previous, used), used, targetName)
    ensures forall k :: 0 <= k < count ==> !Taken(MockNames(links, namer, usedNames, count)[k], usedNames, targetName)
    ensures forall a, b :: 0 <= a < b < count ==>
      MockNames(links, namer, usedNames, count)[a] != MockNames(links, namer, usedNames, count)[b]
  {
    if count > 0 {
      MockNamesFresh(links, namer, targetName, usedNames, count - 1);
      var prior := MockNames(links, namer, usedNames, count - 1);
      var r := MockNames(links, namer, usedNames, count);
      var name := r[count - 1];
      assert r == prior + [name];
      assert !Taken(name, usedNames + Elements(prior), targetName);
      forall k | 0 <= k < count ensures !Taken(r[k], usedNames, targetName) {
        if k < count - 1 { assert r[k] == prior[k]; }
      }
      forall a, b | 0 <= a < b < count ensures r[a] != r[b] {
        assert r[a] == prior[a];
        if b == count - 1 {
          assert prior[a] in Elements(prior);
        } else {
          assert r[b] == prior[b];
        }
      }
    }
  }

  /** `buildCallText`: the call re-rooted on another receiver; a call without a method name keeps its text. */
  function BuildCallText(call: MethodCall, qualifierReplacement: string): (r: string)
    ensures call.referenceName.None? ==> r == call.text
    ensures call.referenceName.Some? ==>
      |r| > |qualifierReplacement| && r[..|qualifierReplacement|] == qualifierReplacement
      && r[|qualifierReplacement|] == '.'
      && r[|qualifierReplacement| + 1..] == call.referenceName.value + call.argumentListText
  {
    if call.referenceName.None? then call.text
    else qualifierReplacement + "." + call.referenceName.value + call.argumentListText
  }

  /** `resolveMockStatement`'s value: the configured expression for the type, else `mock()`. */
  function MockExpression(rules: seq<Rule>, typeCanonical: string): (r: string)
    ensures !IsBlank(r)
  {
    var configured := ResolveExpression(rules, typeCanonical);
    if configured.Some? then configured.value
    else assert "mock()"[0] == 'm'; "mock()"
  }

  /** `resolveMockStatement`: asks the settings service, which back-fills its defaults first. */
  method ResolveMockStatement(service: MockingSettingsService, typeCanonical: string) returns (expression: string)
    modifies service
    ensures service.rules == WithDefaults(old(service.rules)) && HasDefaults(service.rules)
    ensures HasDefaults(old(service.rules)) ==> service.rules == old(service.rules)
    ensures expression == MockExpression(service.rules, typeCanonical)
  {
    var configured := service.ResolveMockExpression(typeCanonical);
    expression := if configured.Some? then configured.value else "mock()";
  }

  /** Every generated statement rendered, in order. */
  function RenderAll(statements: seq<GeneratedStatement>, nl: string): (r: seq<string>)
    ensures |r| == |statements|
    decreases |statements|
  {
    if statements == [] then []
    else RenderAll(statements[..|statements| - 1], nl) + [Render(statements[|statements| - 1], nl)]
  }

  /** The `k`-th text is the rendering of the `k`-th statement. */
  lemma {:induction false} RenderAllAt(statements: seq<GeneratedStatement>, nl: string, k: nat)
    requires k < |statements|
    ensures RenderAll(statements, nl)[k] == Render(statements[k], nl)
    decreases |statements|
  {
    if k < |statements| - 1 {
      RenderAllAt(statements[..|statements| - 1], nl, k);
    }
  }

  /** The name of the variable being replaced. */
  function TargetName(data: TransformData): string
    requires ChainShape(data)
  {
    data.variable.nameIdentifier.value
  }

  /** The replaced variable's type: the init call's type, or the declared type when that is unknown. */
  function TargetType(data: TransformData): string {
    (if data.initCall.callType.Some? then data.initCall.callType.value else data.variable.varType).canonicalText
  }

  /** The names of the mocks for every link but the last, in chain order. */
  function LinkNames(data: TransformData, existing: set<string>): (r: seq<string>)
    requires ChainShape(data)
    ensures |r| == |data.callChain| - 1
  {
    MockNames(data.callChain, ChainNamer(TargetName(data)), existing + {TargetName(data)}, |data.callChain| - 1)
  }

  /** The variable declared for link `k`: a generated mock, or the target for the last link. */
  function LinkVariable(data: TransformData, names: seq<string>, k: nat): string
    requires ChainShape(data) && |names| == |data.callChain| - 1 && k < |data.callChain|
  {
    if k < |names| then names[k] else TargetName(data)
  }

  /** The type declared for link `k`. */
  function LinkType(data: TransformData, k: nat): string
    requires ChainShape(data) && k < |data.callChain|
  {
    if k < |data.callChain| - 1 then data.callChain[k].callType.value.canonicalText else TargetType(data)
  }

  /** The call stubbed for link `k`: the first link as written, a later one re-rooted on the previous mock. */
  function LinkCallText(data: TransformData, names: seq<string>, k: nat): string
    requires ChainShape(data) && |names| == |data.callChain| - 1 && k < |data.callChain|
  {
    if k == 0 then data.callChain[0].text else BuildCallText(data.callChain[k], names[k - 1])
  }

  /** The mock expression chosen for each type under a rule list. */
  function Resolver(rules: seq<Rule>): string -> string {
    t => MockExpression(rules, t)
  }

  /**
   * The declaration and the stub generated for link `k`, where `resolve`
   * gives the mock expression for a type.
   */
  function LinkStatements(data: TransformData, names: seq<string>, resolve: string -> string, k: nat): seq<GeneratedStatement>
    requires ChainShape(data) && |names| == |data.callChain| - 1 && k < |data.callChain|
  {
    var name := LinkVariable(data, names, k);
    var typeText := LinkType(data, k);
    [Declaration(typeText, name, resolve(typeText)), Stub(LinkCallText(data, names, k), name)]
  }

  /** The pair for a link before the last: its mock, of the call's type, stubbed on the previous mock. */
  lemma InnerLinkStatements(data: TransformData, names: seq<string>, resolve: string -> string, k: nat)
    requires ChainShape(data) && |names| == |data.callChain| - 1 && k < |data.callChain| - 1
    ensures var call := data.callChain[k];
      LinkStatements(data, names, resolve, k) ==
        [Declaration(call.callType.value.canonicalText, names[k], resolve(call.callType.value.canonicalText)),
         Stub(if k == 0 then call.text else BuildCallText(call, names[k - 1]), names[k])]
  {
  }

  /** The pair for the last link: the original variable, stubbed on the last mock. */
  lemma LastLinkStatements(data: TransformData, names: seq<string>, resolve: string -> string)
    requires ChainShape(data) && |names| == |data.callChain| - 1
    ensures LinkStatements(data, names, resolve, |names|) ==
      [Declaration(TargetType(data), TargetName(data), resolve(TargetType(data))),
       Stub(BuildCallText(data.initCall, names[|names| - 1]), TargetName(data))]
  {
  }

  /** The statements generated for the first `count` links. */
  function StatementsUpTo(data: TransformData, names: seq<string>, resolve: string -> string, count: nat): seq<GeneratedStatement>
    requires ChainShape(data) && |names| == |data.callChain| - 1 && count <= |data.callChain|
  {
    if count == 0 then [] else StatementsUpTo(data, names, resolve, count - 1) + LinkStatements(data, names, resolve, count - 1)
  }

  /** Every statement `transformStatement` inserts in place of the declaration, in order. */
  function Scaffold(data: TransformData, existing: set<string>, rules: seq<Rule>): seq<GeneratedStatement>
    requires ChainShape(data)
  {
    StatementsUpTo(data, LinkNames(data, existing), Resolver(rules), |data.callChain|)
  }

  /** The statements for `count` links number two per link. */
  lemma {:induction false} StatementsUpToLength(data: TransformData, names: seq<string>, resolve: string -> string, count: nat)
    requires ChainShape(data) && |names| == |data.callChain| - 1 && count <= |data.callChain|
    ensures |StatementsUpTo(data, names, resolve, count)| == 2 * count
  {
    if count > 0 {
      StatementsUpToLength(data, names, resolve, count - 1);
    }
  }

  /** Within the statements for `count` links, link `k`'s pair sits at positions `2k` and `2k + 1`. */
  lemma {:induction false} StatementsUpToAt(data: TransformData, names: seq<string>, resolve: string -> string, count: nat, k: nat)
    requires ChainShape(data) && |names| == |data.callChain| - 1 && k < count <= |data.callChain|
    ensures |StatementsUpTo(data, names, resolve, count)| == 2 * count
    ensures StatementsUpTo(data, names, resolve, count)[2 * k] == LinkStatements(data, names, resolve, k)[0]
    ensures StatementsUpTo(data, names, resolve, count)[2 * k + 1] == LinkStatements(data, names, resolve, k)[1]
  {
    StatementsUpToLength(data, names, resolve, count - 1);
    if k < count - 1 {
      StatementsUpToAt(data, names, resolve, count - 1, k);
    }
  }

  /**
   * The scaffold for an `n`-link chain has `2n` statements: for each link in
   * chain order, the declaration of its variable with its mock expression,
   * then the stub returning it. The last pair declares the original variable.
   */
  lemma ScaffoldShape(data: TransformData, existing: set<string>, rules: seq<Rule>)
    requires ChainShape(data)
    ensures var s := Scaffold(data, existing, rules);
      var names := LinkNames(data, existing);
      |s| == 2 * |data.callChain|
      && forall k :: 0 <= k < |data.callChain| ==>
           s[2 * k] == Declaration(LinkType(data, k), LinkVariable(data, names, k), MockExpression(rules, LinkType(data, k)))
           && s[2 * k + 1] == Stub(LinkCallText(data, names, k), LinkVariable(data, names, k))
  {
    var names := LinkNames(data, existing);
    StatementsUpToLength(data, names, Resolver(rules), |data.callChain|);
    forall k | 0 <= k < |data.callChain|
      ensures Scaffold(data, existing, rules)[2 * k] == LinkStatements(data, names, Resolver(rules), k)[0]
      ensures Scaffold(data, existing, rules)[2 * k + 1] == LinkStatements(data, names, Resolver(rules), k)[1]
    {
      StatementsUpToAt(data, names, Resolver(rules), |data.callChain|, k);
    }
  }

  /**
   * The variables the scaffold declares are pairwise distinct; every one
   * but the last is new (not an existing local, not the target) and the last
   * is the target itself.
   */
  lemma ScaffoldVariablesDistinct(data: TransformData, existing: set<string>)
    requires ChainShape(data)
    ensures var names := LinkNames(data, existing);
      LinkVariable(data, names, |data.callChain| - 1) == TargetName(data)
      && (forall k :: 0 <= k < |data.callChain| - 1 ==>
            LinkVariable(data, names, k) !in existing && LinkVariable(data, names, k) != TargetName(data))
      && forall a, b :: 0 <= a < b < |data.callChain| ==> LinkVariable(data, names, a) != LinkVariable(data, names, b)
  {
    var chain := data.callChain;
    var target := TargetName(data);
    var names := LinkNames(data, existing);
    ChainNamerFree(target);
    MockNamesFresh(chain, ChainNamer(target), target, existing + {target}, |chain| - 1);
    forall k | 0 <= k < |chain| - 1
      ensures LinkVariable(data, names, k) !in existing && LinkVariable(data, names, k) != target
    {
      assert !Taken(names[k], existing + {target}, target);
    }
    forall a, b | 0 <= a < b < |chain|
      ensures LinkVariable(data, names, a) != LinkVariable(data, names, b)
    {
      if b == |chain| - 1 {
        assert !Taken(names[a], existing + {target}, target);
      } else {
        assert names[a] != names[b];
      }
    }
  }

  /**
   * Each stub after the first calls its link's method on the previous
   * link's mock, with the link's own arguments; the first stub keeps the
   * first call's text, receiver included.
   */
  lemma StubsFollowChain(data: TransformData, existing: set<string>)
    requires ChainShape(data)
    ensures var names := LinkNames(data, existing);
      LinkCallText(data, names, 0) == data.callChain[0].text
      && forall k :: 1 <= k < |data.callChain| && data.callChain[k].referenceName.Some? ==>
           LinkCallText(data, names, k) ==
             LinkVariable(data, names, k - 1) + "." + data.callChain[k].referenceName.value + data.callChain[k].argumentListText
  {
  }

  /** Each name is what the namer picks given the names before it. */
  lemma MockNamesAt(links: seq<MethodCall>, namer: Namer, usedNames: set<string>, count: nat, index: nat)
    requires index < count <= |links|
    ensures var names := MockNames(links, namer, usedNames, count);
      names[index] == namer(index, links[index], if index == 0 then None else Some(names[index - 1]),
                            usedNames + Elements(names[..index]))
  {
    MockNamesPrefix(links, namer, usedNames, index, count);
    MockNamesPrefix(links, namer, usedNames, index + 1, count);
    var names := MockNames(links, namer, usedNames, count);
    var next := MockNames(links, namer, usedNames, index + 1);
    assert names[index] == next[index];
    if index > 0 {
      assert names[index - 1] == next[index - 1];
    }
  }

  /**
   * Naming link `index` as `suggestChainVariableName` does, after the
   * links before it, with their names now used, yields the name
   * `LinkNames` gives it.
   */
  lemma LinkNamesStep(data: TransformData, existing: set<string>, index: nat, mockName: string)
    requires ChainShape(data) && index < |data.callChain| - 1
    requires var names := LinkNames(data, existing);
      var previous := if index == 0 then None else Some(names[index - 1]);
      mockName == ChainNamer(TargetName(data))(index, data.callChain[index], previous,
                                               existing + {TargetName(data)} + Elements(names[..index]))
    ensures LinkNames(data, existing)[index] == mockName
  {
    MockNamesAt(data.callChain, ChainNamer(TargetName(data)), existing + {TargetName(data)}, |data.callChain| - 1, index);
  }

  /**
   * One pass of the loop in `transformStatement`: names the mock for link
   * `index` against the names used so far, then builds its declaration
   * (with the expression the settings service resolves for its type) and
   * its stub (the first call as written, a later one re-rooted on the
   * previous mock).
   */
  method TransformLink(service: MockingSettingsService, data: TransformData, existing: set<string>, index: nat,
                       previousMockName: Option<string>, usedNames: set<string>,
                       ghost start: seq<Rule>, ghost rules: seq<Rule>)
    returns (mockName: string, declaration: GeneratedStatement, stub: GeneratedStatement)
    modifies service
    requires ChainShape(data) && index < |data.callChain| - 1
    requires usedNames == existing + {TargetName(data)} + Elements(LinkNames(data, existing)[..index])
    requires previousMockName == if index == 0 then None else Some(LinkNames(data, existing)[index - 1])
    requires rules == WithDefaults(start) && (service.rules == start || service.rules == rules)
    ensures service.rules == rules
    ensures mockName == LinkNames(data, existing)[index]
    ensures usedNames + {mockName} == existing + {TargetName(data)} + Elements(LinkNames(data, existing)[..index + 1])
    ensures [declaration, stub] == LinkStatements(data, LinkNames(data, existing), Resolver(rules), index)
  {
    var call := data.callChain[index];
    var callType := call.callType.value;
    var callTypeCanonical := callType.canonicalText;
    mockName := SuggestChainVariableName(index, call, TargetName(data), previousMockName, usedNames);
    LinkNamesStep(data, existing, index, mockName);
    ElementsPrefixSnoc(LinkNames(data, existing), index);
    var callText := if index == 0 then call.text else BuildCallText(call, previousMockName.value);
    WithDefaultsIdempotent(start);
    var expression := ResolveMockStatement(service, callTypeCanonical);
    declaration, stub := Declaration(callTypeCanonical, mockName, expression), Stub(callText, mockName);
    InnerLinkStatements(data, LinkNames(data, existing), Resolver(rules), index);
  }

  /** Appending link `index`'s pair to the statements for the links before it gives those for one more link. */
  lemma ScaffoldStep(data: TransformData, names: seq<string>, resolve: string -> string, index: nat,
                     prefix: seq<GeneratedStatement>, declaration: GeneratedStatement, stub: GeneratedStatement)
    requires ChainShape(data) && |names| == |data.callChain| - 1 && index < |data.callChain|
    requires prefix == StatementsUpTo(data, names, resolve, index)
    requires [declaration, stub] == LinkStatements(data, names, resolve, index)
    ensures prefix + [declaration, stub] == StatementsUpTo(data, names, resolve, index + 1)
  {
  }

  /** The final pair, declaring the target and stubbing the initialiser on the last mock, completes the scaffold. */
  lemma ScaffoldLastPair(data: TransformData, existing: set<string>, rules: seq<Rule>,
                         prefix: seq<GeneratedStatement>, declaration: GeneratedStatement, stub: GeneratedStatement)
    requires ChainShape(data)
    requires prefix == StatementsUpTo(data, LinkNames(data, existing), Resolver(rules), |data.callChain| - 1)
    requires declaration == Declaration(TargetType(data), TargetName(data), MockExpression(rules, TargetType(data)))
    requires stub == Stub(BuildCallText(data.initCall, LinkNames(data, existing)[|data.callChain| - 2]), TargetName(data))
    ensures prefix + [declaration, stub] == Scaffold(data, existing, rules)
  {
    var names := LinkNames(data, existing);
    LastLinkStatements(data, names, Resolver(rules));
    assert [declaration, stub] == LinkStatements(data, names, Resolver(rules), |names|);
    ScaffoldStep(data, names, Resolver(rules), |names|, prefix, declaration, stub);
  }

  /** The final pair of `transformStatement`: the target keeps its name and is stubbed on the last mock. */
  method TransformLastLink(service: MockingSettingsService, data: TransformData, existing: set<string>,
                           previousMockName: Option<string>, ghost start: seq<Rule>, ghost rules: seq<Rule>,
                           ghost prefix: seq<GeneratedStatement>)
    returns (declaration: GeneratedStatement, stub: GeneratedStatement)
    modifies service
    requires ChainShape(data)
    requires previousMockName == Some(LinkNames(data, existing)[|data.callChain| - 2])
    requires rules == WithDefaults(start) && (service.rules == start || service.rules == rules)
    requires prefix == StatementsUpTo(data, LinkNames(data, existing), Resolver(rules), |data.callChain| - 1)
    ensures service.rules == rules
    ensures prefix + [declaration, stub] == Scaffold(data, existing, rules)
  {
    var targetName := data.variable.nameIdentifier.value;
    var targetType := TargetType(data);
    var finalWhenCall := BuildCallText(data.initCall, previousMockName.value);
    WithDefaultsIdempotent(start);
    var expression := ResolveMockStatement(service, targetType);
    declaration, stub := Declaration(targetType, targetName, expression), Stub(finalWhenCall, targetName);
    ScaffoldLastPair(data, existing, rules, prefix, declaration, stub);
  }

  /**
   * The loop of `transformStatement`: one declaration and one stub per link
   * before the last, each mock named against the names used so far and
   * given the expression the settings service resolves for its type.
   */
  method TransformLinks(service: MockingSettingsService, data: TransformData, existing: set<string>,
                        ghost start: seq<Rule>, ghost rules: seq<Rule>)
    returns (generated: seq<GeneratedStatement>, previousMockName: Option<string>)
    modifies service
    requires ChainShape(data)
    requires rules == WithDefaults(start) && service.rules == start
    ensures service.rules == rules
    ensures generated == StatementsUpTo(data, LinkNames(data, existing), Resolver(rules), |data.callChain| - 1)
    ensures previousMockName == Some(LinkNames(data, existing)[|data.callChain| - 2])
  {
    var targetName := data.variable.nameIdentifier.value;
    var chain := data.callChain;
    var existingNames := existing + {targetName};
    generated := [];
    previousMockName := None;
    ghost var allNames := LinkNames(data, existing);
    ElementsEmptyPrefix(allNames, existingNames);
    var index := 0;
    while index < |chain| - 1
      invariant 0 <= index <= |chain| - 1
      invariant existingNames == existing + {targetName} + Elements(allNames[..index])
      invariant previousMockName == if index == 0 then None else Some(allNames[index - 1])
      invariant service.rules == if index == 0 then start else rules
      invariant generated == StatementsUpTo(data, allNames, Resolver(rules), index)
    {
      var mockName, declaration, stub := TransformLink(service, data, existing, index, previousMockName, existingNames, start, rules);
      ScaffoldStep(data, allNames, Resolver(rules), index, generated, declaration, stub);
      existingNames := existingNames + {mockName};
      generated := generated + [declaration, stub];
      previousMockName := Some(mockName);
      index := index + 1;
    }
  }

  /** The loop and the final pair: every statement `transformStatement` inserts. */
  method BuildScaffold(service: MockingSettingsService, data: TransformData, existing: set<string>)
    returns (generated: seq<GeneratedStatement>)
    modifies service
    requires ChainShape(data)
    ensures service.rules == WithDefaults(old(service.rules))
    ensures generated == Scaffold(data, existing, service.rules)
  {
    ghost var start := service.rules;
    ghost var rules := WithDefaults(start);
    var previousMockName;
    generated, previousMockName := TransformLinks(service, data, existing, start, rules);
    var declaration, stub := TransformLastLink(service, data, existing, previousMockName, start, rules, generated);
    generated := generated + [declaration, stub];
  }

  /** What `transformStatement` produces for one target, given the rules it resolves expressions with. */
  function Replacement(statement: Statement, existing: set<string>, rules: seq<Rule>, nl: string): Option<seq<string>> {
    var resolved := ResolveTransformData(statement);
    if resolved.None? then None else Some(RenderAll(Scaffold(resolved.value, existing, rules), nl))
  }

  /**
   * `transformStatement`: nothing is produced when the statement does not
   * resolve to a chain; otherwise the scaffold, rendered statement by
   * statement, replaces it.
   */
  method TransformStatement(service: MockingSettingsService, statement: Statement, existing: set<string>, nl: string)
    returns (r: Option<seq<string>>)
    modifies service
    ensures r.None? <==> ResolveTransformData(statement).None?
    ensures r.None? ==> service.rules == old(service.rules)
    ensures r.Some? ==> service.rules == WithDefaults(old(service.rules))
    ensures r == Replacement(statement, existing, WithDefaults(old(service.rules)), nl)
  {
    var resolved := ResolveTransformData(statement);
    if resolved.None? {
      return None;
    }
    var generated := BuildScaffold(service, resolved.value, existing);
    r := Some(RenderAll(generated, nl));
  }

  /** Each target's replacement, in the given order. */
  function Replacements(order: seq<Statement>, existingNames: Statement -> set<string>, rules: seq<Rule>, nl: string)
    : (r: seq<Option<seq<string>>>)
  {
    if order == [] then []
    else
      var last := order[|order| - 1];
      Replacements(order[..|order| - 1], existingNames, rules, nl) + [Replacement(last, existingNames(last), rules, nl)]
  }

  /** Transforming one more target appends its replacement. */
  lemma ReplacementsSnoc(order: seq<Statement>, s: Statement, existingNames: Statement -> set<string>,
                         rules: seq<Rule>, nl: string)
    ensures Replacements(order + [s], existingNames, rules, nl)
         == Replacements(order, existingNames, rules, nl) + [Replacement(s, existingNames(s), rules, nl)]
  {
    assert (order + [s])[..|order|] == order;
  }

  /**
   * The `forEach` over the ordered targets: each one transformed in turn.
   * Whichever target back-fills the rules first, every replacement resolves
   * expressions with the back-filled rules, since back-filling twice
   * changes nothing.
   */
  method TransformTargets(service: MockingSettingsService, order: seq<Statement>,
                          existingNames: Statement -> set<string>, nl: string)
    returns (replacements: seq<Option<seq<string>>>)
    modifies service
    ensures service.rules == old(service.rules) || service.rules == WithDefaults(old(service.rules))
    ensures replacements == Replacements(order, existingNames, WithDefaults(old(service.rules)), nl)
  {
    ghost var start := service.rules;
    ghost var rules := WithDefaults(start);
    WithDefaultsIdempotent(start);
    replacements := [];
    for k := 0 to |order|
      invariant service.rules == start || service.rules == rules
      invariant replacements == Replacements(order[..k], existingNames, rules, nl)
    {
      var target := order[k];
      ghost var before := service.rules;
      var one := TransformStatement(service, target, existingNames(target), nl);
      assert WithDefaults(before) == rules;
      ReplacementsSnoc(order[..k], target, existingNames, rules, nl);
      Sequences.PrefixSnoc(order, k);
      replacements := replacements + [one];
    }
    assert order[..|order|] == order;
  }

  /**
   * `invoke`: nothing without targets; otherwise the Mockito static imports
   * to add, then every target transformed, last in the file first. The
   * names already in scope at each target are a parameter, since they are
   * read from the file as it stands when that target is reached.
   */
  method Invoke(service: MockingSettingsService, context: EditorContext, importList: Option<seq<ImportStatement>>,
                mockitoFound: bool, existingNames: Statement -> set<string>, nl: string)
    returns (r: Option<(seq<string>, seq<Option<seq<string>>>)>)
    modifies service
    ensures r.None? <==> FindTargetStatements(context) == []
    ensures r.None? ==> service.rules == old(service.rules)
    ensures service.rules == old(service.rules) || service.rules == WithDefaults(old(service.rules))
    ensures r.Some? ==> r.value.0 == MockitoImportsToAdd(importList, mockitoFound)
    ensures r.Some? ==>
      var order := ProcessingOrder(FindTargetStatements(context));
      r.value.1 == Replacements(order, existingNames, WithDefaults(old(service.rules)), nl)
  {
    var targets := FindTargetStatements(context);
    if targets == [] {
      return None;
    }
    var replacements := TransformTargets(service, ProcessingOrder(targets), existingNames, nl);
    r := Some((MockitoImportsToAdd(importList, mockitoFound), replacements));
  }
}
