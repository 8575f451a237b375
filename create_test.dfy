/**
 * The test-class intention: for a class with one constructor (or Lombok's
 * `@RequiredArgsConstructor`), a `<Name>Test` class in the same package of
 * a test root, with one `@Mock` field per dependency and an `@InjectMocks`
 * field for the class under test.
 */
module CreateTest {
  import opened Wrappers
  import opened Psi
  import opened Strings
  import CamelCase

  /** An annotation, by its qualified name as written (absent when it does not resolve). */
  datatype Annotation = Annotation(qualifiedName: Option<string>)

  /** A constructor or generated parameter: its name and type. */
  datatype Parameter = Parameter(name: Option<string>, paramType: JavaType)

  datatype Constructor = Constructor(parameters: seq<Parameter>)

  /** A field: its name, type, whether it is `final`, its annotations, whether it has an initialiser. */
  datatype Field = Field(name: string, fieldType: JavaType, isFinal: bool, annotations: seq<Annotation>, hasInitializer: bool)

  /**
   * A class: simple and qualified name, whether it is nested in another
   * class, its constructors, the annotations of its modifier list (absent
   * when there is no modifier list) and its fields in declaration order.
   */
  datatype ClassInfo = ClassInfo(
    name: Option<string>,
    qualifiedName: Option<string>,
    isNested: bool,
    constructors: seq<Constructor>,
    annotations: Option<seq<Annotation>>,
    fields: seq<Field>)

  /** The innermost method around the caret: whether it is a constructor, and its class. */
  datatype EnclosingMethod = EnclosingMethod(isConstructor: bool, containingClass: Option<ClassInfo>)

  /** What surrounds the caret: nothing, or the innermost method and the innermost class, when there are. */
  datatype CaretContext =
    | NoElement
    | AtElement(enclosingMethod: Option<EnclosingMethod>, enclosingClass: Option<ClassInfo>)

  const REQUIRED_ARGS: seq<string> := ["lombok.RequiredArgsConstructor", "RequiredArgsConstructor"]
  const NON_NULL: seq<string> := ["lombok.NonNull", "NonNull"]

  /** `hasSingleConstructor`. */
  predicate HasSingleConstructor(c: ClassInfo) {
    |c.constructors| == 1
  }

  /** Some annotation's qualified name is one of `names`. */
  predicate AnnotatedWith(annotations: seq<Annotation>, names: seq<string>) {
    exists a :: a in annotations && a.qualifiedName.Some? && a.qualifiedName.value in names
  }

  /** `hasRequiredArgsConstructor`: the modifier list carries Lombok's `RequiredArgsConstructor`, qualified or not. */
  predicate HasRequiredArgsConstructor(c: ClassInfo) {
    c.annotations.Some? && AnnotatedWith(c.annotations.value, REQUIRED_ARGS)
  }

  /** `findConstructor`: the innermost method, if it is a constructor. */
  function FindConstructor(context: CaretContext): (r: Option<EnclosingMethod>)
    ensures r.Some? ==> r.value.isConstructor
  {
    if context.AtElement? && context.enclosingMethod.Some? && context.enclosingMethod.value.isConstructor then context.enclosingMethod else None
  }

  /**
   * `resolveContextClass`: inside a constructor, that constructor's class,
   * provided it has exactly one constructor; elsewhere the enclosing class,
   * provided it is top level and has exactly one constructor or the
   * required-arguments annotation.
   */
  function ResolveContextClass(context: CaretContext): (r: Option<ClassInfo>)
    ensures r.Some? ==> HasSingleConstructor(r.value) || HasRequiredArgsConstructor(r.value)
    ensures FindConstructor(context).Some? ==>
      r == (var c := FindConstructor(context).value.containingClass;
            if c.Some? && HasSingleConstructor(c.value) then c else None)
    ensures context.AtElement? && FindConstructor(context).None? ==>
      r == (var c := context.enclosingClass;
            if c.Some? && !c.value.isNested && (HasSingleConstructor(c.value) || HasRequiredArgsConstructor(c.value))
            then c else None)
    ensures context.NoElement? ==> r.None?
  {
    if context.NoElement? then None
    else
      var enclosing := FindConstructor(context);
      if enclosing.Some? then
        var c := enclosing.value.containingClass;
        if c.None? then None
        else if HasSingleConstructor(c.value) then c else None
      else
        var c := context.enclosingClass;
        if c.None? then None
        else if c.value.isNested then None
        else if HasSingleConstructor(c.value) || HasRequiredArgsConstructor(c.value) then c else None
  }

  /** `isAvailable`: there is a context class. */
  predicate IsAvailable(context: CaretContext) {
    ResolveContextClass(context).Some?
  }

  /** A field Lombok makes a constructor parameter: `final` or `@NonNull`, and not initialised. */
  predicate IsRequiredField(f: Field) {
    (f.isFinal || AnnotatedWith(f.annotations, NON_NULL)) && !f.hasInitializer
  }

  /** The parameter `createParameter(name, type)` builds for a field. */
  function FieldParameter(f: Field): Parameter {
    Parameter(Some(f.name), f.fieldType)
  }

  /** The required fields as parameters, in declaration order. */
  function RequiredParameters(fields: seq<Field>): (r: seq<Parameter>)
    ensures |r| <= |fields|
    decreases |fields|
  {
    if fields == [] then []
    else (if IsRequiredField(fields[0]) then [FieldParameter(fields[0])] else []) + RequiredParameters(fields[1..])
  }

  /** The dependencies are exactly the parameters of the required fields. */
  lemma {:induction false} RequiredParametersMembers(fields: seq<Field>)
    ensures forall p :: p in RequiredParameters(fields) <==>
      exists f :: f in fields && IsRequiredField(f) && p == FieldParameter(f)
    decreases |fields|
  {
    if fields != [] {
      RequiredParametersMembers(fields[1..]);
      assert fields == [fields[0]] + fields[1..];
      forall p ensures p in RequiredParameters(fields) <==>
        exists f :: f in fields && IsRequiredField(f) && p == FieldParameter(f)
      {
        if p in RequiredParameters(fields) && !(p in RequiredParameters(fields[1..])) {
          assert p == FieldParameter(fields[0]);
        }
        if exists f :: f in fields && IsRequiredField(f) && p == FieldParameter(f) {
          var f :| f in fields && IsRequiredField(f) && p == FieldParameter(f);
          if f != fields[0] {
            assert f in fields[1..];
          }
        }
      }
    }
  }

  /** Selection keeps declaration order: the parameters of two runs of fields are those of each, in turn. */
  lemma {:induction false} RequiredParametersAppend(a: seq<Field>, b: seq<Field>)
    ensures RequiredParameters(a + b) == RequiredParameters(a) + RequiredParameters(b)
    decreases |a|
  {
    if a == [] {
      assert a + b == b;
    } else {
      var head := if IsRequiredField(a[0]) then [FieldParameter(a[0])] else [];
      assert (a + b)[1..] == a[1..] + b;
      assert (a + b)[0] == a[0];
      assert RequiredParameters(a + b) == head + RequiredParameters(a[1..] + b);
      assert RequiredParameters(a) == head + RequiredParameters(a[1..]);
      RequiredParametersAppend(a[1..], b);
      assert head + (RequiredParameters(a[1..]) + RequiredParameters(b))
          == (head + RequiredParameters(a[1..])) + RequiredParameters(b);
    }
  }

  /**
   * `resolveDependencies`: the single constructor's parameters; failing
   * that, the required fields when the class has the annotation; otherwise
   * nothing.
   */
  function ResolveDependencies(c: ClassInfo): (r: Option<seq<Parameter>>)
    ensures HasSingleConstructor(c) ==> r == Some(c.constructors[0].parameters)
    ensures !HasSingleConstructor(c) ==> (r.Some? <==> HasRequiredArgsConstructor(c))
    ensures !HasSingleConstructor(c) && r.Some? ==> r.value == RequiredParameters(c.fields)
  {
    if |c.constructors| == 1 then Some(c.constructors[0].parameters)
    else if !HasRequiredArgsConstructor(c) then None
    else Some(RequiredParameters(c.fields))
  }

  /** Whenever the intention is offered, the class's dependencies resolve. */
  lemma AvailableHasDependencies(context: CaretContext)
    requires IsAvailable(context)
    ensures ResolveDependencies(ResolveContextClass(context).value).Some?
  {
  }

  /** `"${targetClass.name}Test"`: a class without a name gives `nullTest`. */
  function TestClassName(className: Option<string>): (r: string)
    ensures className.Some? ==> r == className.value + "Test"
    ensures className.None? ==> r == "nullTest"
  {
    (if className.Some? then className.value else "null") + "Test"
  }

  /** The file the test class lives in. */
  function TestFileName(className: Option<string>): string {
    TestClassName(className) + ".java"
  }

  /**
   * `resolveSubjectVariableName`: the last camel-case word of the class
   * name, or the whole name when it has none, with its first character
   * lower-cased.
   */
  function ResolveSubjectVariableName(className: string): (r: string)
    ensures CamelCase.LastWord(className).None? ==> r == LowerFirst(className)
    ensures CamelCase.LastWord(className).Some? ==>
      var w := CamelCase.LastWord(className).value;
      |r| == |w| && r[0] == LowerChar(w[0]) && r[1..] == w[1..]
  {
    var last := CamelCase.LastWord(className);
    LowerFirst(if last.Some? then last.value else className)
  }

  /** A class name ending in a capitalised word is named after that word: `OrderService` gives `service`. */
  lemma SubjectOfCapitalisedSuffix(prefix: string, word: string)
    requires |word| >= 2 && CamelCase.IsUpper(word[0])
    requires forall k :: 1 <= k < |word| ==> CamelCase.IsLowerOrDigit(word[k])
    ensures ResolveSubjectVariableName(prefix + word) == LowerFirst(word)
  {
    CamelCase.LastWordOfCapitalisedSuffix(prefix, word);
  }

  /** The type of the `@InjectMocks` field: the qualified name, else the simple name, else `Object`. */
  function SubjectType(c: ClassInfo): string {
    if c.qualifiedName.Some? then c.qualifiedName.value
    else if c.name.Some? then c.name.value
    else "Object"
  }

  /** The subject's name: from the class name, or from `subject` for a class without one. */
  function SubjectName(c: ClassInfo): string {
    ResolveSubjectVariableName(if c.name.Some? then c.name.value else "subject")
  }

  const EXTEND_WITH: string := "@org.junit.jupiter.api.extension.ExtendWith(org.mockito.junit.jupiter.MockitoExtension.class)"

  /** The `@Mock` field for one dependency; an unnamed parameter is called `dependency`. */
  function MockField(p: Parameter): string {
    "@org.mockito.Mock private " + p.paramType.canonicalText + " " + (if p.name.Some? then p.name.value else "dependency") + ";"
  }

  /** The `@InjectMocks` field for the class under test. */
  function InjectField(classType: string, subjectName: string): string {
    "@org.mockito.InjectMocks private " + classType + " " + subjectName + ";"
  }

  /** One `@Mock` field per dependency, in order, then the `@InjectMocks` field. */
  predicate FieldsFor(fields: seq<string>, dependencies: seq<Parameter>, classType: string, subjectName: string) {
    |fields| == |dependencies| + 1
    && (forall k :: 0 <= k < |dependencies| ==> fields[k] == MockField(dependencies[k]))
    && fields[|dependencies|] == InjectField(classType, subjectName)
  }

  /** The field insertion: each field is added before the closing brace, so they end up in insertion order. */
  method BuildFields(dependencies: seq<Parameter>, classType: string, subjectName: string) returns (fields: seq<string>)
    ensures FieldsFor(fields, dependencies, classType, subjectName)
  {
    fields := [];
    var i := 0;
    while i < |dependencies|
      invariant 0 <= i <= |dependencies|
      invariant |fields| == i
      invariant forall k :: 0 <= k < i ==> fields[k] == MockField(dependencies[k])
    {
      fields := fields + [MockField(dependencies[i])];
      i := i + 1;
    }
    fields := fields + [InjectField(classType, subjectName)];
  }

  /**
   * A test-source tree: the subdirectories of each directory by name, the
   * files in each directory, and the next unused directory id.
   */
  class DirectoryTree {
    var children: map<(nat, string), nat>
    var files: set<(nat, string)>
    var nextId: nat

    /** Every directory mentioned has an id below `nextId`. */
    ghost predicate Valid()
      reads this
    {
      forall key :: key in children ==> key.0 < nextId && children[key] < nextId
    }

    constructor (rootCount: nat)
      ensures children == map[] && files == {} && nextId == rootCount && Valid()
    {
      children := map[];
      files := {};
      nextId := rootCount;
    }

    /** `findSubdirectory`. */
    function FindSubdirectory(dir: nat, name: string): (r: Option<nat>)
      reads this
      ensures r.Some? <==> (dir, name) in children
      ensures r.Some? ==> r.value == children[(dir, name)]
    {
      if (dir, name) in children then Some(children[(dir, name)]) else None
    }

    /** `createSubdirectory`: a new, empty directory under `dir`. */
    method CreateSubdirectory(dir: nat, name: string) returns (sub: nat)
      requires Valid() && dir < nextId && (dir, name) !in children
      modifies this
      ensures sub == old(nextId) && nextId == old(nextId) + 1
      ensures children == old(children)[(dir, name) := sub] && files == old(files)
      ensures Valid()
    {
      sub := nextId;
      children := children[(dir, name) := sub];
      nextId := nextId + 1;
    }

    /**
     * `ensurePackageDirectory`: the root for a blank package; otherwise one
     * level down per `.`-separated segment, reusing a subdirectory that
     * exists and creating one that does not.
     */
    method EnsurePackageDirectory(root: nat, packageName: string) returns (dir: nat)
      requires Valid() && root < nextId
      modifies this
      ensures Valid() && dir < nextId && files == old(files)
      ensures PackageDirectory(children, root, packageName) == Some(dir)
      ensures IsBlank(packageName) ==> children == old(children) && nextId == old(nextId)
      ensures Extends(old(children), children)
      ensures PackageDirectory(old(children), root, packageName).Some? ==> children == old(children)
      ensures !IsBlank(packageName) ==>
        var segments := Split(packageName, '.');
        CreatedAlong(old(children), children, old(nextId), root, segments, |segments|)
    {
      if IsBlank(packageName) {
        return root;
      }
      var segments := Split(packageName, '.');
      dir := WalkOrCreate(root, segments);
    }

    /** `findSubdirectory(name) ?: createSubdirectory(name)`: one step down, creating the level when it is missing. */
    method SubdirectoryOrCreate(dir: nat, name: string) returns (sub: nat)
      requires Valid() && dir < nextId
      modifies this
      ensures Valid() && sub < nextId && files == old(files)
      ensures (dir, name) in old(children) ==>
        children == old(children) && nextId == old(nextId) && sub == old(children)[(dir, name)]
      ensures (dir, name) !in old(children) ==>
        children == old(children)[(dir, name) := old(nextId)] && nextId == old(nextId) + 1 && sub == old(nextId)
    {
      var found := FindSubdirectory(dir, name);
      if found.Some? {
        sub := found.value;
      } else {
        sub := CreateSubdirectory(dir, name);
      }
    }

    /** The loop of `ensurePackageDirectory` over the segments. */
    method WalkOrCreate(root: nat, segments: seq<string>) returns (current: nat)
      requires Valid() && root < nextId
      modifies this
      ensures Valid() && current < nextId && files == old(files)
      ensures Walk(children, root, segments) == Some(current)
      ensures Extends(old(children), children)
      ensures Walk(old(children), root, segments).Some? ==> children == old(children)
      ensures CreatedAlong(old(children), children, old(nextId), root, segments, |segments|)
    {
      current := root;
      var i := 0;
      assert segments[..0] == [];
      while i < |segments|
        invariant 0 <= i <= |segments|
        invariant Valid() && current < nextId && files == old(files)
        invariant Walk(children, root, segments[..i]) == Some(current)
        invariant Extends(old(children), children)
        invariant Walk(old(children), root, segments).Some? ==> children == old(children)
        invariant old(nextId) <= nextId
        invariant CreatedAlong(old(children), children, old(nextId), root, segments, i)
      {
        var segment := segments[i];
        assert segments[..i + 1] == segments[..i] + [segment];
        WalkSnoc(children, root, segments[..i], segment);
        if Walk(old(children), root, segments).Some? {
          WalkPrefix(old(children), root, segments, i + 1);
        }
        ghost var before := children;
        ghost var parent := current;
        current := SubdirectoryOrCreate(current, segment);
        if children == before {
          CreatedAlongLonger(old(children), children, old(nextId), root, segments, i);
        } else {
          CreatedAlongStep(old(children), before, old(nextId), root, segments, i, parent, current);
          WalkExtends(before, children, root, segments[..i]);
          WalkSnoc(children, root, segments[..i], segment);
        }
        i := i + 1;
      }
      assert segments[..i] == segments;
    }

    /** `findFile`: the directory holds a file of that name. */
    predicate HasFile(dir: nat, name: string)
      reads this
    {
      (dir, name) in files
    }

    /** `createClass`: the new file in the directory. */
    method CreateFile(dir: nat, name: string)
      modifies this
      ensures files == old(files) + {(dir, name)}
      ensures children == old(children) && nextId == old(nextId)
    {
      files := files + {(dir, name)};
    }
  }

  /** The directory reached from `dir` by following the names in turn, if each exists. */
  function Walk(children: map<(nat, string), nat>, dir: nat, path: seq<string>): (r: Option<nat>)
    decreases |path|
  {
    if path == [] then Some(dir)
    else if (dir, path[0]) in children then Walk(children, children[(dir, path[0])], path[1..])
    else None
  }

  /** The directory a package lives in below `root`, if all of its levels exist. */
  function PackageDirectory(children: map<(nat, string), nat>, root: nat, packageName: string): Option<nat> {
    if IsBlank(packageName) then Some(root) else Walk(children, root, Split(packageName, '.'))
  }

  /** The tree `after` keeps every subdirectory link of `before`. */
  predicate Extends(before: map<(nat, string), nat>, after: map<(nat, string), nat>) {
    forall key :: key in before ==> key in after && after[key] == before[key]
  }

  /**
   * Every link `after` has beyond `before` is a new directory (its id is at
   * least `firstNew`) created for one of the first `n` segments, under the
   * directory the segments before it lead to.
   */
  ghost predicate CreatedAlong(before: map<(nat, string), nat>, after: map<(nat, string), nat>, firstNew: nat,
                               root: nat, segments: seq<string>, n: nat)
    requires n <= |segments|
  {
    forall key :: key in after && key !in before ==>
      firstNew <= after[key]
      && exists j :: 0 <= j < n && key.1 == segments[j] && Walk(after, root, segments[..j]) == Some(key.0)
  }

  /** Allowing one more segment keeps every created link accounted for. */
  lemma CreatedAlongLonger(before: map<(nat, string), nat>, after: map<(nat, string), nat>, firstNew: nat,
                           root: nat, segments: seq<string>, n: nat)
    requires n < |segments| && CreatedAlong(before, after, firstNew, root, segments, n)
    ensures CreatedAlong(before, after, firstNew, root, segments, n + 1)
  {
    forall key | key in after && key !in before
      ensures exists j :: 0 <= j < n + 1 && key.1 == segments[j] && Walk(after, root, segments[..j]) == Some(key.0)
    {
      var j :| 0 <= j < n && key.1 == segments[j] && Walk(after, root, segments[..j]) == Some(key.0);
    }
  }

  /**
   * Creating the directory for segment `i`, under the directory the
   * earlier segments lead to, keeps every created link accounted for.
   */
  lemma CreatedAlongStep(base: map<(nat, string), nat>, before: map<(nat, string), nat>, firstNew: nat,
                         root: nat, segments: seq<string>, i: nat, parent: nat, sub: nat)
    requires i < |segments| && CreatedAlong(base, before, firstNew, root, segments, i)
    requires Walk(before, root, segments[..i]) == Some(parent) && (parent, segments[i]) !in before
    requires firstNew <= sub
    ensures CreatedAlong(base, before[(parent, segments[i]) := sub], firstNew, root, segments, i + 1)
  {
    var after := before[(parent, segments[i]) := sub];
    forall key | key in after && key !in base
      ensures firstNew <= after[key]
      ensures exists j :: 0 <= j < i + 1 && key.1 == segments[j] && Walk(after, root, segments[..j]) == Some(key.0)
    {
      if key == (parent, segments[i]) {
        WalkExtends(before, after, root, segments[..i]);
      } else {
        var j :| 0 <= j < i && key.1 == segments[j] && Walk(before, root, segments[..j]) == Some(key.0);
        WalkExtends(before, after, root, segments[..j]);
      }
    }
  }

  /** Following one more name goes one level down from where the shorter walk ends. */
  lemma {:induction false} WalkSnoc(children: map<(nat, string), nat>, dir: nat, path: seq<string>, name: string)
    ensures Walk(children, dir, path + [name]) ==
      (var end := Walk(children, dir, path);
       if end.Some? && (end.value, name) in children then Some(children[(end.value, name)]) else None)
    decreases |path|
  {
    if path != [] {
      assert (path + [name])[0] == path[0];
      assert (path + [name])[1..] == path[1..] + [name];
      if (dir, path[0]) in children {
        WalkSnoc(children, children[(dir, path[0])], path[1..], name);
      }
    } else {
      assert (path + [name])[1..] == [];
    }
  }

  /** Adding subdirectories does not change where an existing path leads. */
  lemma {:induction false} WalkExtends(before: map<(nat, string), nat>, after: map<(nat, string), nat>, dir: nat, path: seq<string>)
    requires Extends(before, after)
    requires Walk(before, dir, path).Some?
    ensures Walk(after, dir, path) == Walk(before, dir, path)
    decreases |path|
  {
    if path != [] {
      WalkExtends(before, after, before[(dir, path[0])], path[1..]);
    }
  }

  /** A path that exists has every prefix existing. */
  lemma {:induction false} WalkPrefix(children: map<(nat, string), nat>, dir: nat, path: seq<string>, k: nat)
    requires k <= |path| && Walk(children, dir, path).Some?
    ensures Walk(children, dir, path[..k]).Some?
    decreases |path|
  {
    if k > 0 {
      assert path[..k][0] == path[0];
      assert path[..k][1..] == path[1..][..k - 1];
      WalkPrefix(children, children[(dir, path[0])], path[1..], k - 1);
    }
  }

  /** The skeleton of a created test class: its name, its class annotation, its fields in order. */
  datatype TestClass = TestClass(name: string, annotation: string, fields: seq<string>)

  /**
   * The skeleton `invoke` creates for class `c`: named `<Name>Test`,
   * annotated to run with the Mockito extension, with one `@Mock` field per
   * dependency and the `@InjectMocks` field.
   */
  predicate SkeletonFor(t: TestClass, c: ClassInfo, dependencies: seq<Parameter>) {
    t.name == TestClassName(c.name) && t.annotation == EXTEND_WITH
    && FieldsFor(t.fields, dependencies, SubjectType(c), SubjectName(c))
  }

  /**
   * `invoke`: nothing without a context class, dependencies or a chosen
   * test root (`root`, as the chooser returns it); nothing when the package
   * directory already holds `<Name>Test.java`; otherwise that file is
   * created there with the skeleton.
   */
  method Invoke(tree: DirectoryTree, context: CaretContext, packageName: string, root: Option<nat>)
    returns (created: Option<TestClass>)
    requires tree.Valid() && (root.Some? ==> root.value < tree.nextId)
    modifies tree
    ensures tree.Valid() && Extends(old(tree.children), tree.children)
    ensures var c := ResolveContextClass(context);
      if c.None? || root.None? then created.None? && tree.children == old(tree.children) && tree.files == old(tree.files)
      else
        var dir := PackageDirectory(tree.children, root.value, packageName);
        var file := TestFileName(c.value.name);
        && ResolveDependencies(c.value).Some?
        && dir.Some?
        && (PackageDirectory(old(tree.children), root.value, packageName).Some? ==> tree.children == old(tree.children))
        && (!IsBlank(packageName) ==>
              var segments := Split(packageName, '.');
              CreatedAlong(old(tree.children), tree.children, old(tree.nextId), root.value, segments, |segments|))
        && (created.None? <==> (dir.value, file) in old(tree.files))
        && tree.files == old(tree.files) + {(dir.value, file)}
        && (created.Some? ==> SkeletonFor(created.value, c.value, ResolveDependencies(c.value).value))
  {
    var target := ResolveContextClass(context);
    if target.None? {
      return None;
    }
    var c := target.value;
    var dependencies := ResolveDependencies(c);
    if dependencies.None? || root.None? {
      return None;
    }
    var testClassName := TestClassName(c.name);
    var subjectName := SubjectName(c);
    var classType := SubjectType(c);
    var dir := tree.EnsurePackageDirectory(root.value, packageName);
    var fileName := testClassName + ".java";
    if tree.HasFile(dir, fileName) {
      return None;
    }
    tree.CreateFile(dir, fileName);
    var fields := BuildFields(dependencies.value, classType, subjectName);
    created := Some(TestClass(testClassName, EXTEND_WITH, fields));
  }
}
