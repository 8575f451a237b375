/**
 * The rule store: an ordered list of (type, mock expression) rules, with
 * built-in defaults back-filled lazily and never overriding a user rule.
 */
module Settings {
  import opened Wrappers
  import opened Strings

  /** One mapping from a type's canonical text to the expression that stands in for its mock. */
  datatype Rule = Rule(typeFqn: string, expression: string)

  /** The eight primitive type names accepted as rule types. */
  function PrimitiveTypes(): set<string> {
    {"boolean", "byte", "short", "int", "long", "float", "double", "char"}
  }

  /** The built-in rules, in the order they are back-filled. */
  function DefaultRules(): seq<Rule> {
    [ Rule("java.lang.String", "UUID.randomUUID().toString()"),
      Rule("boolean", "false"),
      Rule("byte", "(byte) 0"),
      Rule("short", "(short) 0"),
      Rule("int", "0"),
      Rule("long", "0L"),
      Rule("float", "0.0f"),
      Rule("double", "0.0d"),
      Rule("char", "'\\u0000'") ]
  }

  /** The types the rules mention. */
  function TypeSet(rules: seq<Rule>): set<string> {
    set r | r in rules :: r.typeFqn
  }

  /** No two rules share a type. */
  predicate DistinctTypes(rules: seq<Rule>) {
    forall i, j :: 0 <= i < j < |rules| ==> rules[i].typeFqn != rules[j].typeFqn
  }

  /**
   * The rules `ensureDefaults` appends: walking the defaults in order, each
   * one whose type is not yet in `existing` is added and its type recorded.
   */
  function Backfill(defaults: seq<Rule>, existing: set<string>): seq<Rule>
    decreases |defaults|
  {
    if defaults == [] then []
    else if defaults[0].typeFqn !in existing then
      [defaults[0]] + Backfill(defaults[1..], existing + {defaults[0].typeFqn})
    else Backfill(defaults[1..], existing)
  }

  /** The rule list after `ensureDefaults`: the rules as they were, then the missing defaults. */
  function WithDefaults(rules: seq<Rule>): seq<Rule> {
    rules + Backfill(DefaultRules(), TypeSet(rules))
  }

  /** The defaults whose type is not in `existing`, in order (a plain filter). */
  function MissingDefaults(defaults: seq<Rule>, existing: set<string>): seq<Rule>
    decreases |defaults|
  {
    if defaults == [] then []
    else (if defaults[0].typeFqn !in existing then [defaults[0]] else []) + MissingDefaults(defaults[1..], existing)
  }

  /** Adding to `existing` a type that no remaining default has does not change the filter. */
  lemma {:induction false} MissingDefaultsIgnores(defaults: seq<Rule>, existing: set<string>, t: string)
    requires forall d :: d in defaults ==> d.typeFqn != t
    ensures MissingDefaults(defaults, existing + {t}) == MissingDefaults(defaults, existing)
    decreases |defaults|
  {
    if defaults != [] {
      MissingDefaultsIgnores(defaults[1..], existing, t);
    }
  }

  /**
   * When the defaults have distinct types, back-filling is exactly the filter
   * "defaults whose type is not present": the growing set never matters.
   */
  lemma {:induction false} BackfillIsMissingDefaults(defaults: seq<Rule>, existing: set<string>)
    requires DistinctTypes(defaults)
    ensures Backfill(defaults, existing) == MissingDefaults(defaults, existing)
    decreases |defaults|
  {
    if defaults != [] {
      var t := defaults[0].typeFqn;
      var rest := defaults[1..];
      assert DistinctTypes(rest);
      if t !in existing {
        BackfillIsMissingDefaults(rest, existing + {t});
        forall d | d in rest ensures d.typeFqn != t {
          var k :| 0 <= k < |rest| && rest[k] == d;
          assert defaults[k + 1] == d;
        }
        MissingDefaultsIgnores(rest, existing, t);
      } else {
        BackfillIsMissingDefaults(rest, existing);
      }
    }
  }

  /** Back-filled rules are defaults whose type was absent, and their types are pairwise distinct. */
  lemma {:induction false} BackfillAddsOnlyMissing(defaults: seq<Rule>, existing: set<string>)
    ensures forall r :: r in Backfill(defaults, existing) ==> r in defaults && r.typeFqn !in existing
    ensures DistinctTypes(Backfill(defaults, existing))
    decreases |defaults|
  {
    if defaults != [] {
      var t := defaults[0].typeFqn;
      if t !in existing {
        BackfillAddsOnlyMissing(defaults[1..], existing + {t});
        var tail := Backfill(defaults[1..], existing + {t});
        assert Backfill(defaults, existing) == [defaults[0]] + tail;
        forall i, j | 0 <= i < j < |[defaults[0]] + tail|
          ensures ([defaults[0]] + tail)[i].typeFqn != ([defaults[0]] + tail)[j].typeFqn
        {
          if i == 0 {
            assert ([defaults[0]] + tail)[j] == tail[j - 1];
            assert tail[j - 1] in tail;
          }
        }
      } else {
        BackfillAddsOnlyMissing(defaults[1..], existing);
      }
    }
  }

  /** After back-filling, every default's type is present. */
  lemma {:induction false} BackfillCovers(defaults: seq<Rule>, existing: set<string>)
    ensures forall d :: d in defaults ==> d.typeFqn in existing + TypeSet(Backfill(defaults, existing))
    decreases |defaults|
  {
    if defaults != [] {
      var t := defaults[0].typeFqn;
      if t !in existing {
        BackfillCovers(defaults[1..], existing + {t});
        var tail := Backfill(defaults[1..], existing + {t});
        assert Backfill(defaults, existing) == [defaults[0]] + tail;
        assert TypeSet([defaults[0]] + tail) == {t} + TypeSet(tail);
      } else {
        BackfillCovers(defaults[1..], existing);
      }
    }
  }

  /** Nothing is back-filled when every default's type is already present. */
  lemma {:induction false} BackfillNothingMissing(defaults: seq<Rule>, existing: set<string>)
    requires forall d :: d in defaults ==> d.typeFqn in existing
    ensures Backfill(defaults, existing) == []
    decreases |defaults|
  {
    if defaults != [] {
      BackfillNothingMissing(defaults[1..], existing);
    }
  }

  /** One step of the back-fill walk, at position `i`. */
  lemma BackfillStep(defaults: seq<Rule>, i: nat, existing: set<string>)
    requires i < |defaults|
    ensures Backfill(defaults[i..], existing) ==
      if defaults[i].typeFqn !in existing
      then [defaults[i]] + Backfill(defaults[i + 1..], existing + {defaults[i].typeFqn})
      else Backfill(defaults[i + 1..], existing)
  {
    assert defaults[i..][1..] == defaults[i + 1..];
  }

  /** Appending a rule adds its type. */
  lemma TypeSetAppend(rules: seq<Rule>, r: Rule)
    ensures TypeSet(rules + [r]) == TypeSet(rules) + {r.typeFqn}
  {
    assert r in rules + [r];
    forall x | x in rules ensures x in rules + [r] {}
  }

  /** The defaults have nine distinct types. */
  lemma DefaultTypesDistinct()
    ensures |DefaultRules()| == 9 && DistinctTypes(DefaultRules())
  {
  }

  /**
   * `getRules` keeps the existing rules unchanged in content and order, then
   * appends exactly the defaults whose type was missing, in default order;
   * afterwards every default type is present.
   */
  lemma WithDefaultsShape(rules: seq<Rule>)
    ensures WithDefaults(rules)[..|rules|] == rules
    ensures WithDefaults(rules)[|rules|..] == MissingDefaults(DefaultRules(), TypeSet(rules))
    ensures forall d :: d in DefaultRules() ==> d.typeFqn in TypeSet(WithDefaults(rules))
  {
    DefaultTypesDistinct();
    BackfillIsMissingDefaults(DefaultRules(), TypeSet(rules));
    BackfillCovers(DefaultRules(), TypeSet(rules));
    var added := Backfill(DefaultRules(), TypeSet(rules));
    assert TypeSet(rules + added) == TypeSet(rules) + TypeSet(added);
  }

  /** A default never overrides or duplicates a type already present: distinct types stay distinct. */
  lemma WithDefaultsKeepsDistinct(rules: seq<Rule>)
    requires DistinctTypes(rules)
    ensures DistinctTypes(WithDefaults(rules))
  {
    var added := Backfill(DefaultRules(), TypeSet(rules));
    BackfillAddsOnlyMissing(DefaultRules(), TypeSet(rules));
    var all := rules + added;
    forall i, j | 0 <= i < j < |all| ensures all[i].typeFqn != all[j].typeFqn {
      if j >= |rules| && i < |rules| {
        assert all[j] == added[j - |rules|] && all[j] in added;
        assert all[i] == rules[i] && all[i].typeFqn in TypeSet(rules);
      } else if i >= |rules| {
        assert all[i] == added[i - |rules|] && all[j] == added[j - |rules|];
      }
    }
  }

  /** `ensureDefaults` is idempotent: a second back-fill leaves the list unchanged. */
  lemma WithDefaultsIdempotent(rules: seq<Rule>)
    ensures WithDefaults(WithDefaults(rules)) == WithDefaults(rules)
  {
    WithDefaultsShape(rules);
    BackfillNothingMissing(DefaultRules(), TypeSet(WithDefaults(rules)));
  }

  /** Every default type is present, so `ensureDefaults` has nothing to add. */
  predicate HasDefaults(rules: seq<Rule>) {
    forall d :: d in DefaultRules() ==> d.typeFqn in TypeSet(rules)
  }

  /** A list that already has every default type is left as it is by the back-fill. */
  lemma HasDefaultsStable(rules: seq<Rule>)
    requires HasDefaults(rules)
    ensures WithDefaults(rules) == rules
  {
    BackfillNothingMissing(DefaultRules(), TypeSet(rules));
  }

  /** The index of the first rule for type `t`, if there is one. */
  function FirstMatch(rules: seq<Rule>, t: string): (r: Option<nat>)
    ensures r.Some? ==> r.value < |rules| && rules[r.value].typeFqn == t
    ensures r.Some? ==> forall j :: 0 <= j < r.value ==> rules[j].typeFqn != t
    ensures r.None? <==> t !in TypeSet(rules)
    decreases |rules|
  {
    if rules == [] then None
    else if rules[0].typeFqn == t then Some(0)
    else
      var rest := FirstMatch(rules[1..], t);
      assert TypeSet(rules) == {rules[0].typeFqn} + TypeSet(rules[1..]) by {
        assert rules == [rules[0]] + rules[1..];
      }
      if rest.None? then None else Some(rest.value + 1)
  }

  /**
   * `resolveMockExpression`: the expression of the first rule whose type
   * equals `t` exactly, unless that expression is blank; later rules for the
   * same type are never consulted.
   */
  function ResolveExpression(rules: seq<Rule>, t: string): (r: Option<string>)
    ensures r.Some? ==> !IsBlank(r.value)
    ensures r.Some? <==> (exists i :: 0 <= i < |rules| && rules[i].typeFqn == t
                            && (forall j :: 0 <= j < i ==> rules[j].typeFqn != t)
                            && !IsBlank(rules[i].expression))
    ensures forall i :: 0 <= i < |rules| && rules[i].typeFqn == t && (forall j :: 0 <= j < i ==> rules[j].typeFqn != t)
               ==> r == (if IsBlank(rules[i].expression) then None else Some(rules[i].expression))
  {
    var m := FirstMatch(rules, t);
    if m.None? || IsBlank(rules[m.value].expression) then None
    else Some(rules[m.value].expression)
  }

  /** The first match is found in a prefix that already mentions the type. */
  lemma {:induction false} FirstMatchInPrefix(a: seq<Rule>, b: seq<Rule>, t: string)
    requires t in TypeSet(a)
    ensures FirstMatch(a + b, t) == FirstMatch(a, t)
    decreases |a|
  {
    assert a != [];
    assert (a + b)[0] == a[0];
    if a[0].typeFqn != t {
      assert (a + b)[1..] == a[1..] + b;
      assert t in TypeSet(a[1..]) by {
        var r :| r in a && r.typeFqn == t;
        assert a == [a[0]] + a[1..];
      }
      FirstMatchInPrefix(a[1..], b, t);
    }
  }

  /** A user rule for a type wins over the default for that type. */
  lemma UserRuleOverridesDefault(rules: seq<Rule>, t: string)
    requires t in TypeSet(rules)
    ensures ResolveExpression(WithDefaults(rules), t) == ResolveExpression(rules, t)
  {
    FirstMatchInPrefix(rules, Backfill(DefaultRules(), TypeSet(rules)), t);
  }

  /** A type with no user rule and no default resolves to nothing. */
  lemma UnknownTypeResolvesToNothing(rules: seq<Rule>, t: string)
    requires t !in TypeSet(rules) && t !in TypeSet(DefaultRules())
    ensures ResolveExpression(WithDefaults(rules), t) == None
  {
    BackfillAddsOnlyMissing(DefaultRules(), TypeSet(rules));
    var added := Backfill(DefaultRules(), TypeSet(rules));
    assert TypeSet(rules + added) == TypeSet(rules) + TypeSet(added);
  }

  /** Every default is well formed: a primitive or dotted type, and a non-blank expression. */
  lemma DefaultsWellFormed()
    ensures forall d :: d in DefaultRules() ==>
      (d.typeFqn in PrimitiveTypes() || '.' in d.typeFqn) && !IsBlank(d.expression)
  {
    forall d | d in DefaultRules()
      ensures (d.typeFqn in PrimitiveTypes() || '.' in d.typeFqn) && !IsBlank(d.expression)
    {
      assert !IsWhitespace(d.expression[0]);
      assert d.typeFqn == "java.lang.String" ==> d.typeFqn[4] == '.';
    }
  }

  /** The first rule of a given type in a list of defaults is the default of that type. */
  lemma {:induction false} MatchAmongDefaults(rules: seq<Rule>, added: seq<Rule>, d: Rule)
    requires d in added && d.typeFqn !in TypeSet(rules)
    requires forall r :: r in added ==> r in DefaultRules()
    requires DistinctTypes(DefaultRules()) && d in DefaultRules()
    ensures FirstMatch(rules + added, d.typeFqn).Some?
    ensures (rules + added)[FirstMatch(rules + added, d.typeFqn).value] == d
  {
    var all := rules + added;
    assert d.typeFqn in TypeSet(all) by { assert d in all; }
    var m := FirstMatch(all, d.typeFqn).value;
    var x := all[m];
    assert x == added[m - |rules|] && x in added;
    var p :| 0 <= p < |DefaultRules()| && DefaultRules()[p] == x;
    var q :| 0 <= q < |DefaultRules()| && DefaultRules()[q] == d;
    assert p == q;
  }

  /** A type with no user rule resolves to its default expression. */
  lemma DefaultResolves(rules: seq<Rule>, d: Rule)
    requires d in DefaultRules() && d.typeFqn !in TypeSet(rules)
    ensures ResolveExpression(WithDefaults(rules), d.typeFqn) == Some(d.expression)
  {
    var added := Backfill(DefaultRules(), TypeSet(rules));
    BackfillCovers(DefaultRules(), TypeSet(rules));
    BackfillAddsOnlyMissing(DefaultRules(), TypeSet(rules));
    assert d.typeFqn in TypeSet(added);
    var y :| y in added && y.typeFqn == d.typeFqn;
    DefaultTypesDistinct();
    DefaultsWellFormed();
    MatchAmongDefaults(rules, added, y);
    assert y == d by {
      var p :| 0 <= p < |DefaultRules()| && DefaultRules()[p] == y;
      var q :| 0 <= q < |DefaultRules()| && DefaultRules()[q] == d;
      assert p == q;
    }
  }

  /**
   * The application-wide settings service. Its state is the ordered rule
   * list; every read back-fills the missing defaults first.
   */
  class MockingSettingsService {
    var rules: seq<Rule>

    /** A fresh state holds the defaults. */
    constructor ()
      ensures rules == DefaultRules()
    {
      rules := DefaultRules();
    }

    /** `loadState`: replaces the state, then back-fills the defaults. */
    method LoadState(state: seq<Rule>)
      modifies this
      ensures rules == WithDefaults(state)
    {
      rules := state;
      EnsureDefaults();
    }

    /** `getRules`: back-fills the defaults and returns the list. */
    method GetRules() returns (r: seq<Rule>)
      modifies this
      ensures rules == WithDefaults(old(rules)) && r == rules
      ensures HasDefaults(r)
      ensures HasDefaults(old(rules)) ==> rules == old(rules)
    {
      EnsureDefaults();
      r := rules;
    }

    /** `setRules`: stores the list verbatim. */
    method SetRules(newRules: seq<Rule>)
      modifies this
      ensures rules == newRules
    {
      rules := newRules;
    }

    /** `resolveMockExpression`: the first exact match's non-blank expression, over the back-filled list. */
    method ResolveMockExpression(typeCanonical: string) returns (r: Option<string>)
      modifies this
      ensures rules == WithDefaults(old(rules)) && HasDefaults(rules)
      ensures HasDefaults(old(rules)) ==> rules == old(rules)
      ensures r == ResolveExpression(rules, typeCanonical)
    {
      var all := GetRules();
      r := ResolveExpression(all, typeCanonical);
    }

    /** `ensureDefaults`: back-fills the built-in defaults. */
    method EnsureDefaults()
      modifies this
      ensures rules == WithDefaults(old(rules)) && HasDefaults(rules)
      ensures HasDefaults(old(rules)) ==> rules == old(rules)
    {
      WithDefaultsShape(old(rules));
      if HasDefaults(old(rules)) {
        HasDefaultsStable(old(rules));
      }
      AppendMissing(DefaultRules());
    }

    /**
     * The loop of `ensureDefaults`: appends each rule of `defaults` whose type
     * is not yet present, growing the set of present types as it goes.
     */
    method AppendMissing(defaults: seq<Rule>)
      modifies this
      ensures rules == old(rules) + Backfill(defaults, TypeSet(old(rules)))
    {
      ghost var target := old(rules) + Backfill(defaults, TypeSet(old(rules)));
      var existingTypes := TypeSet(rules);
      var i := 0;
      while i < |defaults|
        invariant 0 <= i <= |defaults|
        invariant existingTypes == TypeSet(rules)
        invariant rules + Backfill(defaults[i..], existingTypes) == target
      {
        var d := defaults[i];
        BackfillStep(defaults, i, existingTypes);
        if d.typeFqn !in existingTypes {
          TypeSetAppend(rules, d);
          rules := rules + [d];
          existingTypes := existingTypes + {d.typeFqn};
        }
        i := i + 1;
      }
    }
  }

  /** `setRules(rs)` followed by `getRules()` yields `rs` followed by the defaults whose types `rs` lacks. */
  method SetThenGet(service: MockingSettingsService, rs: seq<Rule>) returns (r: seq<Rule>)
    modifies service
    ensures r == rs + MissingDefaults(DefaultRules(), TypeSet(rs))
  {
    service.SetRules(rs);
    r := service.GetRules();
    DefaultTypesDistinct();
    BackfillIsMissingDefaults(DefaultRules(), TypeSet(rs));
  }
}
