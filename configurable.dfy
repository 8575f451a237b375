/**
 * The settings form: a two-column table of (type, mock expression) rows
 * over the rule store, with ordered validation before anything is saved.
 */
module Configurable {
  import opened Wrappers
  import opened Strings
  import opened Settings
  import Sequences

  /** One table row: the raw text of its type cell and of its expression cell. */
  datatype Row = Row(typeCell: string, expressionCell: string)

  /** The row the add action and an emptied table get. */
  const BLANK_ROW: Row := Row("", "")

  /** A row read back as a rule: both cells trimmed. */
  function RowRule(row: Row): Rule {
    Rule(Trim(row.typeCell), Trim(row.expressionCell))
  }

  /** A row whose two cells are both empty after trimming is skipped. */
  predicate SkippedRow(row: Row) {
    Trim(row.typeCell) == [] && Trim(row.expressionCell) == []
  }

  /** `readRulesFromTable`: trimmed rules of the non-skipped rows, in row order. */
  function RulesFromRows(rows: seq<Row>): seq<Rule>
    decreases |rows|
  {
    if rows == [] then []
    else
      var last := rows[|rows| - 1];
      RulesFromRows(rows[..|rows| - 1]) + (if SkippedRow(last) then [] else [RowRule(last)])
  }

  /** A rule as the table shows it: its two fields as the two cells. */
  function RuleRow(rule: Rule): Row {
    Row(rule.typeFqn, rule.expression)
  }

  /** The rows `reset` adds for the saved rules, one per rule in order. */
  function RuleRows(rules: seq<Rule>): (r: seq<Row>)
    ensures |r| == |rules|
    ensures forall k :: 0 <= k < |rules| ==> r[k] == RuleRow(rules[k])
    decreases |rules|
  {
    if rules == [] then [] else RuleRows(rules[..|rules| - 1]) + [RuleRow(rules[|rules| - 1])]
  }

  /** The table after `reset`: the saved rules in order, or a single blank row when there are none. */
  function ResetRows(saved: seq<Rule>): (r: seq<Row>)
    ensures |r| >= 1
    ensures saved != [] ==> r == RuleRows(saved)
    ensures saved == [] ==> r == [BLANK_ROW]
  {
    if saved == [] then [BLANK_ROW] else RuleRows(saved)
  }

  /** Reading is compositional: the rules of two blocks of rows are the two blocks' rules, in order. */
  lemma {:induction false} RulesFromRowsAppend(a: seq<Row>, b: seq<Row>)
    ensures RulesFromRows(a + b) == RulesFromRows(a) + RulesFromRows(b)
    decreases |b|
  {
    if b != [] {
      var ab := a + b;
      var front := b[..|b| - 1];
      var last := b[|b| - 1];
      var tail := if SkippedRow(last) then [] else [RowRule(last)];
      assert ab[..|ab| - 1] == a + front;
      assert ab[|ab| - 1] == last;
      assert RulesFromRows(ab) == RulesFromRows(a + front) + tail;
      assert RulesFromRows(b) == RulesFromRows(front) + tail;
      RulesFromRowsAppend(a, front);
      assert (RulesFromRows(a) + RulesFromRows(front)) + tail == RulesFromRows(a) + (RulesFromRows(front) + tail);
    } else {
      assert a + b == a;
    }
  }

  /** One row yields its trimmed rule exactly when it is not skipped; a row with only one side empty is kept. */
  lemma RulesFromOneRow(row: Row)
    ensures RulesFromRows([row]) == if SkippedRow(row) then [] else [RowRule(row)]
    ensures !IsBlank(row.typeCell) || !IsBlank(row.expressionCell) ==> RulesFromRows([row]) == [RowRule(row)]
  {
    assert [row][..0] == [];
    TrimEmptyIffBlank(row.typeCell);
    TrimEmptyIffBlank(row.expressionCell);
  }

  /** A rule that survives a read-back unchanged: trimmed fields, not both empty. */
  predicate CleanRule(rule: Rule) {
    Trim(rule.typeFqn) == rule.typeFqn && Trim(rule.expression) == rule.expression
    && !(rule.typeFqn == [] && rule.expression == [])
  }

  /** Every rule read from the table is clean, and there are at most as many rules as rows. */
  lemma {:induction false} RulesFromRowsClean(rows: seq<Row>)
    ensures |RulesFromRows(rows)| <= |rows|
    ensures forall r :: r in RulesFromRows(rows) ==> CleanRule(r)
    decreases |rows|
  {
    if rows != [] {
      var last := rows[|rows| - 1];
      RulesFromRowsClean(rows[..|rows| - 1]);
      TrimIdempotent(last.typeCell);
      TrimIdempotent(last.expressionCell);
    }
  }

  /** Showing clean rules in the table and reading them back gives the same rules. */
  lemma {:induction false} RuleRowsRoundTrip(rules: seq<Rule>)
    requires forall r :: r in rules ==> CleanRule(r)
    ensures RulesFromRows(RuleRows(rules)) == rules
    decreases |rules|
  {
    if rules != [] {
      var front := rules[..|rules| - 1];
      var last := rules[|rules| - 1];
      RuleRowsRoundTrip(front);
      var rows := RuleRows(rules);
      assert rows[..|rows| - 1] == RuleRows(front);
      assert last in rules;
      assert rows[|rows| - 1] == RuleRow(last);
      assert !SkippedRow(RuleRow(last));
      assert RowRule(RuleRow(last)) == last;
      assert RulesFromRows(rows) == RulesFromRows(RuleRows(front)) + [last];
      assert rules == front + [last];
    }
  }

  /** Every default rule is clean. */
  lemma DefaultsClean()
    ensures forall d :: d in DefaultRules() ==> CleanRule(d)
  {
    forall d | d in DefaultRules() ensures CleanRule(d) {
      TrimOfTrimmed(d.typeFqn);
      TrimOfTrimmed(d.expression);
    }
  }

  /** A validation failure, one kind per check, carrying the offending type. */
  datatype ConfigError =
    | BlankType
    | NotQualified(typeFqn: string)
    | BlankExpression(typeFqn: string)
    | DuplicateType(typeFqn: string)

  /** The text of the `ConfigurationException` thrown for each failure. */
  function Message(e: ConfigError): string {
    match e
    case BlankType => "Type cannot be blank."
    case NotQualified(t) => "Type must be fully-qualified or primitive: " + t
    case BlankExpression(t) => "Mock expression cannot be blank for type: " + t
    case DuplicateType(t) => "Duplicate type mapping for: " + t
  }

  /** A rule passes the three per-rule checks. */
  predicate WellFormedRule(rule: Rule) {
    !IsBlank(rule.typeFqn)
    && ('.' in rule.typeFqn || rule.typeFqn in PrimitiveTypes())
    && !IsBlank(rule.expression)
  }

  /** The checks on one rule, in order: blank type, format, blank expression, duplicate. */
  function CheckRule(rule: Rule, seen: set<string>): (r: Outcome<ConfigError>)
    ensures r == Pass <==> WellFormedRule(rule) && rule.typeFqn !in seen
    ensures IsBlank(rule.typeFqn) ==> r == Fail(BlankType)
    ensures !IsBlank(rule.typeFqn) && '.' !in rule.typeFqn && rule.typeFqn !in PrimitiveTypes()
      ==> r == Fail(NotQualified(rule.typeFqn))
    ensures !IsBlank(rule.typeFqn) && ('.' in rule.typeFqn || rule.typeFqn in PrimitiveTypes()) && IsBlank(rule.expression)
      ==> r == Fail(BlankExpression(rule.typeFqn))
    ensures WellFormedRule(rule) && rule.typeFqn in seen ==> r == Fail(DuplicateType(rule.typeFqn))
  {
    if IsBlank(rule.typeFqn) then Fail(BlankType)
    else if '.' !in rule.typeFqn && rule.typeFqn !in PrimitiveTypes() then Fail(NotQualified(rule.typeFqn))
    else if IsBlank(rule.expression) then Fail(BlankExpression(rule.typeFqn))
    else if rule.typeFqn in seen then Fail(DuplicateType(rule.typeFqn))
    else Pass
  }

  /** `validateRules`: the rules checked in list order; the first failure is the one reported. */
  function CheckRules(rules: seq<Rule>, seen: set<string>): Outcome<ConfigError>
    decreases |rules|
  {
    if rules == [] then Pass
    else
      match CheckRule(rules[0], seen)
      case Fail(e) => Fail(e)
      case Pass => CheckRules(rules[1..], seen + {rules[0].typeFqn})
  }

  /** Every rule is well formed and of a type not in `seen`, and no type repeats. */
  predicate AllValid(rules: seq<Rule>, seen: set<string>) {
    (forall r :: r in rules ==> WellFormedRule(r) && r.typeFqn !in seen) && DistinctTypes(rules)
  }

  /** A valid list has a passing head and a tail that is valid once the head's type is seen. */
  lemma AllValidSplits(rules: seq<Rule>, seen: set<string>)
    requires rules != [] && AllValid(rules, seen)
    ensures CheckRule(rules[0], seen) == Pass && AllValid(rules[1..], seen + {rules[0].typeFqn})
  {
    var head, tail := rules[0], rules[1..];
    assert head in rules;
    forall r | r in tail ensures WellFormedRule(r) && r.typeFqn !in seen + {head.typeFqn} {
      var k :| 0 <= k < |tail| && tail[k] == r;
      assert rules[k + 1] == r;
    }
    forall i, j | 0 <= i < j < |tail| ensures tail[i].typeFqn != tail[j].typeFqn {
      assert tail[i] == rules[i + 1] && tail[j] == rules[j + 1];
    }
  }

  /** A passing head followed by a tail valid once the head's type is seen makes a valid list. */
  lemma AllValidJoins(rules: seq<Rule>, seen: set<string>)
    requires rules != [] && CheckRule(rules[0], seen) == Pass && AllValid(rules[1..], seen + {rules[0].typeFqn})
    ensures AllValid(rules, seen)
  {
    var head, tail := rules[0], rules[1..];
    forall r | r in rules ensures WellFormedRule(r) && r.typeFqn !in seen {
      var k :| 0 <= k < |rules| && rules[k] == r;
      if k > 0 {
        assert tail[k - 1] == r;
      }
    }
    forall i, j | 0 <= i < j < |rules| ensures rules[i].typeFqn != rules[j].typeFqn {
      assert rules[j] == tail[j - 1];
      if i > 0 {
        assert rules[i] == tail[i - 1];
      } else {
        assert tail[j - 1] in tail;
      }
    }
  }

  /** Validation passes exactly when every rule is well formed and no type repeats or was seen before. */
  lemma {:induction false} CheckRulesPassIff(rules: seq<Rule>, seen: set<string>)
    ensures CheckRules(rules, seen) == Pass <==> AllValid(rules, seen)
    decreases |rules|
  {
    if rules != [] {
      CheckRulesPassIff(rules[1..], seen + {rules[0].typeFqn});
      if AllValid(rules, seen) {
        AllValidSplits(rules, seen);
      }
      if CheckRules(rules, seen) == Pass {
        AllValidJoins(rules, seen);
      }
    }
  }

  /**
   * A failure is the first violation: every rule before position `i` passes,
   * and the error is what the checks report on rule `i` given the types before it.
   */
  lemma {:induction false} FirstViolation(rules: seq<Rule>, seen: set<string>) returns (i: nat)
    requires CheckRules(rules, seen).Fail?
    ensures i < |rules|
    ensures CheckRules(rules[..i], seen) == Pass
    ensures CheckRule(rules[i], seen + TypeSet(rules[..i])) == CheckRules(rules, seen)
    decreases |rules|
  {
    var head, tail := rules[0], rules[1..];
    if CheckRule(head, seen).Fail? {
      i := 0;
      assert rules[..0] == [];
    } else {
      var k := FirstViolation(tail, seen + {head.typeFqn});
      i := k + 1;
      assert rules[..i][1..] == tail[..k];
      assert rules[..i] == [head] + tail[..k];
      assert TypeSet(rules[..i]) == {head.typeFqn} + TypeSet(tail[..k]) by {
        forall x | x in rules[..i] ensures x == head || x in tail[..k] {}
        assert head in rules[..i];
        forall x | x in tail[..k] ensures x in rules[..i] {}
      }
      assert seen + TypeSet(rules[..i]) == seen + {head.typeFqn} + TypeSet(tail[..k]);
    }
  }

  /** Rules whose types are primitive or dotted, with non-blank expressions and distinct types, pass validation. */
  lemma QualifiedRulesPass(rules: seq<Rule>)
    requires forall d :: d in rules ==>
      (d.typeFqn in PrimitiveTypes() || '.' in d.typeFqn) && !IsBlank(d.expression)
    requires DistinctTypes(rules)
    ensures CheckRules(rules, {}) == Pass
  {
    forall d | d in rules ensures WellFormedRule(d) {
      if d.typeFqn in PrimitiveTypes() {
        assert d.typeFqn != [] && !IsWhitespace(d.typeFqn[0]);
      } else {
        var k :| 0 <= k < |d.typeFqn| && d.typeFqn[k] == '.';
        assert !IsWhitespace(d.typeFqn[k]);
      }
    }
    CheckRulesPassIff(rules, {});
  }

  /** The built-in defaults pass validation. */
  lemma DefaultsPassValidation()
    ensures CheckRules(DefaultRules(), {}) == Pass
  {
    DefaultsWellFormed();
    DefaultTypesDistinct();
    QualifiedRulesPass(DefaultRules());
  }

  /** `validateRules`: walks the rules once, growing the set of seen types; stops at the first violation. */
  method ValidateRules(rules: seq<Rule>) returns (outcome: Outcome<ConfigError>)
    ensures outcome == CheckRules(rules, {})
  {
    var seen: set<string> := {};
    var i := 0;
    while i < |rules|
      invariant 0 <= i <= |rules|
      invariant seen == TypeSet(rules[..i])
      invariant CheckRules(rules, {}) == CheckRules(rules[i..], seen)
    {
      var rule := rules[i];
      assert rules[i..][1..] == rules[i + 1..];
      assert rules[..i + 1] == rules[..i] + [rule];
      TypeSetAppend(rules[..i], rule);
      if IsBlank(rule.typeFqn) {
        return Fail(BlankType);
      }
      if '.' !in rule.typeFqn && rule.typeFqn !in PrimitiveTypes() {
        return Fail(NotQualified(rule.typeFqn));
      }
      if IsBlank(rule.expression) {
        return Fail(BlankExpression(rule.typeFqn));
      }
      if rule.typeFqn in seen {
        return Fail(DuplicateType(rule.typeFqn));
      }
      seen := seen + {rule.typeFqn};
      i := i + 1;
    }
    return Pass;
  }

  /** The rows that remain once the rows at the selected indices are gone (indices counted from `offset`). */
  function Unselected(rows: seq<Row>, selected: set<int>, offset: int): seq<Row>
    decreases |rows|
  {
    if rows == [] then []
    else (if offset in selected then [] else [rows[0]]) + Unselected(rows[1..], selected, offset + 1)
  }

  /** Rows before the first selected index survive unchanged. */
  lemma {:induction false} UnselectedPrefix(rows: seq<Row>, selected: set<int>, offset: int, x: nat)
    requires x <= |rows|
    requires forall y :: y in selected ==> !(offset <= y < offset + x)
    ensures Unselected(rows, selected, offset) == rows[..x] + Unselected(rows[x..], selected, offset + x)
    decreases x
  {
    if x > 0 {
      UnselectedPrefix(rows[1..], selected, offset + 1, x - 1);
      assert rows[1..][x - 1..] == rows[x..];
      assert rows[..x] == [rows[0]] + rows[1..][..x - 1];
    }
  }

  /** An index below the offset never affects what remains. */
  lemma {:induction false} UnselectedIgnores(rows: seq<Row>, selected: set<int>, offset: int, y: int)
    requires y < offset
    ensures Unselected(rows, selected + {y}, offset) == Unselected(rows, selected, offset)
    decreases |rows|
  {
    if rows != [] {
      UnselectedIgnores(rows[1..], selected, offset + 1, y);
    }
  }

  /**
   * Removing row `x` from what remains after removing only higher rows is
   * the same as removing `x` together with them: why the remove action
   * deletes the selected rows from the highest index down.
   */
  lemma RemoveBelowRemoved(rows: seq<Row>, removed: set<int>, x: nat)
    requires x < |rows| && x !in removed
    requires forall y :: y in removed ==> y > x
    ensures |Unselected(rows, removed, 0)| > x
    ensures Unselected(rows, removed + {x}, 0) ==
      Unselected(rows, removed, 0)[..x] + Unselected(rows, removed, 0)[x + 1..]
  {
    UnselectedPrefix(rows, removed, 0, x);
    UnselectedPrefix(rows, removed + {x}, 0, x);
    var front, tail := rows[..x], rows[x..];
    assert tail[1..] == rows[x + 1..];
    var rest := Unselected(rows[x + 1..], removed, x + 1);
    UnselectedIgnores(rows[x + 1..], removed, x + 1, x);
    assert Unselected(tail, removed, x) == [rows[x]] + rest;
    assert Unselected(tail, removed + {x}, x) == rest;
    SpliceOut(front, rows[x], rest);
  }

  /** Cutting the element at `|a|` out of `a + [e] + b` leaves `a` and `b`. */
  lemma SpliceOut<T>(a: seq<T>, e: T, b: seq<T>)
    ensures a + ([e] + b) == a + [e] + b
    ensures (a + [e] + b)[..|a|] == a && (a + [e] + b)[|a| + 1..] == b
  {
  }

  /** The settings page: the table rows and the rule store it edits. */
  class MockingConfigurable {
    var rows: seq<Row>
    const service: MockingSettingsService

    /** `createComponent`: an empty table, then `reset`. */
    constructor (service: MockingSettingsService)
      modifies service
      ensures this.service == service
      ensures service.rules == WithDefaults(old(service.rules))
      ensures rows == ResetRows(service.rules)
    {
      this.service := service;
      rows := [];
      new;
      Reset();
    }

    /** `readRulesFromTable`: one pass over the rows, trimming and skipping fully empty rows. */
    method ReadRulesFromTable() returns (rules: seq<Rule>)
      ensures rules == RulesFromRows(rows)
      ensures forall r :: r in rules ==> CleanRule(r)
    {
      rules := [];
      var row := 0;
      while row < |rows|
        invariant 0 <= row <= |rows|
        invariant rules == RulesFromRows(rows[..row])
      {
        assert rows[..row + 1][..row] == rows[..row];
        var typ := Trim(rows[row].typeCell);
        var expression := Trim(rows[row].expressionCell);
        if !(typ == [] && expression == []) {
          rules := rules + [Rule(typ, expression)];
        }
        row := row + 1;
      }
      assert rows[..row] == rows;
      RulesFromRowsClean(rows);
    }

    /** The add action: appends a blank row. */
    method AddRow()
      modifies this
      ensures rows == old(rows) + [BLANK_ROW]
    {
      rows := rows + [BLANK_ROW];
    }

    /**
     * The remove action: deletes the selected rows, highest index first, then
     * adds a blank row if the table became empty. `selected` is what the table
     * reports: distinct indices of existing rows.
     */
    method RemoveSelected(selected: seq<int>)
      requires forall k :: 0 <= k < |selected| ==> 0 <= selected[k] < |rows|
      requires forall i, j :: 0 <= i < j < |selected| ==> selected[i] != selected[j]
      modifies this
      ensures var kept := Unselected(old(rows), set k | k in selected, 0);
        rows == if kept == [] then [BLANK_ROW] else kept
      ensures |rows| >= 1
    {
      var order := Sequences.SortDescending(selected, (x: int) => x);
      DescendingOrder(selected, order);
      SameIndices(selected, order, |rows|);
      RemoveInOrder(order);
      if |rows| == 0 {
        rows := rows + [BLANK_ROW];
      }
    }

    /** Deletes the rows at the given indices, taken from the highest down so that no index shifts. */
    method RemoveInOrder(order: seq<int>)
      requires forall k :: 0 <= k < |order| ==> 0 <= order[k] < |rows|
      requires forall p, q :: 0 <= p < q < |order| ==> order[p] > order[q]
      modifies this
      ensures rows == Unselected(old(rows), set k | k in order, 0)
    {
      ghost var original := rows;
      ghost var removed: set<int> := {};
      UnselectedPrefix(rows, removed, 0, |rows|);
      assert rows[..|rows|] == rows && rows[|rows|..] == [];
      var j := 0;
      while j < |order|
        invariant 0 <= j <= |order|
        invariant forall y :: y in removed <==> y in order[..j]
        invariant rows == Unselected(original, removed, 0)
      {
        var x := order[j];
        assert x in removed <==> x in order[..j];
        RemoveBelowRemoved(original, removed, x);
        rows := rows[..x] + rows[x + 1..];
        assert order[..j + 1] == order[..j] + [x];
        removed := removed + {x};
        j := j + 1;
      }
      assert order[..j] == order;
      forall y ensures y in removed <==> y in (set k | k in order) {
        assert y in removed <==> y in order[..j];
      }
      assert removed == set k | k in order;
    }

    /** `isModified`: the table's rules differ from the saved (back-filled) rules. */
    method IsModified() returns (modified: bool)
      modifies service
      ensures service.rules == WithDefaults(old(service.rules))
      ensures modified <==> RulesFromRows(rows) != service.rules
    {
      var current := ReadRulesFromTable();
      var saved := service.GetRules();
      modified := current != saved;
    }

    /** `apply`: reads and validates the table; only a passing list is stored, verbatim. */
    method Apply() returns (outcome: Outcome<ConfigError>)
      modifies service
      ensures outcome == CheckRules(RulesFromRows(rows), {})
      ensures outcome.Pass? ==> service.rules == RulesFromRows(rows)
      ensures outcome.Fail? ==> service.rules == old(service.rules)
    {
      var rules := ReadRulesFromTable();
      outcome := ValidateRules(rules);
      if outcome.Pass? {
        service.SetRules(rules);
      }
    }

    /** `reset`: refills the table from the saved rules; a single blank row when there are none. */
    method Reset()
      modifies this, service
      ensures service.rules == WithDefaults(old(service.rules))
      ensures rows == ResetRows(service.rules)
    {
      var saved := service.GetRules();
      FillRows(saved);
    }

    /** The table part of `reset`: cleared, one row per rule added in order, then a blank row if it is empty. */
    method FillRows(saved: seq<Rule>)
      modifies this
      ensures rows == ResetRows(saved)
    {
      rows := [];
      var i := 0;
      while i < |saved|
        invariant 0 <= i <= |saved|
        invariant rows == RuleRows(saved[..i])
      {
        ghost var next := saved[..i + 1];
        assert next[..i] == saved[..i] && next[i] == saved[i];
        rows := rows + [RuleRow(saved[i])];
        i := i + 1;
      }
      assert saved[..i] == saved;
      if |rows| == 0 {
        rows := rows + [BLANK_ROW];
      }
    }
  }

  /**
   * The removal order: a permutation of the selected indices, each one in range
   * and strictly below every index removed before it.
   */
  lemma DescendingOrder(selected: seq<int>, order: seq<int>)
    requires multiset(order) == multiset(selected)
    requires Sequences.SortedDescending(order, (x: int) => x)
    requires forall a, b :: 0 <= a < b < |selected| ==> selected[a] != selected[b]
    ensures forall p, q :: 0 <= p < q < |order| ==> order[p] > order[q]
  {
    forall p, q | 0 <= p < q < |order| ensures order[p] > order[q] {
      assert ((x: int) => x)(order[p]) >= ((x: int) => x)(order[q]);
      DistinctOrderDistinct(selected, order, p, q);
    }
  }

  /** A permutation of in-range indices is in range and selects the same set of indices. */
  lemma SameIndices(selected: seq<int>, order: seq<int>, n: int)
    requires multiset(order) == multiset(selected)
    requires forall k :: 0 <= k < |selected| ==> 0 <= selected[k] < n
    ensures forall k :: 0 <= k < |order| ==> 0 <= order[k] < n
    ensures (set k | k in order) == (set k | k in selected)
  {
    forall k | 0 <= k < |order| ensures 0 <= order[k] < n {
      assert order[k] in multiset(order);
    }
    forall k ensures k in order <==> k in selected {
      assert k in order <==> k in multiset(order);
      assert k in selected <==> k in multiset(selected);
    }
  }

  /** Two positions of a permutation of a duplicate-free sequence hold different values. */
  lemma DistinctOrderDistinct(selected: seq<int>, order: seq<int>, p: nat, j: nat)
    requires multiset(order) == multiset(selected)
    requires forall a, b :: 0 <= a < b < |selected| ==> selected[a] != selected[b]
    requires p < j < |order|
    ensures order[p] != order[j]
  {
    if order[p] == order[j] {
      var v := order[p];
      assert multiset(order)[v] >= 2 by {
        assert order == order[..p] + [v] + order[p + 1..j] + [v] + order[j + 1..];
      }
      MultiplicityAtMostOne(selected, v);
    }
  }

  /** In a duplicate-free sequence every value occurs at most once. */
  lemma {:induction false} MultiplicityAtMostOne(s: seq<int>, v: int)
    requires forall a, b :: 0 <= a < b < |s| ==> s[a] != s[b]
    ensures multiset(s)[v] <= 1
    decreases |s|
  {
    if s != [] {
      MultiplicityAtMostOne(s[1..], v);
      assert s == [s[0]] + s[1..];
      if s[0] == v {
        assert v !in s[1..] by {
          forall k | 0 <= k < |s[1..]| ensures s[1..][k] != v { assert s[1..][k] == s[k + 1]; }
        }
      }
    }
  }

  /**
   * Right after a successful apply, a reset shows the stored rules plus any
   * back-filled defaults, and the form then reads as unmodified.
   */
  lemma ApplyThenResetUnmodified(rows: seq<Row>)
    requires CheckRules(RulesFromRows(rows), {}) == Pass
    ensures var saved := WithDefaults(RulesFromRows(rows));
      RulesFromRows(ResetRows(saved)) == saved
  {
    var applied := RulesFromRows(rows);
    var saved := WithDefaults(applied);
    RulesFromRowsClean(rows);
    DefaultsClean();
    BackfillAddsOnlyMissing(DefaultRules(), TypeSet(applied));
    forall r | r in saved ensures CleanRule(r) {
      if r !in applied {
        assert r in Backfill(DefaultRules(), TypeSet(applied));
      }
    }
    if saved == [] {
      assert RulesFromRows([BLANK_ROW]) == [] by { RulesFromOneRow(BLANK_ROW); }
    } else {
      RuleRowsRoundTrip(saved);
    }
  }

  /**
   * A successful apply of a table that lacks a default type still leaves the
   * form modified: the next read back-fills that default, which the table lacks.
   */
  lemma ApplyWithoutDefaultStaysModified(rows: seq<Row>, d: Rule)
    requires d in DefaultRules() && d.typeFqn !in TypeSet(RulesFromRows(rows))
    ensures RulesFromRows(rows) != WithDefaults(RulesFromRows(rows))
  {
    WithDefaultsShape(RulesFromRows(rows));
  }

  /** A rule with a blank type stops validation with the blank-type error, whatever follows it. */
  lemma BlankTypeRejected(rule: Rule, rest: seq<Rule>, seen: set<string>)
    requires IsBlank(rule.typeFqn)
    ensures CheckRules([rule] + rest, seen) == Fail(BlankType)
  {
  }

  /**
   * A well-formed rule whose type an earlier well-formed rule already
   * mapped is reported as a duplicate of that type.
   */
  lemma DuplicateTypeRejected(first: Rule, second: Rule, rest: seq<Rule>, seen: set<string>)
    requires WellFormedRule(first) && WellFormedRule(second)
    requires first.typeFqn == second.typeFqn && first.typeFqn !in seen
    ensures CheckRules([first, second] + rest, seen) == Fail(DuplicateType(first.typeFqn))
  {
    assert ([first, second] + rest)[1..] == [second] + rest;
  }
}
