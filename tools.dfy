/** The two structured lookup tools of the onboarding agent: employee lookup
    over the org chart and role-requirements lookup over the role catalog.
    Both read their data file afresh on every call; a missing file reads as
    an empty list. Results are records rather than JSON text. */
module Tools {
  import opened Wrappers
  import opened Text

  datatype Employee = Employee(
    employeeId: string,
    name: string,
    title: string,
    roleId: string,
    managerId: Option<string>,
    location: string,
    email: string)

  datatype Role = Role(
    roleId: string,
    title: string,
    requiredTools: seq<string>,
    permissions: seq<string>,
    firstWeekGoals: seq<string>)

  /** What a tool hands back to the agent: the matching records, or a
      message saying nothing matched. */
  datatype Lookup<T> = Found(records: seq<T>) | NotFound(message: string)

  /** Reading a structured data file: `None` stands for a file that does not
      exist, which reads as no records at all. */
  function LoadRecords<T>(file: Option<seq<T>>): (records: seq<T>)
    ensures file.None? ==> records == []
    ensures file.Some? ==> records == file.value
  {
    file.GetOr([])
  }

  // ---------------------------------------------------------------------
  // Employee lookup

  /** The text an employee is searched by: name, title and role id, joined
      by spaces and lower-cased. */
  function SearchText(e: Employee): string
  {
    Lower(e.name + " " + e.title + " " + e.roleId)
  }

  /** Every token occurs somewhere in `text` as a substring. */
  predicate AllTokensIn(tokens: seq<string>, text: string)
  {
    forall k :: 0 <= k < |tokens| ==> Contains(text, tokens[k])
  }

  /** The query, lower-cased, equals the employee's lower-cased id. */
  predicate IdMatches(query: string, e: Employee)
  {
    Lower(query) == Lower(e.employeeId)
  }

  /** Each whitespace-separated token of the lower-cased query occurs in the
      employee's search text. */
  predicate TextMatches(query: string, e: Employee)
  {
    AllTokensIn(Split(Lower(query)), SearchText(e))
  }

  /** The rule an employee is selected by. A query that is empty or all
      whitespace has no tokens, so it selects every employee. */
  predicate EmployeeMatches(query: string, e: Employee)
    ensures AllSpace(query) ==> EmployeeMatches(query, e)
  {
    assert AllSpace(query) ==> AllSpace(Lower(query));
    SplitEmptyIffBlank(Lower(query));
    IdMatches(query, e) || TextMatches(query, e)
  }

  /** The selected employees, in directory order: never more than the
      directory holds, and each one a directory entry the rule selects. */
  function MatchingEmployees(employees: seq<Employee>, query: string): (matches: seq<Employee>)
    ensures |matches| <= |employees|
    ensures forall k :: 0 <= k < |matches| ==> matches[k] in employees && EmployeeMatches(query, matches[k])
    decreases |employees|
  {
    if employees == [] then []
    else
      var n := |employees| - 1;
      MatchingEmployees(employees[..n], query)
        + (if EmployeeMatches(query, employees[n]) then [employees[n]] else [])
  }

  /** The directory positions whose employee is selected, in increasing order. */
  function MatchPositions(employees: seq<Employee>, query: string): seq<int>
    decreases |employees|
  {
    if employees == [] then []
    else
      var n := |employees| - 1;
      MatchPositions(employees[..n], query)
        + (if EmployeeMatches(query, employees[n]) then [n] else [])
  }

  function EmployeeNotFound(query: string): string
  {
    "No employee found matching '" + query + "'. Try using just the first name or exact role title."
  }

  /** What `lookup_employee` answers for a given org-chart file and query. */
  function EmployeeLookup(orgChart: Option<seq<Employee>>, query: string): Lookup<Employee>
  {
    var matches := MatchingEmployees(LoadRecords(orgChart), query);
    if matches == [] then NotFound(EmployeeNotFound(query)) else Found(matches)
  }

  /** `lookup_employee`: one pass over the directory, appending each employee
      whose id equals the query case-insensitively, or else whose search text
      holds every query token. An id match does not end the pass. */
  method LookupEmployee(orgChart: Option<seq<Employee>>, query: string) returns (r: Lookup<Employee>)
    ensures r == EmployeeLookup(orgChart, query)
  {
    var employees := LoadRecords(orgChart);
    var lowered := Lower(query);
    var queryParts := Split(lowered);
    var matches: seq<Employee> := [];
    for i := 0 to |employees|
      invariant matches == MatchingEmployees(employees[..i], query)
    {
      var emp := employees[i];
      assert employees[..i + 1][..i] == employees[..i];
      if lowered == Lower(emp.employeeId) {
        matches := matches + [emp];
        continue;
      }
      var empText := SearchText(emp);
      if AllTokensIn(queryParts, empText) {
        matches := matches + [emp];
      }
    }
    assert employees[..|employees|] == employees;
    if matches == [] {
      return NotFound(EmployeeNotFound(query));
    }
    return Found(matches);
  }

  /** The matches are exactly the selected directory entries, taken in
      increasing position order, each position at most once. */
  lemma MatchesAreSelectedPositions(employees: seq<Employee>, query: string)
    ensures var matches, pos := MatchingEmployees(employees, query), MatchPositions(employees, query);
      && |pos| == |matches|
      && (forall k :: 0 <= k < |pos| ==> 0 <= pos[k] < |employees| && matches[k] == employees[pos[k]])
      && (forall k, l :: 0 <= k < l < |pos| ==> pos[k] < pos[l])
      && (forall i :: 0 <= i < |employees| ==> (i in pos <==> EmployeeMatches(query, employees[i])))
  {
    PositionsIndexMatches(employees, query);
    PositionsAreSelected(employees, query);
  }

  lemma {:induction false} PositionsIndexMatches(employees: seq<Employee>, query: string)
    ensures var matches, pos := MatchingEmployees(employees, query), MatchPositions(employees, query);
      && |pos| == |matches|
      && (forall k :: 0 <= k < |pos| ==> 0 <= pos[k] < |employees| && matches[k] == employees[pos[k]])
    decreases |employees|
  {
    if employees != [] {
      var n := |employees| - 1;
      PositionsIndexMatches(employees[..n], query);
      var pre, m := MatchPositions(employees[..n], query), MatchingEmployees(employees[..n], query);
      var sel := EmployeeMatches(query, employees[n]);
      var pos, matches := MatchPositions(employees, query), MatchingEmployees(employees, query);
      assert pos == pre + (if sel then [n] else []);
      assert matches == m + (if sel then [employees[n]] else []);
      forall k | 0 <= k < |pos| ensures 0 <= pos[k] < |employees| && matches[k] == employees[pos[k]] {
        if k < |pre| {
          assert pos[k] == pre[k] && matches[k] == m[k] && employees[..n][pre[k]] == employees[pre[k]];
        }
      }
    }
  }

  lemma {:induction false} PositionsAreSelected(employees: seq<Employee>, query: string)
    ensures var pos := MatchPositions(employees, query);
      && (forall k :: 0 <= k < |pos| ==> 0 <= pos[k] < |employees|)
      && (forall k, l :: 0 <= k < l < |pos| ==> pos[k] < pos[l])
      && (forall i :: 0 <= i < |employees| ==> (i in pos <==> EmployeeMatches(query, employees[i])))
    decreases |employees|
  {
    if employees != [] {
      var n := |employees| - 1;
      PositionsAreSelected(employees[..n], query);
      var pre, pos := MatchPositions(employees[..n], query), MatchPositions(employees, query);
      var tail := if EmployeeMatches(query, employees[n]) then [n] else [];
      assert pos == pre + tail;
      forall k | 0 <= k < |pos| ensures 0 <= pos[k] < |employees| {
        if k < |pre| { assert pos[k] == pre[k]; }
      }
      forall k, l | 0 <= k < l < |pos| ensures pos[k] < pos[l] {
        assert pos[k] == pre[k];
        if l < |pre| { assert pos[l] == pre[l]; }
      }
      forall i | 0 <= i < |employees|
        ensures (i in pos) <==> EmployeeMatches(query, employees[i])
      {
        if i < n {
          assert employees[..n][i] == employees[i];
          assert (i in pos) <==> (i in pre);
        } else {
          assert n !in pre;
        }
      }
    }
  }

  /** An employee is in the result exactly when it is in the directory and
      the selection rule holds for it. */
  lemma {:induction false} MatchingEmployeesMembership(employees: seq<Employee>, query: string, e: Employee)
    ensures e in MatchingEmployees(employees, query) <==> e in employees && EmployeeMatches(query, e)
    decreases |employees|
  {
    if employees != [] {
      var n := |employees| - 1;
      MatchingEmployeesMembership(employees[..n], query, e);
      assert employees == employees[..n] + [employees[n]];
    }
  }

  /** Each directory entry is reported as often as it occurs in the
      directory if it is selected, and never otherwise: no duplicates are
      introduced. */
  lemma {:induction false} MatchingEmployeesOccurrences(employees: seq<Employee>, query: string, e: Employee)
    ensures multiset(MatchingEmployees(employees, query))[e]
      == if EmployeeMatches(query, e) then multiset(employees)[e] else 0
    decreases |employees|
  {
    if employees != [] {
      var n := |employees| - 1;
      MatchingEmployeesOccurrences(employees[..n], query, e);
      assert employees == employees[..n] + [employees[n]];
    }
  }

  /** Lookup reports not-found exactly when no employee of the directory is
      selected; a missing org chart therefore always gives not-found. The
      message quotes the query as given. */
  lemma EmployeeNotFoundIff(orgChart: Option<seq<Employee>>, query: string)
    ensures EmployeeLookup(orgChart, query).NotFound?
      <==> forall e :: e in LoadRecords(orgChart) ==> !EmployeeMatches(query, e)
    ensures orgChart.None? ==> EmployeeLookup(orgChart, query).NotFound?
    ensures EmployeeLookup(orgChart, query).NotFound? ==>
      (EmployeeLookup(orgChart, query).message
        == "No employee found matching '" + query + "'. Try using just the first name or exact role title.")
  {
    var employees := LoadRecords(orgChart);
    var matches := MatchingEmployees(employees, query);
    if matches != [] {
      MatchingEmployeesMembership(employees, query, matches[0]);
    } else {
      forall e | e in employees ensures !EmployeeMatches(query, e) {
        MatchingEmployeesMembership(employees, query, e);
      }
    }
  }

  /** Lower-casing distributes over concatenation. */
  lemma LowerConcat(a: string, b: string)
    ensures Lower(a + b) == Lower(a) + Lower(b)
  {
    assert forall i :: 0 <= i < |a + b| ==> Lower(a + b)[i] == (Lower(a) + Lower(b))[i];
  }

  /** Lower-casing a space-joined pair lower-cases each side. */
  lemma LowerSpaceJoin(a: string, b: string)
    ensures Lower(a + " " + b) == Lower(a) + " " + Lower(b)
  {
    LowerConcat(a + " ", b);
    LowerConcat(a, " ");
    assert Lower(" ") == " ";
  }

  /** Every token of a concatenated token list occurs exactly when every
      token of each part does. */
  lemma AllTokensInConcat(ta: seq<string>, tb: seq<string>, text: string)
    ensures AllTokensIn(ta + tb, text) <==> AllTokensIn(ta, text) && AllTokensIn(tb, text)
  {
    if AllTokensIn(ta, text) && AllTokensIn(tb, text) {
      forall k | 0 <= k < |ta + tb| ensures Contains(text, (ta + tb)[k]) {
        if k >= |ta| { assert (ta + tb)[k] == tb[k - |ta|]; }
      }
    }
    if AllTokensIn(ta + tb, text) {
      forall k | 0 <= k < |ta| ensures Contains(text, ta[k]) {
        assert (ta + tb)[k] == ta[k];
      }
      forall k | 0 <= k < |tb| ensures Contains(text, tb[k]) {
        assert (ta + tb)[|ta| + k] == tb[k];
      }
    }
  }

  /** Conjunctive matching: a two-part query matches the search text exactly
      when each part does on its own, so the order of the words does not
      matter and every word must be found. */
  lemma ConjunctiveTextMatch(a: string, b: string, e: Employee)
    ensures TextMatches(a + " " + b, e) <==> TextMatches(a, e) && TextMatches(b, e)
    ensures TextMatches(a + " " + b, e) <==> TextMatches(b + " " + a, e)
  {
    LowerSpaceJoin(a, b);
    LowerSpaceJoin(b, a);
    SplitAtSpace(Lower(a), Lower(b));
    SplitAtSpace(Lower(b), Lower(a));
    AllTokensInConcat(Split(Lower(a)), Split(Lower(b)), SearchText(e));
    AllTokensInConcat(Split(Lower(b)), Split(Lower(a)), SearchText(e));
  }

  /** The selection depends on the query only through its lower-cased form:
      "ENG-042" and "eng-042" select the same employees. */
  lemma {:induction false} QueryCaseIrrelevant(employees: seq<Employee>, query: string)
    ensures MatchingEmployees(employees, Lower(query)) == MatchingEmployees(employees, query)
    decreases |employees|
  {
    LowerIdempotent(query);
    if employees != [] {
      QueryCaseIrrelevant(employees[..|employees| - 1], query);
    }
  }

  /** A query made only of whitespace (the empty query included) has no
      tokens, so every employee of the directory is selected. */
  lemma {:induction false} BlankQuerySelectsEveryone(employees: seq<Employee>, query: string)
    requires AllSpace(query)
    ensures MatchingEmployees(employees, query) == employees
    decreases |employees|
  {
    if employees != [] {
      var n := |employees| - 1;
      BlankQuerySelectsEveryone(employees[..n], query);
      assert EmployeeMatches(query, employees[n]);
      assert employees == employees[..n] + [employees[n]];
    }
  }

  /** When exactly one directory entry is selected, the lookup returns that
      entry alone. */
  lemma {:induction false} SingleSelectedEntry(employees: seq<Employee>, query: string, k: int)
    requires 0 <= k < |employees| && EmployeeMatches(query, employees[k])
    requires forall j :: 0 <= j < |employees| && j != k ==> !EmployeeMatches(query, employees[j])
    ensures MatchingEmployees(employees, query) == [employees[k]]
    decreases |employees|
  {
    var n := |employees| - 1;
    if k < n {
      SingleSelectedEntry(employees[..n], query, k);
    } else {
      NoneSelected(employees[..n], query);
    }
  }

  lemma {:induction false} NoneSelected(employees: seq<Employee>, query: string)
    requires forall j :: 0 <= j < |employees| ==> !EmployeeMatches(query, employees[j])
    ensures MatchingEmployees(employees, query) == []
    decreases |employees|
  {
    if employees != [] {
      NoneSelected(employees[..|employees| - 1], query);
    }
  }

  /** Text with no upper-case letter is its own lower-cased form. */
  lemma LowerKeepsLowercase(s: string)
    requires forall i :: 0 <= i < |s| ==> !IsUpper(s[i])
    ensures Lower(s) == s
  {
  }

  /** An exact id match does not stop the scan: another employee whose
      search text contains the query is returned as well, so a query equal
      to one employee's id can yield two records. */
  lemma ExactIdMatchDoesNotShortCircuit()
    ensures var directory := [
        Employee("ENG-042", "jordan lee", "backend engineer", "eng-be", None, "remote", "jordan@example.com"),
        Employee("ENG-050", "kim park", "lead", "eng-042-lead", None, "remote", "kim@example.com")];
      MatchingEmployees(directory, "eng-042") == directory
  {
    var jordan := Employee("ENG-042", "jordan lee", "backend engineer", "eng-be", None, "remote", "jordan@example.com");
    var kim := Employee("ENG-050", "kim park", "lead", "eng-042-lead", None, "remote", "kim@example.com");
    var directory := [jordan, kim];
    ExampleIdMatch(jordan);
    ExampleTextMatch(kim);
    assert directory[..1] == [jordan];
    assert directory[..1][..0] == [];
  }

  lemma ExampleIdMatch(jordan: Employee)
    requires jordan.employeeId == "ENG-042"
    ensures EmployeeMatches("eng-042", jordan)
  {
    var q := "eng-042";
    LowerKeepsLowercase(q);
    assert Lower("ENG-042") == q;
  }

  lemma ExampleTextMatch(kim: Employee)
    requires kim.name == "kim park" && kim.title == "lead" && kim.roleId == "eng-042-lead"
    ensures TextMatches("eng-042", kim)
  {
    var raw := "kim park lead eng-042-lead";
    assert SearchText(kim) == raw by {
      assert kim.name + " " + kim.title + " " + kim.roleId == raw;
      ExampleSearchText();
    }
    assert Split(Lower("eng-042")) == ["eng-042"] by { ExampleQueryTokens(); }
    assert Contains(raw, "eng-042") by { ExampleContains(); }
  }

  lemma ExampleSearchText()
    ensures Lower("kim park lead eng-042-lead") == "kim park lead eng-042-lead"
  {
    LowerKeepsLowercase("kim park lead eng-042-lead");
  }

  lemma ExampleQueryTokens()
    ensures Split(Lower("eng-042")) == ["eng-042"]
  {
    LowerKeepsLowercase("eng-042");
    SplitWord("eng-042");
  }

  lemma ExampleContains()
    ensures Contains("kim park lead eng-042-lead", "eng-042")
  {
    var raw := "kim park lead eng-042-lead";
    assert raw[14..21] == "eng-042";
    assert OccursAt(raw, "eng-042", 14);
    ContainsAt(raw, "eng-042");
  }

  // ---------------------------------------------------------------------
  // Role requirements lookup

  /** The lower-cased query occurs in the role's lower-cased id or title.
      The empty query occurs in every role. */
  predicate RoleMatches(query: string, role: Role)
    ensures query == "" ==> RoleMatches(query, role)
  {
    Contains(Lower(role.roleId), Lower(query)) || Contains(Lower(role.title), Lower(query))
  }

  /** The catalog position of the first matching role, or `|roles|` when no
      role matches. */
  function FirstMatch(roles: seq<Role>, query: string): (i: nat)
    ensures i <= |roles|
    ensures i < |roles| ==> RoleMatches(query, roles[i])
    ensures forall j :: 0 <= j < i ==> !RoleMatches(query, roles[j])
    decreases |roles|
  {
    if roles == [] then 0
    else if RoleMatches(query, roles[0]) then 0
    else 1 + FirstMatch(roles[1..], query)
  }

  function RoleNotFound(query: string): string
  {
    "No role definition found for '" + query + "'."
  }

  /** `lookup_role_requirements`: the first role in catalog order whose id or
      title contains the query, ignoring case; only that one is returned
      even when later roles match too. */
  function LookupRoleRequirements(catalog: Option<seq<Role>>, query: string): (r: Lookup<Role>)
    ensures r.Found? ==>
      (|r.records| == 1 && r.records[0] in LoadRecords(catalog) && RoleMatches(query, r.records[0]))
    ensures r.NotFound? <==> forall role :: role in LoadRecords(catalog) ==> !RoleMatches(query, role)
    ensures r.NotFound? ==> r.message == "No role definition found for '" + query + "'."
  {
    var roles := LoadRecords(catalog);
    var i := FirstMatch(roles, query);
    if i < |roles| then Found([roles[i]]) else NotFound(RoleNotFound(query))
  }

  /** Catalog order breaks ties: if the role at position `j` matches, the
      returned role sits at or before `j`, and no role before it matches. */
  lemma RoleLookupPrefersEarliest(roles: seq<Role>, query: string, j: int)
    requires 0 <= j < |roles| && RoleMatches(query, roles[j])
    ensures var r := LookupRoleRequirements(Some(roles), query);
      && r.Found?
      && (exists i :: 0 <= i <= j && r.records == [roles[i]]
           && (forall k :: 0 <= k < i ==> !RoleMatches(query, roles[k])))
  {
    var i := FirstMatch(roles, query);
    assert 0 <= i <= j;
  }
}
