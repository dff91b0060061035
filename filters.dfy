/**
 * The table filters the board builds: the free-text search over the
 * selected search fields, the preset filter from the `materials` and
 * `descriptions` properties, and the search field list derived from the
 * catalog. Also the coercion of the `allowCreate`/`allowUpdate` settings.
 */
module Filters {
  import opened Values
  import opened Catalog

  datatype FilterOperator = EQ | Contains

  /** A `sap.ui.model.Filter`: a condition on one path, or a group combined with AND or OR. */
  datatype Filter =
    | Condition(path: FieldId, operator: FilterOperator, value1: string)
    | Group(filters: seq<Filter>, and: bool)

  /** One entry of `/search/fields`. */
  datatype SearchField = SearchField(path: FieldId, searchSelected: bool)

  /** What `onSearch` applies to the table, and whether it warned that nothing can be found. */
  datatype SearchOutcome = SearchOutcome(filters: seq<Filter>, warnedNothingSelected: bool)

  const NothingSelectedWarning: string := "Nothing will be found because no search fields have been selected"

  /** The `filter` and `map` of `onSearch`: one `Contains` condition per selected field, in list order. */
  function FieldFilters(fields: seq<SearchField>, value: string): (r: seq<Filter>)
    ensures |r| <= |fields|
    ensures forall k :: 0 <= k < |r| ==> r[k].Condition? && r[k].operator == Contains && r[k].value1 == value
  {
    if fields == [] then []
    else
      var rest := FieldFilters(fields[1..], value);
      if fields[0].searchSelected then [Condition(fields[0].path, Contains, value)] + rest else rest
  }

  /** Some field of the list with path `p` is selected. */
  predicate Selects(fields: seq<SearchField>, p: FieldId)
  {
    exists i :: 0 <= i < |fields| && fields[i].path == p && fields[i].searchSelected
  }

  /** Some condition of the list is on path `p`. */
  predicate Targets(filters: seq<Filter>, p: FieldId)
  {
    exists k :: 0 <= k < |filters| && filters[k].Condition? && filters[k].path == p
  }

  /** A path is searched exactly when a selected search field has it. */
  lemma FieldFiltersTargets(fields: seq<SearchField>, value: string, p: FieldId)
    ensures Targets(FieldFilters(fields, value), p) <==> Selects(fields, p)
  {
    if Targets(FieldFilters(fields, value), p) {
      TargetedIsSelected(fields, value, p);
    }
    if Selects(fields, p) {
      SelectedIsTargeted(fields, value, p);
    }
  }

  lemma {:induction false} TargetedIsSelected(fields: seq<SearchField>, value: string, p: FieldId)
    requires Targets(FieldFilters(fields, value), p)
    ensures Selects(fields, p)
  {
    var rest := FieldFilters(fields[1..], value);
    var r := FieldFilters(fields, value);
    var k :| 0 <= k < |r| && r[k].Condition? && r[k].path == p;
    if fields[0].searchSelected && k == 0 {
      assert fields[0].path == p;
    } else {
      var k' := if fields[0].searchSelected then k - 1 else k;
      assert rest[k'] == r[k];
      TargetedIsSelected(fields[1..], value, p);
      var i :| 0 <= i < |fields[1..]| && fields[1..][i].path == p && fields[1..][i].searchSelected;
      assert fields[i + 1] == fields[1..][i];
    }
  }

  lemma {:induction false} SelectedIsTargeted(fields: seq<SearchField>, value: string, p: FieldId)
    requires Selects(fields, p)
    ensures Targets(FieldFilters(fields, value), p)
  {
    var rest := FieldFilters(fields[1..], value);
    var r := FieldFilters(fields, value);
    var i :| 0 <= i < |fields| && fields[i].path == p && fields[i].searchSelected;
    if i == 0 {
      assert r[0].path == p;
    } else {
      assert fields[1..][i - 1] == fields[i];
      SelectedIsTargeted(fields[1..], value, p);
      var k :| 0 <= k < |rest| && rest[k].Condition? && rest[k].path == p;
      var k' := if fields[0].searchSelected then k + 1 else k;
      assert r[k'] == rest[k];
    }
  }

  /** The conditions for a concatenation of field lists are the concatenation of their conditions: the order is kept. */
  lemma {:induction false} FieldFiltersAppend(a: seq<SearchField>, b: seq<SearchField>, value: string)
    ensures FieldFilters(a + b, value) == FieldFilters(a, value) + FieldFilters(b, value)
  {
    if a != [] {
      assert (a + b)[1..] == a[1..] + b;
      FieldFiltersAppend(a[1..], b, value);
    } else {
      assert a + b == b;
    }
  }

  /** The number of selected search fields. */
  function SelectedCount(fields: seq<SearchField>): nat
  {
    if fields == [] then 0 else (if fields[0].searchSelected then 1 else 0) + SelectedCount(fields[1..])
  }

  lemma {:induction false} FieldFiltersCount(fields: seq<SearchField>, value: string)
    ensures |FieldFilters(fields, value)| == SelectedCount(fields)
  {
    if fields != [] {
      FieldFiltersCount(fields[1..], value);
    }
  }

  /** `onSearch` with the search fields and the search value of the view model. */
  function OnSearch(fields: seq<SearchField>, searchValue: string): (outcome: SearchOutcome)
    ensures searchValue == "" ==> outcome == SearchOutcome([], false)
    ensures searchValue != "" ==>
      && |outcome.filters| == 1
      && outcome.filters[0] == Group(FieldFilters(fields, searchValue), false)
      && (outcome.warnedNothingSelected <==> SelectedCount(fields) == 0)
  {
    var allFilters := [];
    if searchValue != "" then
      var fieldFilters := FieldFilters(fields, searchValue);
      FieldFiltersCount(fields, searchValue);
      SearchOutcome(allFilters + [Group(fieldFilters, false)], |fieldFilters| == 0)
    else SearchOutcome(allFilters, false)
  }

  /** `_initSearchFields`: every searchable field of the catalog, in declaration order, selected. */
  function InitSearchFields(): (fields: seq<SearchField>)
    ensures |fields| == |SearchableFields|
    ensures forall i :: 0 <= i < |fields| ==> fields[i] == SearchField(SearchableFields[i], true)
  {
    seq(|SearchableFields|, i requires 0 <= i < |SearchableFields| => SearchField(SearchableFields[i], true))
  }

  /**
   * Searching "x" right after start-up gives one OR group holding a
   * `Contains "x"` condition on each searchable field, in catalog order:
   * material, description, order id, contact and supplier.
   */
  lemma InitialSearch(value: string)
    requires value != ""
    ensures OnSearch(InitSearchFields(), value).filters == [Group([
      Condition(Material, Contains, value),
      Condition(Description, Contains, value),
      Condition(ObjectKey, Contains, value),
      Condition(EnteredByName, Contains, value),
      Condition(SupplierName, Contains, value)], false)]
    ensures !OnSearch(InitSearchFields(), value).warnedNothingSelected
  {
    var fs := InitSearchFields();
    assert fs == [SearchField(Material, true), SearchField(Description, true), SearchField(ObjectKey, true),
                  SearchField(EnteredByName, true), SearchField(SupplierName, true)];
    assert FieldFilters(fs[5..], value) == [];
    assert FieldFilters(fs[4..], value) == [Condition(SupplierName, Contains, value)] by {
      assert fs[4..][1..] == fs[5..];
    }
    assert FieldFilters(fs[3..], value) == [Condition(EnteredByName, Contains, value)] + FieldFilters(fs[4..], value) by {
      assert fs[3..][1..] == fs[4..];
    }
    assert FieldFilters(fs[2..], value) == [Condition(ObjectKey, Contains, value)] + FieldFilters(fs[3..], value) by {
      assert fs[2..][1..] == fs[3..];
    }
    assert FieldFilters(fs[1..], value) == [Condition(Description, Contains, value)] + FieldFilters(fs[2..], value) by {
      assert fs[1..][1..] == fs[2..];
    }
    assert FieldFilters(fs, value) == [Condition(Material, Contains, value)] + FieldFilters(fs[1..], value);
    assert FieldFilters(fs, value) == [
      Condition(Material, Contains, value),
      Condition(Description, Contains, value),
      Condition(ObjectKey, Contains, value),
      Condition(EnteredByName, Contains, value),
      Condition(SupplierName, Contains, value)];
    FieldFiltersCount(fs, value);
  }

  /** Right after start-up a path is searched exactly when the catalog flags it `canSearch`. */
  lemma InitialSearchFieldsAreSearchable(p: FieldId)
    ensures Selects(InitSearchFields(), p) <==> Meta(p).canSearch
  {
    SearchableFieldsAreCanSearch();
    var fs := InitSearchFields();
    if Meta(p).canSearch {
      var i :| 0 <= i < |SearchableFields| && SearchableFields[i] == p;
      assert fs[i].path == p && fs[i].searchSelected;
    }
  }

  /** The preset filter of `_filterTableByProps`, and the search permission it switches off. */
  datatype PropsFilter = PropsFilter(allowSearch: bool, filters: seq<Filter>)

  function EqualityFilters(path: FieldId, values: seq<string>): (r: seq<Filter>)
    ensures |r| == |values|
    ensures forall i :: 0 <= i < |values| ==> r[i] == Condition(path, EQ, values[i])
  {
    seq(|values|, i requires 0 <= i < |values| => Condition(path, EQ, values[i]))
  }

  /**
   * `_filterTableByProps`: search is switched off and the table gets a
   * single OR group of `EQ` conditions, first one per material number,
   * then one per description.
   */
  function FilterTableByProps(materials: seq<string>, descriptions: seq<string>): (r: PropsFilter)
    ensures !r.allowSearch && |r.filters| == 1 && r.filters[0].Group? && !r.filters[0].and
    ensures var group := r.filters[0].filters;
      && |group| == |materials| + |descriptions|
      && (forall i :: 0 <= i < |materials| ==> group[i] == Condition(Material, EQ, materials[i]))
      && (forall j :: |materials| <= j < |group| ==>
            group[j] == Condition(Description, EQ, descriptions[j - |materials|]))
  {
    var materialFilters := EqualityFilters(Material, materials);
    var descriptionFilters := EqualityFilters(Description, descriptions);
    var group := materialFilters + descriptionFilters;
    assert forall j :: |materials| <= j < |group| ==> group[j] == descriptionFilters[j - |materials|];
    PropsFilter(false, [Group(group, false)])
  }

  /** `setAllowCreate` / `setAllowUpdate`: the setting is on only for the boolean `true` or the string "true". */
  function AllowSetting(allow: Value): (allowed: bool)
    ensures allowed ==> Truthy(allow)
    ensures allow.Str? ==> (allowed <==> allow.s == "true")
    ensures allow.Bool? ==> (allowed <==> allow.b)
    ensures allow.Num? || allow.Null? || allow.Undefined? ==> !allowed
  {
    allow == Str("true") || allow == Bool(true)
  }
}
