/**
 * The field catalog of the urgent board (`viewModelData.fields`) and the
 * initial view-model state: which record fields can be searched and
 * sorted, the field that carries an initial sort position, the initial
 * value of each create-form field and the predicates that decide whether a
 * field is required for the record being created.
 */
module Catalog {
  import opened Values

  /** The keys of `viewModelData.fields`. */
  datatype FieldId =
    | Material
    | Description
    | Type
    | ObjectKey
    | Line
    | Quantity
    | UnlimitedQuantity
    | QuantityIssued
    | Uom
    | DueDate
    | DeliverTo
    | Comments
    | EnteredByName
    | SupplierName

  /** The declaration order of the catalog, which is the order `for ... in` and `Object.entries` visit. */
  const FieldOrder: seq<FieldId> := [
    Material, Description, Type, ObjectKey, Line, Quantity, UnlimitedQuantity,
    QuantityIssued, Uom, DueDate, DeliverTo, Comments, EnteredByName, SupplierName
  ]

  /** The flags and initial value of a catalog entry (a missing flag reads as false). */
  datatype FieldMeta = FieldMeta(
    initialValue: Value,
    noValueState: bool,
    canSearch: bool,
    canSort: bool,
    initialSortPosition: Option<int>)

  function Meta(f: FieldId): FieldMeta
  {
    match f
    case Material => FieldMeta(Str(""), false, true, true, Some(0))
    case Description => FieldMeta(Str(""), false, true, true, None)
    case Type => FieldMeta(Str(""), true, false, true, None)
    case ObjectKey => FieldMeta(Str(""), false, true, true, None)
    case Line => FieldMeta(Str(""), false, false, true, None)
    case Quantity => FieldMeta(Null, false, false, true, None)
    case UnlimitedQuantity => FieldMeta(Bool(false), false, false, false, None)
    case QuantityIssued => FieldMeta(Str("0"), false, false, false, None)
    case Uom => FieldMeta(Str("EA"), false, false, false, None)
    case DueDate => FieldMeta(Null, false, false, true, None)
    case DeliverTo => FieldMeta(Str(""), false, false, true, None)
    case Comments => FieldMeta(Str(""), false, false, false, None)
    case EnteredByName => FieldMeta(Str(""), false, true, true, None)
    case SupplierName => FieldMeta(Str(""), false, true, false, None)
  }

  /** The `label` of each catalog entry, in declaration order. */
  const Labels: seq<string> := [
    "Part Number", "Part Description", "Order type", "Order id", "Item id", "Quantity required",
    "Unlimited", "Quantity issued", "Unit of measure", "Due date", "Deliver to", "Comments",
    "Contact", "Supplier"
  ]

  /** The `label` of a catalog entry. */
  function Label(f: FieldId): string
  {
    Labels[Position(f)]
  }

  /** Property access on a record of field values: a missing key reads as `undefined`. */
  function Get(item: map<FieldId, Value>, f: FieldId): Value
  {
    if f in item then item[f] else Undefined
  }

  /**
   * The `required` entry of each field, evaluated on the values of the
   * record being created: a predicate for material, description, objectkey
   * and quantity, the flag `true` for uom, and `false` or absent elsewhere.
   */
  predicate Required(f: FieldId, item: map<FieldId, Value>)
  {
    match f
    case Material => !Truthy(Get(item, Description))
    case Description => !Truthy(Get(item, Material))
    case ObjectKey => Get(item, Type) != Str("")
    case Quantity => !Truthy(Get(item, UnlimitedQuantity))
    case Uom => true
    case _ => false
  }

  /** The sortable fields in declaration order: what `_initSortFields` keeps before ordering them. */
  const SortableFields: seq<FieldId> :=
    [Material, Description, Type, ObjectKey, Line, Quantity, DueDate, DeliverTo, EnteredByName]

  /**
   * `order` has as many entries as there are sortable fields, each of them
   * sortable; without repeats it lists the sortable fields in some order.
   */
  predicate IsSortableOrder(order: seq<FieldId>)
  {
    |order| == |SortableFields| && forall i :: 0 <= i < |order| ==> Meta(order[i]).canSort
  }

  /** The searchable fields in declaration order: what `_initSearchFields` keeps. */
  const SearchableFields: seq<FieldId> :=
    [Material, Description, ObjectKey, EnteredByName, SupplierName]

  /** `fs` lists fields in strictly increasing declaration order. */
  predicate InDeclarationOrder(fs: seq<FieldId>)
  {
    forall i :: 0 <= i < |fs| - 1 ==> Position(fs[i]) < Position(fs[i + 1])
  }

  /** Every field of the catalog appears exactly once in the declaration order. */
  lemma FieldOrderIsComplete()
    ensures forall f :: f in FieldOrder
    ensures forall i, j :: 0 <= i < j < |FieldOrder| ==> FieldOrder[i] != FieldOrder[j]
  {
    forall f ensures f in FieldOrder {
      assert FieldOrder[Position(f)] == f;
    }
  }

  /** Each index of the declaration order is the position of the field it holds, so no field repeats. */
  lemma PositionOfIndex()
    ensures forall k :: 0 <= k < |FieldOrder| ==> Position(FieldOrder[k]) == k
  {
  }

  /** The index of a field in the declaration order. */
  function Position(f: FieldId): (i: nat)
    ensures i < |FieldOrder| && FieldOrder[i] == f
  {
    match f
    case Material => 0
    case Description => 1
    case Type => 2
    case ObjectKey => 3
    case Line => 4
    case Quantity => 5
    case UnlimitedQuantity => 6
    case QuantityIssued => 7
    case Uom => 8
    case DueDate => 9
    case DeliverTo => 10
    case Comments => 11
    case EnteredByName => 12
    case SupplierName => 13
  }

  /**
   * Material and description each become required exactly when the other
   * one is empty: a record with neither misses both, a record with either
   * one misses neither of them.
   */
  lemma MaterialOrDescription(item: map<FieldId, Value>)
    ensures Required(Material, item) <==> !Truthy(Get(item, Description))
    ensures Required(Description, item) <==> !Truthy(Get(item, Material))
    ensures !Truthy(Get(item, Material)) && !Truthy(Get(item, Description)) ==>
              Required(Material, item) && Required(Description, item)
    ensures Truthy(Get(item, Material)) || Truthy(Get(item, Description)) ==>
              !(Required(Material, item) && !Truthy(Get(item, Material))) ||
              !(Required(Description, item) && !Truthy(Get(item, Description)))
  {
  }

  /**
   * The order id is required exactly when the order type is anything but
   * the empty string (so also when it is missing), the quantity exactly
   * when the item is not unlimited, the unit of measure always, and no
   * other field.
   */
  lemma OtherRequiredFields(item: map<FieldId, Value>)
    ensures Required(ObjectKey, item) <==> Get(item, Type) != Str("")
    ensures Required(Quantity, item) <==> !Truthy(Get(item, UnlimitedQuantity))
    ensures Required(Uom, item)
    ensures forall f :: f !in {Material, Description, ObjectKey, Quantity, Uom} ==> !Required(f, item)
  {
  }

  /**
   * The sortable fields are exactly the entries flagged `canSort`, kept in
   * declaration order; the supplier is searchable but not sortable.
   */
  lemma SortableFieldsAreCanSort()
    ensures forall f :: f in SortableFields <==> Meta(f).canSort
    ensures InDeclarationOrder(SortableFields)
    ensures SupplierName !in SortableFields
  {
    SortableMembership();
    SortableOrder();
  }

  lemma SortableMembership()
    ensures forall f :: f in SortableFields <==> Meta(f).canSort
  {
    forall f ensures f in SortableFields <==> Meta(f).canSort {
      match f
      case Material => assert SortableFields[0] == f;
      case Description => assert SortableFields[1] == f;
      case Type => assert SortableFields[2] == f;
      case ObjectKey => assert SortableFields[3] == f;
      case Line => assert SortableFields[4] == f;
      case Quantity => assert SortableFields[5] == f;
      case DueDate => assert SortableFields[6] == f;
      case DeliverTo => assert SortableFields[7] == f;
      case EnteredByName => assert SortableFields[8] == f;
      case _ =>
    }
  }

  lemma SortableOrder()
    ensures InDeclarationOrder(SortableFields)
  {
    forall i | 0 <= i < |SortableFields| - 1
      ensures Position(SortableFields[i]) < Position(SortableFields[i + 1])
    {
      if i == 0 {} else if i == 1 {} else if i == 2 {} else if i == 3 {} else if i == 4 {} else if i == 5 {} else if i == 6 {} else {}
    }
  }

  /**
   * An order that `IsSortableOrder` accepts and that repeats no field holds
   * exactly the fields flagged `canSort`: nine distinct sortable fields
   * cannot miss one of the nine.
   */
  lemma SortableOrderListsSortable(order: seq<FieldId>)
    requires IsSortableOrder(order)
    requires forall i, j :: 0 <= i < j < |order| ==> order[i] != order[j]
    ensures forall f :: f in order <==> Meta(f).canSort
  {
    SortableFieldsAreCanSort();
    OrderedIsDistinct(SortableFields);
    var listed := set f | f in order;
    var sortable := set f | f in SortableFields;
    DistinctCard(order);
    DistinctCard(SortableFields);
    assert listed <= sortable;
    forall f | Meta(f).canSort ensures f in order {
      if f !in order {
        SubsetCard(listed, sortable - {f});
      }
    }
  }

  /** Strictly increasing positions between neighbours are strictly increasing throughout. */
  lemma {:induction false} OrderedIsDistinct(fs: seq<FieldId>)
    requires InDeclarationOrder(fs)
    ensures forall i, j :: 0 <= i < j < |fs| ==> fs[i] != fs[j]
    ensures forall i, j :: 0 <= i < j < |fs| ==> Position(fs[i]) < Position(fs[j])
  {
    if |fs| > 1 {
      var init := fs[..|fs| - 1];
      OrderedIsDistinct(init);
      forall i | 0 <= i < |fs| - 1 ensures Position(fs[i]) < Position(fs[|fs| - 1]) {
        if i < |fs| - 2 {
          assert Position(init[i]) < Position(init[|fs| - 2]);
        }
      }
    }
  }

  lemma {:induction false} DistinctCard(s: seq<FieldId>)
    requires forall i, j :: 0 <= i < j < |s| ==> s[i] != s[j]
    ensures |set f | f in s| == |s|
  {
    if s != [] {
      var init := s[..|s| - 1];
      DistinctCard(init);
      assert (set f | f in s) == (set f | f in init) + {s[|s| - 1]};
    }
  }

  lemma {:induction false} SubsetCard(a: set<FieldId>, b: set<FieldId>)
    requires a <= b
    ensures |a| <= |b|
  {
    if a != {} {
      var x :| x in a;
      SubsetCard(a - {x}, b - {x});
    }
  }

  /** The searchable fields are exactly the entries flagged `canSearch`, kept in declaration order. */
  lemma SearchableFieldsAreCanSearch()
    ensures forall f :: f in SearchableFields <==> Meta(f).canSearch
    ensures InDeclarationOrder(SearchableFields)
  {
    SearchableMembership();
    SearchableOrder();
  }

  lemma SearchableMembership()
    ensures forall f :: f in SearchableFields <==> Meta(f).canSearch
  {
    forall f ensures f in SearchableFields <==> Meta(f).canSearch {
      match f
      case Material => assert SearchableFields[0] == f;
      case Description => assert SearchableFields[1] == f;
      case ObjectKey => assert SearchableFields[2] == f;
      case EnteredByName => assert SearchableFields[3] == f;
      case SupplierName => assert SearchableFields[4] == f;
      case _ =>
    }
  }

  lemma SearchableOrder()
    ensures InDeclarationOrder(SearchableFields)
  {
    forall i | 0 <= i < |SearchableFields| - 1
      ensures Position(SearchableFields[i]) < Position(SearchableFields[i + 1])
    {
      if i == 0 {} else if i == 1 {} else if i == 2 {} else {}
    }
  }

  /** Only the material declares an initial sort position, and it is 0. */
  lemma InitialSortPositions()
    ensures forall f :: Meta(f).initialSortPosition.Some? <==> f == Material
    ensures Meta(Material).initialSortPosition == Some(0)
  {
  }

  /** The non-field parts of `viewModelData` that the core reads. */
  datatype InitialState = InitialState(
    busy: bool,
    selectedCount: int,
    searchValue: string,
    sortActiveFieldCount: int,
    popoverHasError: bool,
    createMessageText: string)

  const ViewModelData: InitialState := InitialState(false, 0, "", 0, false, "")
}
