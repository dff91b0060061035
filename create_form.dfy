/**
 * The field table behind the create dialog and the item popover
 * (`/fields` of the view model, with the `value`, `valueState` and
 * `valueStateText` each entry gets), the message strip of the create
 * dialog (`/create/message`) and the error flag of the item popover
 * (`/itemPopover/hasError`). The catalog part of each entry (label,
 * initial value, `required`, `noValueState`) is `Catalog.Meta`.
 */
module CreateForm {
  import opened Values
  import opened Catalog

  /** The editable part of one `/fields` entry. */
  datatype FormField = FormField(value: Value, valueState: ValueState, valueStateText: string)

  datatype MessageType = MessageNone | MessageError

  /** `/create/message` */
  datatype FormMessage = FormMessage(messageType: MessageType, text: string)

  /** The table holds an entry for every field of the catalog. */
  predicate Complete(fields: map<FieldId, FormField>)
  {
    forall f :: f in fields
  }

  /** The text a missing required field shows. */
  function RequiredText(f: FieldId): string
  {
    "'" + Label(f) + "' is required"
  }

  /** The values of the table, keyed by field. */
  function FieldValues(fields: map<FieldId, FormField>): (values: map<FieldId, Value>)
    ensures forall f :: f in values <==> f in fields
    ensures forall f :: f in fields ==> values[f] == fields[f].value
  {
    map f | f in fields :: fields[f].value
  }

  /** A field fails validation: it is required for the record and its value is falsy. */
  predicate Invalid(fields: map<FieldId, FormField>, values: map<FieldId, Value>, f: FieldId)
    requires f in fields
  {
    Required(f, values) && !Truthy(fields[f].value)
  }

  /** The entry after validation: in error with the "is required" text, or cleared. */
  function Checked(fields: map<FieldId, FormField>, values: map<FieldId, Value>, f: FieldId): FormField
    requires f in fields
  {
    if Invalid(fields, values, f) then fields[f].(valueState := StateError, valueStateText := RequiredText(f))
    else fields[f].(valueState := StateNone, valueStateText := "")
  }

  /** The table after `_validateFieldsBeforeCreate`. */
  function Validated(fields: map<FieldId, FormField>): map<FieldId, FormField>
  {
    var values := FieldValues(fields);
    map f | f in fields :: Checked(fields, values, f)
  }

  /** The result of `_validateFieldsBeforeCreate`. */
  predicate AllValid(fields: map<FieldId, FormField>)
  {
    forall f :: f in fields ==> !Invalid(fields, FieldValues(fields), f)
  }

  /** Some entry is in the error state. */
  predicate HasError(fields: map<FieldId, FormField>)
  {
    exists f :: f in fields && fields[f].valueState == StateError
  }

  /**
   * The create-dialog message after validating the fields of `order` in
   * turn, starting from the reset message: an invalid field flagged
   * `noValueState` puts its text there.
   */
  function MessageAfter(fields: map<FieldId, FormField>, values: map<FieldId, Value>, order: seq<FieldId>): FormMessage
    requires forall k :: 0 <= k < |order| ==> order[k] in fields
  {
    if order == [] then FormMessage(MessageNone, "")
    else
      var f := order[|order| - 1];
      var m := MessageAfter(fields, values, order[..|order| - 1]);
      if Invalid(fields, values, f) && Meta(f).noValueState then FormMessage(MessageError, RequiredText(f)) else m
  }

  /** The table `_resetFields` leaves: every value at its initial value, no value state, no text. */
  function ResetTable(): (fields: map<FieldId, FormField>)
    ensures Complete(fields)
  {
    FieldOrderIsComplete();
    map f | f in FieldOrder :: FormField(Meta(f).initialValue, StateNone, "")
  }

  class Form {
    /** `/fields` */
    var fields: map<FieldId, FormField>
    /** `/create/message` */
    var message: FormMessage
    /** `/itemPopover/hasError` */
    var popoverHasError: bool

    ghost predicate Valid()
      reads this
    {
      Complete(fields)
    }

    /**
     * The initial view model: no field has a value or a value state yet
     * (read as `undefined` and None), the message is empty and the popover
     * has no error.
     */
    constructor ()
      ensures Valid()
      ensures forall f :: fields[f] == FormField(Undefined, StateNone, "")
      ensures message == FormMessage(MessageNone, ViewModelData.createMessageText)
      ensures popoverHasError == ViewModelData.popoverHasError
    {
      FieldOrderIsComplete();
      fields := map f | f in FieldOrder :: FormField(Undefined, StateNone, "");
      message := FormMessage(MessageNone, ViewModelData.createMessageText);
      popoverHasError := ViewModelData.popoverHasError;
    }

    /** `_resetFields`, visiting the entries in declaration order. */
    method ResetFields()
      requires Valid()
      modifies this
      ensures Valid() && fields == ResetTable()
      ensures message == old(message) && popoverHasError == old(popoverHasError)
    {
      FieldOrderIsComplete();
      for i := 0 to |FieldOrder|
        invariant Complete(fields)
        invariant forall k :: 0 <= k < i ==>
          fields[FieldOrder[k]] == FormField(Meta(FieldOrder[k]).initialValue, StateNone, "")
        invariant message == old(message) && popoverHasError == old(popoverHasError)
      {
        var f := FieldOrder[i];
        fields := fields[f := FormField(Meta(f).initialValue, StateNone, "")];
      }
      forall f ensures fields[f] == ResetTable()[f] {
        assert FieldOrder[Position(f)] == f;
      }
    }

    /** `_getFieldValues` */
    method GetFieldValues() returns (values: map<FieldId, Value>)
      requires Valid()
      ensures values == FieldValues(fields)
    {
      FieldOrderIsComplete();
      values := map[];
      for i := 0 to |FieldOrder|
        invariant forall f :: f in values <==> exists k :: 0 <= k < i && FieldOrder[k] == f
        invariant forall f :: f in values ==> values[f] == fields[f].value
      {
        var f := FieldOrder[i];
        values := values[f := fields[f].value];
      }
      forall f ensures f in values {
        assert FieldOrder[Position(f)] == f;
      }
    }

    /**
     * `_validateFieldsBeforeCreate`: each entry ends up in error with the
     * "is required" text when it is required for the record and empty, and
     * cleared otherwise; the result says whether no entry failed; the
     * dialog message is reset and then set by any failing entry flagged
     * `noValueState`.
     */
    method ValidateFieldsBeforeCreate() returns (allValid: bool)
      requires Valid()
      modifies this
      ensures Valid() && fields == Validated(old(fields))
      ensures allValid <==> AllValid(old(fields))
      ensures message == MessageAfter(old(fields), FieldValues(old(fields)), FieldOrder)
      ensures popoverHasError == old(popoverHasError)
    {
      message := FormMessage(MessageNone, "");
      allValid := true;
      var values := GetFieldValues();
      ghost var before := fields;
      PartialStart(before, values);
      for i := 0 to |FieldOrder|
        invariant fields == Partial(before, values, i)
        invariant allValid <==> ValidUpTo(before, values, i)
        invariant message == MessageAfter(before, values, FieldOrder[..i])
        invariant popoverHasError == old(popoverHasError)
      {
        var f := FieldOrder[i];
        PartialStep(before, values, i);
        var fieldValid := ValidateField(f, values);
        assert fieldValid <==> !Invalid(before, values, f);
        if !fieldValid {
          allValid := false;
        }
        MessageStep(before, values, i);
      }
      PartialEnd(before);
      ValidUpToAll(before, |FieldOrder|);
    }

    /**
     * One pass of the loop of `_validateFieldsBeforeCreate`: the entry of
     * `f` is put in error or cleared, and a failing entry flagged
     * `noValueState` sets the dialog message.
     */
    method ValidateField(f: FieldId, values: map<FieldId, Value>) returns (fieldValid: bool)
      requires Valid()
      modifies this
      ensures Valid() && fields == old(fields)[f := Checked(old(fields), values, f)]
      ensures fieldValid <==> !Invalid(old(fields), values, f)
      ensures message == if !fieldValid && Meta(f).noValueState then FormMessage(MessageError, RequiredText(f))
                         else old(message)
      ensures popoverHasError == old(popoverHasError)
    {
      var field := fields[f];
      fieldValid := true;
      var required := Required(f, values);
      if required && !Truthy(field.value) {
        fieldValid := false;
        field := field.(valueState := StateError, valueStateText := RequiredText(f));
      }
      if fieldValid {
        field := field.(valueState := StateNone, valueStateText := "");
      }
      message := if !fieldValid && Meta(f).noValueState then FormMessage(MessageError, field.valueStateText) else message;
      fields := fields[f := field];
    }

    /** `_resetErrorFlagItemOverflowPopover`: the flag says whether some entry is in the error state. */
    method ResetErrorFlagItemOverflowPopover()
      requires Valid()
      modifies this
      ensures popoverHasError <==> HasError(fields)
      ensures fields == old(fields) && message == old(message)
    {
      FieldOrderIsComplete();
      var hasError := false;
      for i := 0 to |FieldOrder|
        invariant hasError <==> exists k :: 0 <= k < i && fields[FieldOrder[k]].valueState == StateError
      {
        if fields[FieldOrder[i]].valueState == StateError {
          hasError := true;
        }
      }
      if HasError(fields) {
        var f :| f in fields && fields[f].valueState == StateError;
        assert FieldOrder[Position(f)] == f;
      }
      popoverHasError := hasError;
    }
  }

  lemma MessageStep(fields: map<FieldId, FormField>, values: map<FieldId, Value>, i: nat)
    requires Complete(fields) && i < |FieldOrder|
    ensures var f := FieldOrder[i];
      MessageAfter(fields, values, FieldOrder[..i + 1]) ==
        if Invalid(fields, values, f) && Meta(f).noValueState then FormMessage(MessageError, RequiredText(f))
        else MessageAfter(fields, values, FieldOrder[..i])
  {
    assert FieldOrder[..i + 1][..i] == FieldOrder[..i];
  }

  /** The table part way through the loop: the first `i` fields of the declaration order checked, the others untouched. */
  function Partial(before: map<FieldId, FormField>, values: map<FieldId, Value>, i: nat): (t: map<FieldId, FormField>)
    requires Complete(before)
    ensures Complete(t)
  {
    map g | g in before :: if Position(g) < i then Checked(before, values, g) else before[g]
  }

  lemma PartialStart(before: map<FieldId, FormField>, values: map<FieldId, Value>)
    requires Complete(before)
    ensures Partial(before, values, 0) == before
  {
  }

  lemma PartialStep(before: map<FieldId, FormField>, values: map<FieldId, Value>, i: nat)
    requires Complete(before) && i < |FieldOrder|
    ensures Partial(before, values, i)[FieldOrder[i]] == before[FieldOrder[i]]
    ensures Partial(before, values, i + 1) ==
      Partial(before, values, i)[FieldOrder[i] := Checked(Partial(before, values, i), values, FieldOrder[i])]
  {
    var f := FieldOrder[i];
    var current := Partial(before, values, i);
    var next := Partial(before, values, i + 1);
    var updated := current[f := Checked(current, values, f)];
    PositionOfIndex();
    assert current[f] == before[f];
    forall g ensures next[g] == updated[g] {
      if g != f {
        assert Position(g) != i;
      }
    }
    assert next.Keys == updated.Keys;
  }

  /** Checking every field of the declaration order in turn yields the validated table. */
  lemma PartialEnd(before: map<FieldId, FormField>)
    requires Complete(before)
    ensures Partial(before, FieldValues(before), |FieldOrder|) == Validated(before)
  {
  }

  /** None of the first `i` fields of the declaration order fails validation. */
  predicate ValidUpTo(before: map<FieldId, FormField>, values: map<FieldId, Value>, i: nat)
    requires Complete(before) && i <= |FieldOrder|
  {
    i == 0 || (ValidUpTo(before, values, i - 1) && !Invalid(before, values, FieldOrder[i - 1]))
  }

  lemma {:induction false} ValidUpToAll(before: map<FieldId, FormField>, i: nat)
    requires Complete(before) && i <= |FieldOrder|
    ensures ValidUpTo(before, FieldValues(before), i) <==>
      forall k :: 0 <= k < i ==> !Invalid(before, FieldValues(before), FieldOrder[k])
    ensures i == |FieldOrder| ==> (ValidUpTo(before, FieldValues(before), i) <==> AllValid(before))
    ensures FieldOrder[..|FieldOrder|] == FieldOrder
  {
    if i > 0 {
      ValidUpToAll(before, i - 1);
    }
    if i == |FieldOrder| {
      PositionOfIndex();
      forall f | f in before
        ensures ValidUpTo(before, FieldValues(before), i) ==> !Invalid(before, FieldValues(before), f)
      {
        assert FieldOrder[Position(f)] == f;
      }
    }
  }

  // ---------------------------------------------------------------------
  // What validation decides
  // ---------------------------------------------------------------------

  /** After validation the popover flag raised by the table is exactly "some field failed". */
  lemma ErrorFlagAfterValidation(fields: map<FieldId, FormField>)
    requires Complete(fields)
    ensures HasError(Validated(fields)) <==> !AllValid(fields)
  {
    var v := Validated(fields);
    if !AllValid(fields) {
      var f :| f in fields && Invalid(fields, FieldValues(fields), f);
      assert v[f].valueState == StateError;
    }
  }

  /**
   * A record passes validation exactly when it has a material number or a
   * description, an order id unless the order type is "", a quantity
   * unless it is unlimited, and a unit of measure.
   */
  lemma ValidRecord(fields: map<FieldId, FormField>)
    requires Complete(fields)
    ensures AllValid(fields) <==>
      && (Truthy(fields[Material].value) || Truthy(fields[Description].value))
      && (fields[Type].value == Str("") || Truthy(fields[ObjectKey].value))
      && (Truthy(fields[UnlimitedQuantity].value) || Truthy(fields[Quantity].value))
      && Truthy(fields[Uom].value)
  {
    var values := FieldValues(fields);
    assert Get(values, Material) == fields[Material].value;
    assert Get(values, Description) == fields[Description].value;
    assert Get(values, Type) == fields[Type].value;
    assert Get(values, UnlimitedQuantity) == fields[UnlimitedQuantity].value;
    OtherRequiredFields(values);
    if AllValid(fields) {
      assert !Invalid(fields, values, Material);
      assert !Invalid(fields, values, ObjectKey);
      assert !Invalid(fields, values, Quantity);
      assert !Invalid(fields, values, Uom);
    }
  }

  /** A record with neither material number nor description is flagged on both fields, each with its own text. */
  lemma NeitherMaterialNorDescription(fields: map<FieldId, FormField>)
    requires Complete(fields)
    requires !Truthy(fields[Material].value) && !Truthy(fields[Description].value)
    ensures Validated(fields)[Material] == fields[Material].(valueState := StateError, valueStateText := RequiredText(Material))
    ensures Validated(fields)[Description] == fields[Description].(valueState := StateError, valueStateText := RequiredText(Description))
    ensures !AllValid(fields)
  {
    var values := FieldValues(fields);
    assert Get(values, Material) == fields[Material].value;
    assert Get(values, Description) == fields[Description].value;
    assert Invalid(fields, values, Material) && Invalid(fields, values, Description);
    ValidatedAt(fields, Material);
    ValidatedAt(fields, Description);
  }

  /** The validated entry of a field is the checked entry. */
  lemma ValidatedAt(fields: map<FieldId, FormField>, f: FieldId)
    requires Complete(fields)
    ensures Validated(fields)[f] == Checked(fields, FieldValues(fields), f)
  {
  }

  /**
   * Validation never writes the dialog message: the only field flagged
   * `noValueState` is the order type, which is never required.
   */
  lemma {:induction false} MessageStaysEmpty(fields: map<FieldId, FormField>, values: map<FieldId, Value>, order: seq<FieldId>)
    requires forall k :: 0 <= k < |order| ==> order[k] in fields
    ensures MessageAfter(fields, values, order) == FormMessage(MessageNone, "")
  {
    if order != [] {
      MessageStaysEmpty(fields, values, order[..|order| - 1]);
      var f := order[|order| - 1];
      OtherRequiredFields(values);
      assert Meta(f).noValueState ==> f == Type;
    }
  }

  /** A freshly reset form does not validate: it has neither material number nor description. */
  lemma ResetFormIsInvalid()
    ensures !AllValid(ResetTable())
  {
    var t := ResetTable();
    ResetTableAt(Material);
    ResetTableAt(Description);
    NeitherMaterialNorDescription(t);
  }

  /** Each entry of the reset table holds the catalog's initial value and nothing else. */
  lemma ResetTableAt(f: FieldId)
    ensures ResetTable()[f] == FormField(Meta(f).initialValue, StateNone, "")
  {
    assert FieldOrder[Position(f)] == f;
  }
}
