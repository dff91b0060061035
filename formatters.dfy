/**
 * The display formatters of the urgent board table: visibility rules,
 * quantity and order texts, the note truncation, the order-type icon and
 * the over-issue check of the quantity input. Each one is a total function
 * of the bound values it receives.
 */
module Formatters {
  import opened Values

  /** JavaScript `a === b` between the values the formatters compare. */
  predicate StrictEquals(a: Value, b: Value)
  {
    a == b
  }

  /**
   * `navToGRButtonVisible`: only the boolean `false` as error flag, only the
   * boolean `true` as permission, and anything but the boolean `true` as
   * completion flag show the button.
   */
  function NavToGRButtonVisible(itemHasError: Value, navToGRAllowed: Value, itemComplete: Value): (visible: bool)
    ensures visible ==> !Truthy(itemHasError) && Truthy(navToGRAllowed)
    ensures itemHasError != Bool(false) ==> !visible
    ensures navToGRAllowed != Bool(true) ==> !visible
    ensures itemHasError == Bool(false) && navToGRAllowed == Bool(true) ==>
              (visible <==> itemComplete != Bool(true))
  {
    StrictEquals(itemHasError, Bool(false))
      && StrictEquals(navToGRAllowed, Bool(true))
      && !StrictEquals(itemComplete, Bool(true))
  }

  /**
   * `inputQuantityEnabled` returns `!unlimited && allowed`: `false` when the
   * quantity is unlimited, otherwise the permission value itself.
   */
  function InputQuantityEnabled(unlimitedQuantity: Value, updateAllowed: Value): (enabled: Value)
    ensures Truthy(enabled) <==> !Truthy(unlimitedQuantity) && Truthy(updateAllowed)
    ensures enabled == Bool(false) || enabled == updateAllowed
  {
    if Truthy(unlimitedQuantity) then Bool(false) else updateAllowed
  }

  /** `createButtonVisible`: the permission must be the boolean `true` and the selection count the number 0. */
  function CreateButtonVisible(createAllowed: Value, itemsSelected: Value): (visible: bool)
    ensures visible ==> Truthy(createAllowed) && !Truthy(itemsSelected)
    ensures visible <==> createAllowed == Bool(true) && itemsSelected == Num(0)
  {
    StrictEquals(createAllowed, Bool(true)) && StrictEquals(itemsSelected, Num(0))
  }

  /** `userFilterOrSortOptionVisible`: the same rule with the search permission. */
  function UserFilterOrSortOptionVisible(searchAllowed: Value, itemsSelected: Value): (visible: bool)
    ensures visible <==> CreateButtonVisible(searchAllowed, itemsSelected)
  {
    StrictEquals(searchAllowed, Bool(true)) && StrictEquals(itemsSelected, Num(0))
  }

  /** The infinity sign shown for unlimited quantities. */
  const Infinity: string := "\U{221E}"

  /**
   * `combinedQuantityText`. When the issued quantity is a positive number
   * the text is "<issued> / <required>" (or "<issued> / ∞"); otherwise the
   * required quantity is returned as it is, or "∞" when unlimited.
   */
  function CombinedQuantityText(quantityRequired: Value, quantityIssued: Value, unlimitedQuantity: Value): (text: Value)
    ensures !Greater(ToNumber(quantityIssued), Finite(0)) ==>
              text == if Truthy(unlimitedQuantity) then Str(Infinity) else quantityRequired
  {
    if Truthy(quantityIssued) && Greater(ToNumber(quantityIssued), Finite(0)) then
      Str(ToText(quantityIssued) + " / " + (if Truthy(unlimitedQuantity) then Infinity else ToText(quantityRequired)))
    else if Truthy(unlimitedQuantity) then Str(Infinity)
    else quantityRequired
  }

  /** The `!!issued` test of `combinedQuantityText` is implied by `Number(issued) > 0`. */
  lemma IssuedTestIsNumeric(quantityIssued: Value)
    ensures (Truthy(quantityIssued) && Greater(ToNumber(quantityIssued), Finite(0)))
              <==> Greater(ToNumber(quantityIssued), Finite(0))
  {
    if quantityIssued.Str? && quantityIssued.s == "" {
      assert ToNumber(quantityIssued) == Finite(0);
    }
  }

  /**
   * For quantities that are digit strings, as the data source sends them:
   * a positive issued quantity is printed in front of the required one,
   * separated by " / ", and the issued text is kept as sent.
   */
  lemma CombinedQuantityOfDigits(required: string, issued: string, unlimited: bool)
    requires AllDigits(required) && AllDigits(issued)
    ensures DigitsValue(issued) > 0 ==>
      CombinedQuantityText(Str(required), Str(issued), Bool(unlimited))
        == Str(issued + " / " + (if unlimited then Infinity else required))
    ensures DigitsValue(issued) == 0 ==>
      CombinedQuantityText(Str(required), Str(issued), Bool(unlimited))
        == Str(if unlimited then Infinity else required)
  {
    IssuedTestIsNumeric(Str(issued));
  }

  /** The number of note characters `deliverToAndNotesText` keeps. */
  const TruncNotesToLen: nat := 40

  /** `s.substr(0, n)` */
  function Substr(s: string, n: nat): (r: string)
    ensures |r| <= n && r <= s
    ensures |s| <= n ==> r == s
    ensures n <= |s| ==> |r| == n
  {
    if |s| <= n then s else s[..n]
  }

  /** `parts.join("")` */
  function Concat(parts: seq<string>): string
  {
    if parts == [] then "" else Concat(parts[..|parts| - 1]) + parts[|parts| - 1]
  }

  /**
   * `deliverToAndNotesText`. A missing (`undefined` or `null`) argument is
   * passed as "", which is falsy in the same way.
   */
  function DeliverToAndNotesText(deliverTo: string, notes: string): (text: string)
  {
    var parts := if deliverTo != "" then [deliverTo] else [];
    var parts :=
      if notes == "" then parts
      else
        parts + (if |parts| > 0 then [" / "] else [])
          + [Substr(notes, TruncNotesToLen)]
          + (if |notes| > TruncNotesToLen then ["..."] else []);
    Concat(parts)
  }

  /** The note as the table shows it: its first 40 characters, then "..." when it was longer. */
  function NotesDisplay(notes: string): (shown: string)
    ensures |notes| <= TruncNotesToLen ==> shown == notes
    ensures |notes| > TruncNotesToLen ==>
      |shown| == TruncNotesToLen + 3 && shown[..TruncNotesToLen] == notes[..TruncNotesToLen]
      && shown[TruncNotesToLen..] == "..."
  {
    Substr(notes, TruncNotesToLen) + (if |notes| > TruncNotesToLen then "..." else "")
  }

  /**
   * The delivery location comes first, the separator " / " appears exactly
   * when both parts are present, and the note is shown truncated.
   */
  lemma DeliverToAndNotesCases(deliverTo: string, notes: string)
    ensures deliverTo == "" && notes == "" ==> DeliverToAndNotesText(deliverTo, notes) == ""
    ensures notes == "" ==> DeliverToAndNotesText(deliverTo, notes) == deliverTo
    ensures deliverTo == "" ==> DeliverToAndNotesText(deliverTo, notes) == NotesDisplay(notes)
    ensures deliverTo != "" && notes != "" ==>
      DeliverToAndNotesText(deliverTo, notes) == deliverTo + " / " + NotesDisplay(notes)
    ensures |DeliverToAndNotesText(deliverTo, notes)| <= |deliverTo| + 3 + TruncNotesToLen + 3
  {
    var n := Substr(notes, TruncNotesToLen);
    var dots: seq<string> := if |notes| > TruncNotesToLen then ["..."] else [];
    assert NotesDisplay(notes) == n + (if dots == [] then "" else dots[0]);
    if notes != "" {
      if deliverTo != "" {
        assert [deliverTo] + [" / "] + [n] + dots == [deliverTo, " / ", n] + dots;
        ConcatThree(deliverTo, " / ", n, dots);
      } else {
        assert [] + [n] + dots == [n] + dots;
        ConcatOne(n, dots);
      }
    } else if deliverTo != "" {
      assert Concat([deliverTo]) == Concat([]) + deliverTo;
    }
  }

  lemma ConcatOne(a: string, rest: seq<string>)
    requires |rest| <= 1
    ensures Concat([a] + rest) == a + (if rest == [] then "" else rest[0])
  {
    assert Concat([a]) == Concat([]) + a;
    if rest != [] {
      assert ([a] + rest)[..1] == [a];
    } else {
      assert [a] + rest == [a];
    }
  }

  lemma ConcatThree(a: string, b: string, c: string, rest: seq<string>)
    requires |rest| <= 1
    ensures Concat([a, b, c] + rest) == a + b + c + (if rest == [] then "" else rest[0])
  {
    var p := [a, b, c] + rest;
    assert Concat([a]) == a by {
      assert Concat([a]) == Concat([]) + a;
    }
    assert Concat([a, b]) == a + b by {
      assert [a, b][..1] == [a];
    }
    assert Concat([a, b, c]) == a + b + c by {
      assert [a, b, c][..2] == [a, b];
    }
    if rest != [] {
      assert p[..|p| - 1] == [a, b, c];
    } else {
      assert p == [a, b, c];
    }
  }

  /**
   * `orderText`: empty without an object key; the key alone when the line
   * does not convert to a non-zero number; otherwise "<key>/<line as a
   * number>". A missing key or line is passed as "" / `undefined`.
   */
  function OrderText(objectKey: string, line: Value): (text: string)
    ensures objectKey == "" ==> text == ""
    ensures !NumberTruthy(ToNumber(line)) ==> text == objectKey
    ensures objectKey != "" && NumberTruthy(ToNumber(line)) ==>
      text == objectKey + "/" + NumberText(ToNumber(line))
  {
    var text := "";
    if objectKey != "" then
      if Truthy(line) && NumberTruthy(ToNumber(line)) then
        objectKey + "/" + NumberText(ToNumber(line))
      else objectKey
    else text
  }

  /**
   * A zero-padded line number such as "000010" is shown without its
   * padding ("4500000123/10"); a line of only zeros is not shown at all.
   */
  lemma OrderTextOfPaddedLine(objectKey: string, zeros: string, n: nat)
    requires objectKey != "" && AllZeros(zeros) && n <= MaxSafeInteger
    ensures OrderText(objectKey, Str(zeros + NatText(n)))
              == if n == 0 then objectKey else objectKey + "/" + NatText(n)
  {
    LeadingZerosIgnored(zeros, NatText(n));
    DigitsValueOfNatText(n);
  }

  /** The icons of the order types. */
  const PurchaseOrderIcon: string := "sap-icon://shelf"
  const SalesOrderIcon: string := "sap-icon://sales-order-item"
  const ProductionOrderIcon: string := "sap-icon://factory"
  const UnknownTypeIcon: string := "sap-icon://question-mark"

  /** `typeIconSrc` (the `switch` compares strictly). */
  function TypeIconSrc(orderType: Value): (src: string)
  {
    if StrictEquals(orderType, Str("P")) then PurchaseOrderIcon
    else if StrictEquals(orderType, Str("S")) then SalesOrderIcon
    else if StrictEquals(orderType, Str("D")) then ProductionOrderIcon
    else UnknownTypeIcon
  }

  /**
   * Purchase ("P"), sales ("S") and production ("D") orders get three
   * different icons; every other value, including "" and `undefined`, gets
   * the question mark, which none of the three uses.
   */
  lemma TypeIcons(orderType: Value)
    ensures TypeIconSrc(Str("P")) == PurchaseOrderIcon
    ensures TypeIconSrc(Str("S")) == SalesOrderIcon
    ensures TypeIconSrc(Str("D")) == ProductionOrderIcon
    ensures TypeIconSrc(orderType) == UnknownTypeIcon <==>
              orderType != Str("P") && orderType != Str("S") && orderType != Str("D")
    ensures forall a, b :: a in {"P", "S", "D"} && b in {"P", "S", "D"} && a != b ==>
              TypeIconSrc(Str(a)) != TypeIconSrc(Str(b))
  {
  }

  /** `modifyActiveSortColumnVisible` */
  function ModifyActiveSortColumnVisible(activeFieldCount: Value): (visible: bool)
    ensures activeFieldCount.Num? ==> (visible <==> activeFieldCount.n != 0)
  {
    if Truthy(activeFieldCount) then true else false
  }

  /** `modifyActiveSortFieldButtonVisible` */
  function ModifyActiveSortFieldButtonVisible(sortAscending: Value, sortDescending: Value): (visible: bool)
    ensures sortAscending.Bool? && sortDescending.Bool? ==>
              (visible <==> sortAscending.b || sortDescending.b)
  {
    if Truthy(sortAscending) || Truthy(sortDescending) then true else false
  }

  /**
   * `validateUpdateQuantity`: no error for an unlimited item; otherwise an
   * error exactly when `Number(issued) + Number(update)` is a number above
   * `Number(order)`.
   */
  function ValidateUpdateQuantity(orderQuantity: Value, quantityIssued: Value, unlimitedQuantity: Value,
                                  updateQuantity: Value): (state: ValueState)
    ensures Truthy(unlimitedQuantity) ==> state == StateNone
  {
    var result := StateNone;
    if Truthy(unlimitedQuantity) then result
    else
      var total := Add(ToNumber(quantityIssued), ToNumber(updateQuantity));
      if Greater(total, ToNumber(orderQuantity)) then StateError else result
  }

  /**
   * With digit strings (the empty string counting as 0) the check is the
   * over-issue test issued + update > order; a value that is not a number
   * never raises the error.
   */
  lemma UpdateQuantityOfDigits(order: string, issued: string, update: string)
    requires AllDigits(order) && AllDigits(issued) && AllDigits(update)
    requires DigitsValue(order) <= MaxSafeInteger
    requires DigitsValue(issued) + DigitsValue(update) <= MaxSafeInteger
    ensures (ValidateUpdateQuantity(Str(order), Str(issued), Bool(false), Str(update)) == StateError)
              <==> DigitsValue(issued) + DigitsValue(update) > DigitsValue(order)
  {
  }

  lemma NonNumericNeverErrors(order: Value, issued: Value, unlimited: Value, update: Value)
    requires ToNumber(order).NaN? || ToNumber(issued).NaN? || ToNumber(update).NaN?
    ensures ValidateUpdateQuantity(order, issued, unlimited, update) == StateNone
  {
  }

  /** `imHereIconColor`: green when the contact is present, an almost invisible grey otherwise. */
  function ImHereIconColor(imHere: Value): (color: string)
    ensures color in {"green", "#F5F5F5"}
    ensures color == "green" <==> Truthy(imHere)
  {
    if Truthy(imHere) then "green" else "#F5F5F5"
  }
}
