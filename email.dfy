/**
 * The text of the draft e-mails the board opens: the body written for one
 * item, and the de-duplicated recipient list and the five-item cap of the
 * selection e-mail. Opening the draft in the mail client is not part of
 * this model.
 */
module Email {
  import opened Values

  /** The properties of a board item that the e-mail text reads. */
  datatype ItemKey =
    | Material
    | Description
    | Type
    | TypeText
    | ObjectKey
    | Line
    | Quantity
    | UnlimitedQuantity
    | QuantityIssued
    | Uom
    | DueDate
    | EnteredByName
    | DeliverTo
    | Comments
    | ContactEmail

  /** An item as the data source returns it: a property it lacks reads as `undefined`. */
  type Item = map<ItemKey, Value>

  function Prop(item: Item, k: ItemKey): Value
  {
    if k in item then item[k] else Undefined
  }

  /**
   * The copy `_getEmailBodyForItem` makes first: every property of the item
   * is kept when truthy and replaced by "" otherwise; properties the item
   * lacks stay absent.
   */
  function Cleaned(item: Item): (data: Item)
    ensures forall k :: k in data <==> k in item
  {
    map k | k in item :: if Truthy(item[k]) then item[k] else Str("")
  }

  /** Interpolating a property of the cleaned copy. */
  function Field(data: Item, k: ItemKey): string
  {
    ToText(Prop(data, k))
  }

  /**
   * A property the item has prints as its own text when truthy and as ""
   * otherwise (never "null", "false" or "0"); one it lacks prints as
   * "undefined". Truthiness is unchanged by the copy.
   */
  lemma CleanedText(item: Item, k: ItemKey)
    ensures k in item && Truthy(item[k]) ==> Field(Cleaned(item), k) == ToText(item[k])
    ensures k in item && !Truthy(item[k]) ==> Field(Cleaned(item), k) == ""
    ensures k !in item ==> Field(Cleaned(item), k) == "undefined"
    ensures Truthy(Prop(Cleaned(item), k)) <==> Truthy(Prop(item, k))
  {
  }

  /** The "<quantity> <uom>" part of the quantity lines: "unlimited " for an unlimited item. */
  function QuantityPart(data: Item): string
  {
    (if Truthy(Prop(data, UnlimitedQuantity)) then "unlimited" else Field(data, Quantity))
    + " " +
    (if Truthy(Prop(data, UnlimitedQuantity)) then "" else Field(data, Uom))
  }

  /** The eight lines every item body has, before the order details are spliced in. */
  function BaseLines(data: Item): (lines: seq<string>)
    ensures |lines| == 8
  {
    [
      "Material:  " + Field(data, Material) + " (" + Field(data, Description) + ")",
      "Quantity required:  " + QuantityPart(data),
      "Quantity issued:  " + Field(data, QuantityIssued) + " " + Field(data, Uom),
      "Quantity remaining:  " + QuantityPart(data),
      "Due:  " + Field(data, DueDate),
      "Contact:  " + Field(data, EnteredByName),
      "Deliver to:  " + Field(data, DeliverTo),
      "Comments:  " + Field(data, Comments)
    ]
  }

  /** `Array.prototype.splice(i, 0, x)`: insert `x` before index `i`. */
  function Insert(s: seq<string>, i: nat, x: string): (r: seq<string>)
    requires i <= |s|
    ensures |r| == |s| + 1 && r[i] == x
    ensures r[..i] == s[..i] && r[i + 1..] == s[i..]
  {
    s[..i] + [x] + s[i..]
  }

  function OrderLine(data: Item): string
  {
    Field(data, TypeText) + ":  " + Field(data, ObjectKey)
  }

  function ItemIdLine(data: Item): string
  {
    "Item id: " + NumberText(ToNumber(Prop(data, Line)))
  }

  /** The lines of `_getEmailBodyForItem`, order details included. */
  function EmailLines(item: Item): (lines: seq<string>)
    ensures var data := Cleaned(item);
      var hasOrder := Truthy(Prop(item, Type));
      var hasLine := hasOrder && Truthy(Prop(item, Line));
      && |lines| == 8 + (if hasOrder then 1 else 0) + (if hasLine then 1 else 0)
      && lines[0] == BaseLines(data)[0]
      && lines[|lines| - 7..] == BaseLines(data)[1..]
      && (hasOrder ==> lines[1] == OrderLine(data))
      && (hasLine ==> lines[2] == ItemIdLine(data))
  {
    var data := Cleaned(item);
    CleanedText(item, Type);
    CleanedText(item, Line);
    var lines := BaseLines(data);
    if Truthy(Prop(data, Type)) then
      var withOrder := Insert(lines, 1, OrderLine(data));
      if Truthy(Prop(data, Line)) then Insert(withOrder, 2, ItemIdLine(data)) else withOrder
    else lines
  }

  /** `Array.prototype.join(sep)` over strings. */
  function Join(parts: seq<string>, sep: string): string
  {
    if parts == [] then ""
    else if |parts| == 1 then parts[0]
    else parts[0] + sep + Join(parts[1..], sep)
  }

  /** Joining a single part gives the part; joining one more part appends the separator and the part. */
  lemma {:induction false} JoinSnoc(parts: seq<string>, x: string, sep: string)
    ensures parts == [] ==> Join(parts + [x], sep) == x
    ensures parts != [] ==> Join(parts + [x], sep) == Join(parts, sep) + sep + x
  {
    if |parts| > 1 {
      assert (parts + [x])[1..] == parts[1..] + [x];
      JoinSnoc(parts[1..], x, sep);
    } else if |parts| == 1 {
      assert (parts + [x])[1..] == [x];
    }
  }

  /** The body text of one item: its lines joined by newlines. */
  function ItemBody(item: Item): string
  {
    Join(EmailLines(item), "\n")
  }

  /** A join of two or more parts opens with the first part and the separator. */
  lemma JoinOpens(parts: seq<string>, sep: string)
    requires |parts| >= 2
    ensures Join(parts, sep) == parts[0] + sep + Join(parts[1..], sep)
  {
  }

  /**
   * The order item number prints without its leading zeros: a line such as
   * "0010" shows as "Item id: 10", and a line of only zeros as "Item id: 0".
   */
  lemma ItemIdDropsLeadingZeros(zeros: string, n: nat)
    requires AllZeros(zeros) && n <= MaxSafeInteger
    ensures ItemIdLine(Cleaned(map[Line := Str(zeros + NatText(n))])) == "Item id: " + NatText(n)
  {
    var data := Cleaned(map[Line := Str(zeros + NatText(n))]);
    assert Prop(data, Line) == Str(zeros + NatText(n));
    LeadingZerosIgnored(zeros, NatText(n));
    DigitsValueOfNatText(n);
  }

  // ---------------------------------------------------------------------
  // Recipients
  // ---------------------------------------------------------------------

  /** The `reduce` of `sendSelectedItemsEmail`: push each address not yet included. */
  function AddUnique(unique: seq<Value>, addresses: seq<Value>): seq<Value>
    decreases |addresses|
  {
    if addresses == [] then unique
    else
      AddUnique(Pushed(unique, addresses[0]), addresses[1..])
  }

  /** Reference definition: the addresses that do not occur earlier in the list, in list order. */
  function FirstOccurrences(addresses: seq<Value>): seq<Value>
  {
    if addresses == [] then []
    else
      var init := addresses[..|addresses| - 1];
      var last := addresses[|addresses| - 1];
      assert addresses == init + [last];
      FirstOccurrences(init) + (if last in init then [] else [last])
  }

  /** The first occurrences hold exactly the addresses of the list. */
  lemma {:induction false} FirstOccurrencesElements(addresses: seq<Value>)
    ensures forall v :: v in FirstOccurrences(addresses) <==> v in addresses
  {
    if addresses != [] {
      var init := addresses[..|addresses| - 1];
      FirstOccurrencesElements(init);
      assert addresses == init + [addresses[|addresses| - 1]];
    }
  }

  predicate Distinct(s: seq<Value>)
  {
    forall i, j :: 0 <= i < j < |s| ==> s[i] != s[j]
  }

  lemma {:induction false} FirstOccurrencesDistinct(addresses: seq<Value>)
    ensures Distinct(FirstOccurrences(addresses))
  {
    if addresses != [] {
      FirstOccurrencesDistinct(addresses[..|addresses| - 1]);
      FirstOccurrencesElements(addresses[..|addresses| - 1]);
    }
  }

  lemma FirstOccurrencesSnoc(seen: seq<Value>, x: Value)
    ensures FirstOccurrences(seen + [x]) == if x in FirstOccurrences(seen) then FirstOccurrences(seen)
                                             else FirstOccurrences(seen) + [x]
  {
    assert (seen + [x])[..|seen|] == seen;
    FirstOccurrencesElements(seen);
  }

  /** The address the `reduce` pushes next, if any, extends the first occurrences of what it has seen. */
  function Pushed(unique: seq<Value>, x: Value): seq<Value>
  {
    if x in unique then unique else unique + [x]
  }

  lemma PushedExtends(seen: seq<Value>, x: Value)
    ensures Pushed(FirstOccurrences(seen), x) == FirstOccurrences(seen + [x])
  {
    FirstOccurrencesSnoc(seen, x);
  }

  lemma {:induction false} AddUniqueFrom(unique: seq<Value>, seen: seq<Value>, rest: seq<Value>)
    requires unique == FirstOccurrences(seen)
    ensures AddUnique(unique, rest) == FirstOccurrences(seen + rest)
    decreases |rest|
  {
    if rest == [] {
      assert seen + rest == seen;
    } else {
      var next := Pushed(unique, rest[0]);
      assert AddUnique(unique, rest) == AddUnique(next, rest[1..]);
      PushedExtends(seen, rest[0]);
      AddUniqueFrom(next, seen + [rest[0]], rest[1..]);
      assert (seen + [rest[0]]) + rest[1..] == seen + rest;
    }
  }

  /**
   * The de-duplicated recipients: each address once, every address of the
   * selection present, in the order of first occurrence.
   */
  lemma UniqueRecipients(addresses: seq<Value>)
    ensures AddUnique([], addresses) == FirstOccurrences(addresses)
    ensures Distinct(AddUnique([], addresses))
    ensures forall v :: v in AddUnique([], addresses) <==> v in addresses
  {
    AddUniqueFrom([], [], addresses);
    assert [] + addresses == addresses;
    FirstOccurrencesDistinct(addresses);
    FirstOccurrencesElements(addresses);
  }

  /** How `join` prints an element: `undefined` and `null` become "". */
  function JoinText(v: Value): string
  {
    if v.Undefined? || v.Null? then "" else ToText(v)
  }

  function JoinValues(values: seq<Value>, sep: string): (r: string)
    ensures values == [] ==> r == ""
    ensures |values| == 1 ==> r == JoinText(values[0])
  {
    Join(seq(|values|, i requires 0 <= i < |values| => JoinText(values[i])), sep)
  }

  // ---------------------------------------------------------------------
  // The two e-mails
  // ---------------------------------------------------------------------

  const MaxItems: nat := 5
  const TooManyWarning: string := "Too many items selected for sending email.  Please limit your selection to 5"
  const SelectionSubject: string := "Urgent Board materials"
  const ItemSeparator: string :=
    "\n***********************************************************************\n"

  datatype SelectionOutcome =
    | TooMany(warning: string)
    | Draft(recipients: string, subject: string, body: string)

  function Contacts(items: seq<Item>): (r: seq<Value>)
    ensures |r| == |items| && forall i :: 0 <= i < |items| ==> r[i] == Prop(items[i], ContactEmail)
  {
    seq(|items|, i requires 0 <= i < |items| => Prop(items[i], ContactEmail))
  }

  function Bodies(items: seq<Item>): (r: seq<string>)
    ensures |r| == |items| && forall i :: 0 <= i < |items| ==> r[i] == ItemBody(items[i])
  {
    seq(|items|, i requires 0 <= i < |items| => ItemBody(items[i]))
  }

  /** The recipient line: the `reduce` result joined with "; ". */
  function Recipients(contacts: seq<Value>): (r: string)
    ensures r == JoinValues(FirstOccurrences(contacts), "; ")
  {
    UniqueRecipients(contacts);
    JoinValues(AddUnique([], contacts), "; ")
  }

  /** The selection body: the item bodies with a separator before, between and after them. */
  function DraftBody(bodies: seq<string>): string
  {
    ItemSeparator + Join(bodies, ItemSeparator) + ItemSeparator
  }

  /**
   * `sendSelectedItemsEmail`: more than five selected items only warn;
   * otherwise the draft goes to each contact once, in selection order, and
   * the body holds the item bodies framed by separators.
   */
  function SelectedItemsEmail(items: seq<Item>): (r: SelectionOutcome)
    ensures r.TooMany? <==> |items| > MaxItems
    ensures r.TooMany? ==> r.warning == TooManyWarning
    ensures r.Draft? ==>
      && r.subject == SelectionSubject
      && r.recipients == Recipients(Contacts(items))
      && r.body == DraftBody(Bodies(items))
  {
    if |items| > MaxItems then TooMany("Too many items selected for sending email.  Please limit your selection to " + NatText(MaxItems))
    else Draft(Recipients(Contacts(items)), "Urgent Board materials", DraftBody(Bodies(items)))
  }

  /** Two selected items: both bodies appear, each framed by separators. */
  lemma TwoItemDraft(x: string, y: string)
    ensures DraftBody([x, y]) == ItemSeparator + x + ItemSeparator + y + ItemSeparator
  {
    JoinOpens([x, y], ItemSeparator);
    assert [x, y][1..] == [y];
  }

  /** Two items with the same contact produce that contact as the only recipient. */
  lemma {:induction false} SharedContactOnce(c: Value)
    ensures Recipients([c, c]) == JoinText(c)
  {
    var cs := [c, c];
    assert cs[..1] == [c];
    assert cs[..1][..0] == [];
    assert FirstOccurrences(cs[..1]) == [c];
    assert FirstOccurrences(cs) == [c];
  }
}
