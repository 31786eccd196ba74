/** The order summary helpers of src/utils/order.ts: normalising an order's
    lines, deriving one status label from the lines' statuses, and picking
    the total, tracking number and customer name through fallbacks. */
module Orders {
  import opened Wrappers
  import opened Js
  import opened Text

  /** One line of an order; only the fields the helpers read. */
  datatype OrderLine = OrderLine(status: Option<string>, trackingNumber: Option<string>)

  /** `orderInfo`: absent, a single line, or an array of lines. */
  datatype OrderInfo = NoInfo | OneLine(line: OrderLine) | Lines(lines: seq<OrderLine>)

  /** `customerInfo`: absent, a plain string, or a contact record. */
  datatype CustomerInfo =
    | NoCustomer
    | CustomerText(text: string)
    | CustomerRecord(firstName: Option<string>, lastName: Option<string>, email: Option<string>)

  /** `totalAmount`: absent, a plain number, or a totals record whose `total`
      may itself be missing. */
  datatype TotalAmount = NoTotal | TotalNumber(n: Number) | TotalRecord(total: Option<Number>)

  datatype Order = Order(orderInfo: OrderInfo, customerInfo: CustomerInfo, totalAmount: TotalAmount)

  /** `toOrderLines`. */
  function ToOrderLines(oi: OrderInfo): (r: seq<OrderLine>)
    ensures oi.NoInfo? ==> r == []
    ensures oi.OneLine? ==> r == [oi.line]
    ensures oi.Lines? ==> r == oi.lines
  {
    match oi
    case NoInfo => []
    case OneLine(l) => [l]
    case Lines(ls) => ls
  }

  /** `itemsCount`: a single-line order counts as one item. */
  function ItemsCount(o: Order): (r: nat)
    ensures o.orderInfo.NoInfo? ==> r == 0
    ensures o.orderInfo.OneLine? ==> r == 1
    ensures o.orderInfo.Lines? ==> r == |o.orderInfo.lines|
  {
    |ToOrderLines(o.orderInfo)|
  }

  /** `trackingNumber`: the first line's tracking number, if any. */
  function TrackingNumber(o: Order): (r: Option<string>)
    ensures ToOrderLines(o.orderInfo) == [] ==> r == None
    ensures ToOrderLines(o.orderInfo) != [] ==> r == ToOrderLines(o.orderInfo)[0].trackingNumber
    ensures o.orderInfo.OneLine? ==> r == o.orderInfo.line.trackingNumber
  {
    var lines := ToOrderLines(o.orderInfo);
    if |lines| == 0 then None else lines[0].trackingNumber
  }

  /** An order with a tracking number has at least one item, and the number
      is that of the first of its `itemsCount` lines. */
  lemma TrackingNumberNeedsItem(o: Order)
    requires TrackingNumber(o).Some?
    ensures ItemsCount(o) >= 1
    ensures TrackingNumber(o) == ToOrderLines(o.orderInfo)[0].trackingNumber
  {
  }

  /** A line whose status is set to the given (non-empty) word. */
  predicate HasStatus(lines: seq<OrderLine>, s: string)
  {
    exists i :: 0 <= i < |lines| && lines[i].status == Some(s)
  }

  /** `lines.map(l => l.status).filter(Boolean)`: the non-empty statuses, in order. */
  function Statuses(lines: seq<OrderLine>): (r: seq<string>)
    ensures forall s :: s in r <==> s != "" && HasStatus(lines, s)
  {
    if |lines| == 0 then []
    else
      var rest := Statuses(lines[1..]);
      assert forall s :: HasStatus(lines, s) <==> lines[0].status == Some(s) || HasStatus(lines[1..], s) by {
        forall s | HasStatus(lines, s) ensures lines[0].status == Some(s) || HasStatus(lines[1..], s) {
          var i :| 0 <= i < |lines| && lines[i].status == Some(s);
          if i > 0 { assert lines[1..][i - 1] == lines[i]; }
        }
        forall s | HasStatus(lines[1..], s) ensures HasStatus(lines, s) {
          var i :| 0 <= i < |lines[1..]| && lines[1..][i].status == Some(s);
          assert lines[i + 1] == lines[1..][i];
        }
      }
      match lines[0].status
      case Some(s) => if s != "" then [s] + rest else rest
      case None => rest
  }

  const Delivered := "Delivered"
  const Cancelled := "Cancelled"
  const OutForDelivery := "Out for delivery"
  const Processing := "Processing"
  const AtLocalFacility := "At local facility"
  const Pending := "Pending"

  /** Every line that carries a non-empty status carries "completed". */
  predicate AllCompleted(lines: seq<OrderLine>)
  {
    forall i :: 0 <= i < |lines| && lines[i].status.Some? && lines[i].status.value != "" ==>
      lines[i].status.value == "completed"
  }

  /** `statusLabel`: "Pending" when there is no status at all, "Delivered" when
      every status is "completed", and otherwise the first of cancelled,
      out-for-delivery, processing and at-local-facility that some line has. */
  function StatusLabel(o: Order): (r: string)
    ensures r in {Delivered, Cancelled, OutForDelivery, Processing, AtLocalFacility, Pending}
    ensures var ls := ToOrderLines(o.orderInfo);
      r == Delivered <==> HasStatus(ls, "completed") && AllCompleted(ls)
    ensures var ls := ToOrderLines(o.orderInfo);
      r == Cancelled <==> HasStatus(ls, "cancelled")
    ensures var ls := ToOrderLines(o.orderInfo);
      r == OutForDelivery <==> HasStatus(ls, "out-for-delivery") && !HasStatus(ls, "cancelled")
    ensures var ls := ToOrderLines(o.orderInfo);
      r == Processing <==>
        HasStatus(ls, "processing") && !HasStatus(ls, "out-for-delivery") && !HasStatus(ls, "cancelled")
    ensures var ls := ToOrderLines(o.orderInfo);
      r == AtLocalFacility <==>
        HasStatus(ls, "at-local-facility") && !HasStatus(ls, "processing")
        && !HasStatus(ls, "out-for-delivery") && !HasStatus(ls, "cancelled")
  {
    var ls := ToOrderLines(o.orderInfo);
    var statuses := Statuses(ls);
    StatusesAllCompleted(ls);
    if |statuses| == 0 then
      assert "completed" !in statuses;
      Pending
    else if forall s :: s in statuses ==> s == "completed" then
      assert statuses[0] in statuses;
      Delivered
    else if "cancelled" in statuses then Cancelled
    else if "out-for-delivery" in statuses then OutForDelivery
    else if "processing" in statuses then Processing
    else if "at-local-facility" in statuses then AtLocalFacility
    else Pending
  }

  lemma StatusesAllCompleted(ls: seq<OrderLine>)
    ensures (forall s :: s in Statuses(ls) ==> s == "completed") <==> AllCompleted(ls)
  {
    if !AllCompleted(ls) {
      var i :| 0 <= i < |ls| && ls[i].status.Some? && ls[i].status.value != "" && ls[i].status.value != "completed";
      assert ls[i].status.value in Statuses(ls);
    }
  }

  const GreenBadge := "bg-green-100 text-green-800 hover:bg-green-100"
  const BlueBadge := "bg-blue-100 text-blue-800 hover:bg-blue-100"
  const RedBadge := "bg-red-100 text-red-800 hover:bg-red-100"
  const AmberBadge := "bg-amber-100 text-amber-800 hover:bg-amber-100"
  const PurpleBadge := "bg-purple-100 text-purple-800 hover:bg-purple-100"
  const GrayBadge := "bg-gray-100 text-gray-800 hover:bg-gray-100"

  /** The lower-cased labels that have a coloured badge. */
  const BadgeWords: set<string> :=
    {"delivered", "completed", "processing", "cancelled", "out for delivery", "at local facility"}

  /** `statusBadgeClass`: the badge colour for a label, matched after lower-casing. */
  function StatusBadgeClass(caption: string): (r: string)
    ensures r in {GreenBadge, BlueBadge, RedBadge, AmberBadge, PurpleBadge, GrayBadge}
    ensures r == GreenBadge <==> ToLower(caption) in {"delivered", "completed"}
    ensures r == BlueBadge <==> ToLower(caption) == "processing"
    ensures r == RedBadge <==> ToLower(caption) == "cancelled"
    ensures r == AmberBadge <==> ToLower(caption) == "out for delivery"
    ensures r == PurpleBadge <==> ToLower(caption) == "at local facility"
    ensures r == GrayBadge <==> ToLower(caption) !in BadgeWords
  {
    var l := ToLower(caption);
    if l == "delivered" || l == "completed" then GreenBadge
    else if l == "processing" then BlueBadge
    else if l == "cancelled" then RedBadge
    else if l == "out for delivery" then AmberBadge
    else if l == "at local facility" then PurpleBadge
    else GrayBadge
  }

  /** The badge depends on the label only up to letter case. */
  lemma BadgeIgnoresCase(a: string, b: string)
    requires ToLower(a) == ToLower(b)
    ensures StatusBadgeClass(a) == StatusBadgeClass(b)
  {
  }

  /** "Delivered", the label `statusLabel` produces, and "completed", the raw
      line status, share the green badge. */
  lemma BadgeDeliveredIsCompleted()
    ensures StatusBadgeClass(Delivered) == StatusBadgeClass("completed") == GreenBadge
  {
    assert ToLower(Delivered) == "delivered";
    assert ToLower("completed") == "completed";
  }

  /** Every label `statusLabel` produces has its own coloured badge, except
      "Pending", which falls to the gray default. */
  lemma StatusLabelBadge(o: Order)
    ensures StatusLabel(o) == Pending <==> StatusBadgeClass(StatusLabel(o)) == GrayBadge
  {
    assert ToLower(Delivered) == "delivered";
    assert ToLower(Cancelled) == "cancelled";
    assert ToLower(OutForDelivery) == "out for delivery";
    assert ToLower(Processing) == "processing";
    assert ToLower(AtLocalFacility) == "at local facility";
    assert ToLower(Pending) == "pending";
  }

  /** `orderTotal`: a numeric `totalAmount` as is, else its `total`, else 0. */
  function OrderTotal(o: Order): (r: Number)
    ensures o.totalAmount.TotalNumber? ==> r == o.totalAmount.n
    ensures o.totalAmount.TotalRecord? && o.totalAmount.total.Some? ==> r == o.totalAmount.total.value
    ensures o.totalAmount.NoTotal? || (o.totalAmount.TotalRecord? && o.totalAmount.total.None?) ==> r == Finite(0.0)
    ensures r != Finite(0.0) ==> o.totalAmount.TotalNumber? || o.totalAmount.TotalRecord?
  {
    match o.totalAmount
    case TotalNumber(n) => n
    case TotalRecord(t) => t.GetOr(Finite(0.0))
    case NoTotal => Finite(0.0)
  }

  /** `${first ?? ""} ${last ?? ""}`.trim(). */
  function FullName(first: Option<string>, last: Option<string>): string
  {
    Trim(first.GetOr("") + " " + last.GetOr(""))
  }

  /** The joined name is empty exactly when both parts are blank. */
  lemma FullNameEmptyIff(a: string, b: string)
    ensures Trim(a + " " + b) == [] <==> Blank(a) && Blank(b)
  {
    var s := a + " " + b;
    TrimEmptyIffBlank(s);
    if Blank(s) {
      forall i | 0 <= i < |a| ensures IsSpace(a[i]) { assert s[i] == a[i]; }
      forall i | 0 <= i < |b| ensures IsSpace(b[i]) { assert s[|a| + 1 + i] == b[i]; }
    }
    if Blank(a) && Blank(b) {
      forall i | 0 <= i < |s| ensures IsSpace(s[i]) {
        if i < |a| {
          assert s[i] == a[i];
        } else if i == |a| {
          assert s[i] == ' ';
        } else {
          assert s[i] == b[i - |a| - 1];
        }
      }
    }
  }

  /** The fallbacks for a contact record: the name, then the e-mail, then "Customer". */
  function RecordDisplay(first: Option<string>, last: Option<string>, email: Option<string>): string
  {
    var name := FullName(first, last);
    if name != "" then name
    else if email.Some? && email.value != "" then email.value
    else "Customer"
  }

  /** `displayCustomer`. A string that is blank once trimmed is then read as
      a record without fields, so it falls through to "Customer". */
  function DisplayCustomer(o: Order): (r: string)
    ensures r != ""
    ensures o.customerInfo.CustomerText? && !Blank(o.customerInfo.text) ==>
      r == Trim(o.customerInfo.text) && Trimmed(r)
    ensures o.customerInfo.CustomerText? && Blank(o.customerInfo.text) ==> r == "Customer"
    ensures o.customerInfo.NoCustomer? ==> r == "Customer"
    ensures match o.customerInfo
      case CustomerRecord(f, l, e) =>
        (!Blank(f.GetOr("")) || !Blank(l.GetOr(""))) ==> r == FullName(f, l) && Trimmed(r)
      case _ => true
    ensures match o.customerInfo
      case CustomerRecord(f, l, e) =>
        Blank(f.GetOr("")) && Blank(l.GetOr("")) ==>
          r == (if e.Some? && e.value != "" then e.value else "Customer")
      case _ => true
  {
    match o.customerInfo
    case CustomerText(t) =>
      TrimEmptyIffBlank(t);
      if Trim(t) != "" then Trim(t)
      else if t == "" then "Customer"
      else
        FullNameEmptyIff("", "");
        RecordDisplay(None, None, None)
    case NoCustomer => "Customer"
    case CustomerRecord(f, l, e) =>
      FullNameEmptyIff(f.GetOr(""), l.GetOr(""));
      RecordDisplay(f, l, e)
  }
}
