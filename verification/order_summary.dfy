/**
  * The checkout summary dialog (client/src/app/shared/components/OrderSummary.tsx):
  * the totals it shows and the payment method it hands back on confirm. The
  * source works in floating-point dollars; here every amount is whole cents,
  * and `currencyFormat` is a parameter.
  */
module OrderSummary {
  import opened Wrappers
  import opened Text

  /** `PaymentMethod`. */
  datatype PaymentMethod = Card | Cash

  /** The dialog's inputs; the optional amounts default to 0. */
  datatype SummaryProps = SummaryProps(open: bool, subtotal: int, deliveryFee: Option<int>, discount: Option<int>, totalItems: int)

  /** What the dialog shows. */
  datatype SummaryView = SummaryView(subtotal: int, discountText: string, deliveryFee: int, total: int, countText: string)

  /** `total`: subtotal plus delivery fee minus discount. */
  function Total(subtotal: int, deliveryFee: Option<int>, discount: Option<int>): (t: int)
    ensures deliveryFee.None? && discount.None? ==> t == subtotal
    ensures t - subtotal == deliveryFee.GetOr(0) - discount.GetOr(0)
  {
    subtotal + deliveryFee.GetOr(0) - discount.GetOr(0)
  }

  /** `item` for exactly one, `items` otherwise. */
  function ItemWord(totalItems: int): (w: string)
    ensures w == "item" <==> totalItems == 1
    ensures w == "item" || w == "items"
  {
    if totalItems == 1 then "item" else "items"
  }

  /** The discount row: the formatted discount after a minus sign when positive, otherwise "-$0.00". */
  function DiscountText(discount: int, currencyFormat: int -> string): (s: string)
    ensures discount > 0 ==> s == "-" + currencyFormat(discount)
    ensures discount <= 0 ==> s == "-$0.00"
    ensures |s| > 0 && s[0] == '-'
  {
    if discount > 0 then "-" + currencyFormat(discount) else "-$0.00"
  }

  /** The dialog: nothing when closed, otherwise the rows and the item count line. */
  function Render(props: SummaryProps, currencyFormat: int -> string): (v: Option<SummaryView>)
    ensures v.None? <==> !props.open
    ensures v.Some? ==> v.value.total == Total(props.subtotal, props.deliveryFee, props.discount)
    ensures v.Some? ==> v.value.deliveryFee == props.deliveryFee.GetOr(0)
    ensures v.Some? ==> v.value.subtotal == props.subtotal
    ensures v.Some? ==> v.value.discountText == DiscountText(props.discount.GetOr(0), currencyFormat)
    ensures v.Some? && props.discount.GetOr(0) <= 0 ==> v.value.discountText == "-$0.00"
    ensures v.Some? ==> v.value.countText == IntText(props.totalItems) + " " + ItemWord(props.totalItems)
  {
    if !props.open then None
    else
      var fee := props.deliveryFee.GetOr(0);
      var discount := props.discount.GetOr(0);
      Some(SummaryView(props.subtotal, DiscountText(discount, currencyFormat), fee,
                       Total(props.subtotal, props.deliveryFee, props.discount),
                       IntText(props.totalItems) + " " + ItemWord(props.totalItems)))
  }

  /** The dialog's own state: the selected payment method. */
  const InitialPayment := Card

  /** The dialog's actions. */
  datatype SummaryEvent = ChooseCard | ChooseCash | Confirm

  /** The selection after a run of events, and the method each confirm passed on. */
  function Interact(events: seq<SummaryEvent>): (r: (PaymentMethod, seq<PaymentMethod>))
    ensures |r.1| <= |events|
    decreases |events|
  {
    if |events| == 0 then (InitialPayment, [])
    else
      var (selected, confirmed) := Interact(events[..|events| - 1]);
      match events[|events| - 1]
      case ChooseCard => (Card, confirmed)
      case ChooseCash => (Cash, confirmed)
      case Confirm => (selected, confirmed + [selected])
  }

  /** The method selected after a run of events: the last choice made, or card. */
  function LastChoice(events: seq<SummaryEvent>): PaymentMethod
    decreases |events|
  {
    if |events| == 0 then Card
    else match events[|events| - 1]
      case ChooseCard => Card
      case ChooseCash => Cash
      case Confirm => LastChoice(events[..|events| - 1])
  }

  /** Confirming passes on the last method chosen, card when none was. */
  lemma {:induction false} ConfirmPassesSelection(events: seq<SummaryEvent>)
    ensures Interact(events).0 == LastChoice(events)
    ensures Interact(events + [Confirm]).1 == Interact(events).1 + [LastChoice(events)]
    decreases |events|
  {
    if |events| > 0 {
      ConfirmPassesSelection(events[..|events| - 1]);
    }
    assert (events + [Confirm])[..|events|] == events;
  }
}
