/** Payments (app/api/v1/endpoints/payments.py over app/crud/crud_payment.py):
    the shared 404-then-403 guard of the read, update and delete handlers. */
module Payments {
  import opened Common

  /** The two invoice columns the guard reads. */
  datatype Invoice = Invoice(id: nat, userId: int)

  /** A payment row, without its float amount and its timestamp. */
  datatype Payment = Payment(id: nat, invoiceId: int, transactionId: Option<string>, paymentGateway: Option<string>)

  datatype PaymentCreate = PaymentCreate(invoiceId: int, transactionId: Option<string>, paymentGateway: Option<string>)

  /** `PaymentUpdate`: every field may be left out or given as null. */
  datatype PaymentUpdate = PaymentUpdate(
    invoiceId: Patch<Option<int>>, transactionId: Patch<Option<string>>, paymentGateway: Patch<Option<string>>)

  const PAYMENT_NOT_FOUND: string := "Payment not found"
  const NOT_AUTHORIZED: string := "Not authorized to access this payment"

  /** `get_payment`: the position of the payment with that id. */
  function PaymentIndex(payments: seq<Payment>, paymentId: int): (r: Option<nat>)
    ensures r.Some? ==> (r.value < |payments| && payments[r.value].id == paymentId)
    ensures r.None? <==> forall j :: 0 <= j < |payments| ==> payments[j].id != paymentId
  {
    FirstIndex(payments, (p: Payment) => p.id == paymentId)
  }

  /** `payment.invoice`: the invoice the payment points at, if it exists. */
  function InvoiceOf(invoices: seq<Invoice>, invoiceId: int): (r: Option<Invoice>)
    ensures r.Some? ==> r.value in invoices && r.value.id == invoiceId
    ensures r.None? <==> forall j :: 0 <= j < |invoices| ==> invoices[j].id != invoiceId
  {
    First(invoices, (inv: Invoice) => inv.id == invoiceId)
  }

  /** The guard every one of `read_payment`, `update_payment` and
      `delete_payment` runs: 404 for a missing payment, 403 for a caller who
      is not a superuser, 403 when the invoice belongs to someone else;
      otherwise the payment's position. */
  function PaymentAccess(payments: seq<Payment>, invoices: seq<Invoice>, caller: Caller, paymentId: int): Result<nat> {
    match PaymentIndex(payments, paymentId)
    case None => Err(HttpError(404, PAYMENT_NOT_FOUND))
    case Some(i) =>
      if !caller.isSuperuser then Err(HttpError(403, NOT_AUTHORIZED))
      else match InvoiceOf(invoices, payments[i].invoiceId)
        case Some(inv) => if inv.userId != caller.id then Err(HttpError(403, NOT_AUTHORIZED)) else Ok(i)
        case None => Ok(i)
  }

  /** Access is granted exactly when the payment exists, the caller is a
      superuser, and there is no invoice or it is the caller's. */
  lemma {:induction false} AccessIff(payments: seq<Payment>, invoices: seq<Invoice>, caller: Caller, paymentId: int)
    ensures PaymentAccess(payments, invoices, caller, paymentId).Ok? <==>
      (exists i :: 0 <= i < |payments| && payments[i].id == paymentId)
      && caller.isSuperuser
      && var p := payments[PaymentIndex(payments, paymentId).value];
         (InvoiceOf(invoices, p.invoiceId).None? || InvoiceOf(invoices, p.invoiceId).value.userId == caller.id)
    ensures PaymentAccess(payments, invoices, caller, paymentId).Ok? ==>
      PaymentAccess(payments, invoices, caller, paymentId).value == PaymentIndex(payments, paymentId).value
  {
    if PaymentIndex(payments, paymentId).Some? {
      var i := PaymentIndex(payments, paymentId).value;
      assert payments[i].id == paymentId;
    }
  }

  /** A missing payment is 404 whoever asks: no permission check runs first. */
  lemma MissingPaymentIsNotFound(payments: seq<Payment>, invoices: seq<Invoice>, caller: Caller, paymentId: int)
    requires forall j :: 0 <= j < |payments| ==> payments[j].id != paymentId
    ensures PaymentAccess(payments, invoices, caller, paymentId) == Err(HttpError(404, PAYMENT_NOT_FOUND))
  {
  }

  /** A caller who is not a superuser is refused every existing payment,
      even one on their own invoice. */
  lemma NonSuperuserIsRefused(payments: seq<Payment>, invoices: seq<Invoice>, caller: Caller, i: nat)
    requires i < |payments| && !caller.isSuperuser
    ensures PaymentAccess(payments, invoices, caller, payments[i].id) == Err(HttpError(403, NOT_AUTHORIZED))
  {
  }

  /** A superuser is refused a payment whose invoice is another user's. */
  lemma OtherUsersInvoiceIsRefused(payments: seq<Payment>, invoices: seq<Invoice>, caller: Caller, paymentId: int)
    requires PaymentIndex(payments, paymentId).Some?
    requires var p := payments[PaymentIndex(payments, paymentId).value];
      InvoiceOf(invoices, p.invoiceId).Some? && InvoiceOf(invoices, p.invoiceId).value.userId != caller.id
    ensures PaymentAccess(payments, invoices, caller, paymentId) == Err(HttpError(403, NOT_AUTHORIZED))
  {
  }

  /** `read_payment`: the guard, then the payment itself. */
  function ReadPayment(payments: seq<Payment>, invoices: seq<Invoice>, caller: Caller, paymentId: int): (r: Result<Payment>)
    ensures r.Ok? <==> PaymentAccess(payments, invoices, caller, paymentId).Ok?
    ensures r.Ok? ==> r.value in payments && r.value.id == paymentId
    ensures r.Err? ==> r.error == PaymentAccess(payments, invoices, caller, paymentId).error
  {
    match PaymentAccess(payments, invoices, caller, paymentId)
    case Err(e) => Err(e)
    case Ok(i) => Ok(payments[i])
  }

  /** `get_payments_by_invoice` behind `read_payments_for_invoice`: the
      invoice's payments in table order, then the `[skip, skip + limit)`
      window; no ownership rule applies. */
  function PaymentsOfInvoice(payments: seq<Payment>, invoiceId: int): (r: seq<Payment>)
    ensures forall k :: 0 <= k < |r| ==> r[k] in payments && r[k].invoiceId == invoiceId
    ensures forall p :: p in payments && p.invoiceId == invoiceId ==> p in r
    ensures |r| <= |payments|
  {
    if |payments| == 0 then []
    else
      var last := payments[|payments| - 1];
      PaymentsOfInvoice(payments[..|payments| - 1], invoiceId) + (if last.invoiceId == invoiceId then [last] else [])
  }

  function ReadPaymentsForInvoice(payments: seq<Payment>, invoiceId: int, skip: nat, limit: nat): (r: seq<Payment>)
    ensures forall k :: 0 <= k < |r| ==> r[k] in payments && r[k].invoiceId == invoiceId
    ensures |r| <= limit
    ensures forall k :: 0 <= k < |r| ==> skip + k < |PaymentsOfInvoice(payments, invoiceId)| && r[k] == PaymentsOfInvoice(payments, invoiceId)[skip + k]
    ensures skip + limit <= |PaymentsOfInvoice(payments, invoiceId)| ==> |r| == limit
  {
    Window(PaymentsOfInvoice(payments, invoiceId), skip, limit)
  }

  /** A window wide enough lists every payment of the invoice, whoever owns
      the invoice: `read_payments_for_invoice` has no caller to check. */
  lemma ListingShowsEveryPayment(payments: seq<Payment>, p: Payment)
    requires p in payments
    ensures p in ReadPaymentsForInvoice(payments, p.invoiceId, 0, |payments|)
  {
    var inv := PaymentsOfInvoice(payments, p.invoiceId);
    assert p in inv;
    var k :| 0 <= k < |inv| && inv[k] == p;
    assert ReadPaymentsForInvoice(payments, p.invoiceId, 0, |payments|)[k] == inv[k];
  }

  /** `setattr` over the given fields of a `PaymentUpdate`. */
  function Patched(p: Payment, upd: PaymentUpdate): Payment {
    p.(invoiceId := ApplyValue(upd.invoiceId, p.invoiceId),
       transactionId := upd.transactionId.Apply(p.transactionId),
       paymentGateway := upd.paymentGateway.Apply(p.paymentGateway))
  }

  /** An update keeps the payment's id, and an empty update changes nothing. */
  lemma PatchKeepsId(p: Payment, upd: PaymentUpdate)
    ensures Patched(p, upd).id == p.id
    ensures upd == PaymentUpdate(Unset, Unset, Unset) ==> Patched(p, upd) == p
    ensures upd.invoiceId.Unset? ==> Patched(p, upd).invoiceId == p.invoiceId
    ensures upd.invoiceId.Set? && upd.invoiceId.value.Some? ==> Patched(p, upd).invoiceId == upd.invoiceId.value.value
  {
  }

  /** The `payments` and `invoices` tables. */
  class PaymentStore {
    var payments: seq<Payment>
    var invoices: seq<Invoice>
    var nextId: nat

    ghost predicate Valid()
      reads this
    {
      forall i :: 0 <= i < |payments| ==> payments[i].id < nextId
    }

    constructor (invoices: seq<Invoice>)
      ensures Valid() && this.payments == [] && this.invoices == invoices
    {
      this.payments := [];
      this.invoices := invoices;
      nextId := 1;
    }

    /** `create_payment`: one new row, with no ownership check. */
    method CreatePayment(c: PaymentCreate) returns (p: Payment)
      requires Valid()
      modifies this
      ensures Valid()
      ensures p == Payment(old(nextId), c.invoiceId, c.transactionId, c.paymentGateway)
      ensures payments == old(payments) + [p] && invoices == old(invoices) && nextId == old(nextId) + 1
    {
      p := Payment(nextId, c.invoiceId, c.transactionId, c.paymentGateway);
      payments := payments + [p];
      nextId := nextId + 1;
    }

    /** `update_payment`: the guard; only then the given fields change.  A
        null `invoice_id` breaks its NOT NULL constraint at the commit, which
        then changes nothing. */
    method UpdatePayment(caller: Caller, paymentId: int, upd: PaymentUpdate) returns (r: Result<Payment>)
      requires Valid()
      modifies this
      ensures Valid() && invoices == old(invoices) && nextId == old(nextId)
      ensures match PaymentAccess(old(payments), old(invoices), caller, paymentId)
        case Err(e) => r == Err(e) && payments == old(payments)
        case Ok(i) =>
          if GivesNull(upd.invoiceId) then r == Err(IntegrityError("invoice_id")) && payments == old(payments)
          else r == Ok(Patched(old(payments)[i], upd)) && payments == old(payments)[i := r.value]
    {
      var access := PaymentAccess(payments, invoices, caller, paymentId);
      if access.Err? {
        return Err(access.error);
      }
      var i := access.value;
      if GivesNull(upd.invoiceId) {
        return Err(IntegrityError("invoice_id"));
      }
      var p := Patched(payments[i], upd);
      payments := payments[i := p];
      return Ok(p);
    }

    /** `delete_payment`: the guard; only then the row goes. */
    method DeletePayment(caller: Caller, paymentId: int) returns (r: Outcome)
      requires Valid()
      modifies this
      ensures Valid() && invoices == old(invoices) && nextId == old(nextId)
      ensures match PaymentAccess(old(payments), old(invoices), caller, paymentId)
        case Err(e) => r == Fail(e) && payments == old(payments)
        case Ok(i) => r == Pass && payments == RemoveAt(old(payments), i)
    {
      var access := PaymentAccess(payments, invoices, caller, paymentId);
      if access.Err? {
        return Fail(access.error);
      }
      payments := RemoveAt(payments, access.value);
      return Pass;
    }
  }
}
