/** The registration page (pages/RegisterCheck.tsx): the form state, the
    required-field gate and reset on submit, and the merge of fields read
    from a photo of the check. */
module RegisterCheck {
  import opened Wrappers
  import opened Types
  import opened App

  /** The form state; the amount is the text typed in the field. */
  datatype FormData = FormData(
    checkNumber: string,
    amount: string,
    bankName: string,
    issuerName: string,
    receiverName: string,
    issueDate: string,
    dueDate: string,
    status: CheckStatus)

  /** The initial (and reset) form: every text empty, the first bank of the
      bank list selected, status pending. */
  function InitialForm(firstBank: string): (r: FormData)
    ensures r.status == Pending && r.bankName == firstBank
    ensures r.checkNumber == r.amount == r.issuerName == r.receiverName == r.issueDate == r.dueDate == []
    ensures !RequiredFilled(r)
  {
    FormData([], [], firstBank, [], [], [], [], Pending)
  }

  /** The gate of `handleSubmit`: check number, amount and due date are all
      non-empty. */
  function RequiredFilled(f: FormData): (r: bool)
    ensures r <==> forall field :: field in [f.checkNumber, f.amount, f.dueDate] ==> |field| > 0
  {
    f.checkNumber != [] && f.amount != [] && f.dueDate != []
  }

  /** The form a draft came from, given the amount text. */
  function FormOf(d: CheckDraft, amountText: string): FormData
  {
    FormData(d.checkNumber, amountText, d.bankName, d.issuerName, d.receiverName, d.issueDate, d.dueDate, d.status)
  }

  /** `{ ...formData, amount: Number(formData.amount) }`; `toNumber` stands
      for `Number`. Every field but the amount is passed on unchanged. */
  function ToDraft(f: FormData, toNumber: string -> int): (r: CheckDraft)
    ensures FormOf(r, f.amount) == f
    ensures r.amount == toNumber(f.amount)
  {
    CheckDraft(f.checkNumber, toNumber(f.amount), f.bankName, f.issuerName, f.receiverName, f.issueDate, f.dueDate, f.status)
  }

  /** What the image reader returns; a field may be missing. */
  datatype Extraction = Extraction(
    checkNumber: Option<string>,
    amount: Option<int>,
    issuer: Option<string>,
    dueDate: Option<string>)

  /** A JavaScript string value that is present and non-empty, i.e. truthy. */
  predicate Truthy(v: Option<string>)
  {
    v.Some? && v.value != []
  }

  function OrElse(v: Option<string>, previous: string): string
  {
    if Truthy(v) then v.value else previous
  }

  function AmountText(v: Option<int>): Option<string>
  {
    match v
    case None => None
    case Some(n) => Some(NumberToString(n))
  }

  /** The update in `handleFileChange`: each of check number, amount,
      issuer and due date is replaced only by a truthy extracted value (an
      amount, once turned into text, is never empty, so any present amount,
      zero included, replaces the old one); the rest of the form is kept. */
  function MergeExtraction(prev: FormData, x: Extraction): (r: FormData)
    ensures r.(checkNumber := prev.checkNumber, amount := prev.amount,
               issuerName := prev.issuerName, dueDate := prev.dueDate) == prev
    ensures Truthy(x.checkNumber) ==> r.checkNumber == x.checkNumber.value
    ensures !Truthy(x.checkNumber) ==> r.checkNumber == prev.checkNumber
    ensures x.amount.Some? ==> r.amount == NumberToString(x.amount.value)
    ensures x.amount.None? ==> r.amount == prev.amount
    ensures Truthy(x.issuer) ==> r.issuerName == x.issuer.value
    ensures !Truthy(x.issuer) ==> r.issuerName == prev.issuerName
    ensures Truthy(x.dueDate) ==> r.dueDate == x.dueDate.value
    ensures !Truthy(x.dueDate) ==> r.dueDate == prev.dueDate
  {
    prev.(
      checkNumber := OrElse(x.checkNumber, prev.checkNumber),
      amount := OrElse(AmountText(x.amount), prev.amount),
      issuerName := OrElse(x.issuer, prev.issuerName),
      dueDate := OrElse(x.dueDate, prev.dueDate))
  }

  /** Reading the same photo twice changes nothing the second time. */
  lemma MergeIdempotent(prev: FormData, x: Extraction)
    ensures MergeExtraction(MergeExtraction(prev, x), x) == MergeExtraction(prev, x)
  {
  }

  /** A merge never empties a field: a form that passed the gate still does. */
  lemma MergeKeepsRequired(prev: FormData, x: Extraction)
    requires RequiredFilled(prev)
    ensures RequiredFilled(MergeExtraction(prev, x))
  {
  }

  /** The registration page: the form and the drafts handed to `onAdd`. */
  class RegisterCheckPage {
    const firstBank: string
    var form: FormData
    var submitted: seq<CheckDraft>

    constructor(firstBank: string)
      ensures this.firstBank == firstBank
      ensures form == InitialForm(firstBank) && submitted == []
    {
      this.firstBank := firstBank;
      form := InitialForm(firstBank);
      submitted := [];
    }

    /** `handleSubmit`: refused unless the required fields are filled;
      otherwise the draft goes to `onAdd` and the form is reset. */
    method Submit(toNumber: string -> int) returns (accepted: bool)
      modifies this
      ensures accepted <==> RequiredFilled(old(form))
      ensures accepted ==> submitted == old(submitted) + [ToDraft(old(form), toNumber)] && form == InitialForm(firstBank)
      ensures !accepted ==> submitted == old(submitted) && form == old(form)
    {
      if form.checkNumber == [] || form.amount == [] || form.dueDate == [] {
        return false;
      }
      submitted := submitted + [ToDraft(form, toNumber)];
      form := InitialForm(firstBank);
      return true;
    }

    /** The state update of `handleFileChange` once the photo is read. */
    method ApplyExtraction(x: Extraction)
      modifies this
      ensures form == MergeExtraction(old(form), x) && submitted == old(submitted)
    {
      form := MergeExtraction(form, x);
    }
  }
}
