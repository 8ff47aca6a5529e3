/**
 * The entry form of src/components/GuestForm.tsx: its four fields, the input
 * handlers that change them, and the submit step that turns them into a draft for
 * the ledger.
 */
module GuestForm {
  import opened Wrappers
  import opened JsStrings
  import opened Guests

  /** The name field keeps at most this many characters. */
  const NameLimit: nat := 10

  /** The value of the amount field: its digits read as a number, 0 when it is empty. */
  function AmountValue(amount: string): (r: nat)
    requires IsDigits(amount)
    ensures r == 0 <==> forall i :: 0 <= i < |amount| ==> amount[i] == '0'
  {
    ParseDigitsZero(amount);
    if amount != "" then ParseDigits(amount) else 0
  }

  /**
   * What submitting the fields hands to the ledger: nothing when the trimmed name
   * is empty; otherwise the trimmed name, the amount field's digits read as a
   * number (0 when there are none), the meal tickets as they are, and the trimmed
   * message, absent when it is blank.
   */
  function SubmittedDraft(name: string, amount: string, mealTickets: int, message: string): (r: Option<Draft>)
    ensures r.None? <==> forall i :: 0 <= i < |name| ==> IsJsSpace(name[i])
    ensures r.Some? ==> r.value.name == Trim(name) && r.value.name != []
                        && !IsJsSpace(r.value.name[0]) && !IsJsSpace(r.value.name[|r.value.name| - 1])
    ensures r.Some? ==> r.value.amount == ParseDigits(KeepDigits(amount))
    ensures r.Some? ==> r.value.mealTickets == mealTickets
    ensures r.Some? ==> (r.value.message.None? <==> forall i :: 0 <= i < |message| ==> IsJsSpace(message[i]))
    ensures r.Some? && r.value.message.Some? ==> r.value.message.value == Trim(message) != []
  {
    if Trim(name) == "" then None
    else
      var amountStr := KeepDigits(amount);
      var value := if amountStr != "" then ParseDigits(amountStr) else 0;
      Some(Draft(Trim(name), value, mealTickets, if Trim(message) == "" then None else Some(Trim(message))))
  }

  class Form {
    var name: string
    var amount: string
    var mealTickets: int
    var message: string

    /** What the input handlers keep true: a short name, a digit-only amount, no negative count. */
    predicate Valid()
      reads this
    {
      |name| <= NameLimit && IsDigits(amount) && mealTickets >= 0
    }

    /** The empty form: `{name: '', amount: '', mealTickets: 0, message: ''}`. */
    predicate IsBlank()
      reads this
    {
      name == "" && amount == "" && mealTickets == 0 && message == ""
    }

    constructor()
      ensures IsBlank() && Valid()
    {
      name := "";
      amount := "";
      mealTickets := 0;
      message := "";
    }

    /** The name input: only the first ten characters are kept. */
    method SetName(value: string)
      modifies this
      ensures name == value[..if |value| < NameLimit then |value| else NameLimit]
      ensures |name| <= NameLimit && name <= value
      ensures amount == old(amount) && mealTickets == old(mealTickets) && message == old(message)
      ensures old(Valid()) ==> Valid()
    {
      name := value[..if |value| < NameLimit then |value| else NameLimit];
    }

    /** The message text area. */
    method SetMessage(value: string)
      modifies this
      ensures message == value
      ensures name == old(name) && amount == old(amount) && mealTickets == old(mealTickets)
      ensures old(Valid()) ==> Valid()
    {
      message := value;
    }

    /** `handleAmountChange`: only the characters 0-9 of the input are kept. */
    method HandleAmountChange(value: string)
      modifies this
      ensures amount == KeepDigits(value) && IsDigits(amount)
      ensures IsDigits(value) ==> amount == value
      ensures name == old(name) && mealTickets == old(mealTickets) && message == old(message)
      ensures old(Valid()) ==> Valid()
    {
      if IsDigits(value) {
        KeepDigitsOfDigits(value);
      }
      amount := KeepDigits(value);
    }

    /** `addToAmount`: the field becomes the decimal text of its value plus `value`. */
    method AddToAmount(value: nat)
      requires Valid()
      modifies this
      ensures Valid()
      ensures AmountValue(amount) == AmountValue(old(amount)) + value
      ensures amount == DecimalString(AmountValue(old(amount)) + value)
      ensures name == old(name) && mealTickets == old(mealTickets) && message == old(message)
    {
      var currentAmount := if amount != "" then ParseDigits(amount) else 0;
      amount := DecimalString(currentAmount + value);
      ParseDecimalString(currentAmount + value);
    }

    /** `adjustMealTickets`: the counter moves by `delta` but never below zero. */
    method AdjustMealTickets(delta: int)
      modifies this
      ensures mealTickets >= 0
      ensures old(mealTickets) + delta >= 0 ==> mealTickets == old(mealTickets) + delta
      ensures old(mealTickets) + delta < 0 ==> mealTickets == 0
      ensures name == old(name) && amount == old(amount) && message == old(message)
      ensures old(Valid()) ==> Valid()
    {
      mealTickets := if 0 < mealTickets + delta then mealTickets + delta else 0;
    }

    /** `resetForm`: back to the empty form. */
    method ResetForm()
      modifies this
      ensures IsBlank() && Valid()
    {
      name := "";
      amount := "";
      mealTickets := 0;
      message := "";
    }

    /**
     * `handleSubmit`: with a blank name nothing is submitted and the form is left
     * as it is; otherwise the normalised draft is handed on and the form is emptied.
     */
    method HandleSubmit() returns (draft: Option<Draft>)
      modifies this
      ensures draft == SubmittedDraft(old(name), old(amount), old(mealTickets), old(message))
      ensures draft.None? ==> name == old(name) && amount == old(amount)
                              && mealTickets == old(mealTickets) && message == old(message)
      ensures draft.Some? ==> IsBlank()
      ensures old(Valid()) ==> Valid()
    {
      draft := SubmittedDraft(name, amount, mealTickets, message);
      if draft.None? {
        return;
      }
      name := "";
      amount := "";
      mealTickets := 0;
      message := "";
    }
  }

  /** The amount a submit reports is the value the amount field shows. */
  lemma SubmittedAmountIsFieldValue(name: string, amount: string, mealTickets: int, message: string)
    requires IsDigits(amount)
    requires SubmittedDraft(name, amount, mealTickets, message).Some?
    ensures SubmittedDraft(name, amount, mealTickets, message).value.amount == AmountValue(amount)
  {
    KeepDigitsOfDigits(amount);
  }
}
