/** Customer/ReservePopup.jsx: the reservation form. Picking dates prices the rental by
    the day, last day included; submitting checks the payment details the chosen method
    needs. Dates are whole day numbers. */
module ReservePopup {
  import opened Http

  const ReceiptMissingAlert: string := "Please upload the payment receipt."
  const AccountMissingAlert: string := "Please enter your account number."

  datatype PaymentMethod = Cash | Online

  datatype DateField = FromDate | ToDate

  /** The reference price: one `rentPrice` charge for every day from `fromDay` to `toDay`,
      both included. */
  function DailyCharges(fromDay: int, toDay: int, rentPrice: real): real
    decreases toDay - fromDay
  {
    if toDay < fromDay then 0.0 else rentPrice + DailyCharges(fromDay + 1, toDay, rentPrice)
  }

  /** The price `handleDateChange` computes: whole days between the dates, plus one. */
  function RentalCost(fromDay: int, toDay: int, rentPrice: real): real {
    ((toDay - fromDay + 1) as real) * rentPrice
  }

  /** The computed price is exactly one charge per rented day. */
  lemma {:induction false} RentalCostIsDailyCharges(fromDay: int, toDay: int, rentPrice: real)
    requires fromDay <= toDay + 1
    ensures RentalCost(fromDay, toDay, rentPrice) == DailyCharges(fromDay, toDay, rentPrice)
    decreases toDay - fromDay
  {
    if fromDay <= toDay {
      RentalCostIsDailyCharges(fromDay + 1, toDay, rentPrice);
      assert ((toDay - fromDay + 1) as real) * rentPrice
          == rentPrice + ((toDay - (fromDay + 1) + 1) as real) * rentPrice;
    }
  }

  /** A priced rental (the dates strictly ordered) is charged at least two days. */
  lemma RentalCostAtLeastTwoDays(fromDay: int, toDay: int, rentPrice: real)
    requires fromDay < toDay && rentPrice >= 0.0
    ensures RentalCost(fromDay, toDay, rentPrice) >= 2.0 * rentPrice
  {
    var days := (toDay - fromDay + 1) as real;
    assert days >= 2.0;
    assert days * rentPrice - 2.0 * rentPrice == (days - 2.0) * rentPrice;
  }

  class ReserveForm {
    var fromDate: Option<int>
    var toDate: Option<int>
    var paymentReceipt: Option<string>
    var accountNumber: string
    var paymentMethod: PaymentMethod
    var totalCost: real

    /** Opening the popup. The form values belong to the Dashboard (`formData` and
        `totalCost`), which starts them empty and never resets them, so a reopened popup
        shows whatever the previous one left. Only the payment method is the popup's own
        state, and it starts as cash at every opening. */
    constructor (fromDate0: Option<int>, toDate0: Option<int>, paymentReceipt0: Option<string>,
                 accountNumber0: string, totalCost0: real)
      ensures fromDate == fromDate0 && toDate == toDate0
      ensures paymentReceipt == paymentReceipt0 && accountNumber == accountNumber0
      ensures paymentMethod == Cash && totalCost == totalCost0
    {
      fromDate := fromDate0;
      toDate := toDate0;
      paymentReceipt := paymentReceipt0;
      accountNumber := accountNumber0;
      paymentMethod := Cash;
      totalCost := totalCost0;
    }

    /** `handleDateChange`: the field takes the value; once both dates are set, an
        ordered pair reprices the rental and any other pair clears the to-date and
        keeps the price. */
    method ChangeDate(field: DateField, value: Option<int>, rentPrice: real)
      modifies this`fromDate, this`toDate, this`totalCost
      ensures var f := if field == FromDate then value else old(fromDate);
              var t := if field == ToDate then value else old(toDate);
              fromDate == f
              && (f.Some? && t.Some? && t.value > f.value ==>
                    toDate == t && totalCost == RentalCost(f.value, t.value, rentPrice))
              && (f.Some? && t.Some? && t.value <= f.value ==>
                    toDate.None? && totalCost == old(totalCost))
              && (f.None? || t.None? ==> toDate == t && totalCost == old(totalCost))
    {
      if field == FromDate {
        fromDate := value;
      } else {
        toDate := value;
      }
      if fromDate.Some? && toDate.Some? {
        if toDate.value > fromDate.value {
          totalCost := RentalCost(fromDate.value, toDate.value, rentPrice);
        } else {
          toDate := None;
        }
      }
    }

    /** `handlePaymentMethodChange` */
    method ChoosePayment(m: PaymentMethod)
      modifies this`paymentMethod
      ensures paymentMethod == m
    {
      paymentMethod := m;
    }

    /** `handleFileChange` for the receipt: an empty selection keeps the previous file. */
    method ChooseReceipt(files: seq<string>)
      modifies this`paymentReceipt
      ensures files == [] ==> paymentReceipt == old(paymentReceipt)
      ensures files != [] ==> paymentReceipt == Some(files[0])
    {
      if files != [] {
        paymentReceipt := Some(files[0]);
      }
    }

    /** `handleInputChange` on the account-number field. */
    method EnterAccountNumber(value: string)
      modifies this`accountNumber
      ensures accountNumber == value
    {
      accountNumber := value;
    }

    /** `handleSubmit`: the alert shown, or `None` when the form is handed to `onSubmit`.
        Cash always submits; an online payment first needs a receipt, then an account
        number, and the first one missing is the one reported. */
    method Submit() returns (alert: Option<string>)
      ensures alert.None? <==> paymentMethod == Cash || (paymentReceipt.Some? && accountNumber != "")
      ensures paymentMethod == Online && paymentReceipt.None? ==> alert == Some(ReceiptMissingAlert)
      ensures paymentMethod == Online && paymentReceipt.Some? && accountNumber == "" ==>
                alert == Some(AccountMissingAlert)
    {
      if paymentReceipt.None? && paymentMethod == Online {
        return Some(ReceiptMissingAlert);
      }
      if accountNumber == "" && paymentMethod == Online {
        return Some(AccountMissingAlert);
      }
      return None;
    }
  }
}
