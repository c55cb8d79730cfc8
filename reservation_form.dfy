/** The reservation form (bartek/ReservationFormView.swift): the validity flag
    kept up to date on every edit, the end date pushed forward when the start
    date moves, the day count and price, and the guarded save. */
module ReservationForm {
  import opened Records
  import opened Text
  import opened Email
  import opened Store
  import opened Messages


  /** `totalDays`: the whole days from the start day to the end day, negative
      when the end lies before the start. */
  function TotalDays(startDate: int, endDate: int): (days: int)
    ensures startDate + days == endDate
    ensures days > 0 <==> startDate < endDate
  {
    endDate - startDate
  }

  /** `totalPrice`: the day count times the car's daily price. */
  function TotalPrice(startDate: int, endDate: int, pricePerDay: int): (price: int)
    ensures price == 0 <==> startDate == endDate || pricePerDay == 0
    ensures pricePerDay >= 0 ==> (price >= 0 <==> startDate <= endDate || pricePerDay == 0)
  {
    TotalDays(startDate, endDate) * pricePerDay
  }

  /** A stay of at least one day at a non-negative rate costs at least one
      day's rate, and splitting a stay at any day splits its price. */
  lemma TotalPriceBounds(startDate: int, midDate: int, endDate: int, pricePerDay: int)
    requires pricePerDay >= 0
    ensures startDate < endDate ==> TotalPrice(startDate, endDate, pricePerDay) >= pricePerDay
    ensures TotalPrice(startDate, endDate, pricePerDay)
         == TotalPrice(startDate, midDate, pricePerDay) + TotalPrice(midDate, endDate, pricePerDay)
  {
    var d := endDate - startDate;
    if startDate < endDate {
      assert d * pricePerDay == pricePerDay + (d - 1) * pricePerDay;
      assert (d - 1) * pricePerDay >= 0;
    }
    assert d * pricePerDay == (midDate - startDate) * pricePerDay + (endDate - midDate) * pricePerDay;
  }

  /** `validateForm`: the AND of the four checks. */
  predicate FormValid(name: string, email: string, phone: string, startDate: int, endDate: int)
    ensures FormValid(name, email, phone, startDate, endDate) ==>
      name != [] && phone != [] && TotalDays(startDate, endDate) >= 1
  {
    && Trim(name) != []
    && IsValidEmail(email)
    && Trim(phone) != []
    && startDate < endDate
  }

  /** A name or phone number of whitespace only makes the form invalid
      whatever the other fields hold; any other phone number is accepted. */
  lemma BlankFieldInvalidates(name: string, email: string, phone: string, startDate: int, endDate: int)
    ensures AllWhitespace(name) || AllWhitespace(phone) ==> !FormValid(name, email, phone, startDate, endDate)
    ensures !AllWhitespace(name) && IsValidEmail(email) && !AllWhitespace(phone) && startDate < endDate
         ==> FormValid(name, email, phone, startDate, endDate)
  {
  }

  /** The end date the start-date handler leaves: one day after the new start
      when the old end is not after it, else the old end. */
  function AdvancedEndDate(endDate: int, newStart: int): (r: int)
    ensures r > newStart
    ensures r == endDate <==> endDate > newStart
    ensures endDate <= newStart ==> r == newStart + 1
  {
    if endDate <= newStart then newStart + 1 else endDate
  }

  /** Which guard of `saveReservation` stops the save, if any. */
  datatype GuardResult = FieldsRejected | DatesRejected | GuardsPassed

  /** The two guards of `saveReservation`, in their order. The field guard
      tests the raw strings, not their trimmed forms. */
  function SaveGuards(name: string, email: string, phone: string, startDate: int, endDate: int): (g: GuardResult)
    ensures g == FieldsRejected <==> name == [] || !IsValidEmail(email) || phone == []
    ensures g == DatesRejected <==> name != [] && IsValidEmail(email) && phone != [] && startDate >= endDate
  {
    if name == [] || !IsValidEmail(email) || phone == [] then FieldsRejected
    else if !(startDate < endDate) then DatesRejected
    else GuardsPassed
  }

  /** When the validity flag holds, both guards of the save pass: a string
      whose trimmed form is non-empty is non-empty, the email check is the
      same pattern, and the date test is the same. */
  lemma ValidFormPassesGuards(name: string, email: string, phone: string, startDate: int, endDate: int)
    requires FormValid(name, email, phone, startDate, endDate)
    ensures SaveGuards(name, email, phone, startDate, endDate) == GuardsPassed
  {
  }

  /** The alert text after a save attempt. The four texts differ, so the
      message tells which guard stopped the save or how the save ended. */
  function AlertMessage(g: GuardResult, saved: bool): (msg: string)
    ensures msg == FillAllFieldsMessage <==> g == FieldsRejected
    ensures msg == DateOrderMessage <==> g == DatesRejected
    ensures msg == CreatedMessage <==> g == GuardsPassed && saved
    ensures msg == SaveFailedMessage <==> g == GuardsPassed && !saved
  {
    match g
    case FieldsRejected => FillAllFieldsMessage
    case DatesRejected => DateOrderMessage
    case GuardsPassed => if saved then CreatedMessage else SaveFailedMessage
  }

  /** Only the success message carries the word the OK button looks for, so
      the form closes only after a reservation was saved. */
  lemma OnlySuccessClosesForm(g: GuardResult, saved: bool)
    ensures Contains(AlertMessage(g, saved), SuccessMarker) <==> g == GuardsPassed && saved
  {
    if g == GuardsPassed && saved {
      assert CreatedMessage[29..38] == SuccessMarker;
      ContainsAt(CreatedMessage, SuccessMarker, 29);
    } else {
      assert SuccessMarker[4] == 'ś';
      FieldsMessageLacksMarkerLetter();
      DateMessageLacksMarkerLetter();
      SaveFailedMessageLacksMarkerLetter();
      MissingCharNotContained(AlertMessage(g, saved), SuccessMarker, 'ś');
    }
  }

  /** Trimming leaves a valid email unchanged, so the stored address is the
      one typed. */
  lemma ValidEmailKeptByTrim(email: string)
    ensures IsValidEmail(email) ==> Trim(email) == email
  {
    if IsValidEmail(email) {
      ValidEmailHasNoWhitespace(email);
      TrimNoWhitespace(email);
    }
  }

  /** The record the save creates: trimmed customer fields, the form's dates,
      the computed price, the creation time and the car. */
  function NewReservation(id: nat, name: string, email: string, phone: string,
                          startDate: int, endDate: int, car: Car, createdAt: int): (r: Reservation)
    ensures r.customerName == Some(Trim(name)) && r.customerPhone == Some(Trim(phone))
    ensures IsValidEmail(email) ==> r.customerEmail == Some(email)
    ensures r.startDate == Some(startDate) && r.endDate == Some(endDate)
    ensures r.totalPrice == TotalDays(startDate, endDate) * car.pricePerDay
    ensures r.createdAt == Some(createdAt) && r.car == Some(car) && r.id == id
  {
    ValidEmailKeptByTrim(email);
    Reservation(id, Some(Trim(name)), Some(Trim(email)), Some(Trim(phone)),
                Some(startDate), Some(endDate), TotalPrice(startDate, endDate, car.pricePerDay),
                Some(createdAt), Some(car))
  }

  class ReservationFormView {
    const car: Car
    const context: Context
    var customerName: string
    var customerEmail: string
    var customerPhone: string
    var startDate: int
    var endDate: int
    var showingAlert: bool
    var alertMessage: string
    var isFormValid: bool
    var dismissed: bool

    /** Every edit calls `validateForm`, so the flag always reflects the fields. */
    ghost predicate Valid()
      reads this, context
    {
      && context.Valid()
      && isFormValid == FormValid(customerName, customerEmail, customerPhone, startDate, endDate)
    }

    /** The form opens with empty fields, today as start and tomorrow as end;
        `onAppear` then validates it. */
    constructor (car: Car, context: Context, today: int)
      requires context.Valid()
      ensures Valid()
      ensures this.car == car && this.context == context
      ensures customerName == [] && customerEmail == [] && customerPhone == []
      ensures startDate == today && endDate == today + 1
      ensures !showingAlert && alertMessage == [] && !dismissed && !isFormValid
    {
      this.car := car;
      this.context := context;
      customerName, customerEmail, customerPhone := [], [], [];
      startDate, endDate := today, today + 1;
      showingAlert, alertMessage, dismissed := false, [], false;
      isFormValid := false;
      new;
      ValidateForm();
      assert !IsValidEmail(customerEmail);
    }

    method ValidateForm()
      modifies this`isFormValid
      ensures isFormValid == FormValid(customerName, customerEmail, customerPhone, startDate, endDate)
    {
      var isNameValid := Trim(customerName) != [];
      var isEmailValid := IsValidEmail(customerEmail);
      var isPhoneValid := Trim(customerPhone) != [];
      var areDatesValid := startDate < endDate;
      isFormValid := isNameValid && isEmailValid && isPhoneValid && areDatesValid;
    }

    /** The name field's `onChange`. */
    method EditCustomerName(value: string)
      requires Valid()
      modifies this`customerName, this`isFormValid
      ensures Valid() && customerName == value
    {
      customerName := value;
      ValidateForm();
    }

    /** The email field's `onChange`. */
    method EditCustomerEmail(value: string)
      requires Valid()
      modifies this`customerEmail, this`isFormValid
      ensures Valid() && customerEmail == value
    {
      customerEmail := value;
      ValidateForm();
    }

    /** The phone field's `onChange`. */
    method EditCustomerPhone(value: string)
      requires Valid()
      modifies this`customerPhone, this`isFormValid
      ensures Valid() && customerPhone == value
    {
      customerPhone := value;
      ValidateForm();
    }

    /** The start-date picker: the new value is stored, and its `onChange`
        runs only when the value differs. The handler moves the end date to
        the day after the new start when it is not already later, then
        validates the form. */
    method PickStartDate(newValue: int)
      requires Valid()
      modifies this`startDate, this`endDate, this`isFormValid
      ensures Valid() && startDate == newValue
      ensures newValue != old(startDate) ==> endDate == AdvancedEndDate(old(endDate), newValue) && startDate < endDate
      ensures newValue == old(startDate) ==> endDate == old(endDate) && isFormValid == old(isFormValid)
    {
      if newValue != startDate {
        startDate := newValue;
        if endDate <= newValue {
          endDate := newValue + 1;
        }
        ValidateForm();
      }
    }

    /** The end-date picker's `onChange`. */
    method PickEndDate(value: int)
      requires Valid()
      modifies this`endDate, this`isFormValid
      ensures Valid() && endDate == value
    {
      endDate := value;
      ValidateForm();
    }

    /** `saveReservation`. A failing guard only raises its alert. Otherwise a
        reservation is inserted and the store saved; `saveSucceeds` stands for
        the outcome of `save()`, `now` for `Date()`. A failed save leaves the
        inserted object in the context, as nothing rolls it back. */
    method SaveReservation(saveSucceeds: bool, now: int)
      requires Valid()
      modifies this`alertMessage, this`showingAlert, context
      ensures Valid() && showingAlert
      ensures var g := SaveGuards(customerName, customerEmail, customerPhone, startDate, endDate);
        && alertMessage == AlertMessage(g, saveSucceeds)
        && context.reservations == (if g == GuardsPassed
             then old(context.reservations) + [NewReservation(old(context.nextId), customerName, customerEmail,
                                                              customerPhone, startDate, endDate, car, now)]
             else old(context.reservations))
      ensures context.cars == old(context.cars)
    {
      if customerName == [] || !IsValidEmail(customerEmail) || customerPhone == [] {
        alertMessage := FillAllFieldsMessage;
        showingAlert := true;
        return;
      }
      if !(startDate < endDate) {
        alertMessage := DateOrderMessage;
        showingAlert := true;
        return;
      }
      CreateReservation(saveSucceeds, now);
    }

    /** The part of `saveReservation` after its guards: the new reservation is
        inserted, then the alert reports the outcome of `save()`. */
    method CreateReservation(saveSucceeds: bool, now: int)
      requires Valid()
      modifies this`alertMessage, this`showingAlert, context
      ensures Valid() && showingAlert
      ensures alertMessage == (if saveSucceeds then CreatedMessage else SaveFailedMessage)
      ensures context.reservations == old(context.reservations) + [NewReservation(old(context.nextId), customerName,
                                        customerEmail, customerPhone, startDate, endDate, car, now)]
      ensures context.cars == old(context.cars)
    {
      var created := NewReservation(0, customerName, customerEmail, customerPhone, startDate, endDate, car, now);
      var inserted := context.InsertReservation(created);
      if saveSucceeds {
        alertMessage := CreatedMessage;
      } else {
        alertMessage := SaveFailedMessage;
      }
      showingAlert := true;
    }

    /** The alert's OK button: the form closes only when the message reports
        success; tapping a button also hides the alert. */
    method AlertOk()
      modifies this`dismissed, this`showingAlert
      ensures dismissed == (old(dismissed) || Contains(alertMessage, SuccessMarker))
      ensures !showingAlert
    {
      if Contains(alertMessage, SuccessMarker) {
        dismissed := true;
      }
      showingAlert := false;
    }
  }
}
