# Car rental app: a Dafny model of its core

The app is a SwiftUI program for a car rental office, with a Polish UI. It
keeps cars and reservations in a Core Data store. This project models its
core logic in Dafny and proves properties of that model:

- **Email check** (`String.isValidEmail`, and the form's private copy with
  the same pattern). The regular expression
  `[A-Z0-9a-z._%+-]+@[A-Za-z0-9.-]+\.[A-Za-z]{2,64}` is written as a matcher.
  The matcher is proved to accept exactly the strings that split as
  local part, `@`, domain, `.`, top-level domain.
- **Reservation form** (`ReservationFormView`). The class keeps `isFormValid`
  equal to the four checks of `validateForm` after every edit. It also models
  the start-date handler that pushes the end date forward, the day count and
  price, the two guards of `saveReservation`, the record it inserts, the
  alert and the OK button that closes the form only on success.
- **Reservation list** (`ReservationListView`). It models the search over
  name, email, car brand and car model, the four sort options, the
  active / upcoming / completed label and deleting a reservation.
- **Car list** (`ContentView`). It models the brand-ordered fetch, the
  availability filter, adding the sample Ford Focus and swipe-to-delete
  through the filtered list.

Modelling choices:

- Dates are whole day numbers.
- `Date()` is a parameter `now`.
- Prices are integers.
- The managed-object context is the class `Store.Context`. It holds the
  records and gives each inserted record a fresh identity, standing for its
  `objectID`.
- A view that owns a fetch request is a class. The fetched list is a field,
  and the view re-fetches it after its own changes.
- Swift's in-place `sort(by:)` and a fetch request's sort descriptor are an
  in-place insertion sort over a sort key. The sort is proved to return a
  sorted permutation.
- Whether `save()` succeeds is a parameter of the reservation form's save.
  The views whose failed save ends the program (`fatalError`) are modelled
  on the success path only.

Modules, one per file: `Text` (trimming, case folding, substring search,
string order), `Seqs` (filter), `Ordering` (sort keys and the sort),
`Records` (the two entities), `Store` (the context), `Email`, `Messages`
(the alert texts), `ReservationForm`, `ReservationList`, `CarList`.

## Model

| member | source | states |
|---|---|---|
| Email.IsValidEmail | bartek/Models.swift:24-28 | the matcher of `isValidEmail` and of the form's copy at bartek/ReservationFormView.swift:144-148: it splits at the first `@` and at the last `.` after it; an accepted address has at least six characters, starts with a local-part character and ends with a letter |
| Email.IsValidEmailMatchesPattern | bartek/Models.swift:24-28 | the matcher accepts a string exactly when the whole string splits as a non-empty local part over `[A-Z0-9a-z._%+-]`, `@`, a non-empty domain over `[A-Za-z0-9.-]`, `.`, and 2 to 64 ASCII letters |
| Email.ValidEmailHasOneAt | bartek/Models.swift:25 | an accepted address holds exactly one `@` |
| Email.ValidEmailFinalSegment | bartek/Models.swift:25 | in an accepted address, the text after the last `.` is 2 to 64 letters |
| Email.FinalSegmentOutOfRangeRejected | bartek/Models.swift:25 | a final segment of 1 or 65 characters is rejected |
| Email.ValidEmailHasNoWhitespace | bartek/Models.swift:24-28 | an accepted address has no whitespace anywhere, leading or trailing included |
| Email.NoDotAfterAtRejected | bartek/Models.swift:25 | an address with no `.` after its first `@` is rejected |
| Email.MissingDomainRejected | bartek/Models.swift:25 | `jan.kowalski@test` and the empty string are rejected |
| Email.SeededEmailAccepted | bartek/Persistence.swift:42 | the seeded customer address `jan.kowalski@test.pl` is accepted |
| Text.Trim | bartek/ReservationFormView.swift:136-138 | the trimmed string is a slice of the input with only whitespace cut off before and after it; it is empty exactly when the input is all whitespace, otherwise neither of its ends is whitespace, so the slice is the longest such one; a string whose ends are not whitespace is unchanged |
| Text.ContainsIffOccurs | bartek/ReservationFormView.swift:122 | the substring search succeeds exactly when the needle occurs at some position of the text |
| Text.CaseInsensitiveContains | bartek/ReservationListView.swift:33-36 | a field matches exactly when the search text is non-empty and its case-folded form occurs in the case-folded field |
| Text.TextLessTotal | bartek/ReservationListView.swift:45 | two different names always sort one before the other, so the name order is total |
| Text.TextLessAsymmetric | bartek/ReservationListView.swift:45 | no two names sort each before the other |
| Text.TextLessTransitive | bartek/ReservationListView.swift:45 | the name order is transitive |
| Seqs.Filter | bartek/ContentView.swift:27-29 | `filter` keeps exactly the elements satisfying the predicate, each as often as in the input, and no more of them than the input has |
| Seqs.FilterPartition | bartek/ContentView.swift:26-29 | filtering by a predicate and by its negation splits the input's length |
| Seqs.FilterIsSubsequence | bartek/ContentView.swift:27-29 | the filtered list keeps the input's order |
| Seqs.FilterTwice | bartek/ContentView.swift:108 | filtering by one predicate and then by another is filtering by both |
| Ordering.SortInPlace | bartek/ReservationListView.swift:41-50 | the in-place sort leaves the array sorted by the key and a permutation of what it held |
| Ordering.SortedCopy | bartek/ReservationListView.swift:28-50 | sorting a copied array gives a sorted permutation of the input |
| Ordering.FilterKeepsSorted | bartek/ContentView.swift:24-33 | filtering a sorted list leaves it sorted |
| Store.Context.InsertCar | bartek/ContentView.swift:87-95 | a new car gets the next identity and is appended; reservations are unchanged; identities stay distinct |
| Store.Context.InsertReservation | bartek/ReservationFormView.swift:164-173 | a new reservation gets the next identity and is appended; cars are unchanged |
| Store.Context.DeleteCar | bartek/ContentView.swift:108 | deleting a car removes every car with its identity and nothing else |
| Store.Context.DeleteReservation | bartek/ReservationListView.swift:157 | deleting a reservation removes the records with its identity and nothing else |
| Store.FilterKeepsDistinct | bartek/ReservationListView.swift:157 | deletions keep the identities of the remaining records distinct |
| ReservationForm.TotalDays | bartek/ReservationFormView.swift:26-28 | the day count added to the start gives the end, and it is positive exactly when the start precedes the end |
| ReservationForm.TotalPrice | bartek/ReservationFormView.swift:30-32 | the price is zero exactly when the stay has no days or the car costs nothing per day, and at a non-negative rate it is negative only for an end before the start |
| ReservationForm.TotalPriceBounds | bartek/ReservationFormView.swift:30-32 | a stay of at least one day costs at least one day's rate, and splitting a stay at any day splits its price |
| ReservationForm.FormValid | bartek/ReservationFormView.swift:135-142 | the four checks of `validateForm`; a valid form has a non-empty name and phone and a stay of at least one day |
| ReservationForm.BlankFieldInvalidates | bartek/ReservationFormView.swift:135-142 | a name or phone of only whitespace makes the form invalid; with a non-blank name and phone, a valid email and ordered dates it is valid |
| ReservationForm.AdvancedEndDate | bartek/ReservationFormView.swift:70-75 | after the start date changes, the end date lies after the new start; it is kept exactly when it already did, else it becomes the next day |
| ReservationForm.SaveGuards | bartek/ReservationFormView.swift:151-161 | the first guard stops the save exactly when the raw name is empty, the email is invalid or the raw phone is empty; the second guard stops it exactly when those pass and the start is not before the end |
| ReservationForm.ValidFormPassesGuards | bartek/ReservationFormView.swift:135-161 | when `isFormValid` holds, which is the only case in which the button is enabled, both guards pass |
| ReservationForm.AlertMessage | bartek/ReservationFormView.swift:151-181 | the alert text set on each path of the save; each of the four texts comes from exactly one outcome: fields rejected, dates rejected, saved, or save failed |
| ReservationForm.OnlySuccessClosesForm | bartek/ReservationFormView.swift:121-125 | the alert text contains `pomyślnie` exactly when the guards passed and the save succeeded |
| ReservationForm.ValidEmailKeptByTrim | bartek/ReservationFormView.swift:164-167 | a valid email is stored as typed, since trimming does not change it |
| ReservationForm.NewReservation | bartek/ReservationFormView.swift:164-173 | the created record holds the trimmed name and phone, the email (unchanged when valid), the two dates, days times daily price, the creation time and the car |
| ReservationForm.ReservationFormView.constructor | bartek/ReservationFormView.swift:16-24 | the form opens with empty fields, start today, end tomorrow, no alert, and invalid |
| ReservationForm.ReservationFormView.ValidateForm | bartek/ReservationFormView.swift:135-142 | the flag becomes the AND of non-blank name, valid email, non-blank phone and start before end |
| ReservationForm.ReservationFormView.EditCustomerName | bartek/ReservationFormView.swift:51-53 | the name changes and the flag again agrees with the fields |
| ReservationForm.ReservationFormView.EditCustomerEmail | bartek/ReservationFormView.swift:55-59 | the email changes and the flag again agrees with the fields |
| ReservationForm.ReservationFormView.EditCustomerPhone | bartek/ReservationFormView.swift:61-64 | the phone changes and the flag again agrees with the fields |
| ReservationForm.ReservationFormView.PickStartDate | bartek/ReservationFormView.swift:69-75 | the start takes the new value; when it differs from the old start the handler runs, so the end is advanced as needed and ends after the start; picking the same day changes nothing else; the flag agrees with the fields |
| ReservationForm.ReservationFormView.PickEndDate | bartek/ReservationFormView.swift:77-78 | the end changes and the flag again agrees with the fields |
| ReservationForm.ReservationFormView.SaveReservation | bartek/ReservationFormView.swift:149-184 | an alert is always shown, with the message of the guard that failed or of the save outcome; one reservation is appended exactly when both guards pass, also when the save fails; cars are unchanged |
| ReservationForm.ReservationFormView.CreateReservation | bartek/ReservationFormView.swift:163-183 | the new reservation is appended and the alert reports success or failure of the save |
| ReservationForm.ReservationFormView.AlertOk | bartek/ReservationFormView.swift:121-125 | the form is dismissed exactly when the message contains `pomyślnie` |
| ReservationList.MatchesSearch | bartek/ReservationListView.swift:32-37 | the search closure over name, email, car brand and car model; an empty text matches nothing, and neither does a reservation with none of those fields |
| ReservationList.Searched | bartek/ReservationListView.swift:30-38 | an empty search keeps the list; otherwise exactly the matching reservations stay, each as often as before |
| ReservationList.MatchesSearchMeaning | bartek/ReservationListView.swift:32-37 | a reservation matches exactly when the search text is non-empty and its folded form occurs in the folded value of a present name, email, car brand or car model |
| ReservationList.SearchIgnoresCase | bartek/ReservationListView.swift:33 | searching `kowalski` finds the customer `Jan Kowalski` |
| ReservationList.Precedes | bartek/ReservationListView.swift:41-50 | the four comparison closures, with a missing date read as now and a missing name as ""; no reservation precedes itself |
| ReservationList.PrecedesAsymmetric | bartek/ReservationListView.swift:41-50 | under every option, no two reservations precede each other, so each closure is a strict order |
| ReservationList.SortKey | bartek/ReservationListView.swift:41-50 | for every option, the sort key orders any two reservations exactly as the option's comparison closure does |
| ReservationList.SortedMeaning | bartek/ReservationListView.swift:41-50 | a list sorted for an option has non-increasing creation dates, non-increasing prices, names in alphabetical order, or non-decreasing start dates (the default) |
| ReservationList.IsCurrentReservation | bartek/ReservationListView.swift:204-209 | start not after now and now not after end, with a missing date read as now; a reservation without dates is current, and a current one has its start not after its end and is not upcoming |
| ReservationList.IsUpcomingReservation | bartek/ReservationListView.swift:211-215 | the start is after now; only a reservation that has a start date can be upcoming |
| ReservationList.StatusOf | bartek/ReservationListView.swift:204-259 | the label is active exactly when start is not after now and now not after end, upcoming exactly when the start is after now, completed exactly when the start is not after now and the end is before now |
| ReservationList.DeleteRemovesExactlyOne | bartek/ReservationListView.swift:155-157 | with distinct identities, deleting a stored reservation removes it and only it, so the list has one element fewer |
| ReservationList.ReservationListView.constructor | bartek/ReservationListView.swift:15-25 | the list opens with an empty search, sorted by start date, no pending deletion |
| ReservationList.ReservationListView.FilteredReservations | bartek/ReservationListView.swift:27-53 | the shown list is a sorted permutation of the searched list, under the selected option |
| ReservationList.ReservationListView.DeleteReservation | bartek/ReservationListView.swift:155-167 | the reservation is removed from the context and the fetched list, cars are unchanged, and the pending deletion is cleared |
| CarList.FilteredCars | bartek/ContentView.swift:24-33 | under "Dostępne" exactly the available cars stay, under "Niedostępne" exactly the unavailable ones, each as often as fetched; any other choice shows every car |
| CarList.AvailabilityPartition | bartek/ContentView.swift:26-29 | every car is shown under exactly one of the two availability filters |
| CarList.FilteredCarsKeepOrder | bartek/ContentView.swift:14-33 | the shown list keeps the fetched order and so stays in brand order |
| CarList.FetchCars | bartek/ContentView.swift:14-17 | the fetched list is a permutation of the stored cars, sorted by brand |
| CarList.DeleteShown | bartek/ContentView.swift:108 | deleting the shown cars at the offsets one by one removes exactly the cars with their identities |
| CarList.DeleteCarsRemovesChosen | bartek/ContentView.swift:106-108 | with distinct identities, a car leaves the store exactly when it stood at one of the swiped offsets |
| CarList.CarListView.constructor | bartek/ContentView.swift:14-22 | the list opens with the filter "Wszystkie" and the cars fetched in brand order |
| CarList.CarListView.AddSampleCar | bartek/ContentView.swift:85-104 | a Ford Focus 2023 (120 per day, Benzyna, 5 seats, available, `car.fill`) is appended with a fresh identity and shows up in the fetched list; reservations are unchanged |
| CarList.CarListView.DeleteCars | bartek/ContentView.swift:106-117 | exactly the cars at the swiped offsets of the shown list leave the store, the list is fetched again in brand order, and reservations are unchanged |

## Left out

- User interface: layout, navigation, the search bar, pickers, the deletion confirmation alerts and the row views. Only the state they read or write is modelled.
- Floating point: prices and `pricePerDay` are integers. The `%.0f zł` and date formatting are not modelled.
- Calendar arithmetic: dates are whole day numbers. `dateComponents(.day)` becomes end minus start, and "one day later" becomes plus one.
- Time: each `Date()` is one parameter `now`. The source calls `Date()` anew in every comparison of a sort closure and of the row status; the model evaluates them all at one instant.
- ReservationList.ReservationListView.constructor: the fetch request's start-date order is not modelled. The fetched list is the store's list. Every display goes through `filteredReservations`, which sorts again.
- CarList.FetchCars: a car without a brand sorts as the empty brand. Core Data may place such cars differently among cars whose brand is exactly "".
- Ordering.SortInPlace: Swift's `sort` promises neither stability nor any order of equal keys, and neither does the model. `String <` is modelled as the lexicographic order of code points, without Unicode canonical equivalence.
- Text.CaseInsensitiveContains: case folding covers ASCII letters only. The locale-aware folding of `localizedCaseInsensitiveContains` (for example of Polish letters) is not modelled.
- Text.Trim: the whitespace set is the Unicode separators plus tab, U+000A..U+000D and U+0085. No normalisation is applied.
- Failed saves in `addSampleCar` and `deleteCars` end the program (`fatalError`). They are not modelled. A failed save in `deleteReservation` is only logged, so it changes nothing modelled.
- `refreshData` (a `try? save()` with no visible effect on the modelled state) and the toolbar's cancel and dismiss buttons are not modelled.
- The date pickers' ranges (`in: Date()...`, `in: startDate...`) are UI constraints. `PickStartDate` and `PickEndDate` accept any day.
- The deletion rule between a car and its reservations in the Core Data model is not part of this model. Deleting a car leaves stored reservations as they are.
- bartek/CarDetailView.swift, bartek/Persistence.swift (seed data) and bartek/bartekApp.swift are not part of this model. Only the seeded email and customer name appear, in two example lemmas.
