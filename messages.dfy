/** The alert texts of the reservation form (bartek/ReservationFormView.swift). */
module Messages {
  const FillAllFieldsMessage := "Wypełnij wszystkie pola poprawnie."
  /** The alert shown when the end date is not after the start date. */
  const DateOrderMessage := "Data końcowa musi być " + "późniejsza niż początkowa."
  const CreatedMessage := "Rezerwacja została utworzona pomyślnie!"
  const SaveFailedMessage := "Wystąpił błąd podczas tworzenia rezerwacji."
  /** The word the alert's OK button looks for before closing the form. */
  const SuccessMarker := "pomyślnie"

  /** The guard and failure messages lack the letter 'ś' of the marker. */
  lemma FieldsMessageLacksMarkerLetter()
    ensures 'ś' !in FillAllFieldsMessage
  {
  }

  lemma DateMessageLacksMarkerLetter()
    ensures 'ś' !in DateOrderMessage
  {
    assert 'ś' !in "Data końcowa musi być ";
    assert 'ś' !in "późniejsza niż początkowa.";
  }

  lemma SaveFailedMessageLacksMarkerLetter()
    ensures 'ś' !in SaveFailedMessage
  {
  }
}
