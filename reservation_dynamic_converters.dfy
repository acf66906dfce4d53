/**
 * ReservationDynamicConverters: the list view's status text, row colour, edit permission
 * and badge colour, each derived from the current time and a `v_reservations_completes`
 * row.
 */
module ReservationDynamicConverters {
  import opened Time
  import opened ReservationSystemModels
  import StatusService = ReservationStatusService

  /** A converter's input: a view row, or any other bound object. */
  datatype Value = Complete(reservation: ReservationComplete) | Other

  /** The status converter's output: a text, or the input object handed back unchanged. */
  datatype Shown = Text(text: string) | SameAsInput

  /** The brushes the converters return. */
  datatype Brush = Rgb(red: int, green: int, blue: int) | White | Transparent | Gray

  /** The derivation shared by the converters (and the page filter): past the slot's end
      "Terminee", inside it "EnCours", otherwise "Annulee" for that exact text, else the
      stored text. */
  function DerivedStatus(r: ReservationComplete, now: int): string
  {
    if now >= r.CreneauFin() then "Terminee"
    else if now >= r.CreneauDebut() && now < r.CreneauFin() then "EnCours"
    else if r.statut == "Annulee" then "Annulee"
    else r.statut
  }

  /** `ReservationStatusDynamicConverter.Convert`. */
  function StatusConvert(v: Value, now: int): Shown
  {
    match v
    case Other => SameAsInput
    case Complete(reservation) =>
      var creneau, creneauFin := reservation.CreneauDebut(), reservation.CreneauFin();
      if now >= creneauFin then Text("Terminee")
      else if now >= creneau && now < creneauFin then Text("EnCours")
      else if reservation.statut == "Annulee" then Text("Annulee")
      else Text(reservation.statut)
  }

  /** The row colour switch. */
  function RowColorOf(status: string): Brush
  {
    if status == "EnCours" then Rgb(200, 255, 200)
    else if status == "Terminee" then Rgb(220, 220, 220)
    else if status == "Annulee" then Rgb(255, 200, 200)
    else White
  }

  /** `ReservationRowColorConverter.Convert`. */
  function RowColorConvert(v: Value, now: int): Brush
  {
    match v
    case Other => Transparent
    case Complete(reservation) =>
      var creneau, creneauFin := reservation.CreneauDebut(), reservation.CreneauFin();
      var status :=
        if now >= creneauFin then "Terminee"
        else if now >= creneau && now < creneauFin then "EnCours"
        else if reservation.statut == "Annulee" then "Annulee"
        else reservation.statut;
      RowColorOf(status)
  }

  /** `ReservationCanEditConverter.Convert`. */
  function CanEditConvert(v: Value, now: int): bool
  {
    match v
    case Other => false
    case Complete(reservation) => reservation.statut != "Annulee" && now < reservation.CreneauDebut()
  }

  /** The badge colour switch. */
  function BadgeColorOf(status: string): Brush
  {
    if status == "EnCours" then Rgb(59, 193, 168)
    else if status == "Terminee" then Rgb(191, 198, 196)
    else if status == "Annulee" then Rgb(242, 96, 118)
    else if status == "Confirmee" then Rgb(33, 150, 243)
    else if status == "EnAttente" then Rgb(255, 152, 0)
    else Gray
  }

  /** `ReservationStatusBadgeColorConverter.Convert`. */
  function BadgeColorConvert(v: Value, now: int): Brush
  {
    match v
    case Other => Gray
    case Complete(reservation) =>
      var creneauFin, creneauDebut := reservation.CreneauFin(), reservation.CreneauDebut();
      var status :=
        if now >= creneauFin then "Terminee"
        else if now >= creneauDebut && now < creneauFin then "EnCours"
        else if reservation.statut == "Annulee" then "Annulee"
        else reservation.statut;
      BadgeColorOf(status)
  }

  /** The three converters that derive a status all derive the same one, and an input that
      is not a view row gets the fallback of each converter. */
  lemma ConvertersShareDerivation(v: Value, now: int)
    ensures v.Complete? ==> StatusConvert(v, now) == Text(DerivedStatus(v.reservation, now))
    ensures v.Complete? ==> RowColorConvert(v, now) == RowColorOf(DerivedStatus(v.reservation, now))
    ensures v.Complete? ==> BadgeColorConvert(v, now) == BadgeColorOf(DerivedStatus(v.reservation, now))
    ensures v.Other? ==>
      StatusConvert(v, now) == SameAsInput && RowColorConvert(v, now) == Transparent &&
      !CanEditConvert(v, now) && BadgeColorConvert(v, now) == Gray
  {
  }

  /** Past the end the derived text is "Terminee" whatever is stored, Annulée included;
      inside the slot it is "EnCours"; before the start it is the stored text, except that
      the exact text "Annulee" stays "Annulee". */
  lemma DerivedStatusCases(r: ReservationComplete, now: int)
    ensures now >= r.CreneauFin() ==> DerivedStatus(r, now) == "Terminee"
    ensures r.CreneauDebut() <= now < r.CreneauFin() ==> DerivedStatus(r, now) == "EnCours"
    ensures now < r.CreneauDebut() && now < r.CreneauFin() ==> DerivedStatus(r, now) == r.statut
  {
  }

  /** The row is light gray once the slot has ended and light green while it runs; before
      the start it is light red exactly for the text "Annulee" and white otherwise, which is
      every stored status name. */
  lemma RowColorByTime(r: ReservationComplete, now: int)
    ensures now >= r.CreneauFin() ==> RowColorConvert(Complete(r), now) == Rgb(220, 220, 220)
    ensures r.CreneauDebut() <= now < r.CreneauFin() ==> RowColorConvert(Complete(r), now) == Rgb(200, 255, 200)
    ensures now < r.CreneauDebut() && now < r.CreneauFin() ==>
      (RowColorConvert(Complete(r), now) == Rgb(255, 200, 200) <==> r.statut == "Annulee") &&
      (r.statut != "Annulee" && r.statut != "EnCours" && r.statut != "Terminee" ==> RowColorConvert(Complete(r), now) == White)
  {
  }

  /** The spelling without accents of each status. */
  function Unaccented(s: Statut): (t: string)
    ensures s != Confirmee && s != Terminee && s != Annulee ==> t == s.Name()
  {
    match s
    case EnAttente => "EnAttente"
    case Confirmee => "Confirmee"
    case EnCours => "EnCours"
    case Terminee => "Terminee"
    case Annulee => "Annulee"
  }

  /** Once a reservation has started, the derived text is the unaccented name of the status
      the status pass gives it, unless it is cancelled: the pass leaves Annulée alone while
      the derivation shows it as "EnCours" or "Terminee". */
  lemma DerivedAgreesWithStatusPass(c: ReservationComplete, r: Reservation, now: int)
    requires c.dateDebut == r.dateDebut && c.dateFin == r.dateFin
    requires c.heureDebut == r.heureDebut && c.heureFin == r.heureFin
    requires c.statut == r.statut.Name()
    requires now >= r.DateTimeDebut()
    ensures r.statut != Annulee ==> DerivedStatus(c, now) == Unaccented(StatusService.StatusAfter(r, now))
    ensures r.statut == Annulee ==> StatusService.StatusAfter(r, now) == Annulee && DerivedStatus(c, now) in {"EnCours", "Terminee"}
  {
  }

  /** On stored status names the cancelled test (`"Annulee"`, without accent) never holds:
      a cancelled reservation that has not started is shown as "Annulée", on a white row,
      and can be edited. */
  lemma CancelledBeforeStartIsNotRecognised(r: ReservationComplete, now: int)
    requires r.statut == Annulee.Name()
    requires now < r.CreneauDebut() && now < r.CreneauFin()
    ensures DerivedStatus(r, now) == "Annulée"
    ensures RowColorConvert(Complete(r), now) == White
    ensures CanEditConvert(Complete(r), now)
    ensures BadgeColorConvert(Complete(r), now) == Gray
  {
  }

  /** A view row can be edited exactly when it has not started, whatever its stored name. */
  lemma CanEditOfName(r: ReservationComplete, s: Statut, now: int)
    requires r.statut == s.Name()
    ensures CanEditConvert(Complete(r), now) <==> now < r.CreneauDebut()
  {
    assert "Annulée"[5] != "Annulee"[5];
  }

  /** Before the start, the badge of a stored name is orange for EnAttente and teal for
      EnCours; Confirmée, Annulée and Terminée, stored with accents, all fall to gray. */
  lemma BadgeOfName(r: ReservationComplete, s: Statut, now: int)
    requires r.statut == s.Name()
    requires now < r.CreneauDebut() && now < r.CreneauFin()
    ensures BadgeColorConvert(Complete(r), now) ==
      if s == EnAttente then Rgb(255, 152, 0) else if s == EnCours then Rgb(59, 193, 168) else Gray
  {
    assert "Confirmée" != "Confirmee" && "Terminée" != "Terminee" && "Annulée" != "Annulee" by {
      assert "Confirmée"[7] != "Confirmee"[7];
      assert "Terminée"[6] != "Terminee"[6];
      assert "Annulée"[5] != "Annulee"[5];
    }
  }
}
