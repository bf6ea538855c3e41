/**
 * The validation of the create-plant and update-plant commands: the
 * `IsPlantValid` chains of checks, each giving an `ErrorCode`, and each
 * handler's early return before it touches the database.
 */
module PlantCommands {
  import opened Wrappers
  import opened Strings
  import opened Timestamps
  import opened MapHelper
  import opened MappingConfig

  datatype ErrorCode =
    | NoError | Validation | DocumentNotFound | UserNotFound
    | WateringValidation | FeedingValidation | MistingValidation | RepottingValidation
    | NameEmpty | NameMaxLength | NotesMaxLength | IconRefEmpty

  /** One action's `<Action>Start` and `<Action>Days` fields of the wire plant. */
  datatype WireAction = WireAction(start: Option<Timestamp>, days: WirePeriodicity)

  /** The wire plant message, as far as validation reads it. */
  datatype WirePlant = WirePlant(id: string, name: string, notes: string, iconRef: string,
                                 watering: WireAction, feeding: WireAction,
                                 misting: WireAction, repotting: WireAction)

  /** `IsPlantValid`'s outcome: its return value and its `out` error code. */
  datatype Verdict = Verdict(valid: bool, code: ErrorCode)

  /**
   * `start.GetOrNullIfDefault() == null && days != None || start.GetOrNullIfDefault() != null && days == None`:
   * a start without a periodicity or a periodicity without a start; the
   * conversion of the start may throw.
   */
  function Inconsistent(a: WireAction): Result<bool> {
    match GetOrNullIfDefault(a.start)
    case Failure(e) => Failure(e)
    case Success(d) => Success((d.None? && a.days != WirePeriodicity.None) || (d.Some? && a.days == WirePeriodicity.None))
  }

  /** The four schedule checks in the order Watering, Feeding, Misting, Repotting: the first failure's code. */
  function ScheduleCheck(p: WirePlant): Result<Option<ErrorCode>> {
    match Inconsistent(p.watering)
    case Failure(e) => Failure(e)
    case Success(true) => Success(Some(WateringValidation))
    case Success(false) =>
      match Inconsistent(p.feeding)
      case Failure(e) => Failure(e)
      case Success(true) => Success(Some(FeedingValidation))
      case Success(false) =>
        match Inconsistent(p.misting)
        case Failure(e) => Failure(e)
        case Success(true) => Success(Some(MistingValidation))
        case Success(false) =>
          match Inconsistent(p.repotting)
          case Failure(e) => Failure(e)
          case Success(true) => Success(Some(RepottingValidation))
          case Success(false) => Success(Option.None)
  }

  /**
   * The name and notes checks, in order; the name's length is that of the
   * untrimmed name, and lengths are counted in UTF-16 code units, as
   * `String.Length` counts them.
   */
  function TextCheck(p: WirePlant, nameMaxLength: int, notesMaxLength: int): Option<ErrorCode> {
    if Trim(p.name) == "" then Some(NameEmpty)
    else if Utf16Length(p.name) > nameMaxLength then Some(NameMaxLength)
    else if Utf16Length(p.notes) > notesMaxLength then Some(NotesMaxLength)
    else Option.None
  }

  /** `CreatePlantCommandHandler.IsPlantValid`. */
  function CreatePlantIsValid(p: WirePlant, nameMaxLength: int, notesMaxLength: int): Result<Verdict> {
    match ScheduleCheck(p)
    case Failure(e) => Failure(e)
    case Success(Some(c)) => Success(Verdict(false, c))
    case Success(None) =>
      match TextCheck(p, nameMaxLength, notesMaxLength)
      case Some(c) => Success(Verdict(false, c))
      case None =>
        if Trim(p.iconRef) == "" then Success(Verdict(true, IconRefEmpty))
        else Success(Verdict(true, NoError))
  }

  /** `UpdatePlantCommandHandler.IsPlantValid`: the same checks, then an empty id, not trimmed, gives `Validation`. */
  function UpdatePlantIsValid(p: WirePlant, nameMaxLength: int, notesMaxLength: int): Result<Verdict> {
    match ScheduleCheck(p)
    case Failure(e) => Failure(e)
    case Success(Some(c)) => Success(Verdict(false, c))
    case Success(None) =>
      match TextCheck(p, nameMaxLength, notesMaxLength)
      case Some(c) => Success(Verdict(false, c))
      case None =>
        if Trim(p.iconRef) == "" then Success(Verdict(true, IconRefEmpty))
        else if p.id == "" then Success(Verdict(true, Validation))
        else Success(Verdict(true, NoError))
  }

  // A reference reading of the checks: an ordered list of (fails, code) pairs.

  /** A start the wire conversion reads without throwing. */
  predicate Readable(a: WireAction) {
    a.start.None? || a.start.value == DefaultTimestamp || Normalized(a.start.value)
  }

  /** A readable action whose start and periodicity disagree. */
  predicate Mismatched(a: WireAction) {
    var unset := a.start.None? || a.start.value == DefaultTimestamp;
    (unset && a.days != WirePeriodicity.None) || (!unset && a.days == WirePeriodicity.None)
  }

  /** The refusing checks of `IsPlantValid`, in the order the code runs them. */
  function Checks(p: WirePlant, nameMaxLength: int, notesMaxLength: int): seq<(bool, ErrorCode)> {
    [(Mismatched(p.watering), WateringValidation), (Mismatched(p.feeding), FeedingValidation),
     (Mismatched(p.misting), MistingValidation), (Mismatched(p.repotting), RepottingValidation),
     (Trim(p.name) == "", NameEmpty), (Utf16Length(p.name) > nameMaxLength, NameMaxLength),
     (Utf16Length(p.notes) > notesMaxLength, NotesMaxLength)]
  }

  /** Check `i` is the first of the list that fails. */
  predicate FirstFailing(cs: seq<(bool, ErrorCode)>, i: int) {
    0 <= i < |cs| && cs[i].0 && forall j :: 0 <= j < i ==> !cs[j].0
  }

  /** A readable action's check agrees with the predicate. */
  lemma InconsistentReadable(a: WireAction)
    requires Readable(a)
    ensures Inconsistent(a) == Success(Mismatched(a))
  {
    GetOrNullIfDefaultSpec(a.start);
  }

  /** An action whose start cannot be read makes its check throw. */
  lemma InconsistentUnreadable(a: WireAction)
    requires !Readable(a)
    ensures Inconsistent(a) == Failure(InvalidOperationException)
  {
    GetOrNullIfDefaultSpec(a.start);
  }

  /** With readable starts, the schedule checks give the first mismatched action's code, in their order. */
  lemma ScheduleOrder(p: WirePlant)
    requires Readable(p.watering) && Readable(p.feeding) && Readable(p.misting) && Readable(p.repotting)
    ensures ScheduleCheck(p) == Success(
      if Mismatched(p.watering) then Some(WateringValidation)
      else if Mismatched(p.feeding) then Some(FeedingValidation)
      else if Mismatched(p.misting) then Some(MistingValidation)
      else if Mismatched(p.repotting) then Some(RepottingValidation)
      else Option.None)
  {
    InconsistentReadable(p.watering);
    InconsistentReadable(p.feeding);
    InconsistentReadable(p.misting);
    InconsistentReadable(p.repotting);
  }

  /** With readable starts, the chained checks give the code of the first failing check of the list, if any. */
  lemma ChecksInOrder(p: WirePlant, nameMaxLength: int, notesMaxLength: int)
    requires Readable(p.watering) && Readable(p.feeding) && Readable(p.misting) && Readable(p.repotting)
    ensures var cs := Checks(p, nameMaxLength, notesMaxLength);
      var code := match ScheduleCheck(p)
        case Success(Some(c)) => Some(c)
        case _ => TextCheck(p, nameMaxLength, notesMaxLength);
      ScheduleCheck(p).Success?
      && (code.None? <==> forall j :: 0 <= j < |cs| ==> !cs[j].0)
      && forall i :: FirstFailing(cs, i) ==> code == Some(cs[i].1)
  {
    ScheduleOrder(p);
    var cs := Checks(p, nameMaxLength, notesMaxLength);
    if forall j :: 0 <= j < |cs| ==> !cs[j].0 {
      assert !cs[0].0 && !cs[1].0 && !cs[2].0 && !cs[3].0 && !cs[4].0 && !cs[5].0 && !cs[6].0;
    }
    forall i | FirstFailing(cs, i)
      ensures (match ScheduleCheck(p)
        case Success(Some(c)) => Some(c)
        case _ => TextCheck(p, nameMaxLength, notesMaxLength)) == Some(cs[i].1)
    {
      if i >= 1 { assert !cs[0].0; }
      if i >= 2 { assert !cs[1].0; }
      if i >= 3 { assert !cs[2].0; }
      if i >= 4 { assert !cs[3].0; }
      if i >= 5 { assert !cs[4].0; }
      if i >= 6 { assert !cs[5].0; }
    }
  }

  /**
   * Creating: with readable starts, the plant is refused exactly when a
   * check of the list fails, with the first failing check's code; an
   * accepted plant has `IconRefEmpty` when its icon is blank and `NoError`
   * otherwise, so the verdict is valid exactly for those two codes.
   */
  lemma CreatePlantVerdict(p: WirePlant, nameMaxLength: int, notesMaxLength: int)
    requires Readable(p.watering) && Readable(p.feeding) && Readable(p.misting) && Readable(p.repotting)
    ensures var r := CreatePlantIsValid(p, nameMaxLength, notesMaxLength);
      var cs := Checks(p, nameMaxLength, notesMaxLength);
      r.Success?
      && (r.value.valid <==> forall j :: 0 <= j < |cs| ==> !cs[j].0)
      && (forall i :: FirstFailing(cs, i) ==> r.value.code == cs[i].1)
      && (r.value.valid ==> r.value.code == (if Trim(p.iconRef) == "" then IconRefEmpty else NoError))
      && (r.value.valid <==> r.value.code == NoError || r.value.code == IconRefEmpty)
  {
    ChecksInOrder(p, nameMaxLength, notesMaxLength);
  }

  /**
   * Updating: the same refusals; an accepted plant has `IconRefEmpty` for a
   * blank icon, else `Validation` for an empty id, else `NoError`.
   */
  lemma UpdatePlantVerdict(p: WirePlant, nameMaxLength: int, notesMaxLength: int)
    requires Readable(p.watering) && Readable(p.feeding) && Readable(p.misting) && Readable(p.repotting)
    ensures var r := UpdatePlantIsValid(p, nameMaxLength, notesMaxLength);
      var cs := Checks(p, nameMaxLength, notesMaxLength);
      r.Success?
      && (r.value.valid <==> forall j :: 0 <= j < |cs| ==> !cs[j].0)
      && (forall i :: FirstFailing(cs, i) ==> r.value.code == cs[i].1)
      && (r.value.valid ==>
            r.value.code == (if Trim(p.iconRef) == "" then IconRefEmpty else if p.id == "" then Validation else NoError))
      && (r.value.valid <==> r.value.code in {NoError, IconRefEmpty, Validation})
  {
    ChecksInOrder(p, nameMaxLength, notesMaxLength);
  }

  /**
   * A name made of one emoji is two code units long, so with a maximum
   * name length of 1 both validations refuse it with `NameMaxLength`.
   */
  lemma EmojiNameTooLong(p: WirePlant, notesMaxLength: int)
    requires ScheduleCheck(p) == Success(Option.None) && p.name == "\U{1F335}"
    ensures CreatePlantIsValid(p, 1, notesMaxLength) == Success(Verdict(false, NameMaxLength))
    ensures UpdatePlantIsValid(p, 1, notesMaxLength) == Success(Verdict(false, NameMaxLength))
  {
    EmojiLength();
    assert !IsWhiteSpace(p.name[0]);
    assert Trim(p.name) == p.name;
  }

  /** A watering start that cannot be read makes both validations throw, whatever else the plant holds. */
  lemma UnreadableWateringThrows(p: WirePlant, nameMaxLength: int, notesMaxLength: int)
    requires !Readable(p.watering)
    ensures CreatePlantIsValid(p, nameMaxLength, notesMaxLength) == Failure(InvalidOperationException)
    ensures UpdatePlantIsValid(p, nameMaxLength, notesMaxLength) == Failure(InvalidOperationException)
  {
    InconsistentUnreadable(p.watering);
  }

  /** What a handler does before looking the user up: answer with an error code, or go on with the plant. */
  datatype Admission = Rejected(code: ErrorCode) | Admitted(plant: WirePlant)

  /** `CreatePlantCommandHandler.Handle` up to the user lookup. */
  function CreatePlantAdmission(plant: Option<WirePlant>, nameMaxLength: int, notesMaxLength: int): Result<Admission> {
    match plant
    case None => Success(Rejected(DocumentNotFound))
    case Some(p) =>
      match CreatePlantIsValid(p, nameMaxLength, notesMaxLength)
      case Failure(e) => Failure(e)
      case Success(v) => if !v.valid then Success(Rejected(v.code)) else Success(Admitted(p))
  }

  /** `UpdatePlantCommandHandler.Handle` up to the user lookup. */
  function UpdatePlantAdmission(plant: Option<WirePlant>, nameMaxLength: int, notesMaxLength: int): Result<Admission> {
    match plant
    case None => Success(Rejected(DocumentNotFound))
    case Some(p) =>
      match UpdatePlantIsValid(p, nameMaxLength, notesMaxLength)
      case Failure(e) => Failure(e)
      case Success(v) => if !v.valid then Success(Rejected(v.code)) else Success(Admitted(p))
  }

  /**
   * A missing plant is `DocumentNotFound`; otherwise the handler rejects
   * with the validation's code exactly when it is invalid, and goes on with
   * the plant itself when it is valid. The codes a valid plant carries
   * (`NoError`, `IconRefEmpty`, and `Validation` on update) never reach the
   * response.
   */
  lemma AdmissionSpec(plant: Option<WirePlant>, nameMaxLength: int, notesMaxLength: int)
    ensures CreatePlantAdmission(Option.None, nameMaxLength, notesMaxLength) == Success(Rejected(DocumentNotFound))
    ensures UpdatePlantAdmission(Option.None, nameMaxLength, notesMaxLength) == Success(Rejected(DocumentNotFound))
    ensures plant.Some? && CreatePlantIsValid(plant.value, nameMaxLength, notesMaxLength).Success? ==>
      var v := CreatePlantIsValid(plant.value, nameMaxLength, notesMaxLength).value;
      CreatePlantAdmission(plant, nameMaxLength, notesMaxLength)
        == Success(if v.valid then Admitted(plant.value) else Rejected(v.code))
    ensures plant.Some? && UpdatePlantIsValid(plant.value, nameMaxLength, notesMaxLength).Success? ==>
      var v := UpdatePlantIsValid(plant.value, nameMaxLength, notesMaxLength).value;
      UpdatePlantAdmission(plant, nameMaxLength, notesMaxLength)
        == Success(if v.valid then Admitted(plant.value) else Rejected(v.code))
    ensures var r := CreatePlantAdmission(plant, nameMaxLength, notesMaxLength);
      r.Success? && r.value.Rejected? ==> r.value.code !in {NoError, IconRefEmpty}
    ensures var r := UpdatePlantAdmission(plant, nameMaxLength, notesMaxLength);
      r.Success? && r.value.Rejected? ==> r.value.code !in {NoError, IconRefEmpty, Validation}
  {
  }
}
