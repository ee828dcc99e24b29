/** The request-field semantics the serializers are built from, as the REST framework's
    `CharField`, `EmailField`, `ChoiceField` and `BooleanField` apply them by default:
    character values are stripped, blank values refused unless allowed, length limits and the
    no-NUL rule checked on the stripped value. A field that is missing from the request is
    `None`; a field-specific `validate_<name>` method runs only on a value that passed. */
module Fields {
  import opened Outcomes
  import opened Text

  /** Why one field was refused. */
  datatype Fault =
    | Required        // missing although required
    | Blank           // empty once stripped
    | TooLong         // over `max_length`
    | TooShort        // under `min_length`
    | NullCharacter   // contains U+0000
    | InvalidFormat   // refused by a pattern or a format validator
    | InvalidChoice   // not one of the allowed choices
    | Mismatch        // the two password fields differ
    | DuplicateDays   // two availability entries for one day
    | NestedInvalid   // some element of a nested list was refused

  /** The request keys the validators report errors under. */
  datatype FieldName =
    | EmailKey | PasswordKey | PasswordConfirmKey
    | PatientNameKey | PatientEmailKey | PatientPhoneKey
    | DayKey | StartTimeKey | EndTimeKey | ReasonKey
    | TimeSlotsKey | BookedByKey | BookingIdKey | AvailabilityKey

  /** Serializer errors: the refused fields and why. */
  type Errors = map<FieldName, Fault>

  /** The options of a `CharField` that matter here. */
  datatype CharSpec = CharSpec(maxLength: Option<nat>, minLength: Option<nat>, allowBlank: bool)

  const NUL: char := 0 as char

  /** A present character value through `CharField` validation. */
  function CleanChars(spec: CharSpec, raw: string): (r: Result<string, Fault>)
    ensures r.Success? ==> r.value == Trim(raw)
    ensures r.Success? && r.value != "" ==>
              && (spec.maxLength.Some? ==> |r.value| <= spec.maxLength.value)
              && (spec.minLength.Some? ==> |r.value| >= spec.minLength.value)
              && NUL !in r.value
    ensures r == Failure(Blank) <==> Trim(raw) == "" && !spec.allowBlank
    ensures Trim(raw) == "" && spec.allowBlank ==> r == Success("")
    ensures Trim(raw) != "" ==>
              (r.Success? <==>
                 && (spec.maxLength.Some? ==> |Trim(raw)| <= spec.maxLength.value)
                 && (spec.minLength.Some? ==> |Trim(raw)| >= spec.minLength.value)
                 && NUL !in Trim(raw))
  {
    var t := Trim(raw);
    if t == "" then (if spec.allowBlank then Success("") else Failure(Blank))
    else if spec.maxLength.Some? && |t| > spec.maxLength.value then Failure(TooLong)
    else if spec.minLength.Some? && |t| < spec.minLength.value then Failure(TooShort)
    else if NUL in t then Failure(NullCharacter)
    else Success(t)
  }

  /** A required `CharField`. */
  function RequiredChars(spec: CharSpec, raw: Option<string>): (r: Result<string, Fault>)
    ensures raw.None? ==> r == Failure(Required)
    ensures raw.Some? ==> r == CleanChars(spec, raw.value)
    ensures r.Failure? ==> r.error in {Required, Blank, TooLong, TooShort, NullCharacter}
  {
    match raw
    case None => Failure(Required)
    case Some(v) => CleanChars(spec, v)
  }

  /** A `CharField(required=False)` without a default: a missing value stays missing. */
  function OptionalChars(spec: CharSpec, raw: Option<string>): (r: Result<Option<string>, Fault>)
    ensures raw.None? ==> r == Success(None)
    ensures raw.Some? ==> (r.Success? <==> CleanChars(spec, raw.value).Success?)
    ensures raw.Some? && r.Success? ==> r.value == Some(CleanChars(spec, raw.value).value)
  {
    match raw
    case None => Success(None)
    case Some(v) =>
      match CleanChars(spec, v)
      case Success(t) => Success(Some(t))
      case Failure(f) => Failure(f)
  }

  /** A required `EmailField`: a character value, then the framework's own address validator,
      which is outside this model and is passed in as `accepts`. */
  function EmailField(raw: Option<string>, accepts: string -> bool): (r: Result<string, Fault>)
    ensures r.Success? <==> raw.Some? && Trim(raw.value) != "" && NUL !in Trim(raw.value) && accepts(Trim(raw.value))
    ensures r.Success? ==> r.value == Trim(raw.value)
  {
    match RequiredChars(CharSpec(None, None, false), raw)
    case Failure(f) => Failure(f)
    case Success(t) => if accepts(t) then Success(t) else Failure(InvalidFormat)
  }

  /** The seven lower-case weekday names of every `day` choice list. */
  const Weekdays: seq<string> := ["monday", "tuesday", "wednesday", "thursday", "friday", "saturday", "sunday"]

  predicate IsWeekday(s: string) { s in Weekdays }

  /** The weekday names are already lower-case, so lower-casing a query parameter can turn it
      into one but never turns one into something else. */
  lemma WeekdaysAreLower(s: string)
    ensures IsWeekday(s) ==> Lower(s) == s
  {
    if IsWeekday(s) {
      LowerNoUpper(s);
    }
  }

  /** A required `ChoiceField` over the weekdays: compared as given, without stripping. */
  function DayChoice(raw: Option<string>): (r: Result<string, Fault>)
    ensures r.Success? <==> raw.Some? && IsWeekday(raw.value)
    ensures r.Success? ==> r.value == raw.value
    ensures raw.None? ==> r == Failure(Required)
    ensures raw.Some? && !IsWeekday(raw.value) ==> r == Failure(InvalidChoice)
  {
    match raw
    case None => Failure(Required)
    case Some(v) => if IsWeekday(v) then Success(v) else Failure(InvalidChoice)
  }

  /** A `BooleanField(default=True)`. */
  function FlagDefaultTrue(raw: Option<bool>): bool {
    raw.GetOr(true)
  }

  /** `errs` with the entry a refused field contributes. */
  function Note<T>(errs: Errors, name: FieldName, r: Result<T, Fault>): (m: Errors)
    ensures name in m <==> name in errs || r.Failure?
    ensures forall k :: k != name ==> (k in m <==> k in errs)
    ensures r.Failure? ==> m[name] == r.error
    ensures m.Keys <= errs.Keys + {name}
  {
    if r.Failure? then errs[name := r.error] else errs
  }

  /** Validation of every element of a nested list: the whole list is refused as soon as one
      element is. */
  function ValidateEach<A, B>(xs: seq<A>, f: A -> Result<B, Fault>): (r: Result<seq<B>, Fault>)
    ensures r.Success? <==> forall i :: 0 <= i < |xs| ==> f(xs[i]).Success?
    ensures r.Success? ==> |r.value| == |xs| && forall i :: 0 <= i < |xs| ==> r.value[i] == f(xs[i]).value
    ensures r.Failure? ==> r.error == NestedInvalid
  {
    if |xs| == 0 then Success([])
    else
      match (f(xs[0]), ValidateEach(xs[1..], f))
      case (Success(b), Success(bs)) => Success([b] + bs)
      case _ => Failure(NestedInvalid)
  }
}
