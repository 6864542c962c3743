/** The request-body schemas of the validation middleware and the middleware
    itself. A body is a record of the schema's keys, each possibly absent;
    keys outside the schema are not representable (the schemas refuse
    unknown keys). A string's `min` and `max` bound its JavaScript length,
    counted in UTF-16 code units. The string rules follow the schema library's defaults:
    an empty string is refused unless the key allows '', and the first
    failing rule of the first failing key is the one reported (abort early).
    The current year and the URI and e-mail checks are parameters. */
module Validation {
  import opened Wrappers
  import opened Text
  import opened Http
  import opened Books
  import Classification

  datatype Rule =
    | Required
    | Empty
    | TooShort
    | TooLong
    | PatternMismatch
    | NotAllowed
    | NotAlphanumeric
    | BelowMinimum
    | AboveMaximum
    | NotUri
    | NotEmail

  datatype FieldError = FieldError(key: string, rule: Rule)

  /** What the schemas need from outside: the year `new Date()` gives, and the
      library's `uri()` and `email()` checks. */
  datatype Env = Env(currentYear: int, isUri: string -> bool, isEmail: string -> bool)

  /** The middleware's answer: `next()`, or a 400 carrying the error details. */
  datatype Verdict = Pass | Reject(status: StatusCode, details: seq<FieldError>)

  // ---------------------------------------------------------------------------
  // The DDC pattern ^\d{3}(\.\d+)?$ and the number such a string denotes.

  predicate DdcPattern(s: string) {
    && |s| >= 3
    && AllDigits(s[..3])
    && (|s| == 3 || (|s| >= 5 && s[3] == '.' && AllDigits(s[4..])))
  }

  /** The pattern position by position: every character but the fourth is a
      digit, the fourth (if any) is the point, and a point is never last. */
  lemma DdcPatternPositionwise(s: string)
    ensures DdcPattern(s) <==>
      && |s| >= 3 && |s| != 4
      && (forall i :: 0 <= i < |s| && i != 3 ==> IsDigit(s[i]))
      && (|s| > 3 ==> s[3] == '.')
  {
    if |s| >= 3 {
      assert forall i :: 0 <= i < 3 ==> s[..3][i] == s[i];
      if |s| >= 5 {
        assert forall i :: 4 <= i < |s| ==> s[4..][i - 4] == s[i];
      }
    }
  }

  /** The value of a string of decimal fraction digits: 0.d1d2d3... */
  function Fraction(ds: string): (f: real)
    requires AllDigits(ds)
    ensures 0.0 <= f < 1.0
  {
    if ds == [] then 0.0
    else (DigitValue(ds[0]) as real + Fraction(ds[1..])) / 10.0
  }

  /** The exact number a string matching the DDC pattern denotes. */
  function DdcValue(s: string): (v: real)
    requires DdcPattern(s)
    ensures 0.0 <= v < 1000.0
    ensures v.Floor / 100 == DigitValue(s[0])
  {
    var whole := 100 * DigitValue(s[0]) + 10 * DigitValue(s[1]) + DigitValue(s[2]);
    var f := if |s| == 3 then 0.0 else Fraction(s[4..]);
    assert whole as real <= whole as real + f < whole as real + 1.0;
    assert (whole as real + f).Floor == whole;
    whole as real + f
  }

  /** `parseFloat` reads every string of the DDC pattern as its exact value. */
  ghost predicate ParsesDdcExactly(parse: string -> Option<real>) {
    forall s :: DdcPattern(s) ==> parse(s) == Some(DdcValue(s))
  }

  /** For a `parse` that reads every pattern-matching string exactly, every
      ddc the validator accepts lies in [0, 1000), so the resolver never
      takes its fallback and answers the bucket named by the first digit.
      IEEE `parseFloat` is not such a parse: see `RoundedDdcFallsBack` and `RoundedDdcMovesUp`. */
  lemma ValidatedDdcResolvesByFirstDigit(parse: string -> Option<real>, s: string)
    requires ParsesDdcExactly(parse)
    requires DdcPattern(s)
    ensures Classification.GetDeweyCategory(parse(s)) == Classification.BucketLabel(DigitValue(s[0]))
    ensures Classification.GetDeweyCategory(parse(s))[0] == s[0]
  {
    var v := DdcValue(s);
    Classification.ResolvesByHundreds(v);
    Classification.LabelsAreBucketLabels();
    assert s[..3][0] == s[0];
  }

  /** The bucket a validated ddc names: the resolver applied to the exact
      decimal value, which is always the bucket of the first digit. */
  function ExactBucket(s: string): (b: string)
    requires DdcPattern(s)
    ensures b == Classification.BucketLabel(DigitValue(s[0]))
    ensures b[0] == s[0]
    ensures b == "000-099" <==> s[0] == '0'
  {
    Classification.ResolvesByHundreds(DdcValue(s));
    Classification.LabelsAreBucketLabels();
    Classification.GetDeweyCategory(Some(DdcValue(s)))
  }

  /** A ddc of twenty characters matches the pattern and fits the column,
      yet a `parseFloat` that rounds it to the nearest double, 1000, sends it
      to the fallback instead of the bucket of its first digit. */
  lemma RoundedDdcFallsBack(parse: string -> Option<real>)
    requires parse("999.9999999999999999") == Some(1000.0)
    ensures DdcPattern("999.9999999999999999") && |"999.9999999999999999"| <= DdcWidth
    ensures Classification.GetDeweyCategory(parse("999.9999999999999999")) == "000-099"
    ensures ExactBucket("999.9999999999999999") == "900-999"
  {
    NinesMatch("999.9999999999999999");
    assert Classification.BucketLabel(9) == "900-999";
  }

  /** Likewise "099.9999999999999999", which rounds to 100, lands one bucket up. */
  lemma RoundedDdcMovesUp(parse: string -> Option<real>)
    requires parse("099.9999999999999999") == Some(100.0)
    ensures DdcPattern("099.9999999999999999") && |"099.9999999999999999"| <= DdcWidth
    ensures Classification.GetDeweyCategory(parse("099.9999999999999999")) == "100-199"
    ensures ExactBucket("099.9999999999999999") == "000-099"
  {
    NinesMatch("099.9999999999999999");
  }

  /** A three-digit number followed by ".9999999999999999" matches the pattern. */
  lemma NinesMatch(s: string)
    requires |s| == 20 && AllDigits(s[..3]) && s[3..] == ".9999999999999999"
    ensures DdcPattern(s)
  {
    assert s[4..] == s[3..][1..];
  }

  // ---------------------------------------------------------------------------
  // Rule checks for one key.

  /** A string key with length bounds: absent, empty, too short, too long.
      The bounds apply to the length in UTF-16 code units. */
  function StringCheck(v: Option<string>, required: bool, allowEmpty: bool, min: nat, max: Option<nat>): (e: Option<Rule>)
    ensures e.None? <==>
      (v.None? && !required)
      || (v.Some? && v.value == "" && allowEmpty)
      || (v.Some? && v.value != "" && min <= Utf16Length(v.value) && (max.Some? ==> Utf16Length(v.value) <= max.value))
  {
    match v
    case None => if required then Some(Required) else None
    case Some(s) =>
      if s == "" then (if allowEmpty then None else Some(Empty))
      else if Utf16Length(s) < min then Some(TooShort)
      else if max.Some? && Utf16Length(s) > max.value then Some(TooLong)
      else None
  }

  function DdcCheck(v: Option<string>): (e: Option<Rule>)
    ensures e.None? <==> v.Some? && DdcPattern(v.value)
  {
    match v
    case None => Some(Required)
    case Some(s) => if s == "" then Some(Empty) else if !DdcPattern(s) then Some(PatternMismatch) else None
  }

  function StatusCheck(v: Option<string>): (e: Option<Rule>)
    ensures e.None? <==> v.None? || ParseStatus(v.value).Some?
  {
    if v.Some? && ParseStatus(v.value).None? then Some(NotAllowed) else None
  }

  function IntegerCheck(v: Option<int>, min: int, max: Option<int>): (e: Option<Rule>)
    ensures e.None? <==> v.None? || (min <= v.value && (max.Some? ==> v.value <= max.value))
  {
    match v
    case None => None
    case Some(n) => if n < min then Some(BelowMinimum) else if max.Some? && n > max.value then Some(AboveMaximum) else None
  }

  /** An array of strings: every item is a non-empty string. */
  function KeywordsCheck(v: Option<seq<string>>): (e: Option<Rule>)
    ensures e.None? <==> v.None? || forall i :: 0 <= i < |v.value| ==> v.value[i] != ""
  {
    if v.Some? && exists i :: 0 <= i < |v.value| && v.value[i] == "" then Some(Empty) else None
  }

  /** An optional key allowing '' that must otherwise pass `accepts`. */
  function FormatCheck(v: Option<string>, required: bool, accepts: string -> bool, rule: Rule): (e: Option<Rule>)
    ensures e.None? <==> if v.None? then !required else (v.value != "" && accepts(v.value)) || (v.value == "" && !required)
  {
    match v
    case None => if required then Some(Required) else None
    case Some(s) =>
      if s == "" then (if required then Some(Empty) else None)
      else if !accepts(s) then Some(rule)
      else None
  }

  function Report(key: string, e: Option<Rule>): seq<FieldError> {
    if e.Some? then [FieldError(key, e.value)] else []
  }

  // ---------------------------------------------------------------------------
  // schemas.book

  /** Every violation of the book schema, in the order of the schema's keys. */
  function BookErrors(body: BookData, env: Env): seq<FieldError> {
    Report("title", StringCheck(body.title, true, false, 1, Some(255)))
    + Report("author", StringCheck(body.author, true, false, 1, Some(255)))
    + Report("isbn", StringCheck(body.isbn, false, true, 0, None))
    + Report("ddc", DdcCheck(body.ddc))
    + Report("category", StringCheck(body.category, true, false, 1, Some(100)))
    + Report("description", StringCheck(body.description, false, true, 0, Some(1000)))
    + Report("keywords", KeywordsCheck(body.keywords))
    + Report("location", StringCheck(body.location, true, false, 0, Some(100)))
    + Report("status", StatusCheck(body.status))
    + Report("publishedYear", IntegerCheck(body.publishedYear, 1000, Some(env.currentYear)))
    + Report("publisher", StringCheck(body.publisher, false, true, 0, Some(100)))
    + Report("pageCount", IntegerCheck(body.pageCount, 1, None))
    + Report("thumbnail", FormatCheck(body.thumbnail, false, env.isUri, NotUri))
  }

  /** The book schema's bounds, stated key by key. */
  ghost predicate BookConforms(body: BookData, env: Env) {
    && body.title.Some? && 1 <= Utf16Length(body.title.value) <= 255
    && body.author.Some? && 1 <= Utf16Length(body.author.value) <= 255
    && body.ddc.Some? && DdcPattern(body.ddc.value)
    && body.category.Some? && 1 <= Utf16Length(body.category.value) <= 100
    && (body.description.Some? ==> Utf16Length(body.description.value) <= 1000)
    && (body.keywords.Some? ==> forall i :: 0 <= i < |body.keywords.value| ==> body.keywords.value[i] != "")
    && body.location.Some? && 1 <= Utf16Length(body.location.value) <= 100
    && (body.status.Some? ==> ParseStatus(body.status.value).Some?)
    && (body.publishedYear.Some? ==> 1000 <= body.publishedYear.value <= env.currentYear)
    && (body.publisher.Some? ==> Utf16Length(body.publisher.value) <= 100)
    && (body.pageCount.Some? ==> body.pageCount.value >= 1)
    && (body.thumbnail.Some? && body.thumbnail.value != "" ==> env.isUri(body.thumbnail.value))
  }

  lemma BookErrorsEmptyIffConforms(body: BookData, env: Env)
    ensures BookErrors(body, env) == [] <==> BookConforms(body, env)
  {
  }

  /** validate('book', 'body'): `next()` (Pass) exactly when the body conforms;
      otherwise a 400 with one detail, the first violation. */
  function ValidateBook(body: BookData, env: Env): (v: Verdict)
    ensures v.Pass? <==> BookConforms(body, env)
    ensures v.Reject? ==> v.status == BadRequest400 && v.details == [BookErrors(body, env)[0]]
  {
    BookErrorsEmptyIffConforms(body, env);
    Validate(BookErrors(body, env))
  }

  /** The middleware body shared by every schema. */
  function Validate(errors: seq<FieldError>): (v: Verdict)
    ensures v.Pass? <==> errors == []
    ensures v.Reject? ==> v.status == BadRequest400 && v.details == [errors[0]]
  {
    if errors == [] then Pass else Reject(BadRequest400, [errors[0]])
  }

  /** A conforming body always has the non-null columns, and fits the table
      whenever its `isbn`, `ddc` and `thumbnail` fit their columns (the
      schema bounds none of the three). */
  lemma ConformingBodyIsStorable(body: BookData, env: Env, id: nat, bucket: string)
    requires BookConforms(body, env)
    requires bucket in Classification.Labels
    requires body.isbn.None? || |body.isbn.value| <= IsbnWidth
    requires |body.ddc.value| <= DdcWidth
    requires body.thumbnail.None? || |body.thumbnail.value| <= ThumbnailWidth
    ensures NewRecord(id, body, Some(bucket)).Some?
    ensures FitsColumns(NewRecord(id, body, Some(bucket)).value)
  {
  }

  /** Three characters above U+FFFF are six code units: they meet the
      password's `min(6)` although the string holds three characters. */
  lemma AstralPasswordMeetsMinimum()
    ensures StringCheck(Some("\U{1F600}\U{1F600}\U{1F600}"), true, false, 6, None).None?
  {
    var e := "\U{1F600}";
    assert "\U{1F600}\U{1F600}\U{1F600}"[1..] == e + e;
    assert (e + e)[1..] == e;
    assert e[1..] == [];
  }

  /** A ddc of 21 characters passes the pattern but not the 20-character column. */
  lemma PatternDoesNotBoundDdcWidth()
    ensures DdcPattern("512.12345678901234567") && |"512.12345678901234567"| > DdcWidth
  {
    assert AllDigits("512.12345678901234567"[4..]);
  }

  // ---------------------------------------------------------------------------
  // schemas.register, schemas.login, schemas.profile

  datatype RegisterBody = RegisterBody(
    username: Option<string>,
    email: Option<string>,
    password: Option<string>,
    firstName: Option<string>,
    lastName: Option<string>)

  datatype LoginBody = LoginBody(username: Option<string>, password: Option<string>)

  datatype ProfileBody = ProfileBody(firstName: Option<string>, lastName: Option<string>, email: Option<string>)

  predicate AllAlphaNum(s: string) {
    forall i :: 0 <= i < |s| ==> IsAlphaNum(s[i])
  }

  /** `alphanum().min(3).max(30).required()`. */
  function UsernameCheck(v: Option<string>): (e: Option<Rule>)
    ensures e.None? <==> v.Some? && AllAlphaNum(v.value) && 3 <= |v.value| <= 30
  {
    match v
    case None => Some(Required)
    case Some(s) =>
      if s == "" then Some(Empty)
      else if !AllAlphaNum(s) then Some(NotAlphanumeric)
      else
        Utf16LengthOfBmp(s);
        StringCheck(v, true, false, 3, Some(30))
  }

  function RegisterErrors(body: RegisterBody, env: Env): seq<FieldError> {
    Report("username", UsernameCheck(body.username))
    + Report("email", FormatCheck(body.email, true, env.isEmail, NotEmail))
    + Report("password", StringCheck(body.password, true, false, 6, None))
    + Report("firstName", StringCheck(body.firstName, false, true, 0, Some(50)))
    + Report("lastName", StringCheck(body.lastName, false, true, 0, Some(50)))
  }

  /** validate('register', 'body'). */
  function ValidateRegister(body: RegisterBody, env: Env): (v: Verdict)
    ensures v.Pass? <==>
      && body.username.Some? && AllAlphaNum(body.username.value) && 3 <= |body.username.value| <= 30
      && body.email.Some? && body.email.value != "" && env.isEmail(body.email.value)
      && body.password.Some? && Utf16Length(body.password.value) >= 6
      && (body.firstName.Some? ==> Utf16Length(body.firstName.value) <= 50)
      && (body.lastName.Some? ==> Utf16Length(body.lastName.value) <= 50)
    ensures v.Reject? ==> v.status == BadRequest400 && v.details == [RegisterErrors(body, env)[0]]
  {
    Validate(RegisterErrors(body, env))
  }

  /** validate('login', 'body'): both keys present and non-empty. */
  function ValidateLogin(body: LoginBody): (v: Verdict)
    ensures v.Pass? <==> body.username.Some? && body.username.value != "" && body.password.Some? && body.password.value != ""
    ensures v.Reject? ==> v.status == BadRequest400 && |v.details| == 1
  {
    Validate(Report("username", StringCheck(body.username, true, false, 0, None))
            + Report("password", StringCheck(body.password, true, false, 0, None)))
  }

  /** validate('profile', 'body'). */
  function ValidateProfile(body: ProfileBody, env: Env): (v: Verdict)
    ensures v.Pass? <==>
      && (body.firstName.Some? ==> Utf16Length(body.firstName.value) <= 50)
      && (body.lastName.Some? ==> Utf16Length(body.lastName.value) <= 50)
      && body.email.Some? && body.email.value != "" && env.isEmail(body.email.value)
    ensures v.Reject? ==> v.status == BadRequest400 && |v.details| == 1
  {
    Validate(Report("firstName", StringCheck(body.firstName, false, true, 0, Some(50)))
            + Report("lastName", StringCheck(body.lastName, false, true, 0, Some(50)))
            + Report("email", FormatCheck(body.email, true, env.isEmail, NotEmail)))
  }
}
