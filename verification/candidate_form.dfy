/**
 * `frontend/src/components/CandidateForm.js`: the candidate form. Three
 * regular expressions check the fields; `validate` collects one message per
 * failing field, `handleChange` edits one field and clears its message, and
 * `handleSubmit` posts the renamed fields and clears the form on success.
 */
module CandidateForm {
  import opened Options
  import opened Regex
  import opened Http
  import CandidateApi

  // ---------------------------------------------------------------------------
  // The three patterns
  // ---------------------------------------------------------------------------

  /** `/^[A-Za-z\s]+$/` */
  const NameRegex := Pattern([Term([Range('A', 'Z'), Range('a', 'z'), Space], 1, None)], true)

  /** `/^\d{2}[A-Z]{2}\d{5}$/` */
  const RollRegex := Pattern([Term([Range('0', '9')], 2, Some(2)),
                              Term([Range('A', 'Z')], 2, Some(2)),
                              Term([Range('0', '9')], 5, Some(5))], true)

  const DrivePrefix := "https://drive.google.com/"

  /** `/^https:\/\/drive\.google\.com\//`, with no `$`. */
  const DriveRegex := Pattern(Literal(DrivePrefix), false)

  predicate IsAsciiLetter(c: char) { 'A' <= c <= 'Z' || 'a' <= c <= 'z' }
  predicate IsDigit(c: char) { '0' <= c <= '9' }
  predicate IsUpper(c: char) { 'A' <= c <= 'Z' }

  lemma AllInRange(s: string, lo: char, hi: char)
    ensures AllIn(s, [Range(lo, hi)]) <==> forall i :: 0 <= i < |s| ==> lo <= s[i] <= hi
  {
    AllInEach(s, [Range(lo, hi)]);
    forall i | 0 <= i < |s| { InSingleRange(s[i], lo, hi); }
  }

  /** A name is valid iff it is non-empty and made of ASCII letters and `\s` characters. */
  lemma NameRule(s: string)
    ensures Test(NameRegex, s) <==> |s| >= 1 && forall i :: 0 <= i < |s| ==> IsAsciiLetter(s[i]) || IsSpace(s[i])
  {
    var cls := NameRegex.terms[0].cls;
    MatchPlusToEnd(NameRegex.terms[0], s);
    AllInEach(s, cls);
    forall c: char ensures InClass(c, cls) <==> IsAsciiLetter(c) || IsSpace(c) {
      assert cls[1..] == [Range('a', 'z'), Space] && cls[1..][1..] == [Space] && cls[1..][1..][1..] == [];
      assert InClass(c, cls[1..][1..]) <==> IsSpace(c);
      assert InClass(c, cls[1..]) <==> 'a' <= c <= 'z' || IsSpace(c);
    }
  }

  /** A roll number is valid iff it is 2 digits, 2 capitals and 5 digits: nine characters. */
  lemma RollRule(s: string)
    ensures Test(RollRegex, s) <==>
              && |s| == 9
              && IsDigit(s[0]) && IsDigit(s[1])
              && IsUpper(s[2]) && IsUpper(s[3])
              && forall i :: 4 <= i < 9 ==> IsDigit(s[i])
  {
    var t := RollRegex.terms;
    MatchFixed(t, s, true);
    if 2 <= |s| {
      AllInRange(s[..2], '0', '9');
      MatchFixed(t[1..], s[2..], true);
      if 4 <= |s| {
        AllInRange(s[2..][..2], 'A', 'Z');
        MatchFixed(t[1..][1..], s[2..][2..], true);
        if 9 <= |s| {
          AllInRange(s[2..][2..][..5], '0', '9');
          assert t[1..][1..][1..] == [];
          assert forall i :: 4 <= i < 9 ==> s[i] == s[2..][2..][..5][i - 4];
        }
      }
    }
  }

  /** A drive link is valid iff it begins with the drive prefix; the rest is free. */
  lemma DriveRule(s: string)
    ensures Test(DriveRegex, s) <==> DrivePrefix <= s
  {
    MatchLiteral(DrivePrefix, s);
  }

  // ---------------------------------------------------------------------------
  // Form state
  // ---------------------------------------------------------------------------

  /** The `name` attributes of the three inputs. */
  datatype Field = Name | RollNumber | GoogleDriveLink

  datatype FormData = FormData(name: string, rollNumber: string, googleDriveLink: string)

  const EmptyForm := FormData("", "", "")

  function Get(form: FormData, field: Field): string {
    match field
    case Name => form.name
    case RollNumber => form.rollNumber
    case GoogleDriveLink => form.googleDriveLink
  }

  /** `{ ...form, [field]: value }` */
  function With(form: FormData, field: Field, value: string): (r: FormData)
    ensures Get(r, field) == value
    ensures forall g :: g != field ==> Get(r, g) == Get(form, g)
  {
    match field
    case Name => form.(name := value)
    case RollNumber => form.(rollNumber := value)
    case GoogleDriveLink => form.(googleDriveLink := value)
  }

  /** The pattern that guards each field. */
  function PatternOf(field: Field): Pattern {
    match field
    case Name => NameRegex
    case RollNumber => RollRegex
    case GoogleDriveLink => DriveRegex
  }

  predicate FieldValid(form: FormData, field: Field) {
    Test(PatternOf(field), Get(form, field))
  }

  predicate FormValid(form: FormData) {
    FieldValid(form, Name) && FieldValid(form, RollNumber) && FieldValid(form, GoogleDriveLink)
  }

  /** The message `validate` stores for a field; `Text` is its wording. */
  datatype ErrorMessage = NameFormat | RollNumberFormat | DriveLinkFormat {
    function Text(): string {
      match this
      case NameFormat => "Name must contain only alphabets and spaces."
      case RollNumberFormat => "Roll number must be in the format 24CS10081 (2 digits, 2 uppercase letters, 5 digits)."
      case DriveLinkFormat => "Google Drive link must be a valid drive link."
    }
  }

  function MessageFor(field: Field): ErrorMessage {
    match field
    case Name => NameFormat
    case RollNumber => RollNumberFormat
    case GoogleDriveLink => DriveLinkFormat
  }

  /** The message map `validate` builds: one entry exactly for each failing field. */
  ghost predicate ReportsErrorsOf(errors: map<Field, ErrorMessage>, form: FormData) {
    && ReportsField(errors, form, Name)
    && ReportsField(errors, form, RollNumber)
    && ReportsField(errors, form, GoogleDriveLink)
  }

  /** The map's entry for one field depends on that field's own check only. */
  ghost predicate ReportsField(errors: map<Field, ErrorMessage>, form: FormData, f: Field) {
    (f in errors <==> !FieldValid(form, f)) && (f in errors ==> errors[f] == MessageFor(f))
  }

  /** The error map is empty exactly when all three patterns accept their fields. */
  lemma NoErrorsIffValid(errors: map<Field, ErrorMessage>, form: FormData)
    requires ReportsErrorsOf(errors, form)
    ensures errors == map[] <==> FormValid(form)
  {
    if errors != map[] {
      var f :| f in errors;
      assert !FieldValid(form, f);
    } else {
      assert Name !in errors && RollNumber !in errors && GoogleDriveLink !in errors;
    }
  }

  /** The request body `handleSubmit` posts, with the server's field names. */
  function Payload(form: FormData): Fields {
    map["name" := form.name, "roll_number" := form.rollNumber, "google_drive_link" := form.googleDriveLink]
  }

  /**
   * The request `handleSubmit` sends: a POST of the payload, with no
   * `Authorization` header.
   */
  function SubmitRequest(form: FormData): Request {
    Request("POST", None, Some(Payload(form)))
  }

  /** The same POST carrying the stored login token as `Bearer ${token}`. */
  function AuthorizedSubmitRequest(form: FormData, token: string): Request {
    Request("POST", Some("Bearer " + token), Some(Payload(form)))
  }

  /**
   * A form that passes `validate` also passes the server's required-field
   * check, and the server reads back exactly the three values typed in.
   */
  lemma ValidFormPassesServerCheck(form: FormData)
    requires FormValid(form)
    ensures CandidateApi.FieldsPresent(Payload(form))
    ensures Payload(form)["name"] == form.name
    ensures Payload(form)["roll_number"] == form.rollNumber
    ensures Payload(form)["google_drive_link"] == form.googleDriveLink
  {
    NameRule(form.name);
    RollRule(form.rollNumber);
    DriveRule(form.googleDriveLink);
  }

  /** The component's state: `form` and `errors`. */
  class Component {
    var form: FormData
    var errors: map<Field, ErrorMessage>

    constructor ()
      ensures form == EmptyForm && errors == map[]
    {
      form, errors := EmptyForm, map[];
    }

    /** `validate`: rebuild the message map from the current fields. */
    method Validate() returns (ok: bool)
      modifies this`errors
      ensures ReportsErrorsOf(errors, form)
      ensures ok <==> errors == map[]
      ensures ok <==> FormValid(form)
    {
      var newErrors: map<Field, ErrorMessage> := map[];
      if !FieldValid(form, Name) {
        newErrors := newErrors[Name := MessageFor(Name)];
      }
      if !FieldValid(form, RollNumber) {
        newErrors := newErrors[RollNumber := MessageFor(RollNumber)];
      }
      if !FieldValid(form, GoogleDriveLink) {
        newErrors := newErrors[GoogleDriveLink := MessageFor(GoogleDriveLink)];
      }
      errors := newErrors;
      ok := |newErrors| == 0;
    }

    /** `handleChange`: set one field and clear that field's message only. */
    method HandleChange(field: Field, value: string)
      modifies this
      ensures form == With(old(form), field, value)
      ensures errors == old(errors) - {field}
    {
      form := With(form, field, value);
      errors := errors - {field};
    }

    /**
     * `handleSubmit`: nothing is sent when validation fails; otherwise the
     * payload is posted and, when the server `accepted` it, the form is reset.
     */
    method HandleSubmit(accepted: bool) returns (sent: Option<Request>)
      modifies this
      ensures ReportsErrorsOf(errors, old(form))
      ensures sent == if FormValid(old(form)) then Some(SubmitRequest(old(form))) else None
      ensures form == if FormValid(old(form)) && accepted then EmptyForm else old(form)
    {
      var ok := Validate();
      if !ok {
        return None;
      }
      sent := Some(SubmitRequest(form));
      if accepted {
        form := EmptyForm;
      }
    }
  }
}
