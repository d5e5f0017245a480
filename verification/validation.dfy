/** The validator and the sanitiser of bug input (`backend/utils/validation.js`). */
module Validation {
  import opened Wrappers
  import opened JsStrings
  import opened JsValues

  /** The five rules of `validateBug`, in the order they are checked. */
  datatype Violation =
    | TitleRequired
    | TitleTooLong
    | DescriptionRequired
    | DescriptionTooLong
    | StatusInvalid
  {
    /** Position of the rule in the order of checks. */
    function Rank(): nat {
      match this
      case TitleRequired => 0
      case TitleTooLong => 1
      case DescriptionRequired => 2
      case DescriptionTooLong => 3
      case StatusInvalid => 4
    }

    /** The message the rule pushes onto `errors`. */
    function Message(): string {
      match this
      case TitleRequired => "Title is required and must be a non-empty string"
      case TitleTooLong => "Title must be less than 100 characters"
      case DescriptionRequired => "Description is required and must be a non-empty string"
      case DescriptionTooLong => "Description must be less than 500 characters"
      case StatusInvalid => "Status must be one of: open, in-progress, resolved"
    }
  }

  const MaxTitleLength: nat := 100
  const MaxDescriptionLength: nat := 500

  const ValidStatuses: seq<string> := ["open", "in-progress", "resolved"]

  /** The status message is built from the list of valid statuses. */
  lemma StatusMessageListsValidStatuses()
    ensures StatusInvalid.Message() == "Status must be one of: " + Join(ValidStatuses, ", ")
  {
    assert Join(ValidStatuses[..2], ", ") == "open, in-progress";
  }

  datatype ValidationResult = ValidationResult(valid: bool, errors: seq<string>)

  /** The required-text rule as written: falsy, not a string, or blank after trimming. */
  predicate MissingText(v: Value) {
    !Truthy(v) || !v.Str? || |Trim(v.s)| == 0
  }

  /** The length rule as written: a truthy value whose `length` exceeds `max`. */
  predicate Overlong(v: Value, max: nat) {
    Truthy(v) && Length(v).Some? && Length(v).value > max
  }

  /** `validateStatus`: membership of the three status strings. */
  function ValidateStatus(v: Value): (r: bool)
    ensures r <==> v == Str("open") || v == Str("in-progress") || v == Str("resolved")
    ensures r ==> Truthy(v)
  {
    v.Str? && v.s in ValidStatuses
  }

  /** Distinct rules have distinct messages, so a message names its rule. */
  lemma MessagesDistinct(v: Violation, w: Violation)
    ensures v.Message() == w.Message() <==> v == w
  {
    // the five messages have five different lengths
    assert |TitleRequired.Message()| == 48 && |TitleTooLong.Message()| == 38;
    assert |DescriptionRequired.Message()| == 54 && |DescriptionTooLong.Message()| == 44;
    assert |StatusInvalid.Message()| == 50;
  }

  /** Each rule at most once, in the order of checks. */
  predicate InRuleOrder(vs: seq<Violation>) {
    forall i, j :: 0 <= i < j < |vs| ==> vs[i].Rank() < vs[j].Rank()
  }

  function Rule(fails: bool, v: Violation): seq<Violation>
  {
    if fails then [v] else []
  }

  lemma MissingTextMeansNoVisibleText(v: Value)
    ensures MissingText(v) <==> !HasVisibleText(v)
  {
  }

  /** Appending a later rule keeps the list in rule order. */
  lemma AppendRule(vs: seq<Violation>, fails: bool, v: Violation)
    requires InRuleOrder(vs)
    requires forall i :: 0 <= i < |vs| ==> vs[i].Rank() < v.Rank()
    ensures InRuleOrder(vs + Rule(fails, v))
    ensures forall i :: 0 <= i < |vs + Rule(fails, v)| ==> (vs + Rule(fails, v))[i].Rank() <= v.Rank()
  {
  }

  /** A rule is in the extended list when it was before or is the one appended. */
  lemma InRule(vs: seq<Violation>, fails: bool, v: Violation, w: Violation)
    ensures w in vs + Rule(fails, v) <==> w in vs || (fails && w == v)
  {
  }

  /** Membership of `w` in the list built from the five flags. */
  lemma InCollected(title: bool, titleLength: bool, description: bool, descriptionLength: bool, status: bool,
                    w: Violation)
    ensures var r := Rule(title, TitleRequired) + Rule(titleLength, TitleTooLong)
                     + Rule(description, DescriptionRequired) + Rule(descriptionLength, DescriptionTooLong)
                     + Rule(status, StatusInvalid);
            w in r <==> || (title && w == TitleRequired)
                        || (titleLength && w == TitleTooLong)
                        || (description && w == DescriptionRequired)
                        || (descriptionLength && w == DescriptionTooLong)
                        || (status && w == StatusInvalid)
  {
    var r1 := Rule(title, TitleRequired);
    var r2 := r1 + Rule(titleLength, TitleTooLong);
    var r3 := r2 + Rule(description, DescriptionRequired);
    var r4 := r3 + Rule(descriptionLength, DescriptionTooLong);
    InRule(r1, titleLength, TitleTooLong, w);
    InRule(r2, description, DescriptionRequired, w);
    InRule(r3, descriptionLength, DescriptionTooLong, w);
    InRule(r4, status, StatusInvalid, w);
  }

  /** The broken rules, given which of the five checks failed. */
  function Collect(title: bool, titleLength: bool, description: bool, descriptionLength: bool, status: bool)
    : (r: seq<Violation>)
    ensures TitleRequired in r <==> title
    ensures TitleTooLong in r <==> titleLength
    ensures DescriptionRequired in r <==> description
    ensures DescriptionTooLong in r <==> descriptionLength
    ensures StatusInvalid in r <==> status
    ensures InRuleOrder(r)
    ensures |r| <= 5
  {
    var r1 := Rule(title, TitleRequired);
    var r2 := r1 + Rule(titleLength, TitleTooLong);
    var r3 := r2 + Rule(description, DescriptionRequired);
    var r4 := r3 + Rule(descriptionLength, DescriptionTooLong);
    AppendRule(r1, titleLength, TitleTooLong);
    AppendRule(r2, description, DescriptionRequired);
    AppendRule(r3, descriptionLength, DescriptionTooLong);
    AppendRule(r4, status, StatusInvalid);
    InCollected(title, titleLength, description, descriptionLength, status, TitleRequired);
    InCollected(title, titleLength, description, descriptionLength, status, TitleTooLong);
    InCollected(title, titleLength, description, descriptionLength, status, DescriptionRequired);
    InCollected(title, titleLength, description, descriptionLength, status, DescriptionTooLong);
    InCollected(title, titleLength, description, descriptionLength, status, StatusInvalid);
    r4 + Rule(status, StatusInvalid)
  }

  /** The rules `validateBug` finds broken, in the order it reports them. */
  function Violations(b: BugData): (r: seq<Violation>)
    ensures TitleRequired in r <==> !HasVisibleText(b.title)
    ensures TitleTooLong in r <==> Overlong(b.title, MaxTitleLength)
    ensures DescriptionRequired in r <==> !HasVisibleText(b.description)
    ensures DescriptionTooLong in r <==> Overlong(b.description, MaxDescriptionLength)
    ensures StatusInvalid in r <==> Truthy(b.status) && !ValidateStatus(b.status)
    ensures |r| <= 5
  {
    MissingTextMeansNoVisibleText(b.title);
    MissingTextMeansNoVisibleText(b.description);
    Collect(
      MissingText(b.title),
      Overlong(b.title, MaxTitleLength),
      MissingText(b.description),
      Overlong(b.description, MaxDescriptionLength),
      Truthy(b.status) && !(b.status.Str? && b.status.s in ValidStatuses))
  }

  /** The broken rules are reported in the order they are checked, each once. */
  lemma ViolationsInRuleOrder(b: BugData)
    ensures InRuleOrder(Violations(b))
  {
  }

  function Messages(vs: seq<Violation>): (ms: seq<string>)
    ensures |ms| == |vs|
    ensures forall i :: 0 <= i < |vs| ==> ms[i] == vs[i].Message()
  {
    if |vs| == 0 then [] else [vs[0].Message()] + Messages(vs[1..])
  }

  /** `validateBug`: every rule is checked and each broken one contributes its message. */
  function ValidateBug(b: BugData): (r: ValidationResult)
    ensures r.valid <==> r.errors == []
    ensures r.valid <==> Violations(b) == []
    ensures |r.errors| == |Violations(b)|
    ensures forall i :: 0 <= i < |r.errors| && i < |Violations(b)| ==> r.errors[i] == Violations(b)[i].Message()
  {
    var errors := Messages(Violations(b));
    ValidationResult(|errors| == 0, errors)
  }

  /** The errors name exactly the broken rules: a rule's message is reported
      precisely when that rule is broken. */
  lemma ErrorsNameViolations(b: BugData, v: Violation)
    ensures v.Message() in ValidateBug(b).errors <==> v in Violations(b)
  {
    var errors := ValidateBug(b).errors;
    if v.Message() in errors {
      var i :| 0 <= i < |errors| && errors[i] == v.Message();
      MessagesDistinct(v, Violations(b)[i]);
    }
  }

  /** `n` spaces, used to build example inputs. */
  function Spaces(n: nat): (s: string)
    ensures |s| == n && AllWhitespace(s)
  {
    seq(n, _ => ' ')
  }

  /** A 101-space title fails both title rules: the length rule reads the untrimmed length. */
  lemma BlankOverlongTitleFailsBothRules(b: BugData)
    requires b.title == Str(Spaces(MaxTitleLength + 1))
    ensures Violations(b)[..2] == [TitleRequired, TitleTooLong]
  {
  }

  /** With a valid title and description, an unknown status is the first and only error. */
  lemma UnknownStatusIsOnlyError(b: BugData)
    requires HasVisibleText(b.title) && Utf16Length(b.title.s) <= MaxTitleLength
    requires HasVisibleText(b.description) && Utf16Length(b.description.s) <= MaxDescriptionLength
    requires Truthy(b.status) && !ValidateStatus(b.status)
    ensures Violations(b) == [StatusInvalid]
    ensures ValidateBug(b).errors == [StatusInvalid.Message()]
  {
  }

  /** Each enumerated status, as well as an absent or empty one, is accepted when
      title and description are valid. */
  lemma ListedStatusesAccepted(b: BugData)
    requires HasVisibleText(b.title) && Utf16Length(b.title.s) <= MaxTitleLength
    requires HasVisibleText(b.description) && Utf16Length(b.description.s) <= MaxDescriptionLength
    requires b.status in {Missing, Str(""), Str("open"), Str("in-progress"), Str("resolved")}
    ensures ValidateBug(b).valid
  {
  }

  // ---------------------------------------------------------------------------
  // Sanitiser
  // ---------------------------------------------------------------------------

  /** The object `sanitizeBug` returns. */
  datatype SanitizedBug = SanitizedBug(title: string, description: string, status: Value, priority: Value)

  /** The four keys of a sanitised bug read back as input. */
  function AsData(s: SanitizedBug): BugData
  {
    BugData(Str(s.title), Str(s.description), s.status, s.priority)
  }

  /** `v ? v.trim() : ''`: throws when a truthy value is not a string. */
  function SanitizeText(v: Value): (r: Result<string, JsError>)
    ensures r.Success? <==> !Truthy(v) || v.Str?
    ensures r.Success? ==> Trimmed(r.value)
    ensures r.Success? && v.Str? ==> exists i :: PaddedAt(v.s, r.value, i)
    ensures r.Success? && !HasVisibleText(v) ==> r.value == ""
  {
    if !Truthy(v) then
      assert v.Str? ==> PaddedAt(v.s, "", 0);
      Success("")
    else if v.Str? then Success(Trim(v.s))
    else Failure(TypeError)
  }

  /** `sanitizeBug`: trims title and description, defaults status and priority. */
  function SanitizeBug(b: BugData): (r: Result<SanitizedBug, JsError>)
    ensures r.Success? <==> (!Truthy(b.title) || b.title.Str?) && (!Truthy(b.description) || b.description.Str?)
    ensures r.Success? ==> Trimmed(r.value.title) && Trimmed(r.value.description)
    ensures r.Success? ==> r.value.title == SanitizeText(b.title).value
    ensures r.Success? ==> r.value.description == SanitizeText(b.description).value
    ensures r.Success? ==> r.value.status == (if Truthy(b.status) then b.status else Str("open"))
    ensures r.Success? ==> r.value.priority == (if Truthy(b.priority) then b.priority else Str("medium"))
  {
    match SanitizeText(b.title)
    case Failure(e) => Failure(e)
    case Success(title) =>
      match SanitizeText(b.description)
      case Failure(e) => Failure(e)
      case Success(description) =>
        Success(SanitizedBug(title, description, OrDefault(b.status, "open"), OrDefault(b.priority, "medium")))
  }

  lemma SanitizeTextIdempotent(v: Value)
    requires SanitizeText(v).Success?
    ensures SanitizeText(Str(SanitizeText(v).value)) == SanitizeText(v)
  {
    if v.Str? {
      TrimIdempotent(v.s);
    }
  }

  /** Sanitising a sanitised bug changes nothing. */
  lemma SanitizeIdempotent(b: BugData)
    requires SanitizeBug(b).Success?
    ensures SanitizeBug(AsData(SanitizeBug(b).value)) == SanitizeBug(b)
  {
    SanitizeTextIdempotent(b.title);
    SanitizeTextIdempotent(b.description);
  }

  lemma TrimTitleExample()
    ensures Trim("  Test Bug  ") == "Test Bug"
  {
    assert "  Test Bug  " == "  " + "Test Bug" + "  ";
    TrimOfPadded("  ", "Test Bug", "  ");
  }

  lemma TrimDescriptionExample()
    ensures Trim("  This is a test bug  ") == "This is a test bug"
  {
    assert "  This is a test bug  " == "  " + "This is a test bug" + "  ";
    TrimOfPadded("  ", "This is a test bug", "  ");
  }

  lemma SanitizeTitleExample()
    ensures SanitizeText(Str("  Test Bug  ")) == Success("Test Bug")
  {
    TrimTitleExample();
  }

  lemma SanitizeDescriptionExample()
    ensures SanitizeText(Str("  This is a test bug  ")) == Success("This is a test bug")
  {
    TrimDescriptionExample();
  }

  lemma SanitizeTrimsAndDefaults()
    ensures SanitizeBug(BugData(Str("  Test Bug  "), Str("  This is a test bug  "), Missing, Missing))
         == Success(SanitizedBug("Test Bug", "This is a test bug", Str("open"), Str("medium")))
  {
    SanitizeTitleExample();
    SanitizeDescriptionExample();
  }
}
