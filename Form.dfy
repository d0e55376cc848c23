/** The job-application form controller (`JobApplicationForm`): the draft
    record, the error map, the validation rules and the four handlers that act
    on them. */
module Form {
  import opened Wrappers
  import opened Strings
  import Url

  /** The nine fields of an application, in the order the draft declares them. */
  datatype Field =
    | FullName | Email | PhoneNumber | Position | RelevantExperience
    | PortfolioURL | ManagementExperience | AdditionalSkills | InterviewTime

  /** The fields in the order the initial state declares them, which is
      also the order `Object.entries` lists them in. */
  const FieldOrder: seq<Field> := [
    FullName, Email, PhoneNumber, Position, RelevantExperience,
    PortfolioURL, ManagementExperience, AdditionalSkills, InterviewTime ]

  /** Where a field stands in the declaration order. */
  function FieldIndex(f: Field): (i: nat)
    ensures i < |FieldOrder| && FieldOrder[i] == f
  {
    match f
    case FullName => 0
    case Email => 1
    case PhoneNumber => 2
    case Position => 3
    case RelevantExperience => 4
    case PortfolioURL => 5
    case ManagementExperience => 6
    case AdditionalSkills => 7
    case InterviewTime => 8
  }

  /** The fields edited through `handleChange`: all but the skills list,
      which only the checkboxes edit. */
  type TextField = f: Field | f != AdditionalSkills witness FullName

  /** The draft record (`formData`). */
  datatype Draft = Draft(
    fullName: string,
    email: string,
    phoneNumber: string,
    position: string,
    relevantExperience: string,
    portfolioURL: string,
    managementExperience: string,
    additionalSkills: seq<string>,
    interviewTime: string)

  /** The draft the form starts from: every text field empty, no skill. */
  function InitialDraft(): Draft {
    Draft("", "", "", "", "", "", "", [], "")
  }

  /** The value of a text field. */
  function Text(d: Draft, f: TextField): string {
    match f
    case FullName => d.fullName
    case Email => d.email
    case PhoneNumber => d.phoneNumber
    case Position => d.position
    case RelevantExperience => d.relevantExperience
    case PortfolioURL => d.portfolioURL
    case ManagementExperience => d.managementExperience
    case InterviewTime => d.interviewTime
  }

  // The messages, one per field (two for the portfolio URL).
  const FullNameRequired := "Full Name is required"
  const EmailRequired := "Email is required"
  const PhoneNumberRequired := "Phone Number is required"
  const PositionRequired := "Position is required"
  const RelevantExperienceRequired := "Relevant Experience is required"
  const PortfolioURLRequired := "Portfolio URL is required"
  const PortfolioURLInvalid := "Portfolio URL is not valid"
  const ManagementExperienceRequired := "Management Experience is required"
  const SkillsRequired := "At least one skill is required"
  const InterviewTimeRequired := "Preferred Interview Time is required"

  // The rules, stated field by field.

  /** The fields that become required because of the position chosen. */
  function ExtraRequired(position: string): set<Field> {
    if position == "Developer" then {RelevantExperience}
    else if position == "Designer" then {RelevantExperience, PortfolioURL}
    else if position == "Manager" then {ManagementExperience}
    else {}
  }

  /** The message `message` when `value` is blank, no message otherwise. */
  function Required(value: string, message: string): Option<string> {
    if Blank(value) then Some(message) else None
  }

  /** The error, if any, that field `f` of draft `d` carries. */
  ghost function Check(d: Draft, f: Field): Option<string> {
    match f
    case FullName => Required(d.fullName, FullNameRequired)
    case Email => Required(d.email, EmailRequired)
    case PhoneNumber => Required(d.phoneNumber, PhoneNumberRequired)
    case Position => Required(d.position, PositionRequired)
    case RelevantExperience =>
      if f in ExtraRequired(d.position) then Required(d.relevantExperience, RelevantExperienceRequired)
      else None
    case PortfolioURL =>
      if f !in ExtraRequired(d.position) then None
      else if Blank(d.portfolioURL) then Some(PortfolioURLRequired)
      else if !Url.Matches(d.portfolioURL) then Some(PortfolioURLInvalid)
      else None
    case ManagementExperience =>
      if f in ExtraRequired(d.position) then Required(d.managementExperience, ManagementExperienceRequired)
      else None
    case AdditionalSkills =>
      if |d.additionalSkills| == 0 then Some(SkillsRequired) else None
    case InterviewTime => Required(d.interviewTime, InterviewTimeRequired)
  }

  /** The error map of a draft: one entry per field whose check fails. */
  ghost function Errors(d: Draft): map<Field, string> {
    map f | f in FieldOrder && Check(d, f).Some? :: Check(d, f).value
  }

  /** `m` with the error `e` of field `f` inserted, if there is one. */
  function Insert(m: map<Field, string>, f: Field, e: Option<string>): map<Field, string> {
    if e.Some? then m[f := e.value] else m
  }

  /** Inserting the fields' errors one after the other, in the order the
      draft declares the fields, yields the error map. */
  lemma ErrorsByInsertion(d: Draft)
    ensures Errors(d) ==
      Insert(Insert(Insert(Insert(Insert(Insert(Insert(Insert(Insert(map[],
        FullName, Check(d, FullName)),
        Email, Check(d, Email)),
        PhoneNumber, Check(d, PhoneNumber)),
        Position, Check(d, Position)),
        RelevantExperience, Check(d, RelevantExperience)),
        PortfolioURL, Check(d, PortfolioURL)),
        ManagementExperience, Check(d, ManagementExperience)),
        AdditionalSkills, Check(d, AdditionalSkills)),
        InterviewTime, Check(d, InterviewTime))
  {
    var m4 := Insert(Insert(Insert(Insert(map[],
      FullName, Check(d, FullName)),
      Email, Check(d, Email)),
      PhoneNumber, Check(d, PhoneNumber)),
      Position, Check(d, Position));
    AlwaysRequiredAgree(d);
    LaterInsertionsAgree(m4, d);
    ErrorsAreTheAgreeingMap(
      Insert(Insert(Insert(Insert(Insert(m4,
        RelevantExperience, Check(d, RelevantExperience)),
        PortfolioURL, Check(d, PortfolioURL)),
        ManagementExperience, Check(d, ManagementExperience)),
        AdditionalSkills, Check(d, AdditionalSkills)),
        InterviewTime, Check(d, InterviewTime)),
      d);
  }

  /** The last five insertions, made to a map that agrees on the first four
      fields, give a map that agrees on all nine. */
  lemma LaterInsertionsAgree(m4: map<Field, string>, d: Draft)
    requires AgreesOn(m4, d, {FullName, Email, PhoneNumber, Position})
    ensures AgreesOn(
      Insert(Insert(Insert(Insert(Insert(m4,
        RelevantExperience, Check(d, RelevantExperience)),
        PortfolioURL, Check(d, PortfolioURL)),
        ManagementExperience, Check(d, ManagementExperience)),
        AdditionalSkills, Check(d, AdditionalSkills)),
        InterviewTime, Check(d, InterviewTime)),
      d, {FullName, Email, PhoneNumber, Position, RelevantExperience,
          PortfolioURL, ManagementExperience, AdditionalSkills, InterviewTime})
  {
    var m5 := Insert(m4, RelevantExperience, Check(d, RelevantExperience));
    var m6 := Insert(m5, PortfolioURL, Check(d, PortfolioURL));
    var m7 := Insert(m6, ManagementExperience, Check(d, ManagementExperience));
    var m8 := Insert(m7, AdditionalSkills, Check(d, AdditionalSkills));
    var fs := {FullName, Email, PhoneNumber, Position};
    InsertionStep(m4, d, fs, RelevantExperience);
    InsertionStep(m5, d, fs + {RelevantExperience}, PortfolioURL);
    InsertionStep(m6, d, fs + {RelevantExperience, PortfolioURL}, ManagementExperience);
    InsertionStep(m7, d, fs + {RelevantExperience, PortfolioURL, ManagementExperience}, AdditionalSkills);
    InsertionStep(m8, d, fs + {RelevantExperience, PortfolioURL, ManagementExperience, AdditionalSkills},
      InterviewTime);
    assert fs + {RelevantExperience, PortfolioURL, ManagementExperience, AdditionalSkills} + {InterviewTime}
      == {FullName, Email, PhoneNumber, Position, RelevantExperience,
          PortfolioURL, ManagementExperience, AdditionalSkills, InterviewTime};
  }

  /** The first four insertions agree with the checks of the first four fields. */
  lemma AlwaysRequiredAgree(d: Draft)
    ensures AgreesOn(
      Insert(Insert(Insert(Insert(map[],
        FullName, Check(d, FullName)),
        Email, Check(d, Email)),
        PhoneNumber, Check(d, PhoneNumber)),
        Position, Check(d, Position)),
      d, {FullName, Email, PhoneNumber, Position})
  {
    var m1 := Insert(map[], FullName, Check(d, FullName));
    var m2 := Insert(m1, Email, Check(d, Email));
    var m3 := Insert(m2, PhoneNumber, Check(d, PhoneNumber));
    InsertionStep(map[], d, {}, FullName);
    InsertionStep(m1, d, {FullName}, Email);
    InsertionStep(m2, d, {FullName, Email}, PhoneNumber);
    InsertionStep(m3, d, {FullName, Email, PhoneNumber}, Position);
  }

  /** `m` holds exactly the errors of the fields in `fs`. */
  ghost predicate AgreesOn(m: map<Field, string>, d: Draft, fs: set<Field>) {
    forall f :: (f in m <==> f in fs && Check(d, f).Some?) && (f in m ==> Check(d, f) == Some(m[f]))
  }

  /** Inserting one more field's error keeps the map in agreement. */
  lemma InsertionStep(m: map<Field, string>, d: Draft, fs: set<Field>, f: Field)
    requires AgreesOn(m, d, fs) && f !in fs
    ensures AgreesOn(Insert(m, f, Check(d, f)), d, fs + {f})
  {
  }

  /** A map that agrees with the checks on all nine fields is the error map. */
  lemma ErrorsAreTheAgreeingMap(m: map<Field, string>, d: Draft)
    requires AgreesOn(m, d, {FullName, Email, PhoneNumber, Position, RelevantExperience,
      PortfolioURL, ManagementExperience, AdditionalSkills, InterviewTime})
    ensures m == Errors(d)
  {
    EveryFieldListed();
  }

  /** The declaration order lists every field. */
  lemma EveryFieldListed()
    ensures forall f: Field :: f in FieldOrder
  {
    forall f: Field ensures f in FieldOrder {
      assert FieldOrder[FieldIndex(f)] == f;
    }
  }

  /** The three position-dependent checks, each as the `if` that computes it;
      the portfolio URL is tested with the recogniser, which accepts exactly
      what the pattern matches. */
  lemma PositionDependentChecks(d: Draft)
    ensures Check(d, RelevantExperience)
      == if (d.position == "Developer" || d.position == "Designer") && Blank(d.relevantExperience)
         then Some(RelevantExperienceRequired) else None
    ensures Check(d, PortfolioURL)
      == if d.position != "Designer" then None
         else if Blank(d.portfolioURL) then Some(PortfolioURLRequired)
         else if !Url.IsValidUrl(d.portfolioURL) then Some(PortfolioURLInvalid)
         else None
    ensures Check(d, ManagementExperience)
      == if d.position == "Manager" && Blank(d.managementExperience)
         then Some(ManagementExperienceRequired) else None
  {
    Url.IsValidUrlIffMatches(d.portfolioURL);
  }

  // What the rules promise.

  /** The five always-required fields carry an error exactly when blank,
      each with its own fixed message. */
  lemma RequiredFieldErrors(d: Draft)
    ensures FullName in Errors(d) <==> Blank(d.fullName)
    ensures Email in Errors(d) <==> Blank(d.email)
    ensures PhoneNumber in Errors(d) <==> Blank(d.phoneNumber)
    ensures Position in Errors(d) <==> Blank(d.position)
    ensures InterviewTime in Errors(d) <==> Blank(d.interviewTime)
    ensures FullName in Errors(d) ==> Errors(d)[FullName] == "Full Name is required"
    ensures Email in Errors(d) ==> Errors(d)[Email] == "Email is required"
    ensures PhoneNumber in Errors(d) ==> Errors(d)[PhoneNumber] == "Phone Number is required"
    ensures Position in Errors(d) ==> Errors(d)[Position] == "Position is required"
    ensures InterviewTime in Errors(d) ==> Errors(d)[InterviewTime] == "Preferred Interview Time is required"
  {
  }

  /** Relevant experience is required exactly for developers and designers. */
  lemma RelevantExperienceError(d: Draft)
    ensures RelevantExperience in Errors(d)
        <==> (d.position == "Developer" || d.position == "Designer") && Blank(d.relevantExperience)
    ensures RelevantExperience in Errors(d)
        ==> Errors(d)[RelevantExperience] == "Relevant Experience is required"
  {
  }

  /** The portfolio URL is checked only for designers: blank gives one
      message, a non-blank value the pattern rejects gives the other, and a
      matching value gives none. */
  lemma PortfolioURLError(d: Draft)
    ensures PortfolioURL in Errors(d) ==> d.position == "Designer"
    ensures d.position == "Designer" && Blank(d.portfolioURL)
        ==> PortfolioURL in Errors(d) && Errors(d)[PortfolioURL] == "Portfolio URL is required"
    ensures d.position == "Designer" && !Blank(d.portfolioURL) && !Url.Matches(d.portfolioURL)
        ==> PortfolioURL in Errors(d) && Errors(d)[PortfolioURL] == "Portfolio URL is not valid"
    ensures d.position == "Designer" && !Blank(d.portfolioURL) && Url.Matches(d.portfolioURL)
        ==> PortfolioURL !in Errors(d)
  {
  }

  /** A manager needs management experience and nothing a developer or a
      designer needs. */
  lemma ManagerErrors(d: Draft)
    ensures ManagementExperience in Errors(d) <==> d.position == "Manager" && Blank(d.managementExperience)
    ensures ManagementExperience in Errors(d)
        ==> Errors(d)[ManagementExperience] == "Management Experience is required"
    ensures d.position == "Manager" ==> RelevantExperience !in Errors(d) && PortfolioURL !in Errors(d)
  {
  }

  /** The skills list needs at least one entry; what it holds, duplicates
      included, is not checked. */
  lemma SkillsError(d: Draft)
    ensures AdditionalSkills in Errors(d) <==> |d.additionalSkills| == 0
    ensures AdditionalSkills in Errors(d) ==> Errors(d)[AdditionalSkills] == "At least one skill is required"
  {
  }

  /** The empty form has exactly six errors: the five always-required fields
      and the skills; with no position chosen, no conditional field is checked. */
  lemma InitialDraftErrors()
    ensures Errors(InitialDraft()).Keys == {FullName, Email, PhoneNumber, Position, AdditionalSkills, InterviewTime}
    ensures |Errors(InitialDraft())| == 6
  {
    var e := Errors(InitialDraft());
    assert Blank("");
    assert e.Keys == {FullName, Email, PhoneNumber, Position, AdditionalSkills, InterviewTime};
  }

  /** A developer's relevant experience: blank is an error, "2" is not. */
  lemma DeveloperExample(d: Draft)
    requires d.position == "Developer"
    ensures d.relevantExperience == "" ==> RelevantExperience in Errors(d)
    ensures d.relevantExperience == "2" ==> RelevantExperience !in Errors(d)
  {
    if d.relevantExperience == "2" {
      assert !IsWhitespace(d.relevantExperience[0]);
    }
  }

  /** For a designer, a portfolio URL the recogniser accepts carries no
      error, and a non-blank one it rejects is reported as not valid. */
  lemma PortfolioURLByRecogniser(d: Draft)
    requires d.position == "Designer"
    ensures Url.IsValidUrl(d.portfolioURL) ==> PortfolioURL !in Errors(d)
    ensures !Blank(d.portfolioURL) && !Url.IsValidUrl(d.portfolioURL)
        ==> PortfolioURL in Errors(d) && Errors(d)[PortfolioURL] == "Portfolio URL is not valid"
  {
    PortfolioURLError(d);
    Url.IsValidUrlIffMatches(d.portfolioURL);
    if Url.IsValidUrl(d.portfolioURL) {
      Url.ValidUrlStartsWithLabelChar(d.portfolioURL);
      assert !IsWhitespace(d.portfolioURL[0]);
    }
  }

  /** A designer's portfolio "not a url" is reported as not valid. */
  lemma DesignerInvalidExample(d: Draft)
    requires d.position == "Designer" && d.portfolioURL == "not a url"
    ensures PortfolioURL in Errors(d) && Errors(d)[PortfolioURL] == "Portfolio URL is not valid"
  {
    Url.RejectedWithSpaces();
    assert !IsWhitespace(d.portfolioURL[0]);
    PortfolioURLByRecogniser(d);
  }

  /** A designer's portfolio "https://example.com/p" carries no error. */
  lemma DesignerValidExample(d: Draft)
    requires d.position == "Designer" && d.portfolioURL == "https://example.com/p"
    ensures PortfolioURL !in Errors(d)
  {
    Url.AcceptedWithScheme();
    PortfolioURLByRecogniser(d);
  }

  // The skills list.

  /** `skills.filter(skill => skill !== value)`. */
  function Without(skills: seq<string>, value: string): (r: seq<string>)
    ensures value !in r
    ensures forall x :: x != value ==> multiset(r)[x] == multiset(skills)[x]
  {
    if skills == [] then []
    else
      assert skills == [skills[0]] + skills[1..];
      (if skills[0] == value then [] else [skills[0]]) + Without(skills[1..], value)
  }

  /** Filtering works element by element, so what is kept stays in order. */
  lemma {:induction false} WithoutAppend(a: seq<string>, b: seq<string>, value: string)
    ensures Without(a + b, value) == Without(a, value) + Without(b, value)
  {
    if a != [] {
      assert (a + b)[1..] == a[1..] + b;
      WithoutAppend(a[1..], b, value);
    } else {
      assert a + b == b;
    }
  }

  /** Filtering out a value the list does not hold changes nothing. */
  lemma {:induction false} WithoutAbsent(skills: seq<string>, value: string)
    requires value !in skills
    ensures Without(skills, value) == skills
  {
    if skills != [] {
      WithoutAbsent(skills[1..], value);
    }
  }

  /** The skills list after a checkbox event: appended when checked, every
      occurrence filtered out when unchecked. */
  function ToggledSkills(skills: seq<string>, value: string, checked: bool): (r: seq<string>)
    ensures value in r <==> checked
    ensures forall x :: x != value ==> multiset(r)[x] == multiset(skills)[x]
  {
    if checked then skills + [value] else Without(skills, value)
  }

  /** Checking a box that was unchecked and unchecking it again restores the list. */
  lemma CheckThenUncheck(skills: seq<string>, value: string)
    requires value !in skills
    ensures ToggledSkills(ToggledSkills(skills, value, true), value, false) == skills
  {
    WithoutAppend(skills, [value], value);
    WithoutAbsent(skills, value);
    assert Without([value], value) == [];
  }

  /** The handler itself never checks for duplicates: checking the same value
      twice puts it in the list twice. */
  lemma CheckTwiceDuplicates(skills: seq<string>, value: string)
    ensures multiset(ToggledSkills(ToggledSkills(skills, value, true), value, true))[value]
        == multiset(skills)[value] + 2
  {
  }

  /** The skills a checkbox offers. */
  const KnownSkills: set<string> := {"JavaScript", "CSS", "Python"}

  /** The list holds only offered skills, each at most once. */
  predicate SkillsWellFormed(skills: seq<string>) {
    && (forall i :: 0 <= i < |skills| ==> skills[i] in KnownSkills)
    && (forall i, j :: 0 <= i < j < |skills| ==> skills[i] != skills[j])
  }

  /** A checkbox shows as checked exactly when its value is in the list, so
      a click reports `checked` as the opposite of that. Such events keep
      the list free of duplicates and of unknown values, and leave the value
      in the list exactly when the box is now checked. */
  lemma CheckboxEventKeepsSkillsWellFormed(skills: seq<string>, value: string, checked: bool)
    requires SkillsWellFormed(skills) && value in KnownSkills
    requires checked == (value !in skills)
    ensures SkillsWellFormed(ToggledSkills(skills, value, checked))
    ensures value in ToggledSkills(skills, value, checked) <==> checked
  {
    if !checked {
      var r := Without(skills, value);
      forall i | 0 <= i < |r| ensures r[i] in KnownSkills && multiset(r)[r[i]] == 1 {
        assert r[i] in multiset(r);
        assert multiset(r)[r[i]] == multiset(skills)[r[i]];
        SingleOccurrence(skills, r[i]);
      }
      forall i, j | 0 <= i < j < |r| ensures r[i] != r[j] {
        if r[i] == r[j] {
          TwoOccurrences(r, i, j);
        }
      }
    }
  }

  /** In a list without duplicates, each element occurs once. */
  lemma {:induction false} SingleOccurrence(skills: seq<string>, x: string)
    requires SkillsWellFormed(skills) && x in multiset(skills)
    ensures x in KnownSkills && multiset(skills)[x] == 1
  {
    assert skills == [skills[0]] + skills[1..];
    var t := skills[1..];
    if skills[0] == x {
      assert x !in t;
      assert multiset(t)[x] == 0;
    } else {
      assert SkillsWellFormed(t);
      SingleOccurrence(t, x);
    }
  }

  /** Two equal elements at different positions make a count of at least two. */
  lemma TwoOccurrences(s: seq<string>, i: nat, j: nat)
    requires i < j < |s| && s[i] == s[j]
    ensures multiset(s)[s[i]] >= 2
  {
    assert s == s[..i] + [s[i]] + s[i + 1..j] + [s[j]] + s[j + 1..];
  }

  // The controller.

  class JobApplicationForm {
    /** The draft being edited. */
    var formData: Draft
    /** The errors shown next to the fields. */
    var errors: map<Field, string>

    /** The form mounts with the empty draft and no errors. */
    constructor ()
      ensures formData == InitialDraft() && errors == map[]
    {
      formData := InitialDraft();
      errors := map[];
    }

    /** `handleChange`: replaces the named text field and nothing else. */
    method HandleChange(name: TextField, value: string)
      modifies this
      ensures Text(formData, name) == value
      ensures forall g: TextField :: g != name ==> Text(formData, g) == Text(old(formData), g)
      ensures formData.additionalSkills == old(formData.additionalSkills)
      ensures errors == old(errors)
    {
      match name
      case FullName => formData := formData.(fullName := value);
      case Email => formData := formData.(email := value);
      case PhoneNumber => formData := formData.(phoneNumber := value);
      case Position => formData := formData.(position := value);
      case RelevantExperience => formData := formData.(relevantExperience := value);
      case PortfolioURL => formData := formData.(portfolioURL := value);
      case ManagementExperience => formData := formData.(managementExperience := value);
      case InterviewTime => formData := formData.(interviewTime := value);
    }

    /** `handleCheckboxChange`: appends the value when checked, filters every
        occurrence of it out when unchecked; no other field changes. */
    method HandleCheckboxChange(value: string, checked: bool)
      modifies this
      ensures formData == old(formData).(additionalSkills := formData.additionalSkills)
      ensures checked ==> formData.additionalSkills == old(formData.additionalSkills) + [value]
      ensures !checked ==> formData.additionalSkills == Without(old(formData.additionalSkills), value)
      ensures formData.additionalSkills == ToggledSkills(old(formData.additionalSkills), value, checked)
      ensures errors == old(errors)
    {
      var updatedSkills := formData.additionalSkills;
      if checked {
        updatedSkills := updatedSkills + [value];
      } else {
        updatedSkills := Without(updatedSkills, value);
      }
      formData := formData.(additionalSkills := updatedSkills);
    }

    /** The test `!value.trim()`: true exactly for a blank value. */
    static method TrimsToEmpty(value: string) returns (empty: bool)
      ensures empty <==> Blank(value)
    {
      empty := Trim(value) == [];
      TrimEmptyIffBlank(value);
    }

    /** One `if (!value.trim()) errors.f = message` step of `validateForm`. */
    static method RequireNonBlank(errs: map<Field, string>, f: Field, value: string, message: string)
      returns (r: map<Field, string>)
      ensures r == Insert(errs, f, Required(value, message))
    {
      var empty := TrimsToEmpty(value);
      r := errs;
      if empty {
        r := r[f := message];
      }
    }

    /** The designer's portfolio-URL step of `validateForm`: blank first,
        then the pattern. */
    static method CheckPortfolioURL(errs: map<Field, string>, url: string) returns (r: map<Field, string>)
      ensures r == Insert(errs, PortfolioURL,
        if Blank(url) then Some(PortfolioURLRequired)
        else if !Url.IsValidUrl(url) then Some(PortfolioURLInvalid)
        else None)
    {
      var empty := TrimsToEmpty(url);
      r := errs;
      if empty {
        r := r[PortfolioURL := PortfolioURLRequired];
      } else if !Url.IsValidUrl(url) {
        r := r[PortfolioURL := PortfolioURLInvalid];
      }
    }

    /** `validateForm`: builds the error map one conditional insertion at a
        time, testing blankness with `trim` and the URL with the recogniser;
        the result is the error map the rules define. */
    static method ValidateForm(d: Draft) returns (errs: map<Field, string>)
      ensures errs == Errors(d)
    {
      errs := map[];
      errs := RequireNonBlank(errs, FullName, d.fullName, FullNameRequired);
      errs := RequireNonBlank(errs, Email, d.email, EmailRequired);
      errs := RequireNonBlank(errs, PhoneNumber, d.phoneNumber, PhoneNumberRequired);
      errs := RequireNonBlank(errs, Position, d.position, PositionRequired);
      ghost var before := errs;
      PositionDependentChecks(d);
      if d.position == "Developer" || d.position == "Designer" {
        errs := RequireNonBlank(errs, RelevantExperience, d.relevantExperience, RelevantExperienceRequired);
      }
      assert errs == Insert(before, RelevantExperience, Check(d, RelevantExperience));
      before := errs;
      if d.position == "Designer" {
        errs := CheckPortfolioURL(errs, d.portfolioURL);
      }
      assert errs == Insert(before, PortfolioURL, Check(d, PortfolioURL));
      before := errs;
      if d.position == "Manager" {
        errs := RequireNonBlank(errs, ManagementExperience, d.managementExperience, ManagementExperienceRequired);
      }
      assert errs == Insert(before, ManagementExperience, Check(d, ManagementExperience));
      if |d.additionalSkills| == 0 {
        errs := errs[AdditionalSkills := SkillsRequired];
      }
      errs := RequireNonBlank(errs, InterviewTime, d.interviewTime, InterviewTimeRequired);
      ErrorsByInsertion(d);
    }

    /** `handleSubmit`: when the draft has no error it is handed to the
        `onSubmit` callback (returned here) and `errors` is left as it was;
        otherwise the error map is stored and nothing is handed over. The
        draft itself never changes. */
    method HandleSubmit() returns (submitted: Option<Draft>)
      modifies this
      ensures formData == old(formData)
      ensures submitted == (if Errors(formData) == map[] then Some(formData) else None)
      ensures errors == (if Errors(formData) == map[] then old(errors) else Errors(formData))
    {
      var formErrors := ValidateForm(formData);
      if |formErrors| == 0 {
        submitted := Some(formData);
      } else {
        submitted := None;
        errors := formErrors;
      }
    }
  }

  /** A draft that passes validation has every always-required field filled
      in, at least one skill, and whatever its position requires. */
  lemma SubmittedDraftIsComplete(d: Draft)
    requires Errors(d) == map[]
    ensures !Blank(d.fullName) && !Blank(d.email) && !Blank(d.phoneNumber)
    ensures !Blank(d.position) && !Blank(d.interviewTime) && |d.additionalSkills| > 0
    ensures d.position in {"Developer", "Designer"} ==> !Blank(d.relevantExperience)
    ensures d.position == "Designer" ==> !Blank(d.portfolioURL) && Url.Matches(d.portfolioURL)
    ensures d.position == "Manager" ==> !Blank(d.managementExperience)
  {
    assert FullName !in Errors(d) && Email !in Errors(d) && PhoneNumber !in Errors(d);
    assert Position !in Errors(d) && InterviewTime !in Errors(d) && AdditionalSkills !in Errors(d);
    assert RelevantExperience !in Errors(d) && PortfolioURL !in Errors(d);
    assert ManagementExperience !in Errors(d);
  }
}
