/** Form validation of the shared page script: the e-mail and password
    checks, `validateField`, `validateForm`, the marks they leave on a field
    and its parent, and the password-visibility toggle. */
module Forms {
  import opened JsString
  import opened Wrappers
  import opened Dom

  // ---------------------------------------------------------------------
  // E-mail addresses

  /** The character class `[^\s@]` of the address pattern. */
  predicate AddressChar(c: char) {
    !IsSpace(c) && c != '@'
  }

  /** `s` is an instance of `^[^\s@]+@[^\s@]+\.[^\s@]+$` with the `@` at
      index `at` and the dot that the pattern's `\.` matches at index `dot`. */
  ghost predicate PatternSplit(s: string, at: int, dot: int) {
    && 1 <= at && at + 2 <= dot && dot + 2 <= |s|
    && s[at] == '@' && s[dot] == '.'
    && forall k :: 0 <= k < |s| && k != at ==> AddressChar(s[k])
  }

  /** The regular expression of `isValidEmail` accepts `s`. */
  ghost predicate MatchesAddressPattern(s: string) {
    exists at, dot :: PatternSplit(s, at, dot)
  }

  /** Index of the first occurrence of `c` in `s`. */
  function IndexOf(s: string, c: char): (r: Option<nat>)
    ensures r.Some? ==> r.value < |s| && s[r.value] == c && forall k :: 0 <= k < r.value ==> s[k] != c
    ensures r.None? ==> forall k :: 0 <= k < |s| ==> s[k] != c
  {
    if s == [] then None
    else if s[0] == c then Some(0)
    else match IndexOf(s[1..], c)
      case None => None
      case Some(i) => Some(i + 1)
  }

  /** `d` has a dot that is neither its first nor its last character. */
  predicate HasInnerDot(d: string) {
    exists j :: 0 < j < |d| - 1 && d[j] == '.'
  }

  /** `isValidEmail`, read off its pattern: no white space, exactly one `@`
      with something before it, and after it a dot that is neither first nor
      last. */
  predicate IsValidEmail(s: string)
    ensures IsValidEmail(s) ==> |s| >= 5
    ensures IsValidEmail(s) ==> forall k :: 0 <= k < |s| ==> !IsSpace(s[k])
    ensures IsValidEmail(s) ==> forall j, k :: 0 <= j < k < |s| && s[j] == '@' ==> s[k] != '@'
  {
    match IndexOf(s, '@')
    case None => false
    case Some(at) =>
      && at > 0
      && (forall k :: 0 <= k < |s| && k != at ==> AddressChar(s[k]))
      && HasInnerDot(s[at + 1..])
  }

  /** The reading above is exactly the language of the regular expression. */
  lemma IsValidEmailMatchesPattern(s: string)
    ensures IsValidEmail(s) <==> MatchesAddressPattern(s)
  {
    if IsValidEmail(s) {
      var at := IndexOf(s, '@').value;
      var d := s[at + 1..];
      var j :| 0 < j < |d| - 1 && d[j] == '.';
      assert PatternSplit(s, at, at + 1 + j);
    }
    if MatchesAddressPattern(s) {
      var at, dot :| PatternSplit(s, at, dot);
      assert s[at] == '@';
      assert IndexOf(s, '@') == Some(at);
      var d := s[at + 1..];
      assert d[dot - at - 1] == '.';
      assert HasInnerDot(d);
    }
  }

  /** Two addresses as the pattern sees them. */
  lemma EmailExamples()
    ensures IsValidEmail("a@b.co")
    ensures !IsValidEmail("a@b.")
    ensures !IsValidEmail("a b@c.de")
  {
    assert PatternSplit("a@b.co", 1, 3);
    IsValidEmailMatchesPattern("a@b.co");
    assert "a@b."[1..][2] == '.';
    assert "a b@c.de"[1] == ' ';
  }

  // ---------------------------------------------------------------------
  // Passwords

  /** Minimum password length, in UTF-16 code units. */
  const MinPasswordLength := 6

  /** `isValidPassword`, and the same bound `validateForm` applies inline:
      at least six UTF-16 code units. Six code points
      always suffice; three never do, since no code point takes more than
      two code units. */
  predicate IsValidPassword(p: string)
    ensures |p| >= MinPasswordLength ==> IsValidPassword(p)
    ensures |p| < MinPasswordLength / 2 ==> !IsValidPassword(p)
  {
    Utf16Length(p) >= MinPasswordLength
  }

  // ---------------------------------------------------------------------
  // The marks a check leaves on a field

  const InvalidBorder := "border-red-500"
  const NeutralBorder := "border-gray-300"
  const ValidBorder := "border-green-500"

  /** The classes of a field after `markFieldInvalid`. */
  function MarkedInvalid(c: set<string>): (r: set<string>)
    ensures InvalidBorder in r && NeutralBorder !in r && ValidBorder !in r
    ensures forall x :: x != InvalidBorder && x != NeutralBorder && x != ValidBorder ==> (x in r <==> x in c)
  {
    c + {InvalidBorder} - {NeutralBorder, ValidBorder}
  }

  /** The classes of a field after `markFieldValid`. */
  function MarkedValid(c: set<string>): (r: set<string>)
    ensures ValidBorder in r && InvalidBorder !in r && NeutralBorder !in r
    ensures forall x :: x != InvalidBorder && x != NeutralBorder && x != ValidBorder ==> (x in r <==> x in c)
  {
    c - {InvalidBorder, NeutralBorder} + {ValidBorder}
  }

  /** A later invalid mark wins over an earlier mark of either kind. */
  lemma InvalidMarkOverrides(c: set<string>)
    ensures MarkedInvalid(MarkedValid(c)) == MarkedInvalid(c)
    ensures MarkedInvalid(MarkedInvalid(c)) == MarkedInvalid(c)
  {
  }

  /** The `.field-error` messages under a field's parent, in document order,
      after `markFieldInvalid`: the first one is removed, the new one
      appended. */
  function ErrorsAfterInvalid(errors: seq<string>, message: string): (r: seq<string>)
    ensures |r| == if errors == [] then 1 else |errors|
    ensures r[|r| - 1] == message
    ensures |errors| <= 1 ==> r == [message]
  {
    (if errors == [] then [] else errors[1..]) + [message]
  }

  /** The same after `markFieldValid`: the first one is removed. */
  function ErrorsAfterValid(errors: seq<string>): (r: seq<string>)
    ensures |r| == if errors == [] then 0 else |errors| - 1
    ensures |errors| <= 1 ==> r == []
  {
    if errors == [] then [] else errors[1..]
  }

  /** A field's parent node, seen through its `.field-error` paragraphs.
      Several fields may share one parent. */
  class ErrorHost {
    var errors: seq<string>

    constructor (errors: seq<string>)
      ensures this.errors == errors
    {
      this.errors := errors;
    }
  }

  datatype InputKind = EmailInput | PasswordInput | OtherInput

  /** A form control: its `type`, whether it has `required`, its value at the
      time of the check, its class list and its parent. */
  class Field {
    const kind: InputKind
    const required: bool
    const value: string
    var classes: set<string>
    const parent: ErrorHost

    constructor (kind: InputKind, required: bool, value: string, classes: set<string>, parent: ErrorHost)
      ensures this.kind == kind && this.required == required && this.value == value
      ensures this.classes == classes && this.parent == parent
    {
      this.kind := kind;
      this.required := required;
      this.value := value;
      this.classes := classes;
      this.parent := parent;
    }
  }

  const RequiredMessage := "This field is required"
  const EmailMessage := "Please enter a valid email address"
  const PasswordMessage := "Password must be at least 6 characters"

  /** `markFieldInvalid(field, message)`. */
  method MarkFieldInvalid(f: Field, message: string)
    modifies f, f.parent
    ensures f.classes == MarkedInvalid(old(f.classes))
    ensures f.parent.errors == ErrorsAfterInvalid(old(f.parent.errors), message)
  {
    f.classes := MarkedInvalid(f.classes);
    f.parent.errors := ErrorsAfterInvalid(f.parent.errors, message);
  }

  /** `markFieldValid(field)`. */
  method MarkFieldValid(f: Field)
    modifies f, f.parent
    ensures f.classes == MarkedValid(old(f.classes))
    ensures f.parent.errors == ErrorsAfterValid(old(f.parent.errors))
  {
    f.classes := MarkedValid(f.classes);
    f.parent.errors := ErrorsAfterValid(f.parent.errors);
  }

  // ---------------------------------------------------------------------
  // validateField and validateForm

  /** A required field whose trimmed value is empty, that is, whose value is
      white space only (`TrimBlankIffAllSpace`). */
  predicate RequiredFails(kind: InputKind, required: bool, value: string) {
    required && AllSpace(value)
  }

  /** An e-mail field with a non-empty value that is not an address. */
  predicate EmailFails(kind: InputKind, value: string) {
    kind == EmailInput && value != "" && !IsValidEmail(value)
  }

  /** A password field with a non-empty value that is too short. */
  predicate PasswordFails(kind: InputKind, value: string) {
    kind == PasswordInput && value != "" && !IsValidPassword(value)
  }

  /** What `validateForm` makes of one field. */
  datatype Verdict = Unmarked | Passed | Failed

  function VerdictOf(kind: InputKind, required: bool, value: string): (v: Verdict)
    ensures v == Failed <==> RequiredFails(kind, required, value) || EmailFails(kind, value) || PasswordFails(kind, value)
    ensures v == Unmarked <==> !required && !EmailFails(kind, value) && !PasswordFails(kind, value)
  {
    if RequiredFails(kind, required, value) || EmailFails(kind, value) || PasswordFails(kind, value) then Failed
    else if required then Passed
    else Unmarked
  }

  /** The classes `validateForm` leaves on a field with verdict `v`. */
  function ClassesAfter(c: set<string>, v: Verdict): set<string> {
    match v
    case Unmarked => c
    case Passed => MarkedValid(c)
    case Failed => MarkedInvalid(c)
  }

  /** The example of a form with an empty required field and a correct,
      optional e-mail field: only the first is marked, and the form fails. */
  lemma RequiredEmptyWithValidEmail()
    ensures VerdictOf(OtherInput, true, "") == Failed
    ensures VerdictOf(EmailInput, false, "a@b.co") == Unmarked
  {
    EmailExamples();
  }

  /** `validateField(field)`: a required field whose trimmed value is empty
      is marked invalid and fails; any other field is marked valid. */
  method ValidateField(f: Field) returns (ok: bool)
    modifies f, f.parent
    ensures ok <==> !RequiredFails(f.kind, f.required, f.value)
    ensures f.classes == if ok then MarkedValid(old(f.classes)) else MarkedInvalid(old(f.classes))
    ensures f.parent.errors == if ok then ErrorsAfterValid(old(f.parent.errors))
                               else ErrorsAfterInvalid(old(f.parent.errors), RequiredMessage)
  {
    var value := Trim(f.value);
    TrimBlankIffAllSpace(f.value);
    if f.required && value == "" {
      MarkFieldInvalid(f, RequiredMessage);
      return false;
    }
    MarkFieldValid(f);
    return true;
  }

  /** The fields are distinct elements, as `querySelectorAll` yields them. */
  ghost predicate Distinct(fs: seq<Field>) {
    forall i, j :: 0 <= i < j < |fs| ==> fs[i] != fs[j]
  }

  /** Every parent holds at most one error message. */
  ghost predicate Tidy(fs: seq<Field>)
    reads set f | f in fs :: f.parent
  {
    forall i :: 0 <= i < |fs| ==> |fs[i].parent.errors| <= 1
  }

  /** The classes the first loop of `validateForm` leaves on `f`. */
  function AfterRequiredCheck(f: Field, c: set<string>): set<string> {
    if !f.required then c
    else if RequiredFails(f.kind, true, f.value) then MarkedInvalid(c)
    else MarkedValid(c)
  }

  /** The first loop of `validateForm`: `validateField` on every required
      field, in document order, with no early exit. */
  method CheckRequired(fs: seq<Field>) returns (ok: bool)
    requires Distinct(fs)
    modifies set f | f in fs, set f | f in fs :: f.parent
    ensures old(Tidy(fs)) ==> Tidy(fs)
    ensures ok <==> forall i :: 0 <= i < |fs| ==> !RequiredFails(fs[i].kind, fs[i].required, fs[i].value)
    ensures forall i :: 0 <= i < |fs| ==> fs[i].classes == AfterRequiredCheck(fs[i], old(fs[i].classes))
  {
    ok := true;
    var n := 0;
    while n < |fs|
      invariant 0 <= n <= |fs|
      invariant old(Tidy(fs)) ==> Tidy(fs)
      invariant ok <==> forall i :: 0 <= i < n ==> !RequiredFails(fs[i].kind, fs[i].required, fs[i].value)
      invariant forall i :: 0 <= i < |fs| ==>
        fs[i].classes == if i < n then AfterRequiredCheck(fs[i], old(fs[i].classes)) else old(fs[i].classes)
    {
      var f := fs[n];
      if f.required {
        var passed := ValidateField(f);
        ok := ok && passed;
      }
      n := n + 1;
    }
  }

  /** The second loop of `validateForm`: every e-mail field whose value is
      non-empty (untrimmed) and not an address is marked invalid. */
  method CheckEmails(fs: seq<Field>) returns (ok: bool)
    requires Distinct(fs)
    modifies set f | f in fs, set f | f in fs :: f.parent
    ensures old(Tidy(fs)) ==> Tidy(fs)
    ensures ok <==> forall i :: 0 <= i < |fs| ==> !EmailFails(fs[i].kind, fs[i].value)
    ensures forall i :: 0 <= i < |fs| ==>
      fs[i].classes == if EmailFails(fs[i].kind, fs[i].value) then MarkedInvalid(old(fs[i].classes)) else old(fs[i].classes)
  {
    ok := true;
    var n := 0;
    while n < |fs|
      invariant 0 <= n <= |fs|
      invariant old(Tidy(fs)) ==> Tidy(fs)
      invariant ok <==> forall i :: 0 <= i < n ==> !EmailFails(fs[i].kind, fs[i].value)
      invariant forall i :: 0 <= i < |fs| ==>
        fs[i].classes == if i < n && EmailFails(fs[i].kind, fs[i].value) then MarkedInvalid(old(fs[i].classes)) else old(fs[i].classes)
    {
      var f := fs[n];
      if f.kind == EmailInput && f.value != "" && !IsValidEmail(f.value) {
        MarkFieldInvalid(f, EmailMessage);
        ok := false;
      }
      n := n + 1;
    }
  }

  /** The third loop of `validateForm`: every password field whose value is
      non-empty and shorter than six code units is marked invalid. */
  method CheckPasswords(fs: seq<Field>) returns (ok: bool)
    requires Distinct(fs)
    modifies set f | f in fs, set f | f in fs :: f.parent
    ensures old(Tidy(fs)) ==> Tidy(fs)
    ensures ok <==> forall i :: 0 <= i < |fs| ==> !PasswordFails(fs[i].kind, fs[i].value)
    ensures forall i :: 0 <= i < |fs| ==>
      fs[i].classes == if PasswordFails(fs[i].kind, fs[i].value) then MarkedInvalid(old(fs[i].classes)) else old(fs[i].classes)
  {
    ok := true;
    var n := 0;
    while n < |fs|
      invariant 0 <= n <= |fs|
      invariant old(Tidy(fs)) ==> Tidy(fs)
      invariant ok <==> forall i :: 0 <= i < n ==> !PasswordFails(fs[i].kind, fs[i].value)
      invariant forall i :: 0 <= i < |fs| ==>
        fs[i].classes == if i < n && PasswordFails(fs[i].kind, fs[i].value) then MarkedInvalid(old(fs[i].classes)) else old(fs[i].classes)
    {
      var f := fs[n];
      if f.kind == PasswordInput && f.value != "" && Utf16Length(f.value) < MinPasswordLength {
        MarkFieldInvalid(f, PasswordMessage);
        ok := false;
      }
      n := n + 1;
    }
  }

  /** `validateForm(form)` over the form's fields in document order: all
      three loops run to the end, every field is checked, and the result is
      the AND of every check. A field ends marked by its verdict. */
  method ValidateForm(fs: seq<Field>) returns (ok: bool)
    requires Distinct(fs)
    modifies set f | f in fs, set f | f in fs :: f.parent
    ensures old(Tidy(fs)) ==> Tidy(fs)
    ensures ok <==> forall i :: 0 <= i < |fs| ==> VerdictOf(fs[i].kind, fs[i].required, fs[i].value) != Failed
    ensures forall i :: 0 <= i < |fs| ==>
      fs[i].classes == ClassesAfter(old(fs[i].classes), VerdictOf(fs[i].kind, fs[i].required, fs[i].value))
  {
    var requiredOk := CheckRequired(fs);
    var emailsOk := CheckEmails(fs);
    var passwordsOk := CheckPasswords(fs);
    ok := requiredOk && emailsOk && passwordsOk;
    forall i | 0 <= i < |fs|
      ensures fs[i].classes == ClassesAfter(old(fs[i].classes), VerdictOf(fs[i].kind, fs[i].required, fs[i].value))
    {
      InvalidMarkOverrides(old(fs[i].classes));
      InvalidMarkOverrides(MarkedInvalid(old(fs[i].classes)));
    }
  }

  // ---------------------------------------------------------------------
  // Password visibility

  /** The `type` a toggle gives an input that had type `t`. */
  function Toggled(t: string): (r: string)
    ensures r == "text" <==> t == "password"
    ensures r == "password" <==> t != "password"
  {
    if t == "password" then "text" else "password"
  }

  /** The eye icon's classes once the input shows type `shown`: a crossed-out
      eye while the password is in clear text, an open eye otherwise. */
  function EyeFor(c: set<string>, shown: string): (r: set<string>)
    ensures shown == "text" ==> "fa-eye-slash" in r && "fa-eye" !in r
    ensures shown != "text" ==> "fa-eye" in r && "fa-eye-slash" !in r
    ensures forall x :: x != "fa-eye" && x != "fa-eye-slash" ==> (x in r <==> x in c)
  {
    if shown == "text" then c - {"fa-eye"} + {"fa-eye-slash"}
    else c - {"fa-eye-slash"} + {"fa-eye"}
  }

  /** Two toggles restore a password or text input and its icon, when the
      icon agreed with the type to begin with. From any other type the first
      toggle gives "password" and the second "text". */
  lemma {:induction false} ToggleTwiceRestores(t: string, icon: set<string>)
    requires t == "password" || t == "text"
    requires icon == EyeFor(icon, t)
    ensures Toggled(Toggled(t)) == t
    ensures EyeFor(EyeFor(icon, Toggled(t)), Toggled(Toggled(t))) == icon
  {
    var once := EyeFor(icon, Toggled(t));
    var twice := EyeFor(once, t);
    forall x ensures x in twice <==> x in icon {
      if x == "fa-eye" || x == "fa-eye-slash" {
        assert x in icon <==> x in EyeFor(icon, t);
      }
    }
  }

  /** `togglePassword(inputId)` of the shared script: an unknown id does
      nothing; a missing icon leaves only the type to change. */
  method TogglePassword(input: Input?)
    modifies input, if input != null && input.icon != null then {input.icon} else {}
    ensures input != null ==> input.inputType == Toggled(old(input.inputType))
    ensures input != null && input.icon != null ==>
      input.icon.classes == EyeFor(old(input.icon.classes), Toggled(old(input.inputType)))
  {
    if input != null {
      var t := Toggled(input.inputType);
      input.inputType := t;
      if input.icon != null {
        input.icon.classes := EyeFor(input.icon.classes, t);
      }
    }
  }
}
